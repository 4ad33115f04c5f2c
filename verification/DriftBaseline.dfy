/**
  The report of the code drift guard and its comparison with a recorded baseline. What is measured in
  a file's text (logical lines, markers, its role) is given with the file.
*/
module DriftBaseline {
  import opened Wrappers
  import opened Sequences
  import opened OrderedDicts
  import opened StringOrder
  import opened CodeDrift

  datatype Role = Source | Test | Script | Other

  datatype PyFile = PyFile(path: string, role: Role, loc: nat, lines: nat, markers: nat)

  const SCHEMA_VERSION := 1

  const DEFAULTS := Thresholds(600, 800, 500, 90, 8, 25, 10, 1000, 600, 800, 200)

  datatype MetricName =
    | PythonFiles | TotalPythonLoc | SourcePythonLoc | TestPythonLoc | ScriptPythonLoc | OtherPythonLoc
    | DuplicateFunctionGroupCount | DuplicateFunctionInstances | LargeFunctionCount | DriftMarkerMatches

  datatype Report = Report(
    metrics: map<MetricName, int>, oversized: Dict<string, int>, large: Dict<string, int>, groups: seq<Group>)

  /** A baseline as read back from its file: entries can lack their number of lines. */
  datatype Baseline = Baseline(
    schema: Option<int>, metrics: map<MetricName, int>,
    oversized: Dict<string, Option<int>>, large: Dict<string, Option<int>>)

  // ----- build_report -----

  function LineLimit(role: Role, t: Thresholds): int {
    match role case Test => t.testFileLines case Script => t.scriptFileLines case _ => t.sourceFileLines
  }

  function SumLoc(files: seq<PyFile>): nat {
    if files == [] then 0 else SumLoc(files[..|files| - 1]) + files[|files| - 1].loc
  }

  function OfRole(role: Role): PyFile -> bool { (f: PyFile) => f.role == role }

  function RoleLoc(files: seq<PyFile>, role: Role): nat {
    SumLoc(Filter(OfRole(role), files))
  }

  function SumValues(d: Dict<string, nat>): nat {
    if d == [] then 0 else d[0].value + SumValues(d[1..])
  }

  /** The values of those items that no later item replaces. */
  function LastSum(items: seq<Item<string, nat>>): nat {
    if items == [] then 0
    else (if LastValue(items[1..], items[0].key).Some? then 0 else items[0].value) + LastSum(items[1..])
  }

  function Metric(metrics: map<MetricName, int>, name: MetricName): int {
    if name in metrics then metrics[name] else 0
  }

  function IsLarge(lines: int): FunctionRecord -> bool { (r: FunctionRecord) => r.lines > lines }

  lemma RoleLocSnoc(files: seq<PyFile>, f: PyFile, role: Role)
    ensures RoleLoc(files + [f], role) == RoleLoc(files, role) + if f.role == role then f.loc else 0
  {
    FilterAppend(OfRole(role), files, [f]);
    assert [f][1..] == [];
    var kept := Filter(OfRole(role), files);
    if f.role == role {
      assert Filter(OfRole(role), [f]) == [f];
      assert (kept + [f])[..|kept|] == kept;
    } else {
      assert Filter(OfRole(role), [f]) == [] && kept + [] == kept;
    }
  }

  // ----- registers: sorted dictionaries of what was measured -----

  function ItemKey<V(!new)>(): Item<string, V> -> string { (item: Item<string, V>) => item.key }

  /** In the order of the keys, and each key has the value given last. */
  ghost predicate IsRegister<V(!new)>(d: Dict<string, V>, items: seq<Item<string, V>>) {
    && UniqueKeys(d) && Ordered(ItemKey(), d)
    && forall key :: Get(d, key) == LastValue(items, key)
  }

  lemma {:induction false} GetIsFirst<V(!new)>(d: Dict<string, V>, key: string)
    ensures var found := Filter(Keyed(ItemKey(), key), d);
            Get(d, key) == if found == [] then None else Some(found[0].value)
  {
    if d != [] {
      GetIsFirst(d[1..], key);
    }
  }

  /** `dict(sorted(d.items()))` */
  function SortedDict<V(!new)>(d: Dict<string, V>): Dict<string, V> {
    SortBy(ItemKey(), d)
  }

  lemma SortedDictIsRegister<V(!new)>(items: seq<Item<string, V>>)
    ensures IsRegister(SortedDict(DictOf(items)), items)
  {
    var d := DictOf(items);
    DictOfKeysUnique(items);
    assert DistinctKeys(ItemKey(), d);
    SortByDistinct(ItemKey(), d);
    SortByIs(ItemKey(), d);
    forall key ensures Get(SortedDict(d), key) == LastValue(items, key) {
      GetIsFirst(d, key);
      GetIsFirst(SortedDict(d), key);
      DictOfGet(items, key);
    }
  }

  function ItemsOf<T(!new), V>(key: T -> string, value: T -> V, s: seq<T>): (items: seq<Item<string, V>>)
    ensures |items| == |s| && forall i :: 0 <= i < |s| ==> items[i] == Item(key(s[i]), value(s[i]))
  {
    seq(|s|, i requires 0 <= i < |s| => Item(key(s[i]), value(s[i])))
  }

  lemma {:induction false} LastValueOfItems<T(!new), V>(key: T -> string, value: T -> V, s: seq<T>, k: string)
    ensures var found := Filter(Keyed(key, k), s);
            LastValue(ItemsOf(key, value, s), k) == if found == [] then None else Some(value(found[|found| - 1]))
  {
    if s != [] {
      var n := |s| - 1;
      LastValueOfItems(key, value, s[..n], k);
      assert s == s[..n] + [s[n]] && [s[n]][1..] == [];
      FilterAppend(Keyed(key, k), s[..n], [s[n]]);
      assert Filter(Keyed(key, k), [s[n]]) == if key(s[n]) == k then [s[n]] else [];
      assert ItemsOf(key, value, s)[..n] == ItemsOf(key, value, s[..n]);
    }
  }

  lemma {:induction false} PutInOrder<V(!new)>(d: Dict<string, V>, key: string, value: V)
    requires Ordered(ItemKey(), d) && forall i :: 0 <= i < |d| ==> Leq(d[i].key, key)
    ensures Ordered(ItemKey(), Put(d, key, value))
    ensures forall i :: 0 <= i < |Put(d, key, value)| ==> Leq(Put(d, key, value)[i].key, key)
    ensures forall i :: 0 <= i < |Put(d, key, value)| ==>
              Put(d, key, value)[i].key == key || exists j :: 0 <= j < |d| && d[j].key == Put(d, key, value)[i].key
  {
    hide Leq;
    LeqTotal(key, key);
    if d != [] && d[0].key != key {
      PutInOrder(d[1..], key, value);
      var rest := Put(d[1..], key, value);
      forall i | 0 <= i < |rest|
        ensures Leq(d[0].key, rest[i].key)
        ensures rest[i].key == key || exists j :: 0 <= j < |d| && d[j].key == rest[i].key
      {
        if rest[i].key != key {
          var j :| 0 <= j < |d[1..]| && d[1..][j].key == rest[i].key;
          assert d[j + 1].key == rest[i].key;
        }
      }
    }
  }

  lemma {:induction false} DictOfInOrder<V(!new)>(items: seq<Item<string, V>>)
    requires Ordered(ItemKey(), items)
    ensures Ordered(ItemKey(), DictOf(items))
    ensures items != [] ==> forall i :: 0 <= i < |DictOf(items)| ==> Leq(DictOf(items)[i].key, items[|items| - 1].key)
  {
    hide Leq, Put;
    if items != [] {
      var n := |items| - 1;
      DictOfInOrder(items[..n]);
      if n > 0 {
        forall i | 0 <= i < |DictOf(items[..n])| ensures Leq(DictOf(items[..n])[i].key, items[n].key) {
          LeqTransitive(DictOf(items[..n])[i].key, items[n - 1].key, items[n].key);
        }
      }
      PutInOrder(DictOf(items[..n]), items[n].key, items[n].value);
    }
  }

  function LinesOf(): FunctionRecord -> int { (r: FunctionRecord) => r.lines }

  /** The large functions by key, inserted in the order of their keys. */
  function LargeDict(large: seq<FunctionRecord>): Dict<string, int> {
    DictOf(ItemsOf(KeyOf(), LinesOf(), SortBy(KeyOf(), large)))
  }

  lemma LargeDictIsRegister(large: seq<FunctionRecord>)
    ensures IsRegister(LargeDict(large), ItemsOf(KeyOf(), LinesOf(), large))
  {
    hide DictOf, SortBy, Leq;
    var sorted := SortBy(KeyOf(), large);
    var items := ItemsOf(KeyOf(), LinesOf(), sorted);
    SortByIs(KeyOf(), large);
    DictOfKeysUnique(items);
    DictOfInOrder(items);
    forall key ensures Get(LargeDict(large), key) == LastValue(ItemsOf(KeyOf(), LinesOf(), large), key) {
      DictOfGet(items, key);
      LastValueOfItems(KeyOf(), LinesOf(), sorted, key);
      LastValueOfItems(KeyOf(), LinesOf(), large, key);
    }
  }

  // ----- what is measured in the files -----

  function PathOf(): PyFile -> string { (f: PyFile) => f.path }

  function PhysicalLines(): PyFile -> int { (f: PyFile) => f.lines }

  function MarkersOf(): PyFile -> nat { (f: PyFile) => f.markers }

  function IsOversized(t: Thresholds): PyFile -> bool { (f: PyFile) => f.lines > LineLimit(f.role, t) }

  /** The limits of the roles, by the tool's own thresholds. */
  lemma OversizedByDefault(f: PyFile)
    ensures IsOversized(DEFAULTS)(f) <==>
              match f.role
              case Test => f.lines > 800
              case Script => f.lines > 500
              case Source => f.lines > 600
              case Other => f.lines > 600
  {
  }

  /** Functions are large above 90 lines and can count as duplicates from 8 lines on, by the same thresholds. */
  lemma LargeByDefault(r: FunctionRecord)
    ensures IsLarge(DEFAULTS.functionLines)(r) <==> r.lines > 90
    ensures r in Eligible([r], DEFAULTS.duplicateFunctionLines) <==> r.lines >= 8
  {
    EligibleMembers([r], DEFAULTS.duplicateFunctionLines);
  }

  /** A metric that a baseline does not have counts as zero. */
  lemma MissingMetricIsZero(now: map<MetricName, int>, was: map<MetricName, int>, t: Thresholds)
    requires MetricsWithin(now, was, t) && TotalPythonLoc !in was && TotalPythonLoc in now
    ensures now[TotalPythonLoc] <= t.totalLocGrowth
  {
  }

  function HasMarkers(): PyFile -> bool { (f: PyFile) => f.markers > 0 }

  /** Path and value of the files that qualify. */
  function Measured<V>(files: seq<PyFile>, qualifies: PyFile -> bool, value: PyFile -> V): seq<Item<string, V>> {
    ItemsOf(PathOf(), value, Filter(qualifies, files))
  }

  lemma MeasuredSnoc<V>(files: seq<PyFile>, f: PyFile, qualifies: PyFile -> bool, value: PyFile -> V)
    ensures Measured(files + [f], qualifies, value) ==
            Measured(files, qualifies, value) + if qualifies(f) then [Item(f.path, value(f))] else []
  {
    FilterAppend(qualifies, files, [f]);
    assert [f][1..] == [];
    assert Filter(qualifies, [f]) == if qualifies(f) then [f] else [];
  }

  lemma MeasuredDictSnoc<V>(files: seq<PyFile>, f: PyFile, qualifies: PyFile -> bool, value: PyFile -> V)
    ensures var d := DictOf(Measured(files, qualifies, value));
            DictOf(Measured(files + [f], qualifies, value)) == if qualifies(f) then Put(d, f.path, value(f)) else d
  {
    hide Put, Measured;
    MeasuredSnoc(files, f, qualifies, value);
    var before := Measured(files, qualifies, value);
    if qualifies(f) {
      assert (before + [Item(f.path, value(f))])[..|before|] == before;
    } else {
      assert before + [] == before;
    }
  }

  // ----- the number of markers -----

  lemma {:induction false} SumValuesPut(d: Dict<string, nat>, key: string, value: nat)
    ensures SumValues(Put(d, key, value)) == SumValues(d) - (if Get(d, key).None? then 0 else Get(d, key).value) + value
  {
    if d != [] && d[0].key != key {
      SumValuesPut(d[1..], key, value);
    }
  }

  lemma {:induction false} LastValueCons(items: seq<Item<string, nat>>, key: string)
    requires items != []
    ensures LastValue(items, key) ==
            if LastValue(items[1..], key).Some? then LastValue(items[1..], key)
            else if items[0].key == key then Some(items[0].value) else None
    decreases |items|
  {
    var n := |items| - 1;
    if n > 0 && items[n].key != key {
      LastValueCons(items[..n], key);
      assert items[..n][1..] == items[1..][..n - 1];
    }
  }

  lemma {:induction false} LastSumSnoc(items: seq<Item<string, nat>>, item: Item<string, nat>)
    ensures LastSum(items + [item]) ==
            LastSum(items) + item.value -
            if LastValue(items, item.key).None? then 0 else LastValue(items, item.key).value
  {
    hide LastValue;
    var more := items + [item];
    if items == [] {
      LastValueIs(more[1..], item.key);
      LastValueIs(items, item.key);
    } else {
      var rest := items[1..];
      assert more[1..] == rest + [item] && more[0] == items[0];
      LastSumSnoc(rest, item);
      LastValueCons(items, item.key);
      LastValueOfSnoc(rest, item, items[0].key);
    }
  }

  lemma LastValueOfSnoc(items: seq<Item<string, nat>>, item: Item<string, nat>, key: string)
    ensures LastValue(items + [item], key) == if item.key == key then Some(item.value) else LastValue(items, key)
  {
    assert (items + [item])[..|items|] == items;
  }

  /** A path that was put twice counts with what was put last. */
  lemma {:induction false} SumOfDict(items: seq<Item<string, nat>>)
    ensures SumValues(DictOf(items)) == LastSum(items)
  {
    hide Put, LastValue, LastSum, SumValues;
    if items == [] {
      assert SumValues(DictOf(items)) == LastSum(items) by { LastSumEmpty(items); }
    } else {
      var n := |items| - 1;
      SumOfDict(items[..n]);
      SumValuesPut(DictOf(items[..n]), items[n].key, items[n].value);
      DictOfGet(items[..n], items[n].key);
      LastSumSnoc(items[..n], items[n]);
      assert items == items[..n] + [items[n]];
    }
  }

  lemma LastSumEmpty(items: seq<Item<string, nat>>)
    requires items == []
    ensures SumValues(DictOf(items)) == LastSum(items)
  {
  }

  function SumMarkers(files: seq<PyFile>): nat {
    if files == [] then 0 else SumMarkers(files[..|files| - 1]) + files[|files| - 1].markers
  }

  ghost predicate DistinctPaths(files: seq<PyFile>) {
    forall i, j :: 0 <= i < j < |files| ==> files[i].path != files[j].path
  }

  /** If no file is listed twice, every marker counts. */
  lemma {:induction false} EveryMarkerCounts(files: seq<PyFile>)
    requires DistinctPaths(files)
    ensures LastSum(Measured(files, HasMarkers(), MarkersOf())) == SumMarkers(files)
  {
    hide Measured, LastSum, LastValue;
    if files == [] {
      NothingMeasured(files);
    } else {
      var n := |files| - 1;
      var items, f := Measured(files[..n], HasMarkers(), MarkersOf()), files[n];
      EveryMarkerCounts(files[..n]);
      assert files == files[..n] + [f];
      MeasuredSnoc(files[..n], f, HasMarkers(), MarkersOf());
      PathNotMeasured(files[..n], HasMarkers(), MarkersOf(), f.path);
      LastValueIs(items, f.path);
      LastSumSnoc(items, Item(f.path, f.markers));
      assert items + [] == items;
    }
  }

  lemma NothingMeasured(files: seq<PyFile>)
    requires files == []
    ensures LastSum(Measured(files, HasMarkers(), MarkersOf())) == 0
  {
  }

  lemma PathNotMeasured<V>(files: seq<PyFile>, qualifies: PyFile -> bool, value: PyFile -> V, path: string)
    requires forall i :: 0 <= i < |files| ==> files[i].path != path
    ensures forall i :: 0 <= i < |Measured(files, qualifies, value)| ==>
              Measured(files, qualifies, value)[i].key != path
  {
    FilterMembers(qualifies, files);
    var found := Filter(qualifies, files);
    forall i | 0 <= i < |found| ensures found[i].path != path {
      assert found[i] in found;
    }
  }

  method MeasureFiles(files: seq<PyFile>, t: Thresholds)
    returns (locByRole: map<Role, nat>, oversized: Dict<string, int>, markers: Dict<string, nat>)
    ensures locByRole.Keys == {Source, Test, Script, Other}
    ensures forall role :: role in locByRole ==> locByRole[role] == RoleLoc(files, role)
    ensures locByRole[Source] + locByRole[Test] + locByRole[Script] + locByRole[Other] == SumLoc(files)
    ensures oversized == DictOf(Measured(files, IsOversized(t), PhysicalLines()))
    ensures markers == DictOf(Measured(files, HasMarkers(), MarkersOf()))
  {
    hide RoleLoc, LineLimit, Put, DictOf, Measured;
    locByRole := map[Source := 0, Test := 0, Script := 0, Other := 0];
    oversized, markers := [], [];
    MeasuresStart(files[..0], t);
    for i := 0 to |files|
      invariant locByRole.Keys == {Source, Test, Script, Other}
      invariant forall role :: role in locByRole ==> locByRole[role] == RoleLoc(files[..i], role)
      invariant locByRole[Source] + locByRole[Test] + locByRole[Script] + locByRole[Other] == SumLoc(files[..i])
      invariant oversized == DictOf(Measured(files[..i], IsOversized(t), PhysicalLines()))
      invariant markers == DictOf(Measured(files[..i], HasMarkers(), MarkersOf()))
    {
      var f := files[i];
      assert files[..i + 1] == files[..i] + [f];
      assert files[..i + 1][..i] == files[..i];
      forall role
        ensures RoleLoc(files[..i + 1], role) == RoleLoc(files[..i], role) + if f.role == role then f.loc else 0
      {
        RoleLocSnoc(files[..i], f, role);
      }
      MeasuredDictSnoc(files[..i], f, IsOversized(t), PhysicalLines());
      MeasuredDictSnoc(files[..i], f, HasMarkers(), MarkersOf());
      locByRole := locByRole[f.role := locByRole[f.role] + f.loc];
      if f.lines > LineLimit(f.role, t) {
        oversized := Put(oversized, f.path, f.lines);
      }
      if f.markers > 0 {
        markers := Put(markers, f.path, f.markers);
      }
    }
    assert files[..|files|] == files;
  }

  lemma MeasuresStart(files: seq<PyFile>, t: Thresholds)
    requires files == []
    ensures forall role :: RoleLoc(files, role) == 0
    ensures DictOf(Measured(files, IsOversized(t), PhysicalLines())) == []
    ensures DictOf(Measured(files, HasMarkers(), MarkersOf())) == []
  {
    assert Measured(files, IsOversized(t), PhysicalLines()) == [];
    assert Measured(files, HasMarkers(), MarkersOf()) == [];
  }

  /**
    Every line of code is counted once, under its role; duplicates are the records beyond one for each
    digest; of a path or key that comes up repeatedly, the last one is registered and counted.
  */
  method BuildReport(files: seq<PyFile>, records: seq<FunctionRecord>, t: Thresholds) returns (report: Report)
    ensures var m := report.metrics;
            && Metric(m, PythonFiles) == |files|
            && Metric(m, TotalPythonLoc) == SumLoc(files)
            && Metric(m, SourcePythonLoc) == RoleLoc(files, Source)
            && Metric(m, TestPythonLoc) == RoleLoc(files, Test)
            && Metric(m, ScriptPythonLoc) == RoleLoc(files, Script)
            && Metric(m, OtherPythonLoc) == RoleLoc(files, Other)
            && Metric(m, DriftMarkerMatches) == LastSum(Measured(files, HasMarkers(), MarkersOf()))
            && (DistinctPaths(files) ==> Metric(m, DriftMarkerMatches) == SumMarkers(files))
            && Metric(m, LargeFunctionCount) == |Filter(IsLarge(t.functionLines), records)|
    ensures var eligible := Eligible(records, t.duplicateFunctionLines);
            && AreGroups(eligible, report.groups)
            && Metric(report.metrics, DuplicateFunctionGroupCount) == |report.groups|
            && Metric(report.metrics, DuplicateFunctionInstances) == |eligible| - |Digests(eligible)|
    ensures IsRegister(report.oversized, Measured(files, IsOversized(t), PhysicalLines()))
    ensures IsRegister(report.large, ItemsOf(KeyOf(), LinesOf(), Filter(IsLarge(t.functionLines), records)))
  {
    hide AreGroups, Digests, Instances, Eligible, RoleLoc, IsRegister, LargeDict, SortedDict, DictOf, Measured;
    hide SumValues, LastSum;
    var groups := DuplicateFunctionGroups(records, t);
    var large := Filter(IsLarge(t.functionLines), records);
    var locByRole, oversized, markers := MeasureFiles(files, t);
    var metrics := map[
      PythonFiles := |files|,
      TotalPythonLoc := locByRole[Source] + locByRole[Test] + locByRole[Script] + locByRole[Other],
      SourcePythonLoc := locByRole[Source],
      TestPythonLoc := locByRole[Test],
      ScriptPythonLoc := locByRole[Script],
      OtherPythonLoc := locByRole[Other],
      DuplicateFunctionGroupCount := |groups|,
      DuplicateFunctionInstances := Instances(groups),
      LargeFunctionCount := |large|,
      DriftMarkerMatches := SumValues(markers)];
    report := Report(metrics, SortedDict(oversized), LargeDict(large), groups);
    SumOfDict(Measured(files, HasMarkers(), MarkersOf()));
    if DistinctPaths(files) {
      EveryMarkerCounts(files);
    }
    SortedDictIsRegister(Measured(files, IsOversized(t), PhysicalLines()));
    LargeDictIsRegister(large);
  }

  // ----- compare_to_baseline -----

  datatype DriftError =
    | UnsupportedSchema
    | Grew(metric: MetricName, was: int, now: int, budget: int)
    | NewEntry(table: Table, key: string, now: int)
    | EntryGrew(table: Table, key: string, was: int, now: int)

  datatype Table = OversizedFiles | LargeFunctions

  datatype MissingLines = MissingLines(key: string)

  const STRICT_METRICS: seq<MetricName> :=
    [DuplicateFunctionGroupCount, DuplicateFunctionInstances, LargeFunctionCount, DriftMarkerMatches]

  /** Every compared metric with its growth budget. */
  function Budgets(t: Thresholds): seq<(MetricName, int)> {
    [(TotalPythonLoc, t.totalLocGrowth), (SourcePythonLoc, t.sourceLocGrowth), (TestPythonLoc, t.testLocGrowth),
     (ScriptPythonLoc, t.scriptLocGrowth),
     (DuplicateFunctionGroupCount, 0), (DuplicateFunctionInstances, 0),
     (LargeFunctionCount, 0), (DriftMarkerMatches, 0)]
  }

  ghost predicate MetricsWithin(now: map<MetricName, int>, was: map<MetricName, int>, t: Thresholds) {
    && Metric(now, TotalPythonLoc) <= Metric(was, TotalPythonLoc) + t.totalLocGrowth
    && Metric(now, SourcePythonLoc) <= Metric(was, SourcePythonLoc) + t.sourceLocGrowth
    && Metric(now, TestPythonLoc) <= Metric(was, TestPythonLoc) + t.testLocGrowth
    && Metric(now, ScriptPythonLoc) <= Metric(was, ScriptPythonLoc) + t.scriptLocGrowth
    && forall m :: m in STRICT_METRICS ==> Metric(now, m) <= Metric(was, m)
  }

  ghost predicate EntriesWithin(now: Dict<string, int>, was: Dict<string, Option<int>>, growth: int) {
    forall key :: Get(now, key).Some? ==>
      && Get(was, key).Some? && Get(was, key).value.Some?
      && Get(now, key).value <= Get(was, key).value.value + growth
  }

  /** Nothing has grown beyond its budget, and no oversized file or large function is new. */
  ghost predicate Accepted(report: Report, baseline: Baseline, t: Thresholds) {
    && baseline.schema == Some(SCHEMA_VERSION)
    && MetricsWithin(report.metrics, baseline.metrics, t)
    && EntriesWithin(report.oversized, baseline.oversized, t.oversizedFileGrowth)
    && EntriesWithin(report.large, baseline.large, t.largeFunctionGrowth)
  }

  /** An entry that the comparison looks up has no number of lines. */
  ghost predicate Unreadable(now: Dict<string, int>, was: Dict<string, Option<int>>) {
    exists key :: Get(now, key).Some? && Get(was, key) == Some(None)
  }

  ghost predicate WithinBudget(now: map<MetricName, int>, was: map<MetricName, int>, b: (MetricName, int)) {
    Metric(now, b.0) <= Metric(was, b.0) + b.1
  }

  lemma MetricsWithinIff(now: map<MetricName, int>, was: map<MetricName, int>, t: Thresholds)
    ensures MetricsWithin(now, was, t) <==> forall j :: 0 <= j < |Budgets(t)| ==> WithinBudget(now, was, Budgets(t)[j])
  {
    hide Metric;
    var budgets := Budgets(t);
    assert STRICT_METRICS[0] in STRICT_METRICS && STRICT_METRICS[1] in STRICT_METRICS;
    assert STRICT_METRICS[2] in STRICT_METRICS && STRICT_METRICS[3] in STRICT_METRICS;
    if forall j :: 0 <= j < |budgets| ==> WithinBudget(now, was, budgets[j]) {
      assert WithinBudget(now, was, budgets[0]) && WithinBudget(now, was, budgets[1]);
      assert WithinBudget(now, was, budgets[2]) && WithinBudget(now, was, budgets[3]);
      assert WithinBudget(now, was, budgets[4]) && WithinBudget(now, was, budgets[5]);
      assert WithinBudget(now, was, budgets[6]) && WithinBudget(now, was, budgets[7]);
    }
  }

  ghost predicate GrowthReported(report: Report, baseline: Baseline, budgets: seq<(MetricName, int)>, e: DriftError) {
    && e.Grew? && (e.metric, e.budget) in budgets
    && e.was == Metric(baseline.metrics, e.metric) && e.now == Metric(report.metrics, e.metric)
    && e.now > e.was + e.budget
  }

  /** The metrics that have grown beyond their budgets, in the order of the budgets. */
  ghost function GrownMetrics(
    now: map<MetricName, int>, was: map<MetricName, int>, budgets: seq<(MetricName, int)>, n: nat): seq<DriftError>
  {
    Gather(n, (i: nat) =>
      if i < |budgets| && !WithinBudget(now, was, budgets[i]) then
        [Grew(budgets[i].0, Metric(was, budgets[i].0), Metric(now, budgets[i].0), budgets[i].1)]
      else [])
  }

  lemma GrownMetricsMembers(report: Report, baseline: Baseline, budgets: seq<(MetricName, int)>)
    ensures forall e :: e in GrownMetrics(report.metrics, baseline.metrics, budgets, |budgets|) <==>
                        GrowthReported(report, baseline, budgets, e)
  {
    hide Metric;
    var now, was := report.metrics, baseline.metrics;
    var part := (i: nat) =>
      if i < |budgets| && !WithinBudget(now, was, budgets[i]) then
        [Grew(budgets[i].0, Metric(was, budgets[i].0), Metric(now, budgets[i].0), budgets[i].1)]
      else [];
    GatherMembers(|budgets|, part);
    assert GrownMetrics(now, was, budgets, |budgets|) == Gather(|budgets|, part);
    forall e | GrowthReported(report, baseline, budgets, e) ensures e in GrownMetrics(now, was, budgets, |budgets|) {
      var i :| 0 <= i < |budgets| && budgets[i] == (e.metric, e.budget);
      assert e in part(i);
    }
  }

  method GrowthErrors(report: Report, baseline: Baseline, t: Thresholds) returns (errors: seq<DriftError>)
    ensures errors == GrownMetrics(report.metrics, baseline.metrics, Budgets(t), |Budgets(t)|)
  {
    errors := [];
    var budgets := Budgets(t);
    for i := 0 to |budgets|
      invariant errors == GrownMetrics(report.metrics, baseline.metrics, budgets, i)
    {
      var now, was := Metric(report.metrics, budgets[i].0), Metric(baseline.metrics, budgets[i].0);
      if now > was + budgets[i].1 {
        errors := errors + [Grew(budgets[i].0, was, now, budgets[i].1)];
      }
    }
  }

  ghost predicate ItemReported(
    table: Table, item: Item<string, int>, was: Dict<string, Option<int>>, growth: int, e: DriftError)
  {
    || (e == NewEntry(table, item.key, item.value) && Get(was, item.key).None?)
    || (e.EntryGrew? && e == EntryGrew(table, item.key, e.was, item.value)
        && Get(was, item.key) == Some(Some(e.was)) && item.value > e.was + growth)
  }

  ghost predicate EntryReported(
    table: Table, now: Dict<string, int>, was: Dict<string, Option<int>>, growth: int, e: DriftError)
  {
    && (e.NewEntry? || e.EntryGrew?) && Get(now, e.key) == Some(e.now)
    && ItemReported(table, Item(e.key, e.now), was, growth, e)
  }

  ghost function ItemErrors(
    table: Table, item: Item<string, int>, was: Dict<string, Option<int>>, growth: int): seq<DriftError>
  {
    var entry: Option<Option<int>> := Get(was, item.key);
    match entry
    case None => [NewEntry(table, item.key, item.value)]
    case Some(None) => []
    case Some(Some(lines)) =>
      if item.value > lines + growth then [EntryGrew(table, item.key, lines, item.value)] else []
  }

  /** The entries that are new or have grown too much, in the order of the report. */
  ghost function GrownEntries(
    table: Table, now: Dict<string, int>, was: Dict<string, Option<int>>, growth: int, n: nat): seq<DriftError>
  {
    Gather(n, (i: nat) => if i < |now| then ItemErrors(table, now[i], was, growth) else [])
  }

  lemma GrownEntriesMembers(table: Table, now: Dict<string, int>, was: Dict<string, Option<int>>, growth: int)
    requires UniqueKeys(now)
    ensures forall e :: e in GrownEntries(table, now, was, growth, |now|) <==> EntryReported(table, now, was, growth, e)
  {
    hide Get;
    var part := (i: nat) => if i < |now| then ItemErrors(table, now[i], was, growth) else [];
    GatherMembers(|now|, part);
    assert GrownEntries(table, now, was, growth, |now|) == Gather(|now|, part);
    forall i: nat | i < |now|
      ensures Get(now, now[i].key) == Some(now[i].value)
      ensures forall e :: e in part(i) <==> ItemReported(table, now[i], was, growth, e)
    {
      GetAt(now, i);
    }
    forall e | EntryReported(table, now, was, growth, e) ensures e in GrownEntries(table, now, was, growth, |now|) {
      GetMissing(now, e.key);
      var i: nat :| i < |now| && now[i].key == e.key;
      assert now[i] == Item(e.key, e.now);
      assert e in part(i);
    }
  }

  /** Reading the baseline stops at this key. */
  ghost predicate IsFirstUnreadable(now: Dict<string, int>, was: Dict<string, Option<int>>, key: string) {
    exists i ::
      && 0 <= i < |now| && UnreadableAt(now, was, i) && now[i].key == key
      && forall j :: 0 <= j < i ==> !UnreadableAt(now, was, j)
  }

  ghost predicate UnreadableAt(now: Dict<string, int>, was: Dict<string, Option<int>>, i: int) {
    0 <= i < |now| && Get(was, now[i].key) == Some(None)
  }

  lemma UnreadableIff(now: Dict<string, int>, was: Dict<string, Option<int>>)
    requires UniqueKeys(now)
    ensures Unreadable(now, was) <==> exists i :: UnreadableAt(now, was, i)
  {
    hide Get;
    if key :| Get(now, key).Some? && Get(was, key) == Some(None) {
      GetMissing(now, key);
      var i :| 0 <= i < |now| && now[i].key == key;
      assert UnreadableAt(now, was, i);
    }
    if i :| UnreadableAt(now, was, i) {
      GetAt(now, i);
    }
  }

  method EntryErrors(table: Table, now: Dict<string, int>, was: Dict<string, Option<int>>, growth: int)
    returns (r: Result<seq<DriftError>, MissingLines>)
    requires UniqueKeys(now)
    ensures r.Success? <==> !Unreadable(now, was)
    ensures r.Success? ==> r.value == GrownEntries(table, now, was, growth, |now|)
    ensures r.Failure? ==> IsFirstUnreadable(now, was, r.error.key)
  {
    hide Get, Unreadable;
    UnreadableIff(now, was);
    var errors: seq<DriftError> := [];
    for i := 0 to |now|
      invariant forall j :: 0 <= j < i ==> !UnreadableAt(now, was, j)
      invariant errors == GrownEntries(table, now, was, growth, i)
    {
      var entry: Option<Option<int>> := Get(was, now[i].key);
      match entry
      case None =>
        errors := errors + [NewEntry(table, now[i].key, now[i].value)];
      case Some(None) =>
        assert UnreadableAt(now, was, i);
        return Failure(MissingLines(now[i].key));
      case Some(Some(lines)) =>
        if now[i].value > lines + growth {
          errors := errors + [EntryGrew(table, now[i].key, lines, now[i].value)];
        }
    }
    return Success(errors);
  }

  ghost predicate DriftReported(report: Report, baseline: Baseline, t: Thresholds, e: DriftError) {
    if baseline.schema != Some(SCHEMA_VERSION) then e == UnsupportedSchema
    else
      || GrowthReported(report, baseline, Budgets(t), e)
      || EntryReported(OversizedFiles, report.oversized, baseline.oversized, t.oversizedFileGrowth, e)
      || EntryReported(LargeFunctions, report.large, baseline.large, t.largeFunctionGrowth, e)
  }

  /** The errors in the order in which they are listed: metrics, oversized files, large functions. */
  ghost function DriftErrors(report: Report, baseline: Baseline, t: Thresholds): seq<DriftError> {
    if baseline.schema != Some(SCHEMA_VERSION) then [UnsupportedSchema]
    else
      GrownMetrics(report.metrics, baseline.metrics, Budgets(t), |Budgets(t)|) +
      GrownEntries(OversizedFiles, report.oversized, baseline.oversized, t.oversizedFileGrowth, |report.oversized|) +
      GrownEntries(LargeFunctions, report.large, baseline.large, t.largeFunctionGrowth, |report.large|)
  }

  lemma DriftErrorsAreReported(report: Report, baseline: Baseline, t: Thresholds)
    requires UniqueKeys(report.oversized) && UniqueKeys(report.large)
    ensures forall e :: e in DriftErrors(report, baseline, t) <==> DriftReported(report, baseline, t, e)
  {
    hide GrownMetrics, GrownEntries, GrowthReported, EntryReported;
    GrownMetricsMembers(report, baseline, Budgets(t));
    GrownEntriesMembers(OversizedFiles, report.oversized, baseline.oversized, t.oversizedFileGrowth);
    GrownEntriesMembers(LargeFunctions, report.large, baseline.large, t.largeFunctionGrowth);
  }

  lemma NoGrowthReportedIff(report: Report, baseline: Baseline, t: Thresholds)
    ensures (forall e :: !GrowthReported(report, baseline, Budgets(t), e)) <==>
            MetricsWithin(report.metrics, baseline.metrics, t)
  {
    hide Metric, MetricsWithin, Budgets;
    var now, was, budgets := report.metrics, baseline.metrics, Budgets(t);
    MetricsWithinIff(now, was, t);
    if forall e :: !GrowthReported(report, baseline, budgets, e) {
      forall j | 0 <= j < |budgets| ensures WithinBudget(now, was, budgets[j]) {
        var b := budgets[j];
        assert !GrowthReported(report, baseline, budgets, Grew(b.0, Metric(was, b.0), Metric(now, b.0), b.1));
      }
    }
  }

  lemma NoEntryReportedIff(table: Table, now: Dict<string, int>, was: Dict<string, Option<int>>, growth: int)
    requires !Unreadable(now, was)
    ensures (forall e :: !EntryReported(table, now, was, growth, e)) <==> EntriesWithin(now, was, growth)
  {
    hide Get;
    if forall e :: !EntryReported(table, now, was, growth, e) {
      forall key | Get(now, key).Some?
        ensures Get(was, key).Some? && Get(was, key).value.Some?
        ensures Get(now, key).value <= Get(was, key).value.value + growth
      {
        var value := Get(now, key).value;
        assert !EntryReported(table, now, was, growth, NewEntry(table, key, value));
        assert Get(was, key).Some? && Get(was, key).value.Some?;
        assert !EntryReported(table, now, was, growth, EntryGrew(table, key, Get(was, key).value.value, value));
      }
    }
  }

  /** Without errors means accepted. */
  lemma NoDriftErrorsIffAccepted(report: Report, baseline: Baseline, t: Thresholds)
    requires UniqueKeys(report.oversized) && UniqueKeys(report.large)
    requires !Unreadable(report.oversized, baseline.oversized) && !Unreadable(report.large, baseline.large)
    ensures DriftErrors(report, baseline, t) == [] <==> Accepted(report, baseline, t)
  {
    hide GrownMetrics, GrownEntries, MetricsWithin, EntriesWithin, Unreadable, GrowthReported, EntryReported;
    GrownMetricsMembers(report, baseline, Budgets(t));
    GrownEntriesMembers(OversizedFiles, report.oversized, baseline.oversized, t.oversizedFileGrowth);
    GrownEntriesMembers(LargeFunctions, report.large, baseline.large, t.largeFunctionGrowth);
    NoGrowthReportedIff(report, baseline, t);
    NoEntryReportedIff(OversizedFiles, report.oversized, baseline.oversized, t.oversizedFileGrowth);
    NoEntryReportedIff(LargeFunctions, report.large, baseline.large, t.largeFunctionGrowth);
    EmptyIff(GrownMetrics(report.metrics, baseline.metrics, Budgets(t), |Budgets(t)|));
    EmptyIff(
      GrownEntries(OversizedFiles, report.oversized, baseline.oversized, t.oversizedFileGrowth, |report.oversized|));
    EmptyIff(GrownEntries(LargeFunctions, report.large, baseline.large, t.largeFunctionGrowth, |report.large|));
  }

  lemma EmptyIff(errors: seq<DriftError>)
    ensures errors == [] <==> forall e :: e !in errors
  {
    if errors != [] {
      assert errors[0] in errors;
    }
  }

  method CompareToBaseline(report: Report, baseline: Baseline, t: Thresholds)
    returns (r: Result<seq<DriftError>, MissingLines>)
    requires UniqueKeys(report.oversized) && UniqueKeys(report.large)
    ensures r.Success? ==> r.value == DriftErrors(report, baseline, t)
    ensures r.Success? ==> (r.value == [] <==> Accepted(report, baseline, t))
    ensures r.Success? <==>
              || baseline.schema != Some(SCHEMA_VERSION)
              || (!Unreadable(report.oversized, baseline.oversized) && !Unreadable(report.large, baseline.large))
    ensures r.Failure? ==>
              if Unreadable(report.oversized, baseline.oversized)
              then IsFirstUnreadable(report.oversized, baseline.oversized, r.error.key)
              else IsFirstUnreadable(report.large, baseline.large, r.error.key)
  {
    hide Accepted, GrownMetrics, GrownEntries, Unreadable, IsFirstUnreadable, UniqueKeys, Budgets;
    if baseline.schema != Some(SCHEMA_VERSION) {
      OtherSchemaIsRejected(report, baseline, t);
      return Success([UnsupportedSchema]);
    }
    var errors := GrowthErrors(report, baseline, t);
    var oversized := EntryErrors(OversizedFiles, report.oversized, baseline.oversized, t.oversizedFileGrowth);
    if oversized.Failure? {
      return Failure(oversized.error);
    }
    var large := EntryErrors(LargeFunctions, report.large, baseline.large, t.largeFunctionGrowth);
    if large.Failure? {
      return Failure(large.error);
    }
    NoDriftErrorsIffAccepted(report, baseline, t);
    return Success(errors + oversized.value + large.value);
  }

  lemma OtherSchemaIsRejected(report: Report, baseline: Baseline, t: Thresholds)
    requires baseline.schema != Some(SCHEMA_VERSION)
    ensures !Accepted(report, baseline, t)
  {
  }

  // ----- baseline_payload -----

  function Recorded(d: Dict<string, int>): Dict<string, Option<int>> {
    if d == [] then [] else [Item(d[0].key, Some(d[0].value))] + Recorded(d[1..])
  }

  function BaselinePayload(report: Report): Baseline {
    Baseline(Some(SCHEMA_VERSION), report.metrics, Recorded(report.oversized), Recorded(report.large))
  }

  lemma {:induction false} RecordedGet(d: Dict<string, int>, key: string)
    ensures Get(Recorded(d), key) == if Get(d, key).None? then None else Some(Get(d, key))
  {
    if d != [] {
      RecordedGet(d[1..], key);
    }
  }

  lemma RecordedWithin(now: Dict<string, int>, was: Dict<string, int>, growth: int)
    ensures EntriesWithin(now, Recorded(was), growth) <==> StayedWithin(now, was, growth)
    ensures !Unreadable(now, Recorded(was))
  {
    hide Get, Recorded;
    var recorded := Recorded(was);
    forall key ensures Get(recorded, key) == if Get(was, key).None? then None else Some(Get(was, key)) {
      RecordedGet(was, key);
    }
  }

  ghost predicate StayedWithin(now: Dict<string, int>, was: Dict<string, int>, growth: int) {
    forall key :: Get(now, key).Some? ==> Get(was, key).Some? && Get(now, key).value <= Get(was, key).value + growth
  }

  /**
    A report compared with its own baseline has no errors exactly if the four growth budgets of lines
    are not negative, nor those of the entries where there are any.
  */
  lemma OwnBaselineIff(report: Report, t: Thresholds)
    ensures Accepted(report, BaselinePayload(report), t) <==>
            && t.totalLocGrowth >= 0 && t.sourceLocGrowth >= 0 && t.testLocGrowth >= 0 && t.scriptLocGrowth >= 0
            && (report.oversized == [] || t.oversizedFileGrowth >= 0)
            && (report.large == [] || t.largeFunctionGrowth >= 0)
    ensures !Unreadable(report.oversized, BaselinePayload(report).oversized)
    ensures !Unreadable(report.large, BaselinePayload(report).large)
  {
    hide EntriesWithin, Recorded, Unreadable;
    RecordedWithin(report.oversized, report.oversized, t.oversizedFileGrowth);
    RecordedWithin(report.large, report.large, t.largeFunctionGrowth);
    HasEntryIff(report.oversized);
    HasEntryIff(report.large);
  }

  lemma HasEntryIff(d: Dict<string, int>)
    ensures d != [] <==> exists key :: Get(d, key).Some?
  {
    if d != [] {
      assert Get(d, d[0].key).Some?;
    }
  }

  /** With the thresholds the tool runs with, recording a baseline always makes the guard pass. */
  lemma DefaultsAcceptOwnBaseline(report: Report)
    ensures Accepted(report, BaselinePayload(report), DEFAULTS)
  {
    OwnBaselineIff(report, DEFAULTS);
  }

  // ----- the ratchet -----

  /** Reports each of which was accepted against the baseline recorded from the one before. */
  ghost predicate Ratcheted(chain: seq<Report>, t: Thresholds) {
    forall i :: 0 <= i < |chain| - 1 ==> Accepted(chain[i + 1], BaselinePayload(chain[i]), t)
  }

  ghost predicate Grown(first: Report, last: Report, t: Thresholds, steps: nat) {
    && Metric(last.metrics, TotalPythonLoc) <= Metric(first.metrics, TotalPythonLoc) + steps * t.totalLocGrowth
    && Metric(last.metrics, SourcePythonLoc) <= Metric(first.metrics, SourcePythonLoc) + steps * t.sourceLocGrowth
    && Metric(last.metrics, TestPythonLoc) <= Metric(first.metrics, TestPythonLoc) + steps * t.testLocGrowth
    && Metric(last.metrics, ScriptPythonLoc) <= Metric(first.metrics, ScriptPythonLoc) + steps * t.scriptLocGrowth
    && (forall m :: m in STRICT_METRICS ==> Metric(last.metrics, m) <= Metric(first.metrics, m))
    && StayedWithin(last.oversized, first.oversized, steps * t.oversizedFileGrowth)
    && StayedWithin(last.large, first.large, steps * t.largeFunctionGrowth)
  }

  lemma EntriesCompose(a: Dict<string, int>, b: Dict<string, int>, c: Dict<string, int>, first: int, second: int)
    requires StayedWithin(b, a, first) && EntriesWithin(c, Recorded(b), second)
    ensures StayedWithin(c, a, first + second)
  {
    hide EntriesWithin, Recorded, Get;
    RecordedWithin(c, b, second);
  }

  /**
    Over any run of guarded updates, duplicates, large functions and markers never grow, no oversized
    file or large function appears that the first report did not have, and the rest grows by at most
    its budget for each update.
  */
  lemma {:induction false} RatchetBoundsGrowth(chain: seq<Report>, t: Thresholds)
    requires chain != [] && Ratcheted(chain, t)
    ensures Grown(chain[0], chain[|chain| - 1], t, |chain| - 1)
    decreases |chain|
  {
    hide EntriesWithin, Recorded, Get;
    var n := |chain| - 1;
    if n > 0 {
      var before := chain[n - 1];
      assert chain[..n][n - 1] == before;
      RatchetBoundsGrowth(chain[..n], t);
      assert Accepted(chain[n - 1 + 1], BaselinePayload(before), t);
      EntriesCompose(chain[0].oversized, before.oversized, chain[n].oversized,
                     (n - 1) * t.oversizedFileGrowth, t.oversizedFileGrowth);
      EntriesCompose(chain[0].large, before.large, chain[n].large,
                     (n - 1) * t.largeFunctionGrowth, t.largeFunctionGrowth);
      OneMore(n, t.totalLocGrowth);
      OneMore(n, t.sourceLocGrowth);
      OneMore(n, t.testLocGrowth);
      OneMore(n, t.scriptLocGrowth);
      OneMore(n, t.oversizedFileGrowth);
      OneMore(n, t.largeFunctionGrowth);
    }
  }

  lemma OneMore(n: int, budget: int)
    ensures (n - 1) * budget + budget == n * budget
  {
  }
}
