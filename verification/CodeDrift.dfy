/**
  The code drift guard: grouping duplicated functions, the metrics of a report, and comparing a
  report with a recorded baseline. Digests are opaque strings.
*/
module CodeDrift {
  import opened Wrappers
  import opened Sequences
  import opened OrderedDicts
  import opened StringOrder

  datatype FunctionRecord = FunctionRecord(
    path: string, name: string, line: int, endLine: int, lines: int, digest: string) {
    function Key(): string { path + ":" + name }
  }

  datatype Group = Group(digest: string, lines: int, locations: seq<FunctionRecord>)

  datatype Thresholds = Thresholds(
    sourceFileLines: int, testFileLines: int, scriptFileLines: int,
    functionLines: int, duplicateFunctionLines: int,
    oversizedFileGrowth: int, largeFunctionGrowth: int,
    totalLocGrowth: int, sourceLocGrowth: int, testLocGrowth: int, scriptLocGrowth: int)

  function KeyOf(): FunctionRecord -> string { (r: FunctionRecord) => r.Key() }

  function DigestOf(): Group -> string { (g: Group) => g.digest }

  function LongEnough(lines: int): FunctionRecord -> bool { (r: FunctionRecord) => r.lines >= lines }

  function HasDigest(digest: string): FunctionRecord -> bool { (r: FunctionRecord) => r.digest == digest }

  function Eligible(records: seq<FunctionRecord>, lines: int): seq<FunctionRecord> {
    Filter(LongEnough(lines), records)
  }

  function WithDigest(records: seq<FunctionRecord>, digest: string): seq<FunctionRecord> {
    Filter(HasDigest(digest), records)
  }

  ghost function Digests(records: seq<FunctionRecord>): set<string> {
    set r | r in records :: r.digest
  }

  /** The key of a function and the limits that apply to it, by the numbers the tool runs with. */
  lemma RecordExample(r: FunctionRecord)
    requires r.path == "a/b.py" && r.name == "C.f"
    ensures r.Key() == "a/b.py:C.f"
    ensures LongEnough(8)(r) <==> r.lines > 7
  {
  }

  // ----- grouping by digest -----

  function ListAt(d: Dict<string, seq<FunctionRecord>>, digest: string): seq<FunctionRecord> {
    match Get(d, digest) case None => [] case Some(list) => list
  }

  /** `by_digest[record.digest].append(record)` for every record. */
  function ByDigest(records: seq<FunctionRecord>): Dict<string, seq<FunctionRecord>> {
    if records == [] then []
    else
      var before, last := ByDigest(records[..|records| - 1]), records[|records| - 1];
      Put(before, last.digest, ListAt(before, last.digest) + [last])
  }

  lemma ByDigestSnoc(records: seq<FunctionRecord>, r: FunctionRecord)
    ensures ByDigest(records + [r]) == Put(ByDigest(records), r.digest, ListAt(ByDigest(records), r.digest) + [r])
  {
    assert (records + [r])[..|records|] == records;
  }

  lemma {:induction false} ByDigestGet(records: seq<FunctionRecord>, digest: string)
    ensures ListAt(ByDigest(records), digest) == WithDigest(records, digest)
    ensures Get(ByDigest(records), digest).Some? <==> WithDigest(records, digest) != []
  {
    if records != [] {
      var rest, last := records[..|records| - 1], records[|records| - 1];
      assert records == rest + [last];
      ByDigestGet(rest, digest);
      PutGet(ByDigest(rest), last.digest, ListAt(ByDigest(rest), last.digest) + [last], digest);
      FilterAppend(HasDigest(digest), rest, [last]);
      assert [last][1..] == [];
      assert Filter(HasDigest(digest), [last]) == if last.digest == digest then [last] else [];
    }
  }

  function TotalLength(d: Dict<string, seq<FunctionRecord>>): nat {
    if d == [] then 0 else |d[0].value| + TotalLength(d[1..])
  }

  lemma {:induction false} PutLength(d: Dict<string, seq<FunctionRecord>>, digest: string, list: seq<FunctionRecord>)
    ensures TotalLength(Put(d, digest, list)) == TotalLength(d) - |ListAt(d, digest)| + |list|
    ensures |Put(d, digest, list)| == |d| + if Get(d, digest).None? then 1 else 0
  {
    if d != [] && d[0].key != digest {
      PutLength(d[1..], digest, list);
    }
  }

  lemma CountWith(digests: set<string>, digest: string)
    ensures |digests + {digest}| == |digests| + if digest in digests then 0 else 1
  {
    if digest in digests {
      assert digests + {digest} == digests;
    }
  }

  /** Grouping loses and repeats nothing, and there is one list for each digest. */
  lemma {:induction false} ByDigestCounts(records: seq<FunctionRecord>)
    ensures TotalLength(ByDigest(records)) == |records|
    ensures |ByDigest(records)| == |Digests(records)|
    ensures UniqueKeys(ByDigest(records))
    ensures forall i :: 0 <= i < |ByDigest(records)| ==> ByDigest(records)[i].value != []
  {
    hide ListAt, WithDigest, Put, ByDigest;
    ByDigestStart();
    if records == [] {
      assert Digests(records) == {};
    } else {
      var rest, last := records[..|records| - 1], records[|records| - 1];
      var d, list := ByDigest(rest), ListAt(ByDigest(rest), last.digest) + [last];
      ByDigestCounts(rest);
      PutLength(d, last.digest, list);
      PutKeepsUniqueKeys(d, last.digest, list);
      assert records == rest + [last];
      assert Digests(records) == Digests(rest) + {last.digest};
      DigestIsGrouped(rest, last.digest);
      PutKeepsFilled(d, last.digest, list);
      ByDigestSnoc(rest, last);
      CountWith(Digests(rest), last.digest);
    }
  }

  lemma {:induction false} PutKeepsFilled(
    d: Dict<string, seq<FunctionRecord>>, digest: string, list: seq<FunctionRecord>)
    requires list != [] && forall i :: 0 <= i < |d| ==> d[i].value != []
    ensures forall i :: 0 <= i < |Put(d, digest, list)| ==> Put(d, digest, list)[i].value != []
  {
    if d != [] && d[0].key != digest {
      PutKeepsFilled(d[1..], digest, list);
    }
  }

  lemma DigestIsGrouped(records: seq<FunctionRecord>, digest: string)
    ensures Get(ByDigest(records), digest).Some? <==> digest in Digests(records)
  {
    hide ByDigest;
    ByDigestGet(records, digest);
    var with := WithDigest(records, digest);
    FilterMembers(HasDigest(digest), records);
    if with != [] {
      assert with[0] in with;
    }
    if r :| r in records && r.digest == digest {
      assert r in with;
    }
  }

  // ----- the groups of duplicates -----

  function GroupOf(digest: string, list: seq<FunctionRecord>): (g: Group)
    requires list != []
    ensures |g.locations| == |list|
  {
    var sorted := SortBy(KeyOf(), list);
    Group(digest, sorted[0].lines, sorted)
  }

  /** The lists of at least two, as groups. */
  function Duplicated(d: Dict<string, seq<FunctionRecord>>): seq<Group> {
    if d == [] then []
    else
      (if |d[0].value| < 2 then [] else [GroupOf(d[0].key, d[0].value)]) + Duplicated(d[1..])
  }

  lemma {:induction false} DuplicatedSnoc(d: Dict<string, seq<FunctionRecord>>, item: Item<string, seq<FunctionRecord>>)
    ensures Duplicated(d + [item]) == Duplicated(d) + if |item.value| < 2 then [] else [GroupOf(item.key, item.value)]
  {
    hide GroupOf;
    if d == [] {
      assert d + [item] == [item] && [item][1..] == [];
    } else {
      assert (d + [item])[1..] == d[1..] + [item];
      DuplicatedSnoc(d[1..], item);
      var first := if |d[0].value| < 2 then [] else [GroupOf(d[0].key, d[0].value)];
      var last := if |item.value| < 2 then [] else [GroupOf(item.key, item.value)];
      assert Duplicated(d) == first + Duplicated(d[1..]);
      AppendAssociates(first, Duplicated(d[1..]), last);
    }
  }

  /** What `duplicate_function_instances` adds up. */
  function Instances(groups: seq<Group>): int {
    if groups == [] then 0 else |groups[0].locations| - 1 + Instances(groups[1..])
  }

  lemma {:induction false} InstancesOfDuplicated(d: Dict<string, seq<FunctionRecord>>)
    requires forall i :: 0 <= i < |d| ==> d[i].value != []
    ensures Instances(Duplicated(d)) == TotalLength(d) - |d|
  {
    hide GroupOf;
    if d != [] {
      InstancesOfDuplicated(d[1..]);
      var rest := Duplicated(d[1..]);
      if |d[0].value| >= 2 {
        assert Duplicated(d)[1..] == rest;
      } else {
        assert Duplicated(d) == rest;
      }
    }
  }

  lemma {:induction false} InstancesInsert(g: Group, groups: seq<Group>)
    ensures Instances(Insert(DigestOf(), g, groups)) == |g.locations| - 1 + Instances(groups)
  {
    var inserted := Insert(DigestOf(), g, groups);
    if groups == [] || Leq(g.digest, groups[0].digest) {
      assert inserted[1..] == groups;
    } else {
      InstancesInsert(g, groups[1..]);
      assert inserted[1..] == Insert(DigestOf(), g, groups[1..]);
    }
  }

  lemma {:induction false} InstancesSorted(groups: seq<Group>)
    ensures Instances(SortBy(DigestOf(), groups)) == Instances(groups)
  {
    if groups != [] {
      InstancesSorted(groups[1..]);
      InstancesInsert(groups[0], SortBy(DigestOf(), groups[1..]));
    }
  }

  lemma {:induction false} DuplicatedMembers(d: Dict<string, seq<FunctionRecord>>)
    requires UniqueKeys(d)
    ensures forall g :: g in Duplicated(d) <==>
              exists i :: 0 <= i < |d| && |d[i].value| >= 2 && g == GroupOf(d[i].key, d[i].value)
    ensures DistinctKeys(DigestOf(), Duplicated(d))
  {
    hide GroupOf;
    if d != [] {
      var rest := Duplicated(d[1..]);
      DuplicatedMembers(d[1..]);
      var first := if |d[0].value| < 2 then [] else [GroupOf(d[0].key, d[0].value)];
      assert Duplicated(d) == first + rest;
      forall g
        ensures g in Duplicated(d) <==>
                exists i :: 0 <= i < |d| && |d[i].value| >= 2 && g == GroupOf(d[i].key, d[i].value)
      {
        assert g in Duplicated(d) <==> g in first || g in rest;
        if g in rest {
          var i :| 0 <= i < |d[1..]| && |d[1..][i].value| >= 2 && g == GroupOf(d[1..][i].key, d[1..][i].value);
          assert d[i + 1] == d[1..][i];
        }
        if i :| 1 <= i < |d| && |d[i].value| >= 2 && g == GroupOf(d[i].key, d[i].value) {
          assert d[1..][i - 1] == d[i];
        }
      }
      forall j | 0 <= j < |rest| ensures rest[j].digest != d[0].key {
        assert rest[j] in rest;
        var i :| 0 <= i < |d[1..]| && |d[1..][i].value| >= 2 && rest[j] == GroupOf(d[1..][i].key, d[1..][i].value);
        GroupDigest(d[1..][i].key, d[1..][i].value);
        assert d[i + 1] == d[1..][i];
      }
      if |d[0].value| >= 2 {
        GroupDigest(d[0].key, d[0].value);
      }
    }
  }

  lemma GroupDigest(digest: string, list: seq<FunctionRecord>)
    requires list != []
    ensures GroupOf(digest, list).digest == digest
  {
  }

  /**
    A group says: these are all eligible records with this digest, at least two, in the order of their
    keys, and as they were collected where keys are equal.
  */
  ghost predicate IsGroup(eligible: seq<FunctionRecord>, g: Group) {
    && |g.locations| >= 2
    && IsStableSort(KeyOf(), g.locations, WithDigest(eligible, g.digest))
    && g.lines == g.locations[0].lines
  }

  /** The groups of a report: in the order of their digests, one for each digest that at least two have. */
  ghost predicate AreGroups(eligible: seq<FunctionRecord>, groups: seq<Group>) {
    && Ordered(DigestOf(), groups) && DistinctKeys(DigestOf(), groups)
    && (forall g :: g in groups ==> IsGroup(eligible, g))
    && (forall digest :: |WithDigest(eligible, digest)| >= 2 ==> exists g :: g in groups && g.digest == digest)
  }

  lemma {:induction false} GroupsOfDict(eligible: seq<FunctionRecord>)
    ensures AreGroups(eligible, SortBy(DigestOf(), Duplicated(ByDigest(eligible))))
  {
    hide GroupOf, WithDigest, Duplicated, ByDigest, SortBy;
    var d := ByDigest(eligible);
    var found := Duplicated(d);
    var groups := SortBy(DigestOf(), found);
    ByDigestCounts(eligible);
    DuplicatedMembers(d);
    SortByIs(DigestOf(), found);
    SortByMembers(DigestOf(), found);
    SortByDistinct(DigestOf(), found);
    forall g | g in groups ensures IsGroup(eligible, g) {
      assert g in found;
      var i :| 0 <= i < |d| && |d[i].value| >= 2 && g == GroupOf(d[i].key, d[i].value);
      GetAt(d, i);
      ByDigestGet(eligible, d[i].key);
      GroupOfIs(d[i].key, d[i].value);
    }
    forall digest | |WithDigest(eligible, digest)| >= 2 ensures exists g :: g in groups && g.digest == digest {
      ByDigestGet(eligible, digest);
      var i := GetIndex(d, digest);
      GroupDigest(digest, d[i].value);
      assert GroupOf(d[i].key, d[i].value) in found;
      assert GroupOf(d[i].key, d[i].value) in groups;
    }
  }

  lemma GroupOfIs(digest: string, list: seq<FunctionRecord>)
    requires list != []
    ensures var g := GroupOf(digest, list);
            g.digest == digest && IsStableSort(KeyOf(), g.locations, list) && g.lines == g.locations[0].lines
  {
    SortByIs(KeyOf(), list);
  }

  lemma {:induction false} GetIndex(d: Dict<string, seq<FunctionRecord>>, digest: string) returns (i: nat)
    requires Get(d, digest).Some?
    ensures i < |d| && d[i].key == digest && d[i].value == ListAt(d, digest)
  {
    if d[0].key == digest {
      i := 0;
    } else {
      i := GetIndex(d[1..], digest);
      i := i + 1;
    }
  }

  /**
    The groups are exactly those of the eligible records, and the instances they count are the
    eligible records beyond one for each distinct digest: duplicate accounting is conserved.
  */
  method DuplicateFunctionGroups(records: seq<FunctionRecord>, thresholds: Thresholds) returns (groups: seq<Group>)
    ensures var eligible := Eligible(records, thresholds.duplicateFunctionLines);
            && AreGroups(eligible, groups)
            && Instances(groups) == |eligible| - |Digests(eligible)|
  {
    hide GroupOf, ByDigest, Duplicated, Digests, AreGroups, Put, ListAt;
    var lines := thresholds.duplicateFunctionLines;
    var byDigest: Dict<string, seq<FunctionRecord>> := [];
    ByDigestStart();
    for i := 0 to |records|
      invariant byDigest == ByDigest(Eligible(records[..i], lines))
    {
      assert records[..i + 1] == records[..i] + [records[i]];
      EligibleSnoc(records[..i], records[i], lines);
      if records[i].lines >= lines {
        ByDigestSnoc(Eligible(records[..i], lines), records[i]);
        byDigest := Put(byDigest, records[i].digest, ListAt(byDigest, records[i].digest) + [records[i]]);
      }
    }
    assert records[..|records|] == records;
    ghost var eligible := Eligible(records, lines);
    ByDigestCounts(eligible);

    groups := [];
    DuplicatedStart();
    for i := 0 to |byDigest|
      invariant groups == Duplicated(byDigest[..i])
    {
      assert byDigest[..i + 1] == byDigest[..i] + [byDigest[i]];
      DuplicatedSnoc(byDigest[..i], byDigest[i]);
      if |byDigest[i].value| < 2 {
        continue;
      }
      groups := groups + [GroupOf(byDigest[i].key, byDigest[i].value)];
    }
    assert byDigest[..|byDigest|] == byDigest;
    InstancesOfDuplicated(byDigest);
    InstancesSorted(groups);
    GroupsOfDict(eligible);
    groups := SortBy(DigestOf(), groups);
  }

  lemma ByDigestStart()
    ensures ByDigest(Eligible([], 0)) == [] && forall lines :: Eligible([], lines) == []
  {
  }

  lemma DuplicatedStart()
    ensures Duplicated([]) == []
  {
  }

  lemma EligibleSnoc(records: seq<FunctionRecord>, r: FunctionRecord, lines: int)
    ensures Eligible(records + [r], lines) ==
            if r.lines >= lines then Eligible(records, lines) + [r] else Eligible(records, lines)
  {
    FilterAppend(LongEnough(lines), records, [r]);
    assert [r][1..] == [];
    assert Filter(LongEnough(lines), [r]) == if r.lines >= lines then [r] else [];
    assert Eligible(records, lines) + [] == Eligible(records, lines);
  }

  /** The groups of given records are determined, order included. */
  lemma GroupsAreDetermined(eligible: seq<FunctionRecord>, ga: seq<Group>, gb: seq<Group>)
    requires AreGroups(eligible, ga) && AreGroups(eligible, gb)
    ensures ga == gb
  {
    hide IsStableSort;
    forall g ensures g in ga <==> g in gb {
      if g in ga {
        SameGroup(eligible, gb, g);
      }
      if g in gb {
        SameGroup(eligible, ga, g);
      }
    }
    StrictOrderIsUnique(DigestOf(), ga, gb);
  }

  lemma SameGroup(eligible: seq<FunctionRecord>, groups: seq<Group>, g: Group)
    requires IsGroup(eligible, g) && AreGroups(eligible, groups)
    ensures g in groups
  {
    hide WithDigest, Filter;
    var with := WithDigest(eligible, g.digest);
    assert |multiset(with)| == |multiset(g.locations)|;
    var h :| h in groups && h.digest == g.digest;
    assert IsGroup(eligible, h);
    StableSortIsUnique(KeyOf(), g.locations, h.locations);
  }

  /** A key names one record only, as far as records with the same digest go. */
  ghost predicate KeysIdentify(records: seq<FunctionRecord>) {
    forall x, y :: x in records && y in records && x.Key() == y.Key() && x.digest == y.digest ==> x == y
  }

  lemma PermutedGroups(a: seq<FunctionRecord>, b: seq<FunctionRecord>, ga: seq<Group>, gb: seq<Group>)
    requires multiset(a) == multiset(b) && KeysIdentify(a)
    requires AreGroups(a, ga) && AreGroups(b, gb)
    ensures ga == gb
  {
    assert forall x :: x in b ==> x in multiset(b);
    assert KeysIdentify(b);
    forall g ensures g in ga <==> g in gb {
      if g in ga {
        GroupCarriesOver(a, b, gb, g);
      }
      if g in gb {
        GroupCarriesOver(b, a, ga, g);
      }
    }
    StrictOrderIsUnique(DigestOf(), ga, gb);
  }

  lemma GroupCarriesOver(a: seq<FunctionRecord>, b: seq<FunctionRecord>, gb: seq<Group>, g: Group)
    requires multiset(a) == multiset(b) && KeysIdentify(a)
    requires IsGroup(a, g) && AreGroups(b, gb)
    ensures g in gb
  {
    hide WithDigest, Filter;
    var inA, inB := WithDigest(a, g.digest), WithDigest(b, g.digest);
    WithDigestPermutes(a, b, g.digest);
    assert |multiset(inA)| == |multiset(inB)| == |multiset(g.locations)|;
    var h :| h in gb && h.digest == g.digest;
    assert IsGroup(b, h);
    WithDigestMembers(a, g.digest);
    assert forall x :: x in g.locations ==> x in multiset(g.locations);
    assert forall x :: x in inA <==> x in multiset(inA);
    OrderedPermutationIsUnique(g.locations, h.locations, g.digest);
  }

  /** Whatever the order in which the records are collected, the groups are those of `records`. */
  ghost predicate OrderIsIrrelevant(records: seq<FunctionRecord>, lines: int) {
    forall other, groups, others ::
      (&& multiset(other) == multiset(records)
       && AreGroups(Eligible(records, lines), groups)
       && AreGroups(Eligible(other, lines), others)) ==> groups == others
  }

  /**
    The order of collecting does not matter exactly if among the eligible records no two that differ
    have both the same key and the same digest.
  */
  lemma GroupsIgnoreOrderIff(records: seq<FunctionRecord>, lines: int)
    ensures OrderIsIrrelevant(records, lines) <==> KeysIdentify(Eligible(records, lines))
  {
    hide AreGroups, Eligible;
    if KeysIdentify(Eligible(records, lines)) {
      forall other, groups, others |
        multiset(other) == multiset(records) && AreGroups(Eligible(records, lines), groups)
        && AreGroups(Eligible(other, lines), others)
        ensures groups == others
      {
        EligiblePermutes(records, other, lines);
        PermutedGroups(Eligible(records, lines), Eligible(other, lines), groups, others);
      }
    } else {
      EligibleMembers(records, lines);
      var x, y :| x in Eligible(records, lines) && y in Eligible(records, lines)
                  && x.Key() == y.Key() && x.digest == y.digest && x != y;
      TwoOrders(records, lines, x, y);
    }
  }

  lemma EligibleMembers(records: seq<FunctionRecord>, lines: int)
    ensures forall r :: r in Eligible(records, lines) <==> r in records && r.lines >= lines
  {
    FilterMembers(LongEnough(lines), records);
  }

  lemma EligiblePermutes(a: seq<FunctionRecord>, b: seq<FunctionRecord>, lines: int)
    requires multiset(a) == multiset(b)
    ensures multiset(Eligible(a, lines)) == multiset(Eligible(b, lines))
  {
    forall x ensures multiset(Eligible(a, lines))[x] == multiset(Eligible(b, lines))[x] {
      FilterMultiset(LongEnough(lines), a, x);
      FilterMultiset(LongEnough(lines), b, x);
    }
  }

  function IsRecord(r: FunctionRecord): FunctionRecord -> bool { (s: FunctionRecord) => s == r }

  function IsOther(r: FunctionRecord): FunctionRecord -> bool { (s: FunctionRecord) => s != r }

  /** The records of one digest and key, in the order of collecting, which is that of the group's locations. */
  ghost function Rivals(records: seq<FunctionRecord>, lines: int, digest: string, key: string): seq<FunctionRecord> {
    Filter(Keyed(KeyOf(), key), WithDigest(Eligible(records, lines), digest))
  }

  lemma RivalsAppend(a: seq<FunctionRecord>, b: seq<FunctionRecord>, lines: int, digest: string, key: string)
    ensures Rivals(a + b, lines, digest, key) == Rivals(a, lines, digest, key) + Rivals(b, lines, digest, key)
  {
    FilterAppend(LongEnough(lines), a, b);
    FilterAppend(HasDigest(digest), Eligible(a, lines), Eligible(b, lines));
    FilterAppend(Keyed(KeyOf(), key), WithDigest(Eligible(a, lines), digest), WithDigest(Eligible(b, lines), digest));
  }

  lemma RivalsMembers(records: seq<FunctionRecord>, lines: int, digest: string, key: string)
    ensures forall r :: r in Rivals(records, lines, digest, key) <==>
                          r in records && r.lines >= lines && r.digest == digest && r.Key() == key
  {
    hide Filter;
    EligibleMembers(records, lines);
    FilterMembers(HasDigest(digest), Eligible(records, lines));
    FilterMembers(Keyed(KeyOf(), key), WithDigest(Eligible(records, lines), digest));
  }

  /** Groups show the rivals in the order of collecting. */
  lemma GroupsShowRivals(
    records: seq<FunctionRecord>, lines: int, groups: seq<Group>, x: FunctionRecord, y: FunctionRecord)
    requires x in records && y in records && x != y && x.lines >= lines && y.lines >= lines
    requires x.digest == y.digest && x.Key() == y.Key() && AreGroups(Eligible(records, lines), groups)
    ensures exists g :: g in groups && g.digest == x.digest &&
                        Filter(Keyed(KeyOf(), x.Key()), g.locations) == Rivals(records, lines, x.digest, x.Key())
  {
    hide Filter, Eligible;
    var eligible := Eligible(records, lines);
    EligibleMembers(records, lines);
    FilterMembers(HasDigest(x.digest), eligible);
    var with := WithDigest(eligible, x.digest);
    assert x in with && y in with;
    assert |with| >= 2;
    var g :| g in groups && g.digest == x.digest;
    assert IsGroup(eligible, g);
  }

  lemma {:induction false} SplitPermutes(records: seq<FunctionRecord>, x: FunctionRecord)
    ensures multiset(Filter(IsRecord(x), records) + Filter(IsOther(x), records)) == multiset(records)
    ensures multiset(Filter(IsOther(x), records) + Filter(IsRecord(x), records)) == multiset(records)
  {
    forall r
      ensures multiset(Filter(IsRecord(x), records))[r] + multiset(Filter(IsOther(x), records))[r] ==
              multiset(records)[r]
    {
      FilterMultiset(IsRecord(x), records, r);
      FilterMultiset(IsOther(x), records, r);
    }
  }

  /** Collecting all copies of `x` first or last gives different groups, if `y` has its key and digest. */
  lemma TwoOrders(records: seq<FunctionRecord>, lines: int, x: FunctionRecord, y: FunctionRecord)
    requires x in records && y in records && x != y && x.lines >= lines && y.lines >= lines
    requires x.digest == y.digest && x.Key() == y.Key()
    ensures !OrderIsIrrelevant(records, lines)
  {
    hide AreGroups, Eligible, Filter;
    var copies, rest := Filter(IsRecord(x), records), Filter(IsOther(x), records);
    var d, key := x.digest, x.Key();
    SplitPermutes(records, x);
    FilterMembers(IsRecord(x), records);
    FilterMembers(IsOther(x), records);
    RivalsAppend(copies, rest, lines, d, key);
    RivalsAppend(rest, copies, lines, d, key);
    RivalsMembers(copies, lines, d, key);
    RivalsMembers(rest, lines, d, key);
    var first, last := Rivals(copies, lines, d, key), Rivals(rest, lines, d, key);
    assert x in first && y in last;
    assert (first + last)[0] in first && (last + first)[0] in last;
    if OrderIsIrrelevant(records, lines) {
      GroupsExist(records, lines);
      GroupsExist(copies + rest, lines);
      GroupsExist(rest + copies, lines);
      var groups :| AreGroups(Eligible(records, lines), groups);
      assert AreGroups(Eligible(copies + rest, lines), groups);
      assert AreGroups(Eligible(rest + copies, lines), groups);
      SameRivals(copies + rest, rest + copies, lines, groups, x, y);
      assert false;
    }
  }

  lemma GroupsExist(records: seq<FunctionRecord>, lines: int)
    ensures exists groups :: AreGroups(Eligible(records, lines), groups)
  {
    hide AreGroups;
    GroupsOfDict(Eligible(records, lines));
  }

  lemma SameRivals(a: seq<FunctionRecord>, b: seq<FunctionRecord>, lines: int, groups: seq<Group>,
                   x: FunctionRecord, y: FunctionRecord)
    requires multiset(a) == multiset(b) && x in a && y in a && x != y && x.lines >= lines && y.lines >= lines
    requires x.digest == y.digest && x.Key() == y.Key()
    requires AreGroups(Eligible(a, lines), groups) && AreGroups(Eligible(b, lines), groups)
    ensures Rivals(a, lines, x.digest, x.Key()) == Rivals(b, lines, x.digest, x.Key())
  {
    hide Eligible, Filter, Rivals;
    assert x in multiset(b) && y in multiset(b);
    GroupsShowRivals(a, lines, groups, x, y);
    GroupsShowRivals(b, lines, groups, x, y);
  }

  lemma WithDigestMembers(records: seq<FunctionRecord>, digest: string)
    ensures forall x :: x in WithDigest(records, digest) ==> x in records && x.digest == digest
  {
    FilterMembers(HasDigest(digest), records);
  }

  lemma WithDigestPermutes(a: seq<FunctionRecord>, b: seq<FunctionRecord>, digest: string)
    requires multiset(a) == multiset(b)
    ensures multiset(WithDigest(a, digest)) == multiset(WithDigest(b, digest))
  {
    forall x ensures multiset(WithDigest(a, digest))[x] == multiset(WithDigest(b, digest))[x] {
      FilterMultiset(HasDigest(digest), a, x);
      FilterMultiset(HasDigest(digest), b, x);
    }
  }

  lemma FirstIsLeast(a: seq<FunctionRecord>, x: FunctionRecord)
    requires Ordered(KeyOf(), a) && x in multiset(a)
    ensures a != [] && (x == a[0] || Leq(a[0].Key(), x.Key()))
  {
    assert x in a;
    var i :| 0 <= i < |a| && a[i] == x;
  }

  lemma RestOfPermutation(a: seq<FunctionRecord>, b: seq<FunctionRecord>)
    requires multiset(a) == multiset(b) && a != [] && b != [] && a[0] == b[0]
    ensures multiset(a[1..]) == multiset(b[1..])
  {
    assert a == [a[0]] + a[1..] && b == [b[0]] + b[1..];
    assert multiset(a[1..]) == multiset(a) - multiset{a[0]};
  }

  lemma {:induction false} OrderedPermutationIsUnique(
    a: seq<FunctionRecord>, b: seq<FunctionRecord>, digest: string)
    requires Ordered(KeyOf(), a) && Ordered(KeyOf(), b) && multiset(a) == multiset(b)
    requires KeysIdentify(a) && forall x :: x in a ==> x.digest == digest
    ensures a == b
  {
    hide Leq;
    assert |a| == |multiset(a)| == |b|;
    if a != [] {
      assert a[0] in multiset(a) && b[0] in multiset(b);
      FirstIsLeast(b, a[0]);
      FirstIsLeast(a, b[0]);
      if a[0] != b[0] {
        LeqAntisymmetric(a[0].Key(), b[0].Key());
      }
      assert a[0] == b[0];
      RestOfPermutation(a, b);
      OrderedPermutationIsUnique(a[1..], b[1..], digest);
      assert a == [a[0]] + a[1..] && b == [b[0]] + b[1..];
    }
  }
}
