/**
  From a client table to a canonical one in two ways: the onboarding tool suggests a mapping and
  applies it; ingestion resolves aliases and renames. Where every spec resolves they agree.
*/
module Onboarding {
  import opened Wrappers
  import opened Sequences
  import opened ArrowTable
  import opened OrderedDicts
  import opened ColumnMatcher

  datatype ApplyError = SourceMissing(source: string) | SourceRepeated(source: string) | NothingMapped

  predicate Selects(item: Item<string, Option<string>>) {
    item.value.Some? && item.value.value != ""
  }

  function Occurrences(names: seq<string>, name: string): nat {
    if names == [] then 0 else (if names[0] == name then 1 else 0) + Occurrences(names[1..], name)
  }

  lemma {:induction false} OccurrencesIs(names: seq<string>, name: string)
    ensures Occurrences(names, name) == 0 <==> name !in names
    ensures Distinct(names) && name in names ==> Occurrences(names, name) == 1
  {
    if names != [] {
      OccurrencesIs(names[1..], name);
      assert names == [names[0]] + names[1..];
      if Distinct(names) {
        forall i, j | 0 <= i < j < |names[1..]| ensures names[1..][i] != names[1..][j] {
          assert names[i + 1] != names[j + 1];
        }
      }
    }
  }

  predicate Selectable(table: Table, item: Item<string, Option<string>>) {
    Selects(item) ==> Occurrences(Names(table), item.value.value) == 1
  }

  ghost predicate FirstUnselectable(table: Table, mapping: Mapping, i: nat, source: string) {
    && i < |mapping| && Selects(mapping[i]) && mapping[i].value.value == source && !Selectable(table, mapping[i])
    && forall k :: 0 <= k < i ==> Selectable(table, mapping[k])
  }

  /** The selected columns under their canonical names, in the order of the mapping. */
  function Projected(table: Table, mapping: Mapping): Table {
    if mapping == [] then [] else
      var n := |mapping| - 1;
      OccurrencesIs(Names(table), if Selects(mapping[n]) then mapping[n].value.value else "");
      Projected(table, mapping[..n]) +
      if Selects(mapping[n]) && Selectable(table, mapping[n])
      then [Column(mapping[n].key, FindColumn(table, mapping[n].value.value).value)] else []
  }

  /** The keys of a mapping are different, so filling the dictionary of columns appends. */
  method ApplyColumnMapping(table: Table, mapping: Mapping) returns (r: Result<Table, ApplyError>)
    requires UniqueKeys(mapping)
    ensures r.Success? <==>
              && (forall i :: 0 <= i < |mapping| ==> Selectable(table, mapping[i]))
              && (exists i :: 0 <= i < |mapping| && Selects(mapping[i]))
    ensures r.Success? ==> r.value == Projected(table, mapping)
    ensures r.Failure? ==>
              if r.error.NothingMapped? then forall i :: 0 <= i < |mapping| ==> !Selects(mapping[i])
              else
                && (exists i :: FirstUnselectable(table, mapping, i, r.error.source))
                && if r.error.SourceMissing? then r.error.source !in Names(table)
                   else Occurrences(Names(table), r.error.source) > 1
  {
    var columns: Table := [];
    for i := 0 to |mapping|
      invariant columns == Projected(table, mapping[..i])
      invariant forall k :: 0 <= k < i ==> Selectable(table, mapping[k])
      invariant columns == [] <==> forall k :: 0 <= k < i ==> !Selects(mapping[k])
    {
      assert mapping[..i + 1][..i] == mapping[..i];
      if !Selects(mapping[i]) {
        continue;
      }
      var source := mapping[i].value.value;
      OccurrencesIs(Names(table), source);
      if source !in Names(table) {
        assert FirstUnselectable(table, mapping, i, source);
        return Failure(SourceMissing(source));
      }
      if Occurrences(Names(table), source) > 1 {
        assert FirstUnselectable(table, mapping, i, source);
        return Failure(SourceRepeated(source));
      }
      columns := columns + [Column(mapping[i].key, FindColumn(table, source).value)];
    }
    assert mapping[..|mapping|] == mapping;
    if columns == [] {
      return Failure(NothingMapped);
    }
    return Success(columns);
  }

  // ----- agreement with alias resolution -----

  lemma {:induction false} ExactReach(names: seq<string>, candidate: string)
    ensures Reach(names, Exact, candidate) == if candidate in names then Some(candidate) else None
  {
    if names != [] {
      ExactReach(names[1..], candidate);
      assert names == [names[0]] + names[1..];
    }
  }

  lemma {:induction false} ExactMatch(names: seq<string>, used: set<string>, candidates: seq<string>, source: string)
    requires source in candidates && source in names && source !in used
    requires forall c :: c in candidates && c in names ==> c == source
    ensures MatchAt(names, used, Exact, candidates) == Some(source)
  {
    ExactReach(names, candidates[0]);
    if candidates[0] != source {
      ExactMatch(names, used, candidates[1..], source);
    }
  }

  /** A spec that resolves is matched with the same column, unless an earlier spec has taken it. */
  lemma {:induction false} ResolvedMatchIff(table: Table, specs: seq<ColumnSpec>, i: nat)
    requires i < |specs| && Resolve(Names(table), specs[i]).Success? && Resolve(Names(table), specs[i]).value.Some?
    ensures var source := Resolve(Names(table), specs[i]).value.value;
            Matches(specs, Names(table))[i] == Some(source) <==> source !in TakenBefore(specs, Names(table), i)
  {
    var names := Names(table);
    var source := Resolve(names, specs[i]).value.value;
    var used := TakenBefore(specs, names, i);
    ResolveIs(names, specs[i]);
    MatchOf(specs, names, i);
    if source !in used {
      ExactMatch(names, used, Candidates(specs[i]), source);
      assert TIERS[0] == Exact;
    } else {
      var j :| 0 <= j < i && Matches(specs, names)[j] == Some(source);
      if Matches(specs, names)[i].Some? {
        NoSourceUsedTwice(specs, names, j, i);
      }
    }
  }

  /** No candidate of an earlier spec reaches the column at any tier. */
  ghost predicate NoRival(names: seq<string>, specs: seq<ColumnSpec>, i: nat, source: string)
    requires i <= |specs|
  {
    forall j, c, t: nat :: 0 <= j < i && c in Candidates(specs[j]) && t < 4 ==> !FirstAlike(names, t, c, source)
  }

  /** So a spec gets the column it resolves to whenever no earlier spec could reach it. */
  lemma {:induction false} ResolvedMatchWithoutRival(table: Table, specs: seq<ColumnSpec>, i: nat)
    requires i < |specs| && Resolve(Names(table), specs[i]).Success? && Resolve(Names(table), specs[i]).value.Some?
    requires NoRival(Names(table), specs, i, Resolve(Names(table), specs[i]).value.value)
    ensures Matches(specs, Names(table))[i] == Resolve(Names(table), specs[i]).value
  {
    hide Matches, Resolve, FirstAlike;
    var names, source := Names(table), Resolve(Names(table), specs[i]).value.value;
    ResolvedMatchIff(table, specs, i);
    forall j | 0 <= j < i ensures Matches(specs, names)[j] != Some(source) {
      MatchIsReached(specs, names, j, source);
    }
  }

  lemma MatchIsReached(specs: seq<ColumnSpec>, names: seq<string>, j: nat, source: string)
    requires j < |specs|
    ensures Matches(specs, names)[j] == Some(source) ==>
              exists c, t: nat :: c in Candidates(specs[j]) && t < 4 && FirstAlike(names, t, c, source)
  {
    hide Matches, FirstAlike;
    if Matches(specs, names)[j] == Some(source) {
      MatchIsStrongest(specs, names, j);
      var t: nat, k: nat :| Justifies(names, TakenBefore(specs, names, j), Candidates(specs[j]), t, k, source);
      assert Candidates(specs[j])[k] in Candidates(specs[j]);
    }
  }

  /** It can happen: here "A" has no column of its own and takes the one that "a" resolves to. */
  lemma EarlierSpecCanTakeResolvedColumn(a: ColumnSpec, b: ColumnSpec)
    requires a.name == "A" && b.name == "a" && a.aliases == [] && b.aliases == []
    ensures ValidSpecs([a, b])
    ensures Resolve(["a"], a) == Success(None) && Resolve(["a"], b) == Success(Some("a"))
    ensures Matches([a, b], ["a"]) == [Some("a"), None]
  {
    hide Matches, ValidSpecs, Resolve;
    OneCaseApart(a, b);
    TakenIgnoringCase(a);
    OnlyOwnNameMatches(["a"], a);
    OnlyOwnNameMatches(["a"], b);
    MatchOf([a, b], ["a"], 1);
    var m := Matches([a, b], ["a"]);
    assert [a, b][..1] == [a] && m[..1] == Matches([a], ["a"]);
    if m[1].Some? {
      NoSourceUsedTwice([a, b], ["a"], 0, 1);
    }
  }

  lemma OneCaseApart(a: ColumnSpec, b: ColumnSpec)
    requires a.name == "A" && b.name == "a" && a.aliases == [] && b.aliases == []
    ensures ValidSpecs([a, b])
  {
    assert [a, b][..1] == [a] && [a][..0] == [];
    assert "A"[0] != "a"[0];
    assert Candidates(a) == ["A"] && Candidates(b) == ["a"];
    assert Identifiers([a]) == Identifiers([]) + ["A"] == ["A"];
    assert Identifiers([a, b]) == Identifiers([a]) + ["a"] == ["A", "a"];
  }

  lemma TakenIgnoringCase(a: ColumnSpec)
    requires a.name == "A" && a.aliases == []
    ensures Matches([a], ["a"]) == [Some("a")]
  {
    assert [a][..0] == [] && Candidates(a) == ["A"];
    assert "A"[0] != "a"[0];
    var used: set<string> := {};
    ExactReach(["a"], "A");
    assert TIERS[0] == Exact && TIERS[1..][0] == IgnoringCase;
    assert MatchAt(["a"], used, Exact, ["A"]).None?;
    assert Reach(["a"], IgnoringCase, "A") == Some("a");
    assert MatchAt(["a"], used, IgnoringCase, ["A"]) == Some("a");
  }

  /** What the constructor of a spec checks. */
  ghost predicate NonEmptyNames(spec: ColumnSpec) {
    forall c :: c in Candidates(spec) ==> c != ""
  }

  ghost predicate AllResolve(table: Table, specs: seq<ColumnSpec>) {
    forall i :: 0 <= i < |specs| ==>
                  Resolve(Names(table), specs[i]).Success? && Resolve(Names(table), specs[i]).value.Some?
  }

  lemma SharedCandidate(specs: seq<ColumnSpec>, i: nat, j: nat, c: string)
    requires ValidSpecs(specs) && i < |specs| && j < |specs|
    requires c in Candidates(specs[i]) && c in Candidates(specs[j])
    ensures i == j
  {
    var k :| 0 <= k < |Candidates(specs[i])| && Candidates(specs[i])[k] == c;
    var l :| 0 <= l < |Candidates(specs[j])| && Candidates(specs[j])[l] == c;
    OneOwner(specs, i, k, j, l);
  }

  lemma {:induction false} AllMatchResolved(table: Table, specs: seq<ColumnSpec>, n: nat)
    requires ValidSpecs(specs) && AllResolve(table, specs) && n <= |specs|
    ensures forall i :: 0 <= i < n ==>
                          Matches(specs, Names(table))[i] == Resolve(Names(table), specs[i]).value
  {
    hide Matches, Resolve, ValidSpecs;
    if n > 0 {
      var names, i := Names(table), n - 1;
      AllMatchResolved(table, specs, i);
      var source := Resolve(names, specs[i]).value.value;
      ResolvedMatchIff(table, specs, i);
      ResolveIs(names, specs[i]);
      if source in TakenBefore(specs, names, i) {
        var j :| 0 <= j < i && Matches(specs, names)[j] == Some(source);
        ResolveIs(names, specs[j]);
        SharedCandidate(specs, i, j, source);
      }
    }
  }

  lemma {:induction false} MappingIsInOrder(specs: seq<ColumnSpec>, matches: seq<Option<string>>)
    requires ValidSpecs(specs) && |matches| == |specs|
    ensures MappingOf(specs, matches) == seq(|specs|, i requires 0 <= i < |specs| => Item(specs[i].name, matches[i]))
  {
    if specs != [] {
      var n := |specs| - 1;
      ValidPrefix(specs, n);
      MappingIsInOrder(specs[..n], matches[..n]);
      var before := MappingOf(specs[..n], matches[..n]);
      forall i | 0 <= i < |before| ensures before[i].key != specs[n].name {
        DistinctSpecNames(specs, i, n);
      }
      PutNew(before, specs[n].name, matches[n]);
    }
  }

  lemma ValidPrefix(specs: seq<ColumnSpec>, n: nat)
    requires ValidSpecs(specs) && n <= |specs|
    ensures ValidSpecs(specs[..n])
  {
    IdentifiersPrefix(specs, n);
    var a, b := Identifiers(specs[..n]), Identifiers(specs);
    forall i, j | 0 <= i < j < |a| ensures a[i] != a[j] {
      assert a[i] == b[i] && a[j] == b[j];
    }
  }

  /** The normalised table cut down to the columns of the specs, in their order. */
  function NormalizedProjection(table: Table, specs: seq<ColumnSpec>): Table {
    if specs == [] then [] else
      var n := |specs| - 1;
      NormalizedProjection(table, specs[..n]) +
      match FindColumn(table, specs[n].name) case None => [] case Some(data) => [Column(specs[n].name, data)]
  }

  lemma {:induction false} ItemAgrees(table: Table, specs: seq<ColumnSpec>, i: nat)
    requires ValidSpecs(specs) && AllResolve(table, specs) && Distinct(Names(table)) && i < |specs|
    requires NonEmptyNames(specs[i])
    ensures var item := Item(specs[i].name, Resolve(Names(table), specs[i]).value);
            && Selects(item) && Selectable(table, item)
            && FindColumn(table, item.value.value).Some?
            && FindColumn(table, item.value.value) == FindColumn(Renamed(table, specs), specs[i].name)
  {
    ResolveIs(Names(table), specs[i]);
    OccurrencesIs(Names(table), Resolve(Names(table), specs[i]).value.value);
    ColumnAfterRenaming(table, specs, i);
  }

  lemma ProjectedStep(table: Table, mapping: Mapping, i: nat)
    requires i < |mapping| && Selects(mapping[i]) && Selectable(table, mapping[i])
    requires FindColumn(table, mapping[i].value.value).Some?
    ensures Projected(table, mapping[..i + 1]) ==
            Projected(table, mapping[..i]) + [Column(mapping[i].key, FindColumn(table, mapping[i].value.value).value)]
  {
    assert mapping[..i + 1][..i] == mapping[..i];
  }

  lemma NormalizedProjectionStep(table: Table, specs: seq<ColumnSpec>, i: nat)
    requires i < |specs| && FindColumn(table, specs[i].name).Some?
    ensures NormalizedProjection(table, specs[..i + 1]) ==
            NormalizedProjection(table, specs[..i]) + [Column(specs[i].name, FindColumn(table, specs[i].name).value)]
  {
    assert specs[..i + 1][..i] == specs[..i];
  }

  lemma {:induction false} ProjectionsAgree(table: Table, specs: seq<ColumnSpec>, mapping: Mapping, n: nat)
    requires ValidSpecs(specs) && AllResolve(table, specs) && Distinct(Names(table)) && n <= |specs| == |mapping|
    requires forall i :: 0 <= i < |specs| ==> NonEmptyNames(specs[i])
    requires forall i :: 0 <= i < |specs| ==> mapping[i] == Item(specs[i].name, Resolve(Names(table), specs[i]).value)
    ensures Projected(table, mapping[..n]) == NormalizedProjection(Renamed(table, specs), specs[..n])
  {
    if n > 0 {
      var i := n - 1;
      ProjectionsAgree(table, specs, mapping, i);
      ItemAgrees(table, specs, i);
      ProjectedStep(table, mapping, i);
      NormalizedProjectionStep(Renamed(table, specs), specs, i);
    }
  }

  /**
    Onboarding agrees with ingestion: when the columns are distinct and every spec resolves, the
    suggestion is the resolution, applying it succeeds, and the outcome is the normalised table
    projected to the specs.
  */
  lemma {:induction false} OnboardingAgreesWithIngestion(table: Table, specs: seq<ColumnSpec>)
    requires specs != [] && ValidSpecs(specs) && AllResolve(table, specs) && Distinct(Names(table))
    requires forall i :: 0 <= i < |specs| ==> NonEmptyNames(specs[i])
    ensures var mapping := MappingOf(specs, Matches(specs, Names(table)));
            && |mapping| == |specs|
            && (forall i :: 0 <= i < |specs| ==>
                              && mapping[i] == Item(specs[i].name, Resolve(Names(table), specs[i]).value)
                              && Selects(mapping[i]) && Selectable(table, mapping[i]))
            && Projected(table, mapping) == NormalizedProjection(Renamed(table, specs), specs)
  {
    var matches := Matches(specs, Names(table));
    var mapping := MappingOf(specs, matches);
    AllMatchResolved(table, specs, |specs|);
    MappingIsInOrder(specs, matches);
    forall i | 0 <= i < |specs| ensures Selects(mapping[i]) && Selectable(table, mapping[i]) {
      ItemAgrees(table, specs, i);
    }
    ProjectionsAgree(table, specs, mapping, |specs|);
    assert mapping[..|specs|] == mapping && specs[..|specs|] == specs;
  }

  /** The two code paths side by side. */
  method MapClientTable(table: Table, specs: seq<ColumnSpec>) returns (r: Result<Table, ApplyError>)
    requires specs != [] && ValidSpecs(specs) && AllResolve(table, specs) && Distinct(Names(table))
    requires forall i :: 0 <= i < |specs| ==> NonEmptyNames(specs[i])
    ensures r == Success(NormalizedProjection(Renamed(table, specs), specs))
  {
    OnboardingAgreesWithIngestion(table, specs);
    var mapping := SuggestColumnMapping(specs, Names(table));
    assert UniqueKeys(mapping) by {
      forall i, j | 0 <= i < j < |mapping| ensures mapping[i].key != mapping[j].key {
        DistinctSpecNames(specs, i, j);
      }
    }
    assert Selects(mapping[0]);
    r := ApplyColumnMapping(table, mapping);
  }
}
