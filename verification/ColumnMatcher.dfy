/**
  The column-mapping suggestion: for each spec, four tiers of keys are tried in turn, each through an
  index from key to the first source column that has it. The naive reading, without indexes, is
  `Matches`; the method is proved equal to it and the laws are proved about it.
*/
module ColumnMatcher {
  import opened Wrappers
  import opened Sequences
  import opened Text
  import opened NameTokens
  import opened ArrowData
  import opened ArrowTable
  import opened OrderedDicts

  datatype Tier = Exact | IgnoringCase | Collapsed | TokenSet

  datatype Key = NameKey(name: string) | TokensKey(tokens: set<string>)

  const TIERS: seq<Tier> := [Exact, IgnoringCase, Collapsed, TokenSet]

  function KeyOf(tier: Tier, name: string): Key {
    match tier
    case Exact => NameKey(name)
    case IgnoringCase => NameKey(Lower(name))
    case Collapsed => NameKey(CollapsedName(name))
    case TokenSet => TokensKey(set t | t in Tokens(name))
  }

  type Mapping = Dict<string, Option<string>>

  // ----- the naive reading -----

  /** The first source column with the given key. */
  function FirstWithKey(sources: seq<string>, tier: Tier, key: Key): Option<string> {
    if sources == [] then None
    else if KeyOf(tier, sources[0]) == key then Some(sources[0])
    else FirstWithKey(sources[1..], tier, key)
  }

  /** The source column a candidate name reaches at a tier. */
  function Reach(sources: seq<string>, tier: Tier, candidate: string): Option<string> {
    FirstWithKey(sources, tier, KeyOf(tier, candidate))
  }

  predicate Blocked(sources: seq<string>, used: set<string>, tier: Tier, candidate: string) {
    Reach(sources, tier, candidate).None? || Reach(sources, tier, candidate).value in used
  }

  /** The first candidate that reaches a free source column at this tier. */
  function MatchAt(sources: seq<string>, used: set<string>, tier: Tier, candidates: seq<string>): Option<string> {
    if candidates == [] then None
    else if Blocked(sources, used, tier, candidates[0]) then MatchAt(sources, used, tier, candidates[1..])
    else Reach(sources, tier, candidates[0])
  }

  function MatchFrom(
    sources: seq<string>, used: set<string>, tiers: seq<Tier>, candidates: seq<string>): Option<string>
  {
    if tiers == [] then None
    else if MatchAt(sources, used, tiers[0], candidates).Some? then MatchAt(sources, used, tiers[0], candidates)
    else MatchFrom(sources, used, tiers[1..], candidates)
  }

  function UsedBy(matches: seq<Option<string>>): set<string> {
    if matches == [] then {}
    else
      var last := matches[|matches| - 1];
      UsedBy(matches[..|matches| - 1]) + if last.Some? then {last.value} else {}
  }

  /** What each spec is matched with, in the order of the specs. */
  function Matches(specs: seq<ColumnSpec>, sources: seq<string>): (r: seq<Option<string>>)
    ensures |r| == |specs|
  {
    if specs == [] then [] else
      var before := Matches(specs[..|specs| - 1], sources);
      before + [MatchFrom(sources, UsedBy(before), TIERS, Candidates(specs[|specs| - 1]))]
  }

  function MappingOf(specs: seq<ColumnSpec>, matches: seq<Option<string>>): Mapping
    requires |specs| == |matches|
  {
    if specs == [] then []
    else
      var n := |specs| - 1;
      Put(MappingOf(specs[..n], matches[..n]), specs[n].name, matches[n])
  }

  // ----- the method -----

  ghost predicate Indexes(lookup: map<Key, string>, sources: seq<string>, tier: Tier) {
    forall key {:trigger FirstWithKey(sources, tier, key)} ::
      FirstWithKey(sources, tier, key) == if key in lookup then Some(lookup[key]) else None
  }

  lemma {:induction false} FirstWithKeySnoc(sources: seq<string>, name: string, tier: Tier, key: Key)
    ensures FirstWithKey(sources + [name], tier, key) ==
            if FirstWithKey(sources, tier, key).Some? then FirstWithKey(sources, tier, key)
            else if KeyOf(tier, name) == key then Some(name) else None
  {
    if sources == [] {
      assert sources + [name] == [name];
    } else {
      assert (sources + [name])[1..] == sources[1..] + [name];
      FirstWithKeySnoc(sources[1..], name, tier, key);
    }
  }

  /** `lookup.setdefault(key_of(name), name)` */
  function SetDefault(lookup: map<Key, string>, tier: Tier, name: string): map<Key, string> {
    if KeyOf(tier, name) in lookup then lookup else lookup[KeyOf(tier, name) := name]
  }

  lemma {:induction false} IndexesSetDefault(lookup: map<Key, string>, sources: seq<string>, tier: Tier, name: string)
    requires Indexes(lookup, sources, tier)
    ensures Indexes(SetDefault(lookup, tier, name), sources + [name], tier)
  {
    forall key
      ensures FirstWithKey(sources + [name], tier, key) ==
              var l := SetDefault(lookup, tier, name); if key in l then Some(l[key]) else None
    {
      FirstWithKeySnoc(sources, name, tier, key);
    }
  }

  ghost predicate AllIndexed(exact: map<Key, string>, lower: map<Key, string>, collapsed: map<Key, string>,
                             token: map<Key, string>, sources: seq<string>) {
    && Indexes(exact, sources, Exact) && Indexes(lower, sources, IgnoringCase)
    && Indexes(collapsed, sources, Collapsed) && Indexes(token, sources, TokenSet)
  }

  lemma {:induction false} AllIndexedStep(exact: map<Key, string>, lower: map<Key, string>, collapsed: map<Key, string>,
                       token: map<Key, string>, sources: seq<string>, name: string)
    requires AllIndexed(exact, lower, collapsed, token, sources)
    ensures AllIndexed(SetDefault(exact, Exact, name), SetDefault(lower, IgnoringCase, name),
                       SetDefault(collapsed, Collapsed, name), SetDefault(token, TokenSet, name), sources + [name])
  {
    IndexesSetDefault(exact, sources, Exact, name);
    IndexesSetDefault(lower, sources, IgnoringCase, name);
    IndexesSetDefault(collapsed, sources, Collapsed, name);
    IndexesSetDefault(token, sources, TokenSet, name);
  }

  lemma NothingIndexed()
    ensures AllIndexed(map[], map[], map[], map[], [])
  {
  }

  /** One pass over the source columns; the first column with a key keeps it. */
  method BuildIndexes(sources: seq<string>)
    returns (exact: map<Key, string>, lower: map<Key, string>, collapsed: map<Key, string>, token: map<Key, string>)
    ensures AllIndexed(exact, lower, collapsed, token, sources)
  {
    hide AllIndexed, SetDefault, KeyOf;
    exact, lower, collapsed, token := map[], map[], map[], map[];
    NothingIndexed();
    for i := 0 to |sources|
      invariant AllIndexed(exact, lower, collapsed, token, sources[..i])
    {
      var name := sources[i];
      AllIndexedStep(exact, lower, collapsed, token, sources[..i], name);
      assert sources[..i + 1] == sources[..i] + [name];
      exact := SetDefault(exact, Exact, name);
      lower := SetDefault(lower, IgnoringCase, name);
      collapsed := SetDefault(collapsed, Collapsed, name);
      token := SetDefault(token, TokenSet, name);
    }
    assert sources[..|sources|] == sources;
  }

  /** The search for one spec: tiers outside, candidates inside, stopping at the first free source. */
  method FindMatch(
    lookups: seq<map<Key, string>>, ghost sources: seq<string>, used: set<string>, candidates: seq<string>)
    returns (found: Option<string>)
    requires |lookups| == |TIERS| && forall t :: 0 <= t < |TIERS| ==> Indexes(lookups[t], sources, TIERS[t])
    ensures found == MatchFrom(sources, used, TIERS, candidates)
  {
    for t := 0 to |TIERS|
      invariant MatchFrom(sources, used, TIERS, candidates) == MatchFrom(sources, used, TIERS[t..], candidates)
    {
      for j := 0 to |candidates|
        invariant MatchAt(sources, used, TIERS[t], candidates) == MatchAt(sources, used, TIERS[t], candidates[j..])
      {
        var key := KeyOf(TIERS[t], candidates[j]);
        assert Reach(sources, TIERS[t], candidates[j]) == if key in lookups[t] then Some(lookups[t][key]) else None;
        if key in lookups[t] && lookups[t][key] !in used {
          assert TIERS[t..][0] == TIERS[t];
          return Some(lookups[t][key]);
        }
        assert candidates[j..][1..] == candidates[j + 1..];
      }
      assert TIERS[t..][0] == TIERS[t] && TIERS[t..][1..] == TIERS[t + 1..];
    }
    return None;
  }

  lemma SuggestStep(specs: seq<ColumnSpec>, sources: seq<string>, i: nat)
    requires i < |specs|
    ensures var before := Matches(specs[..i], sources);
            var found := MatchFrom(sources, UsedBy(before), TIERS, Candidates(specs[i]));
            && Matches(specs[..i + 1], sources) == before + [found]
            && UsedBy(before + [found]) == UsedBy(before) + (if found.Some? then {found.value} else {})
            && MappingOf(specs[..i + 1], before + [found]) == Put(MappingOf(specs[..i], before), specs[i].name, found)
  {
    assert specs[..i + 1][..i] == specs[..i];
    var before := Matches(specs[..i], sources);
    var found := MatchFrom(sources, UsedBy(before), TIERS, Candidates(specs[i]));
    assert (before + [found])[..i] == before;
  }

  lemma SuggestStart(sources: seq<string>)
    ensures Matches([], sources) == [] && UsedBy([]) == {} && MappingOf([], []) == []
  {
  }

  /** Builds the indexes once, then matches the specs in order, each source column at most once. */
  method SuggestColumnMapping(specs: seq<ColumnSpec>, sources: seq<string>) returns (mapping: Mapping)
    ensures mapping == MappingOf(specs, Matches(specs, sources))
  {
    hide Matches, UsedBy, MappingOf, MatchFrom, Put, Indexes, Candidates;
    var exact, lower, collapsed, token := BuildIndexes(sources);
    SuggestStart(sources);
    var lookups := [exact, lower, collapsed, token];
    var used: set<string> := {};
    mapping := [];
    ghost var matches: seq<Option<string>> := [];
    for i := 0 to |specs|
      invariant matches == Matches(specs[..i], sources)
      invariant used == UsedBy(matches)
      invariant mapping == MappingOf(specs[..i], matches)
    {
      SuggestStep(specs, sources, i);
      var found := FindMatch(lookups, sources, used, Candidates(specs[i]));
      if found.Some? {
        used := used + {found.value};
      }
      mapping := Put(mapping, specs[i].name, found);
      matches := matches + [found];
    }
    assert specs[..|specs|] == specs;
  }

  // ----- laws of the matching -----

  lemma {:induction false} FirstWithKeyIs(sources: seq<string>, tier: Tier, key: Key)
    ensures match FirstWithKey(sources, tier, key)
            case None => forall s :: s in sources ==> KeyOf(tier, s) != key
            case Some(s) => s in sources && KeyOf(tier, s) == key
  {
    if sources != [] {
      FirstWithKeyIs(sources[1..], tier, key);
    }
  }

  lemma {:induction false} MatchAtIs(sources: seq<string>, used: set<string>, tier: Tier, candidates: seq<string>)
    ensures match MatchAt(sources, used, tier, candidates)
            case None => forall c :: c in candidates ==> Blocked(sources, used, tier, c)
            case Some(s) =>
              s in sources && s !in used &&
              exists j :: && 0 <= j < |candidates|
                          && Reach(sources, tier, candidates[j]) == Some(s)
                          && KeyOf(tier, candidates[j]) == KeyOf(tier, s)
                          && forall k :: 0 <= k < j ==> Blocked(sources, used, tier, candidates[k])
  {
    hide KeyOf, FirstWithKey;
    if candidates != [] {
      FirstWithKeyIs(sources, tier, KeyOf(tier, candidates[0]));
      MatchAtIs(sources, used, tier, candidates[1..]);
      var found := MatchAt(sources, used, tier, candidates);
      if found.Some? && Blocked(sources, used, tier, candidates[0]) {
        var rest := candidates[1..];
        var j :| && 0 <= j < |rest|
                 && Reach(sources, tier, rest[j]) == Some(found.value)
                 && KeyOf(tier, rest[j]) == KeyOf(tier, found.value)
                 && forall k :: 0 <= k < j ==> Blocked(sources, used, tier, rest[k]);
        assert candidates[j + 1] == rest[j];
        forall k | 0 <= k < j + 1 ensures Blocked(sources, used, tier, candidates[k]) {
          if k > 0 { assert candidates[k] == rest[k - 1]; }
        }
      }
    }
  }

  /** Every candidate is blocked at every tier before `t`. */
  ghost predicate BlockedBefore(sources: seq<string>, used: set<string>, t: nat, candidates: seq<string>)
    requires t <= |TIERS|
  {
    forall u, c :: 0 <= u < t && c in candidates ==> Blocked(sources, used, TIERS[u], c)
  }

  lemma {:induction false} MatchFromIs(sources: seq<string>, used: set<string>, t: nat, candidates: seq<string>)
    requires t <= |TIERS| && BlockedBefore(sources, used, t, candidates)
    ensures match MatchFrom(sources, used, TIERS[t..], candidates)
            case None => BlockedBefore(sources, used, |TIERS|, candidates)
            case Some(s) =>
              exists u :: 0 <= u < |TIERS|
                          && MatchAt(sources, used, TIERS[u], candidates) == Some(s)
                          && BlockedBefore(sources, used, u, candidates)
    decreases |TIERS| - t
  {
    if t < |TIERS| {
      assert TIERS[t..][0] == TIERS[t] && TIERS[t..][1..] == TIERS[t + 1..];
      MatchAtIs(sources, used, TIERS[t], candidates);
      if MatchAt(sources, used, TIERS[t], candidates).None? {
        MatchFromIs(sources, used, t + 1, candidates);
      }
    }
  }

  lemma {:induction false} UsedByIs(matches: seq<Option<string>>)
    ensures forall s :: s in UsedBy(matches) <==> Some(s) in matches
  {
    if matches != [] {
      var rest, last := matches[..|matches| - 1], matches[|matches| - 1];
      assert matches == rest + [last];
      UsedByIs(rest);
    }
  }

  lemma {:induction false} MatchesPrefix(specs: seq<ColumnSpec>, sources: seq<string>, i: nat)
    requires i <= |specs|
    ensures Matches(specs, sources)[..i] == Matches(specs[..i], sources)
  {
    if i < |specs| {
      assert specs[..|specs| - 1][..i] == specs[..i];
      MatchesPrefix(specs[..|specs| - 1], sources, i);
      assert Matches(specs, sources)[..i] == Matches(specs[..|specs| - 1], sources)[..i];
    } else {
      assert specs[..i] == specs;
    }
  }

  /** The sources that earlier specs have taken when spec `i` is matched. */
  ghost function TakenBefore(specs: seq<ColumnSpec>, sources: seq<string>, i: nat): (r: set<string>)
    requires i <= |specs|
    ensures forall s :: s in r <==> exists j :: 0 <= j < i && Matches(specs, sources)[j] == Some(s)
  {
    MatchesPrefix(specs, sources, i);
    UsedByIs(Matches(specs[..i], sources));
    UsedBy(Matches(specs[..i], sources))
  }

  lemma MatchOf(specs: seq<ColumnSpec>, sources: seq<string>, i: nat)
    requires i < |specs|
    ensures Matches(specs, sources)[i]
            == MatchFrom(sources, TakenBefore(specs, sources, i), TIERS, Candidates(specs[i]))
  {
    MatchesPrefix(specs, sources, i + 1);
    SuggestStep(specs, sources, i);
    assert Matches(specs, sources)[i] == Matches(specs, sources)[..i + 1][i];
  }

  /** No source column is matched with two specs, and every match is one of the source columns. */
  lemma NoSourceUsedTwice(specs: seq<ColumnSpec>, sources: seq<string>, i: nat, j: nat)
    requires i < j < |specs| && Matches(specs, sources)[j].Some?
    ensures Matches(specs, sources)[j].value in sources
    ensures Matches(specs, sources)[i] != Matches(specs, sources)[j]
  {
    var used := TakenBefore(specs, sources, j);
    MatchOf(specs, sources, j);
    MatchFromIs(sources, used, 0, Candidates(specs[j]));
    assert TIERS[0..] == TIERS;
    var s := Matches(specs, sources)[j].value;
    var t :| 0 <= t < |TIERS| && MatchAt(sources, used, TIERS[t], Candidates(specs[j])) == Some(s)
             && BlockedBefore(sources, used, t, Candidates(specs[j]));
    MatchAtIs(sources, used, TIERS[t], Candidates(specs[j]));
  }

  // ----- what the matching means, said of the names -----

  /** How names are alike at the four tiers, the strongest first. */
  ghost predicate Alike(t: nat, a: string, b: string) {
    if t == 0 then a == b
    else if t == 1 then Lower(a) == Lower(b)
    else if t == 2 then Lower(Filter(IsAlnum, a)) == Lower(Filter(IsAlnum, b))
    else forall token :: token in Tokens(a) <==> token in Tokens(b)
  }

  /** Two names have equal keys at a tier exactly if they are alike there. */
  lemma SameKeyIff(t: nat, a: string, b: string)
    requires t < |TIERS|
    ensures |TIERS| == 4
    ensures KeyOf(TIERS[t], a) == KeyOf(TIERS[t], b) <==> Alike(t, a, b)
  {
    hide Tokens, Filter;
    TokensLoseNothing(a);
    TokensLoseNothing(b);
    var x, y := set token | token in Tokens(a), set token | token in Tokens(b);
    assert x == y <==> forall token :: token in Tokens(a) <==> token in Tokens(b) by {
      assert forall token :: token in x <==> token in Tokens(a);
      assert forall token :: token in y <==> token in Tokens(b);
    }
    match TIERS[t]
    case Exact =>
    case IgnoringCase =>
    case Collapsed => assert KeyOf(Collapsed, a) == NameKey(Lower(Filter(IsAlnum, a)));
    case TokenSet => assert KeyOf(TokenSet, a) == TokensKey(x) && KeyOf(TokenSet, b) == TokensKey(y);
  }

  /** `s` is the first of the sources that is alike. */
  ghost predicate FirstAlike(sources: seq<string>, t: nat, candidate: string, s: string) {
    exists i :: 0 <= i < |sources| && sources[i] == s && Alike(t, candidate, s) &&
                forall j :: 0 <= j < i ==> !Alike(t, candidate, sources[j])
  }

  lemma {:induction false} FirstWithKeyAt(sources: seq<string>, tier: Tier, key: Key) returns (i: nat)
    requires FirstWithKey(sources, tier, key).Some?
    ensures i < |sources| && FirstWithKey(sources, tier, key) == Some(sources[i]) && KeyOf(tier, sources[i]) == key
    ensures forall j :: 0 <= j < i ==> KeyOf(tier, sources[j]) != key
  {
    hide KeyOf;
    if KeyOf(tier, sources[0]) == key {
      i := 0;
    } else {
      i := FirstWithKeyAt(sources[1..], tier, key);
      i := i + 1;
    }
  }

  lemma ReachIff(sources: seq<string>, t: nat, candidate: string, s: string)
    requires t < |TIERS|
    ensures Reach(sources, TIERS[t], candidate) == Some(s) <==> FirstAlike(sources, t, candidate, s)
  {
    hide KeyOf, Alike, FirstWithKey, TIERS;
    var key := KeyOf(TIERS[t], candidate);
    FirstWithKeyIs(sources, TIERS[t], key);
    forall name ensures KeyOf(TIERS[t], name) == key <==> Alike(t, candidate, name) {
      SameKeyIff(t, candidate, name);
    }
    if FirstWithKey(sources, TIERS[t], key).Some? {
      var i := FirstWithKeyAt(sources, TIERS[t], key);
      assert FirstAlike(sources, t, candidate, sources[i]);
      if FirstAlike(sources, t, candidate, s) {
        FirstAlikeIsUnique(sources, t, candidate, s, sources[i]);
      }
    }
  }

  /** The candidate has no free source at the tier: the first that is alike, if any, is taken. */
  ghost predicate NoneFree(sources: seq<string>, used: set<string>, t: nat, candidate: string) {
    forall s :: FirstAlike(sources, t, candidate, s) ==> s in used
  }

  lemma BlockedIff(sources: seq<string>, used: set<string>, t: nat, candidate: string)
    requires t < |TIERS|
    ensures Blocked(sources, used, TIERS[t], candidate) <==> NoneFree(sources, used, t, candidate)
  {
    hide Reach, FirstAlike, TIERS;
    forall s ensures Reach(sources, TIERS[t], candidate) == Some(s) <==> FirstAlike(sources, t, candidate, s) {
      ReachIff(sources, t, candidate, s);
    }
    if NoneFree(sources, used, t, candidate) && Reach(sources, TIERS[t], candidate).Some? {
      assert FirstAlike(sources, t, candidate, Reach(sources, TIERS[t], candidate).value);
    }
  }

  ghost predicate NoneFreeBefore(sources: seq<string>, used: set<string>, t: nat, candidates: seq<string>) {
    forall u: nat, c :: u < t && c in candidates ==> NoneFree(sources, used, u, c)
  }

  lemma BlockedBeforeIff(sources: seq<string>, used: set<string>, t: nat, candidates: seq<string>)
    requires t <= |TIERS|
    ensures BlockedBefore(sources, used, t, candidates) <==> NoneFreeBefore(sources, used, t, candidates)
  {
    hide Blocked, NoneFree, TIERS;
    forall u: nat, c | u < t && c in candidates
      ensures Blocked(sources, used, TIERS[u], c) <==> NoneFree(sources, used, u, c)
    {
      BlockedIff(sources, used, u, c);
    }
  }

  /** Candidate `j` has the free source `s` at tier `t`; none has one at a stronger tier, nor one before it here. */
  ghost predicate Justifies(
    sources: seq<string>, used: set<string>, candidates: seq<string>, t: nat, j: nat, s: string)
  {
    && t < 4 && j < |candidates|
    && FirstAlike(sources, t, candidates[j], s) && s !in used
    && NoneFreeBefore(sources, used, t, candidates)
    && forall k :: 0 <= k < j ==> NoneFree(sources, used, t, candidates[k])
  }

  /**
    A spec is matched exactly through its strongest tier, and there its first candidate, whose first
    source that is alike is not taken; it stays unmatched exactly if there is none at any tier.
  */
  lemma MatchIsStrongest(specs: seq<ColumnSpec>, sources: seq<string>, i: nat)
    requires i < |specs|
    ensures var used := TakenBefore(specs, sources, i);
            match Matches(specs, sources)[i]
            case None => NoneFreeBefore(sources, used, 4, Candidates(specs[i]))
            case Some(s) => exists t, j :: Justifies(sources, used, Candidates(specs[i]), t, j, s)
  {
    hide Matches, MatchFrom, MatchAt, Reach, FirstAlike, KeyOf, NoneFree, Blocked;
    var used, candidates := TakenBefore(specs, sources, i), Candidates(specs[i]);
    MatchOf(specs, sources, i);
    MatchFromIs(sources, used, 0, candidates);
    assert TIERS[0..] == TIERS;
    BlockedBeforeIff(sources, used, |TIERS|, candidates);
    if Matches(specs, sources)[i].Some? {
      var s := Matches(specs, sources)[i].value;
      var t :| 0 <= t < |TIERS| && MatchAt(sources, used, TIERS[t], candidates) == Some(s)
               && BlockedBefore(sources, used, t, candidates);
      MatchAtIs(sources, used, TIERS[t], candidates);
      var j :| && 0 <= j < |candidates|
               && Reach(sources, TIERS[t], candidates[j]) == Some(s)
               && KeyOf(TIERS[t], candidates[j]) == KeyOf(TIERS[t], s)
               && forall k :: 0 <= k < j ==> Blocked(sources, used, TIERS[t], candidates[k]);
      BlockedBeforeIff(sources, used, t, candidates);
      ReachIff(sources, t, candidates[j], s);
      forall k | 0 <= k < j ensures NoneFree(sources, used, t, candidates[k]) {
        BlockedIff(sources, used, t, candidates[k]);
      }
      assert Justifies(sources, used, candidates, t, j, s);
    }
  }

  lemma FirstAlikeIsUnique(sources: seq<string>, t: nat, candidate: string, s: string, s': string)
    requires FirstAlike(sources, t, candidate, s) && FirstAlike(sources, t, candidate, s')
    ensures s == s'
  {
    hide Alike;
    var i :| 0 <= i < |sources| && sources[i] == s && Alike(t, candidate, s) &&
             forall j :: 0 <= j < i ==> !Alike(t, candidate, sources[j]);
    var k :| 0 <= k < |sources| && sources[k] == s' && Alike(t, candidate, s') &&
             forall j :: 0 <= j < k ==> !Alike(t, candidate, sources[j]);
    assert i == k;
  }

  /** The justification is unique, so together with the previous lemma it determines the match. */
  lemma JustificationIsUnique(sources: seq<string>, used: set<string>, candidates: seq<string>,
                              t: nat, j: nat, s: string, t': nat, j': nat, s': string)
    requires Justifies(sources, used, candidates, t, j, s) && Justifies(sources, used, candidates, t', j', s')
    ensures t == t' && j == j' && s == s'
  {
    hide FirstAlike;
    assert candidates[j] in candidates && candidates[j'] in candidates;
    assert !NoneFree(sources, used, t, candidates[j]) && !NoneFree(sources, used, t', candidates[j']);
    FirstAlikeIsUnique(sources, t, candidates[j], s, if t == t' && j == j' then s' else s);
  }
}
