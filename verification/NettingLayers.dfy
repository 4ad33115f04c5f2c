/** The layers of a group of exposures, said of the exposures themselves. */
module NettingLayers {
  import opened Wrappers
  import opened Sequences
  import opened Sums
  import opened OrderedDicts
  import opened ObligorNetting
  import opened NettingLaws

  /** One layer for each seniority that occurs, with its exposures in their order. */
  ghost predicate AreLayers(layers: seq<Layer>, exposures: seq<Exposure>, direction: Direction) {
    && UniqueKeys(layers)
    && (forall i :: 0 <= i < |layers| ==> layers[i].value == Filter(IsIn(layers[i].key, direction), exposures))
    && (forall s :: Filter(IsIn(s, direction), exposures) != [] ==> exists i :: 0 <= i < |layers| && layers[i].key == s)
  }

  lemma {:induction false} BySeniorityGet(exposures: seq<Exposure>, direction: Direction, s: Seniority)
    ensures ItemsAt(BySeniority(exposures, direction), s) == Filter(IsIn(s, direction), exposures)
    ensures Get(BySeniority(exposures, direction), s).Some? <==> Filter(IsIn(s, direction), exposures) != []
  {
    if exposures != [] {
      var rest, last := exposures[..|exposures| - 1], exposures[|exposures| - 1];
      assert exposures == rest + [last];
      BySeniorityGet(rest, direction, s);
      var before := BySeniority(rest, direction);
      PutGet(before, last.seniority, ItemsAt(before, last.seniority) + [last], s);
      FilterAppend(IsIn(s, direction), rest, [last]);
      assert [last][1..] == [];
      assert Filter(IsIn(s, direction), [last]) ==
             if last.seniority == s && last.direction == direction then [last] else [];
    }
  }

  lemma {:induction false} BySeniorityUnique(exposures: seq<Exposure>, direction: Direction)
    ensures UniqueKeys(BySeniority(exposures, direction))
  {
    if exposures != [] {
      var rest, last := exposures[..|exposures| - 1], exposures[|exposures| - 1];
      BySeniorityUnique(rest, direction);
      var before := BySeniority(rest, direction);
      PutKeepsUniqueKeys(before, last.seniority, ItemsAt(before, last.seniority) + [last]);
    }
  }

  lemma BySeniorityIs(exposures: seq<Exposure>, direction: Direction)
    ensures AreLayers(BySeniority(exposures, direction), exposures, direction)
  {
    var layers := BySeniority(exposures, direction);
    BySeniorityUnique(exposures, direction);
    forall i | 0 <= i < |layers| ensures layers[i].value == Filter(IsIn(layers[i].key, direction), exposures) {
      BySeniorityGet(exposures, direction, layers[i].key);
      GetAt(layers, i);
    }
    forall s | Filter(IsIn(s, direction), exposures) != [] ensures exists i :: 0 <= i < |layers| && layers[i].key == s {
      BySeniorityGet(exposures, direction, s);
      GetMissing(layers, s);
    }
  }

  // ----- sorting by rank -----

  lemma {:induction false} RanksBelowMembers(layers: seq<Layer>, n: nat)
    ensures forall layer :: layer in RanksBelow(layers, n) <==> layer in layers && Rank(layer.key) < n
  {
    if n > 0 {
      RanksBelowMembers(layers, n - 1);
      FilterMembers(HasRank(n - 1), layers);
    }
  }

  lemma {:induction false} FilterUnique(p: Layer -> bool, layers: seq<Layer>)
    requires UniqueKeys(layers)
    ensures UniqueKeys(Filter(p, layers))
  {
    if layers != [] {
      FilterUnique(p, layers[1..]);
      FilterMembers(p, layers[1..]);
      var rest := Filter(p, layers[1..]);
      forall i | 0 <= i < |rest| ensures rest[i].key != layers[0].key {
        assert rest[i] in rest;
        assert rest[i] in layers[1..];
        var j :| 0 <= j < |layers[1..]| && layers[1..][j] == rest[i];
        assert layers[j + 1] == rest[i];
      }
    }
  }

  lemma {:induction false} RanksBelowSorted(layers: seq<Layer>, n: nat)
    requires UniqueKeys(layers)
    ensures UniqueKeys(RanksBelow(layers, n)) && SortedLayers(RanksBelow(layers, n))
  {
    hide Rank;
    if n > 0 {
      var before, last := RanksBelow(layers, n - 1), Filter(HasRank(n - 1), layers);
      RanksBelowSorted(layers, n - 1);
      RanksBelowMembers(layers, n - 1);
      FilterUnique(HasRank(n - 1), layers);
      FilterMembers(HasRank(n - 1), layers);
      forall i | 0 <= i < |before| ensures Rank(before[i].key) < n - 1 {
        assert before[i] in before;
      }
      forall i | 0 <= i < |last| ensures Rank(last[i].key) == n - 1 {
        assert last[i] in last;
      }
    }
  }

  lemma SortedByRankIs(exposures: seq<Exposure>, direction: Direction)
    ensures var layers := SortedByRank(BySeniority(exposures, direction));
            AreLayers(layers, exposures, direction) && SortedLayers(layers)
  {
    hide RanksBelow, BySeniority, Filter, Rank;
    var given := BySeniority(exposures, direction);
    var layers := SortedByRank(given);
    BySeniorityIs(exposures, direction);
    RanksBelowSorted(given, RANKS);
    RanksBelowMembers(given, RANKS);
    forall i | 0 <= i < |layers| ensures layers[i].value == Filter(IsIn(layers[i].key, direction), exposures) {
      assert layers[i] in layers;
      var j :| 0 <= j < |given| && given[j] == layers[i];
    }
    forall s | Filter(IsIn(s, direction), exposures) != [] ensures exists i :: 0 <= i < |layers| && layers[i].key == s {
      var j :| 0 <= j < |given| && given[j].key == s;
      assert given[j] in layers;
    }
  }

  // ----- sums over layers as sums over exposures -----

  const SENIORITIES: seq<Seniority> :=
    [CoveredBond, GseGuaranteed, SeniorDebt, GseIssuedNotGuaranteed, Pse, NonSeniorDebt, Equity, NotRecoveryLinked]

  lemma SenioritiesAreAll()
    ensures forall s: Seniority :: s in SENIORITIES
    ensures Distinct(SENIORITIES)
  {
    forall s: Seniority ensures s in SENIORITIES {
      match s
      case CoveredBond => assert SENIORITIES[0] == s;
      case GseGuaranteed => assert SENIORITIES[1] == s;
      case SeniorDebt => assert SENIORITIES[2] == s;
      case GseIssuedNotGuaranteed => assert SENIORITIES[3] == s;
      case Pse => assert SENIORITIES[4] == s;
      case NonSeniorDebt => assert SENIORITIES[5] == s;
      case Equity => assert SENIORITIES[6] == s;
      case NotRecoveryLinked => assert SENIORITIES[7] == s;
    }
  }

  /** The longs of a seniority, as far as they add up to something positive, if it is below rank `t`. */
  function LongOf(exposures: seq<Exposure>, t: nat): Seniority -> real {
    (s: Seniority) => if Rank(s) < t then Pos(Sum(ScaledOf(), Filter(IsIn(s, Long), exposures))) else 0.0
  }

  function LongBelow(exposures: seq<Exposure>, t: nat): real {
    Sum(LongOf(exposures, t), SENIORITIES)
  }

  function ShortOf(t: nat): Exposure -> real {
    (e: Exposure) => if e.direction.Short? && Rank(e.seniority) >= t then Pos(e.scaled) else 0.0
  }

  /** The positive shorts from rank `t` on. */
  function ShortsFrom(exposures: seq<Exposure>, t: nat): real {
    Sum(ShortOf(t), exposures)
  }

  lemma {:induction false} SumOfKeys(f: Layer -> real, g: Seniority -> real, layers: seq<Layer>)
    requires forall i :: 0 <= i < |layers| ==> f(layers[i]) == g(layers[i].key)
    ensures Sum(f, layers) == Sum(g, Keys(layers))
  {
    if layers != [] {
      var n := |layers| - 1;
      SumOfKeys(f, g, layers[..n]);
      assert Keys(layers)[..n] == Keys(layers[..n]);
    }
  }

  lemma {:induction false} DistinctSameMembers<T>(a: seq<T>, b: seq<T>)
    requires Distinct(a) && Distinct(b) && forall x :: x in a <==> x in b
    ensures multiset(a) == multiset(b)
  {
    forall x ensures multiset(a)[x] == multiset(b)[x] {
      DistinctCount(a, x);
      DistinctCount(b, x);
    }
  }

  lemma {:induction false} DistinctCount<T>(s: seq<T>, x: T)
    requires Distinct(s)
    ensures multiset(s)[x] == if x in s then 1 else 0
  {
    if s != [] {
      var n := |s| - 1;
      assert s == s[..n] + [s[n]];
      DistinctCount(s[..n], x);
    }
  }

  lemma {:induction false} FilterDistinct<T(!new)>(p: T -> bool, s: seq<T>)
    requires Distinct(s)
    ensures Distinct(Filter(p, s))
  {
    if s != [] {
      FilterDistinct(p, s[1..]);
      FilterMembers(p, s[1..]);
      var rest := Filter(p, s[1..]);
      forall i | 0 <= i < |rest| ensures rest[i] != s[0] {
        assert rest[i] in rest;
        assert rest[i] in s[1..];
      }
    }
  }

  function IsKeyOf(keys: seq<Seniority>): Seniority -> bool { (s: Seniority) => s in keys }

  /** A sum over layers, when absent seniorities would add nothing, is one over all seniorities. */
  lemma SumOverSeniorities(f: Layer -> real, g: Seniority -> real, layers: seq<Layer>)
    requires UniqueKeys(layers) && forall i :: 0 <= i < |layers| ==> f(layers[i]) == g(layers[i].key)
    requires forall s :: s !in Keys(layers) ==> g(s) == 0.0
    ensures Sum(f, layers) == Sum(g, SENIORITIES)
  {
    hide Sum, Filter, SENIORITIES;
    var keys := Keys(layers);
    var present := Filter(IsKeyOf(keys), SENIORITIES);
    SenioritiesAreAll();
    SumOfKeys(f, g, layers);
    FilterMembers(IsKeyOf(keys), SENIORITIES);
    FilterDistinct(IsKeyOf(keys), SENIORITIES);
    DistinctSameMembers(keys, present);
    SumPermutes(g, keys, present);
    SumFilter(g, IsKeyOf(keys), SENIORITIES);
  }

  lemma LongsBelow(exposures: seq<Exposure>, layers: seq<Layer>, t: nat)
    requires AreLayers(layers, exposures, Long)
    ensures Sum(LayerBelow(t), layers) == LongBelow(exposures, t)
  {
    hide Sum, Filter, SENIORITIES, Rank;
    forall s | s !in Keys(layers) ensures LongOf(exposures, t)(s) == 0.0 {
      assert Filter(IsIn(s, Long), exposures) == [];
      SumOfNone();
    }
    SumOverSeniorities(LayerBelow(t), LongOf(exposures, t), layers);
  }

  lemma SumOfNone()
    ensures Sum(ScaledOf(), []) == 0.0
  {
  }

  // ----- the shorts, layer after layer -----

  lemma {:induction false} FlatCount(layers: seq<Layer>, exposures: seq<Exposure>, direction: Direction, e: Exposure)
    requires UniqueKeys(layers)
    requires forall i :: 0 <= i < |layers| ==> layers[i].value == Filter(IsIn(layers[i].key, direction), exposures)
    ensures multiset(Flat(layers))[e] ==
            if e.direction == direction && e.seniority in Keys(layers) then multiset(exposures)[e] else 0
  {
    hide Filter;
    if layers != [] {
      FlatCount(layers[1..], exposures, direction, e);
      FilterMultiset(IsIn(layers[0].key, direction), exposures, e);
      assert Keys(layers)[1..] == Keys(layers[1..]) && Keys(layers) == [layers[0].key] + Keys(layers[1..]);
      forall i | 0 <= i < |layers[1..]| ensures layers[1..][i].key != layers[0].key {
        assert layers[1..][i] == layers[i + 1];
      }
      assert layers[0].key !in Keys(layers[1..]);
    }
  }

  function IsOf(direction: Direction): Exposure -> bool { (e: Exposure) => e.direction == direction }

  lemma FlatPermutes(layers: seq<Layer>, exposures: seq<Exposure>, direction: Direction)
    requires AreLayers(layers, exposures, direction)
    ensures multiset(Flat(layers)) == multiset(Filter(IsOf(direction), exposures))
  {
    hide Filter, Flat;
    forall e ensures multiset(Flat(layers))[e] == multiset(Filter(IsOf(direction), exposures))[e] {
      FlatCount(layers, exposures, direction, e);
      FilterMultiset(IsOf(direction), exposures, e);
      if e.direction == direction && e in exposures {
        FilterMembers(IsIn(e.seniority, direction), exposures);
        assert e in Filter(IsIn(e.seniority, direction), exposures);
        var i :| 0 <= i < |layers| && layers[i].key == e.seniority;
        assert Keys(layers)[i] == e.seniority;
      }
      assert e !in exposures ==> multiset(exposures)[e] == 0;
    }
  }

  lemma {:induction false} SumOfInitial(items: seq<Exposure>, t: nat)
    requires forall e :: e in items ==> e.direction.Short?
    ensures Sum(ShortFrom(t), Initial(items)) == Sum(ShortOf(t), items)
  {
    hide Rank;
    if items != [] {
      var n := |items| - 1;
      SumOfInitial(items[..n], t);
      assert Initial(items)[..n] == Initial(items[..n]);
    }
  }

  lemma ShortsAre(exposures: seq<Exposure>, layers: seq<Layer>, t: nat)
    requires AreLayers(layers, exposures, Short)
    ensures Sum(ShortFrom(t), Initial(Flat(layers))) == ShortsFrom(exposures, t)
  {
    hide Sum, Filter, Flat, Rank;
    var items, filtered := Flat(layers), Filter(IsOf(Short), exposures);
    FlatPermutes(layers, exposures, Short);
    FilterMembers(IsOf(Short), exposures);
    forall e | e in items ensures e.direction.Short? {
      assert e in multiset(filtered);
      assert IsOf(Short)(e);
    }
    SumOfInitial(items, t);
    SumPermutes(ShortOf(t), items, filtered);
    SumFilter(ShortOf(t), IsOf(Short), exposures);
  }

  /** Every layer has the exposures of its seniority. */
  ghost predicate KeyedItems(layers: seq<Layer>) {
    forall i, e :: 0 <= i < |layers| && e in layers[i].value ==> e.seniority == layers[i].key
  }

  lemma LayersAreKeyed(layers: seq<Layer>, exposures: seq<Exposure>, direction: Direction)
    requires AreLayers(layers, exposures, direction)
    ensures KeyedItems(layers)
  {
    forall i, e | 0 <= i < |layers| && e in layers[i].value ensures e.seniority == layers[i].key {
      ItemsAreKeyed(exposures, layers[i].key, direction, e);
    }
  }

  lemma ItemsAreKeyed(exposures: seq<Exposure>, s: Seniority, direction: Direction, e: Exposure)
    requires e in Filter(IsIn(s, direction), exposures)
    ensures e.seniority == s
  {
    FilterMembers(IsIn(s, direction), exposures);
  }

  lemma {:induction false} FlatRanks(layers: seq<Layer>, r: nat)
    requires KeyedItems(layers) && forall i :: 0 <= i < |layers| ==> Rank(layers[i].key) >= r
    ensures forall j :: 0 <= j < |Flat(layers)| ==> Rank(Flat(layers)[j].seniority) >= r
  {
    hide Rank;
    if layers != [] {
      FlatRanks(layers[1..], r);
      var first := layers[0].value;
      assert forall j :: 0 <= j < |first| ==> first[j] in first;
    }
  }

  lemma {:induction false} FlatSorted(layers: seq<Layer>)
    requires SortedLayers(layers) && KeyedItems(layers)
    ensures SortedShorts(Initial(Flat(layers)))
  {
    hide Rank;
    if layers != [] {
      var first, rest := layers[0].value, Flat(layers[1..]);
      FlatSorted(layers[1..]);
      FlatRanks(layers[1..], Rank(layers[0].key));
      assert forall i :: 0 <= i < |first| ==> first[i] in first;
      assert forall j :: 0 <= j < |rest| ==> Initial(rest)[j].item == rest[j];
    }
  }
}
