/** The results of netting one obligor's exposures, said of the exposures and the net records. */
module NettingResults {
  import opened Sequences
  import opened Sums
  import opened OrderedDicts
  import opened ObligorNetting
  import opened NettingLaws
  import opened NettingLayers

  function Longs(exposures: seq<Exposure>): seq<Layer> { SortedByRank(BySeniority(exposures, Long)) }

  function Shorts(exposures: seq<Exposure>): seq<Layer> { SortedByRank(BySeniority(exposures, Short)) }

  function Open(exposures: seq<Exposure>): seq<Remaining> { Initial(Flat(Shorts(exposures))) }

  lemma GroupIs(exposures: seq<Exposure>)
    ensures SortedLayers(Longs(exposures)) && AreLayers(Longs(exposures), exposures, Long)
    ensures SortedLayers(Shorts(exposures)) && AreLayers(Shorts(exposures), exposures, Short)
    ensures SortedShorts(Open(exposures))
  {
    hide SortedByRank, BySeniority, Flat, AreLayers, SortedLayers, SortedShorts;
    SortedByRankIs(exposures, Long);
    SortedByRankIs(exposures, Short);
    LayersAreKeyed(Shorts(exposures), exposures, Short);
    FlatSorted(Shorts(exposures));
  }

  /** The net amounts of one direction below rank `t`. */
  function NetOf(direction: Direction, t: nat): NetRecord -> real {
    (r: NetRecord) => if r.direction == direction && Rank(r.seniority) < t then r.net else 0.0
  }

  function NetBelow(records: seq<NetRecord>, direction: Direction, t: nat): real {
    Sum(NetOf(direction, t), records)
  }

  // ----- long records -----

  function IsBelow(t: nat): Layer -> bool { (layer: Layer) => Rank(layer.key) < t }

  lemma LongRecordsNet(layer: Layer, o: Offset, t: nat)
    requires 0.0 <= o.scaled <= Pos(Amount(layer))
    ensures NetBelow(LongRecords(layer, o), Long, t) ==
            if Rank(layer.key) < t then Pos(Amount(layer)) - o.scaled else 0.0
    ensures NetBelow(LongRecords(layer, o), Short, t) == 0.0
  {
    hide Amount, Rank, Sum;
    var net := NetRecord(layer.key, Long, Sum(GrossOf(), layer.value), o.gross, Amount(layer), o.scaled,
                         Amount(layer) - o.scaled, layer.value + o.items);
    SumOfOne(NetOf(Long, t), net);
    SumOfOne(NetOf(Short, t), net);
  }

  lemma {:induction false} NetOfLongs(longs: seq<Layer>, shorts: seq<Remaining>, t: nat)
    requires SortedLayers(longs) && SortedShorts(shorts)
    ensures var below := Filter(IsBelow(t), longs);
            NetBelow(NetLongs(longs, shorts).records, Long, t) == Sum(LayerBelow(t), below) - Used(below, shorts)
    ensures NetBelow(NetLongs(longs, shorts).records, Short, t) == 0.0
    decreases |longs|
  {
    hide OffsetBy, Amount, Rank, LongRecords, Sum;
    if longs == [] {
      NoRecords(t);
    } else {
      var want := Amount(longs[0]);
      var o := OffsetBy(shorts, longs[0].key, want);
      var rest := NetLongs(longs[1..], o.shorts).records;
      SortedAfter(shorts, longs[0].key, want);
      NetOfLongs(longs[1..], o.shorts, t);
      OffsetTakes(shorts, longs[0].key, want);
      FromIsMonotone(shorts, Rank(longs[0].key), Rank(longs[0].key));
      LongRecordsNet(longs[0], o, t);
      SumAppend(NetOf(Long, t), LongRecords(longs[0], o), rest);
      SumAppend(NetOf(Short, t), LongRecords(longs[0], o), rest);
      var below := Filter(IsBelow(t), longs[1..]);
      if Rank(longs[0].key) < t {
        var all := Filter(IsBelow(t), longs);
        assert all == [longs[0]] + below && all[1..] == below;
        SumCons(LayerBelow(t), all);
      } else {
        FilterNone(IsBelow(t), longs[1..]);
        FilterNone(IsBelow(t), longs);
        NothingBelow([], t);
      }
    }
  }

  lemma NoRecords(t: nat)
    ensures Sum(NetOf(Long, t), []) == 0.0 && Sum(NetOf(Short, t), []) == 0.0
    ensures Sum(LayerBelow(t), []) == 0.0
  {
  }

  // ----- short records -----

  /** What is left of the shorts of these seniorities, below rank `t`. */
  function LeftOf(keys: seq<Seniority>, t: nat): Remaining -> real {
    (c: Remaining) => if c.item.seniority in keys && Rank(c.item.seniority) < t then Pos(c.scaled) else 0.0
  }

  lemma ShortRecordNet(s: Seniority, shorts: seq<Remaining>, t: nat)
    ensures NetBelow(ShortRecord(s, Filter(IsLeft(s), shorts)), Short, t) == Sum(LeftOf([s], t), shorts)
    ensures NetBelow(ShortRecord(s, Filter(IsLeft(s), shorts)), Long, t) == 0.0
  {
    hide Rank, Sum, Filter;
    var left := Filter(IsLeft(s), shorts);
    var rest := Sum(RestScaled(), left);
    var record := NetRecord(s, Short, 0.0, Sum(RestGross(), left), 0.0, rest, rest, ItemsOf(left));
    SumOfOne(NetOf(Short, t), record);
    SumOfOne(NetOf(Long, t), record);
    SumFilter(LeftOf([s], t), IsLeft(s), shorts);
    FilterMembers(IsLeft(s), shorts);
    if Rank(s) < t {
      SumSame(LeftOf([s], t), RestScaled(), left);
      NothingLeft(left);
    } else {
      SumSame(LeftOf([s], t), LeftOf([], t), left);
      NothingCovered(left, t);
    }
  }

  lemma NothingLeft(left: seq<Remaining>)
    ensures left == [] ==> Sum(RestScaled(), left) == 0.0
  {
  }

  lemma {:induction false} NothingCovered(shorts: seq<Remaining>, t: nat)
    ensures Sum(LeftOf([], t), shorts) == 0.0
  {
    if shorts != [] {
      NothingCovered(shorts[..|shorts| - 1], t);
    }
  }

  lemma {:induction false} NetOfShorts(layers: seq<Layer>, shorts: seq<Remaining>, t: nat)
    requires UniqueKeys(layers)
    ensures NetBelow(ShortRecords(layers, shorts), Short, t) == Sum(LeftOf(Keys(layers), t), shorts)
    ensures NetBelow(ShortRecords(layers, shorts), Long, t) == 0.0
  {
    hide Rank, Sum, Filter, ShortRecord;
    if layers == [] {
      NoRecords(t);
      NothingCovered(shorts, t);
    } else {
      var n := |layers| - 1;
      var key, record := layers[n].key, ShortRecord(layers[n].key, Filter(IsLeft(layers[n].key), shorts));
      NetOfShorts(layers[..n], shorts, t);
      ShortRecordNet(key, shorts, t);
      SumAppend(NetOf(Short, t), ShortRecords(layers[..n], shorts), record);
      SumAppend(NetOf(Long, t), ShortRecords(layers[..n], shorts), record);
      assert Keys(layers) == Keys(layers[..n]) + [key] && key !in Keys(layers[..n]);
      SumPlus(LeftOf(Keys(layers[..n]), t), LeftOf([key], t), LeftOf(Keys(layers), t), shorts);
    }
  }

  // ----- what is left of the shorts -----

  lemma {:induction false} NetLongsKeepItems(longs: seq<Layer>, shorts: seq<Remaining>)
    ensures forall i :: 0 <= i < |shorts| ==> NetLongs(longs, shorts).shorts[i].item == shorts[i].item
    decreases |longs|
  {
    hide OffsetBy, Amount;
    if longs != [] {
      OffsetKeepsItems(shorts, longs[0].key, Amount(longs[0]));
      NetLongsKeepItems(longs[1..], OffsetBy(shorts, longs[0].key, Amount(longs[0])).shorts);
    }
  }

  /** Every amount that the longs offset is taken from the shorts. */
  lemma {:induction false} LeftInAll(longs: seq<Layer>, shorts: seq<Remaining>)
    ensures Sum(ShortFrom(0), NetLongs(longs, shorts).shorts) == Sum(ShortFrom(0), shorts) - Used(longs, shorts)
    decreases |longs|
  {
    hide OffsetBy, Amount, Sum;
    if longs != [] {
      OffsetFromEarlier(shorts, longs[0].key, Amount(longs[0]), 0);
      LeftInAll(longs[1..], OffsetBy(shorts, longs[0].key, Amount(longs[0])).shorts);
    }
  }

  lemma {:induction false} OffsetOfPrefix(shorts: seq<Remaining>, long: Seniority, want: real, i: nat)
    requires i <= |shorts|
    ensures OffsetBy(shorts, long, want).shorts[..i] == OffsetBy(shorts[..i], long, want).shorts
    decreases |shorts|
  {
    hide Taken, Rest, CanOffset;
    if i == |shorts| {
      assert shorts[..i] == shorts;
    } else {
      var n := |shorts| - 1;
      OffsetOfPrefix(shorts[..n], long, want, i);
      assert shorts[..n][..i] == shorts[..i];
      assert OffsetBy(shorts, long, want).shorts[..i] == OffsetBy(shorts[..n], long, want).shorts[..i];
    }
  }

  /** Shorts further down make no difference to what is taken from the first ones. */
  lemma {:induction false} NetLongsOfPrefix(longs: seq<Layer>, shorts: seq<Remaining>, i: nat)
    requires i <= |shorts|
    ensures NetLongs(longs, shorts).shorts[..i] == NetLongs(longs, shorts[..i]).shorts
    decreases |longs|
  {
    hide OffsetBy, Amount;
    if longs != [] {
      OffsetOfPrefix(shorts, longs[0].key, Amount(longs[0]), i);
      NetLongsOfPrefix(longs[1..], OffsetBy(shorts, longs[0].key, Amount(longs[0])).shorts, i);
    }
  }

  /** The shorts below rank `t` come first. */
  ghost predicate SplitsAt(shorts: seq<Remaining>, t: nat, i: nat) {
    && i <= |shorts|
    && (forall j :: 0 <= j < i ==> Rank(shorts[j].item.seniority) < t)
    && (forall j :: i <= j < |shorts| ==> Rank(shorts[j].item.seniority) >= t)
  }

  lemma Split(shorts: seq<Remaining>, t: nat) returns (i: nat)
    requires SortedShorts(shorts)
    ensures SplitsAt(shorts, t, i)
  {
    i := 0;
    while i < |shorts| && Rank(shorts[i].item.seniority) < t
      invariant i <= |shorts|
      invariant forall j :: 0 <= j < i ==> Rank(shorts[j].item.seniority) < t
    {
      i := i + 1;
    }
  }

  lemma FirstShorts(shorts: seq<Remaining>, s: nat, t: nat, i: nat)
    requires SplitsAt(shorts, t, i)
    ensures Sum(ShortFrom(s), shorts[..i]) ==
            Sum(ShortFrom(s), shorts) - Sum(ShortFrom(if s < t then t else s), shorts)
  {
    hide Sum, Rank;
    var u := if s < t then t else s;
    assert shorts == shorts[..i] + shorts[i..];
    SumAppend(ShortFrom(s), shorts[..i], shorts[i..]);
    SumAppend(ShortFrom(u), shorts[..i], shorts[i..]);
    NothingFrom(shorts[..i], t);
    FromIsMonotone(shorts[..i], t, u);
    SumSame(ShortFrom(s), ShortFrom(u), shorts[i..]);
  }

  lemma LeftBelow(shorts: seq<Remaining>, keys: seq<Seniority>, t: nat, i: nat)
    requires SplitsAt(shorts, t, i) && forall j :: 0 <= j < |shorts| ==> shorts[j].item.seniority in keys
    ensures Sum(LeftOf(keys, t), shorts) == Sum(ShortFrom(0), shorts[..i])
  {
    hide Sum, Rank;
    assert shorts == shorts[..i] + shorts[i..];
    SumAppend(LeftOf(keys, t), shorts[..i], shorts[i..]);
    SumSame(LeftOf(keys, t), ShortFrom(0), shorts[..i]);
    SumSame(LeftOf(keys, t), LeftOf([], t), shorts[i..]);
    NothingCovered(shorts[i..], t);
  }

  // ----- the results -----

  function AtMost(s: nat, t: nat): nat { if s < t then s else t }

  function AtLeast(s: nat, t: nat): nat { if s < t then t else s }

  /** Longs below ranks `s` and `l`, and the shorts from `s` on that are below `t`. */
  function CutOf(exposures: seq<Exposure>, l: nat, t: nat, s: nat): real {
    LongBelow(exposures, AtMost(s, l)) + ShortsFrom(exposures, s) - ShortsFrom(exposures, AtLeast(s, t))
  }

  /** `u` is the least of the cuts through the longs below rank `l` and the shorts below rank `t`. */
  ghost predicate IsLeastOf(u: real, exposures: seq<Exposure>, l: nat, t: nat) {
    && (forall s: nat :: u <= CutOf(exposures, l, t, s))
    && exists s: nat :: u == CutOf(exposures, l, t, s)
  }

  lemma FilterSorted(longs: seq<Layer>, l: nat)
    requires SortedLayers(longs)
    ensures SortedLayers(Filter(IsBelow(l), longs))
    decreases |longs|
  {
    if longs != [] {
      FilterSorted(longs[1..], l);
      FilterMembers(IsBelow(l), longs[1..]);
      var rest := Filter(IsBelow(l), longs[1..]);
      forall i | 0 <= i < |rest| ensures Rank(longs[0].key) <= Rank(rest[i].key) {
        assert rest[i] in rest;
        assert rest[i] in longs[1..];
      }
    }
  }

  lemma CutIs(exposures: seq<Exposure>, l: nat, t: nat, i: nat, s: nat)
    requires SplitsAt(Open(exposures), t, i)
    ensures Cut(Filter(IsBelow(l), Longs(exposures)), Open(exposures)[..i], s) == CutOf(exposures, l, t, s)
  {
    hide Sum, Filter, Longs, Open, SplitsAt, AreLayers, LongBelow, ShortsFrom, SortedLayers, SortedShorts;
    var longs, shorts := Longs(exposures), Open(exposures);
    GroupIs(exposures);
    FirstShorts(shorts, s, t, i);
    OpenFrom(exposures, s);
    OpenFrom(exposures, AtLeast(s, t));
    LongsBelow(exposures, longs, AtMost(s, l));
    FilterMembers(IsBelow(l), longs);
    SumSame(LayerBelow(s), LayerBelow(AtMost(s, l)), Filter(IsBelow(l), longs));
    SumFilter(LayerBelow(AtMost(s, l)), IsBelow(l), longs);
  }

  lemma OpenFrom(exposures: seq<Exposure>, s: nat)
    ensures Sum(ShortFrom(s), Open(exposures)) == ShortsFrom(exposures, s)
  {
    hide Sum, AreLayers, SortedLayers, SortedShorts, ShortsFrom, Shorts;
    GroupIs(exposures);
    ShortsAre(exposures, Shorts(exposures), s);
  }

  /** Longs below rank `l` offset the least cut of the shorts below rank `t`, whatever else there is. */
  lemma UsedIsLeast(exposures: seq<Exposure>, l: nat, t: nat, i: nat)
    requires SplitsAt(Open(exposures), t, i)
    ensures IsLeastOf(Used(Filter(IsBelow(l), Longs(exposures)), Open(exposures)[..i]), exposures, l, t)
  {
    hide Used, Cut, CutOf, Longs, Open, AreLayers, Filter;
    var longs, shorts := Filter(IsBelow(l), Longs(exposures)), Open(exposures)[..i];
    GroupIs(exposures);
    FilterSorted(Longs(exposures), l);
    UsedIsLeastCut(longs, shorts);
    forall s: nat ensures Cut(longs, shorts, s) == CutOf(exposures, l, t, s) {
      CutIs(exposures, l, t, i, s);
    }
  }

  lemma LeastIsUnique(u: real, v: real, a: seq<Exposure>, b: seq<Exposure>, l: nat, t: nat)
    requires IsLeastOf(u, a, l, t) && IsLeastOf(v, b, l, t)
    requires forall s: nat :: CutOf(a, l, t, s) == CutOf(b, l, t, s)
    ensures u == v
  {
  }

  lemma AllBelow(exposures: seq<Exposure>)
    ensures Filter(IsBelow(RANKS), Longs(exposures)) == Longs(exposures)
    ensures SplitsAt(Open(exposures), RANKS, |Open(exposures)|)
    ensures Open(exposures)[..|Open(exposures)|] == Open(exposures)
  {
    FilterAll(IsBelow(RANKS), Longs(exposures));
  }

  lemma {:induction false} FlatKeys(layers: seq<Layer>, j: nat)
    requires KeyedItems(layers) && j < |Flat(layers)|
    ensures Flat(layers)[j].seniority in Keys(layers)
  {
    assert Keys(layers) == [layers[0].key] + Keys(layers[1..]);
    if j >= |layers[0].value| {
      FlatKeys(layers[1..], j - |layers[0].value|);
    } else {
      assert layers[0].value[j] in layers[0].value;
    }
  }

  lemma OpenKeys(exposures: seq<Exposure>)
    ensures forall j :: 0 <= j < |Open(exposures)| ==> Open(exposures)[j].item.seniority in Keys(Shorts(exposures))
  {
    hide Flat, Shorts, AreLayers, SortedLayers, SortedShorts;
    GroupIs(exposures);
    LayersAreKeyed(Shorts(exposures), exposures, Short);
    forall j | 0 <= j < |Open(exposures)| ensures Open(exposures)[j].item.seniority in Keys(Shorts(exposures)) {
      FlatKeys(Shorts(exposures), j);
    }
  }

  /** Net amounts by rank, said of what the longs used. */
  lemma NetIs(exposures: seq<Exposure>, t: nat, i: nat)
    requires SplitsAt(Open(exposures), t, i)
    ensures NetBelow(NetRecords(exposures), Long, t) ==
            LongBelow(exposures, t) - Used(Filter(IsBelow(t), Longs(exposures)), Open(exposures))
    ensures NetBelow(NetRecords(exposures), Short, t) ==
            ShortsFrom(exposures, 0) - ShortsFrom(exposures, t) - Used(Longs(exposures), Open(exposures)[..i])
  {
    hide Sum, Filter, SortedByRank, BySeniority, Flat, AreLayers, SortedLayers, SortedShorts, Used, NetLongs,
         ShortRecords, LongBelow, ShortsFrom, Initial;
    var longs, shorts, layers := Longs(exposures), Open(exposures), Shorts(exposures);
    var netted := NetLongs(longs, shorts);
    var left := netted.shorts;
    GroupIs(exposures);
    NetOfLongs(longs, shorts, t);
    UniqueShorts(exposures);
    NetOfShorts(layers, left, t);
    SumAppend(NetOf(Long, t), netted.records, ShortRecords(layers, left));
    SumAppend(NetOf(Short, t), netted.records, ShortRecords(layers, left));
    // the longs
    LongsBelow(exposures, longs, t);
    FilterMembers(IsBelow(t), longs);
    SumFilter(LayerBelow(t), IsBelow(t), longs);
    // the shorts
    NetLongsKeepItems(longs, shorts);
    OpenKeys(exposures);
    LeftBelow(left, Keys(layers), t, i);
    NetLongsOfPrefix(longs, shorts, i);
    LeftInAll(longs, shorts[..i]);
    FirstShorts(shorts, 0, t, i);
    OpenFrom(exposures, 0);
    OpenFrom(exposures, t);
  }

  lemma UniqueShorts(exposures: seq<Exposure>)
    ensures UniqueKeys(Shorts(exposures))
  {
    hide Shorts;
    GroupIs(exposures);
  }

  /** How much of the longs is offset. */
  function OffsetOf(exposures: seq<Exposure>): real {
    LongBelow(exposures, RANKS) - NetBelow(NetRecords(exposures), Long, RANKS)
  }

  /**
    What is offset is the least of the cuts: for some rank, everything below it of the longs and from
    it on of the shorts, and for no rank more than that. The short records hold what is left.
  */
  lemma NettingOffsetsLeastCut(exposures: seq<Exposure>)
    ensures forall s: nat :: OffsetOf(exposures) <= LongBelow(exposures, s) + ShortsFrom(exposures, s)
    ensures exists s: nat :: OffsetOf(exposures) == LongBelow(exposures, s) + ShortsFrom(exposures, s)
    ensures NetBelow(NetRecords(exposures), Short, RANKS) == ShortsFrom(exposures, 0) - OffsetOf(exposures)
  {
    hide NetRecords, NetBelow, Used, Longs, Open, LongBelow, ShortsFrom, SplitsAt;
    OffsetIsUsed(exposures);
    AllBelow(exposures);
    UsedIsLeast(exposures, RANKS, RANKS, |Open(exposures)|);
    forall s: nat ensures CutOf(exposures, RANKS, RANKS, s) == LongBelow(exposures, s) + ShortsFrom(exposures, s) {
      PastAllRanks(exposures, s);
    }
  }

  lemma OffsetIsUsed(exposures: seq<Exposure>)
    ensures OffsetOf(exposures) == Used(Longs(exposures), Open(exposures))
    ensures NetBelow(NetRecords(exposures), Short, RANKS) == ShortsFrom(exposures, 0) - OffsetOf(exposures)
  {
    hide NetRecords, NetBelow, Used, Longs, Open, LongBelow, ShortsFrom, SplitsAt;
    AllBelow(exposures);
    NetIs(exposures, RANKS, |Open(exposures)|);
    PastAllRanks(exposures, RANKS);
  }

  lemma PastAllRanks(exposures: seq<Exposure>, s: nat)
    ensures s >= RANKS ==> ShortsFrom(exposures, s) == 0.0
    ensures LongBelow(exposures, AtMost(s, RANKS)) == LongBelow(exposures, s)
    ensures ShortsFrom(exposures, AtLeast(s, RANKS)) == 0.0
  {
    hide SENIORITIES;
    SumSame(LongOf(exposures, AtMost(s, RANKS)), LongOf(exposures, s), SENIORITIES);
    NoneFrom(exposures, AtLeast(s, RANKS));
    if s >= RANKS {
      NoneFrom(exposures, s);
    }
  }

  lemma {:induction false} NoneFrom(exposures: seq<Exposure>, s: nat)
    requires s >= RANKS
    ensures ShortsFrom(exposures, s) == 0.0
  {
    if exposures != [] {
      NoneFrom(exposures[..|exposures| - 1], s);
    }
  }

  /** No permitted way of offsetting the longs against the shorts offsets more, and one offsets as much. */
  lemma NettingIsMaximal(exposures: seq<Exposure>)
    ensures forall rows :: Allocates(rows, Longs(exposures), Open(exposures)) ==> TotalOf(rows) <= OffsetOf(exposures)
    ensures exists rows :: Allocates(rows, Longs(exposures), Open(exposures)) && TotalOf(rows) == OffsetOf(exposures)
  {
    hide Used, Longs, Open, OffsetOf, Allocates;
    OffsetIsUsed(exposures);
    GroupIs(exposures);
    forall rows | Allocates(rows, Longs(exposures), Open(exposures)) ensures TotalOf(rows) <= OffsetOf(exposures) {
      UsedIsMaximal(rows, Longs(exposures), Open(exposures));
    }
    var rows := UsedIsAllocated(Longs(exposures), Open(exposures));
  }

  lemma SumsPermute(a: seq<Exposure>, b: seq<Exposure>, t: nat)
    requires multiset(a) == multiset(b)
    ensures LongBelow(a, t) == LongBelow(b, t) && ShortsFrom(a, t) == ShortsFrom(b, t)
  {
    hide Sum, Filter, SENIORITIES;
    SumPermutes(ShortOf(t), a, b);
    forall s ensures LongOf(a, t)(s) == LongOf(b, t)(s) {
      forall e
        ensures multiset(Filter(IsIn(s, Long), a))[e] == multiset(Filter(IsIn(s, Long), b))[e]
      {
        FilterMultiset(IsIn(s, Long), a, e);
        FilterMultiset(IsIn(s, Long), b, e);
      }
      SumPermutes(ScaledOf(), Filter(IsIn(s, Long), a), Filter(IsIn(s, Long), b));
    }
    SumSame(LongOf(a, t), LongOf(b, t), SENIORITIES);
  }

  /** The net amounts of each direction by rank do not depend on the order of the exposures. */
  lemma NettingIgnoresOrder(a: seq<Exposure>, b: seq<Exposure>, direction: Direction, t: nat)
    requires multiset(a) == multiset(b)
    ensures NetBelow(NetRecords(a), direction, t) == NetBelow(NetRecords(b), direction, t)
  {
    hide NetRecords, NetBelow, Used, Longs, Open, LongBelow, ShortsFrom, SplitsAt, IsLeastOf;
    hide SortedLayers, SortedShorts;
    GroupIs(a);
    GroupIs(b);
    var i := Split(Open(a), t);
    var j := Split(Open(b), t);
    NetIs(a, t, i);
    NetIs(b, t, j);
    AllBelow(a);
    AllBelow(b);
    forall s: nat
      ensures LongBelow(a, s) == LongBelow(b, s) && ShortsFrom(a, s) == ShortsFrom(b, s)
    {
      SumsPermute(a, b, s);
    }
    UsedIsLeast(a, t, RANKS, |Open(a)|);
    UsedIsLeast(b, t, RANKS, |Open(b)|);
    LeastIsUnique(Used(Filter(IsBelow(t), Longs(a)), Open(a)), Used(Filter(IsBelow(t), Longs(b)), Open(b)),
                  a, b, t, RANKS);
    UsedIsLeast(a, RANKS, t, i);
    UsedIsLeast(b, RANKS, t, j);
    LeastIsUnique(Used(Longs(a), Open(a)[..i]), Used(Longs(b), Open(b)[..j]), a, b, RANKS, t);
  }

  // ----- signed totals -----

  function SignedAmount(e: Exposure): real { if e.direction.Long? then e.scaled else -e.scaled }

  function Signed(): Exposure -> real { (e: Exposure) => SignedAmount(e) }

  function SignedOf(direction: Direction): Exposure -> real {
    (e: Exposure) => if e.direction == direction then SignedAmount(e) else 0.0
  }

  /** Flattening layers keeps the sum of their amounts. */
  lemma {:induction false} FlatSum(layers: seq<Layer>, t: nat)
    requires t >= RANKS && forall i :: 0 <= i < |layers| ==> Amount(layers[i]) >= 0.0
    ensures Sum(LayerBelow(t), layers) == Sum(ScaledOf(), Flat(layers))
  {
    hide Amount, Sum, Rank;
    if layers == [] {
      SumOfNone();
      NothingBelow(layers, t);
    } else {
      FlatSum(layers[1..], t);
      SumCons(LayerBelow(t), layers);
      SumAppend(ScaledOf(), layers[0].value, Flat(layers[1..]));
      AmountIs(layers[0]);
    }
  }

  lemma AmountIs(layer: Layer)
    ensures Amount(layer) == Sum(ScaledOf(), layer.value)
  {
  }

  lemma {:induction false} AmountNonNegative(items: seq<Exposure>)
    requires forall e :: e in items ==> e.scaled >= 0.0
    ensures Sum(ScaledOf(), items) >= 0.0
  {
    if items != [] {
      AmountNonNegative(items[..|items| - 1]);
    }
  }

  lemma LongsSigned(exposures: seq<Exposure>)
    requires forall e :: e in exposures ==> e.scaled >= 0.0
    ensures LongBelow(exposures, RANKS) == Sum(SignedOf(Long), exposures)
  {
    hide Sum, Filter, Flat, Longs, SortedLayers, SortedShorts, Amount;
    var longs, items := Longs(exposures), Filter(IsOf(Long), exposures);
    GroupIs(exposures);
    LongsBelow(exposures, longs, RANKS);
    forall i | 0 <= i < |longs| ensures Amount(longs[i]) >= 0.0 {
      FilterMembers(IsIn(longs[i].key, Long), exposures);
      AmountNonNegative(longs[i].value);
      AmountIs(longs[i]);
    }
    FlatSum(longs, RANKS);
    FlatPermutes(longs, exposures, Long);
    SumPermutes(ScaledOf(), Flat(longs), items);
    FilterMembers(IsOf(Long), exposures);
    forall e | e in items ensures ScaledOf()(e) == SignedOf(Long)(e) {
      assert IsOf(Long)(e);
    }
    SumSame(ScaledOf(), SignedOf(Long), items);
    SumFilter(SignedOf(Long), IsOf(Long), exposures);
  }

  lemma {:induction false} ShortsSigned(exposures: seq<Exposure>)
    requires forall e :: e in exposures ==> e.scaled >= 0.0
    ensures ShortsFrom(exposures, 0) == -Sum(SignedOf(Short), exposures)
  {
    if exposures != [] {
      var n := |exposures| - 1;
      ShortsSigned(exposures[..n]);
      assert exposures[n] in exposures;
      assert ShortOf(0)(exposures[n]) == -SignedOf(Short)(exposures[n]);
    }
  }

  /**
    Netting keeps the signed total: long records less short records are the positive longs less the
    positive shorts, which for amounts that are not negative is the signed total of the exposures.
  */
  lemma NettingKeepsSignedTotal(exposures: seq<Exposure>)
    ensures var records := NetRecords(exposures);
            var net := NetBelow(records, Long, RANKS) - NetBelow(records, Short, RANKS);
            && net == LongBelow(exposures, RANKS) - ShortsFrom(exposures, 0)
            && ((forall e :: e in exposures ==> e.scaled >= 0.0) ==> net == Sum(Signed(), exposures))
  {
    hide NetRecords, NetBelow, LongBelow, ShortsFrom, Sum;
    NettingOffsetsLeastCut(exposures);
    if forall e :: e in exposures ==> e.scaled >= 0.0 {
      LongsSigned(exposures);
      ShortsSigned(exposures);
      SumPlus(SignedOf(Long), SignedOf(Short), Signed(), exposures);
    }
  }

  // ----- gross amounts -----

  /** The same share is left of the gross amount as of the scaled one. */
  ghost predicate GrossFollows(c: Remaining) {
    c.gross * c.item.scaled == c.item.gross * c.scaled
  }

  lemma ShareIsKept(gross: real, scaled: real, taken: real, itemGross: real, itemScaled: real)
    requires scaled > 0.0 && gross * itemScaled == itemGross * scaled
    ensures (gross - gross * (taken / scaled)) * itemScaled == itemGross * (scaled - taken)
  {
    var share := taken / scaled;
    assert scaled * share == taken;
    calc {
      (gross - gross * share) * itemScaled;
      gross * itemScaled - (gross * itemScaled) * share;
      itemGross * scaled - (itemGross * scaled) * share;
      itemGross * scaled - itemGross * (scaled * share);
      itemGross * scaled - itemGross * taken;
    }
  }

  lemma RestFollows(c: Remaining, want: real)
    requires GrossFollows(c)
    ensures GrossFollows(Rest(c, want))
  {
    var t := Taken(c, want);
    if t > 0.0 {
      ShareIsKept(c.gross, c.scaled, t, c.item.gross, c.item.scaled);
    }
  }

  lemma {:induction false} OffsetFollows(shorts: seq<Remaining>, long: Seniority, want: real)
    requires forall i :: 0 <= i < |shorts| ==> GrossFollows(shorts[i])
    ensures forall i :: 0 <= i < |shorts| ==> GrossFollows(OffsetBy(shorts, long, want).shorts[i])
  {
    hide GrossFollows, Rest, Taken, CanOffset;
    if shorts != [] {
      var n := |shorts| - 1;
      var before := OffsetBy(shorts[..n], long, want);
      OffsetFollows(shorts[..n], long, want);
      RestFollows(shorts[n], want - before.scaled);
    }
  }

  lemma {:induction false} NetLongsFollow(longs: seq<Layer>, shorts: seq<Remaining>)
    requires forall i :: 0 <= i < |shorts| ==> GrossFollows(shorts[i])
    ensures forall i :: 0 <= i < |shorts| ==> GrossFollows(NetLongs(longs, shorts).shorts[i])
    decreases |longs|
  {
    hide GrossFollows, OffsetBy, Amount;
    if longs != [] {
      OffsetFollows(shorts, longs[0].key, Amount(longs[0]));
      NetLongsFollow(longs[1..], OffsetBy(shorts, longs[0].key, Amount(longs[0])).shorts);
    }
  }

  /** What is left of every short in the end is the same share of its gross as of its scaled amount. */
  lemma LeftSharesAreEqual(exposures: seq<Exposure>)
    ensures var left := NetLongs(Longs(exposures), Open(exposures)).shorts;
            forall i :: 0 <= i < |left| ==> GrossFollows(left[i])
  {
    hide NetLongs;
    NetLongsFollow(Longs(exposures), Open(exposures));
  }
}
