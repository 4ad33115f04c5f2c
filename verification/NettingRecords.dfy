/**
  What the net records say: which exposures and which parts of which shorts are behind every amount.
*/
module NettingRecords {
  import opened Sequences
  import opened Sums
  import opened OrderedDicts
  import opened ObligorNetting
  import opened NettingLaws
  import opened NettingLayers
  import opened NettingResults

  // ----- what one long takes -----

  /** The shorts that have lost something, in their order. */
  function Losers(before: seq<Remaining>, after: seq<Remaining>): seq<Exposure>
    requires |before| == |after|
  {
    if before == [] then [] else
      var n := |before| - 1;
      Losers(before[..n], after[..n]) + if after[n].scaled < before[n].scaled then [before[n].item] else []
  }

  /** Only positive shorts that a long of this seniority may offset lose anything, and none loses more than it has. */
  ghost predicate LosesTo(s: Seniority, before: seq<Remaining>, after: seq<Remaining>) {
    && |before| == |after|
    && forall j :: 0 <= j < |before| ==>
         && after[j].item == before[j].item
         && (after[j] == before[j] ||
             (Rank(before[j].item.seniority) >= Rank(s) && 0.0 <= after[j].scaled < before[j].scaled))
  }

  lemma {:induction false} OffsetLosesTo(shorts: seq<Remaining>, long: Seniority, want: real)
    ensures LosesTo(long, shorts, OffsetBy(shorts, long, want).shorts)
  {
    hide Rank, Taken, Rest;
    if shorts != [] {
      var n := |shorts| - 1;
      OffsetLosesTo(shorts[..n], long, want);
      RestLoses(shorts[n], want - OffsetBy(shorts[..n], long, want).scaled);
    }
  }

  lemma {:induction false} OffsetItems(shorts: seq<Remaining>, long: Seniority, want: real)
    ensures OffsetBy(shorts, long, want).items == Losers(shorts, OffsetBy(shorts, long, want).shorts)
  {
    hide Taken, Rest, Losers, CanOffset;
    if shorts == [] {
      NoLosers(shorts, OffsetBy(shorts, long, want).shorts);
    } else {
      var n := |shorts| - 1;
      var before, c := OffsetBy(shorts[..n], long, want), shorts[n];
      OffsetItems(shorts[..n], long, want);
      RestLoses(c, want - before.scaled);
      LosersSnoc(shorts[..n], before.shorts, c, c);
      LosersSnoc(shorts[..n], before.shorts, c, Rest(c, want - before.scaled));
      assert shorts == shorts[..n] + [c];
    }
  }

  lemma NoLosers(before: seq<Remaining>, after: seq<Remaining>)
    requires before == [] && after == []
    ensures Losers(before, after) == []
  {
  }

  lemma {:induction false} OffsetScaled(shorts: seq<Remaining>, long: Seniority, want: real)
    ensures var o := OffsetBy(shorts, long, want);
            o.scaled == Sum(RestScaled(), shorts) - Sum(RestScaled(), o.shorts)
  {
    hide CanOffset, Taken, Rest;
    if shorts != [] {
      var n := |shorts| - 1;
      var before, c := OffsetBy(shorts[..n], long, want), shorts[n];
      OffsetScaled(shorts[..n], long, want);
      RestLoses(c, want - before.scaled);
      SumSnoc(RestScaled(), before.shorts, c);
      SumSnoc(RestScaled(), before.shorts, Rest(c, want - before.scaled));
    }
  }

  lemma {:induction false} OffsetGross(shorts: seq<Remaining>, long: Seniority, want: real)
    ensures var o := OffsetBy(shorts, long, want);
            o.gross == Sum(RestGross(), shorts) - Sum(RestGross(), o.shorts)
  {
    hide CanOffset, Taken, Rest;
    if shorts != [] {
      var n := |shorts| - 1;
      var before, c := OffsetBy(shorts[..n], long, want), shorts[n];
      OffsetGross(shorts[..n], long, want);
      SumSnoc(RestGross(), before.shorts, c);
      SumSnoc(RestGross(), before.shorts, Rest(c, want - before.scaled));
    }
  }

  lemma RestLoses(c: Remaining, want: real)
    ensures var rest := Rest(c, want);
            && rest.item == c.item && rest.scaled == c.scaled - Taken(c, want)
            && (Taken(c, want) <= 0.0 ==> rest == c && Taken(c, want) == 0.0)
            && (Taken(c, want) > 0.0 ==> 0.0 <= rest.scaled < c.scaled)
  {
  }

  lemma LosersSnoc(before: seq<Remaining>, after: seq<Remaining>, b: Remaining, a: Remaining)
    requires |before| == |after|
    ensures Losers(before + [b], after + [a]) ==
            Losers(before, after) + if a.scaled < b.scaled then [b.item] else []
  {
    assert (before + [b])[..|before|] == before && (after + [a])[..|after|] == after;
  }

  // ----- the stages of the netting -----

  function StageOf(longs: seq<Layer>, shorts: seq<Remaining>, k: nat): (r: seq<Remaining>)
    requires k <= |longs|
    ensures |r| == |shorts|
  {
    NetLongs(longs[..k], shorts).shorts
  }

  lemma StageUnfold(longs: seq<Layer>, shorts: seq<Remaining>, k: nat)
    requires 0 < k <= |longs|
    ensures StageOf(longs, shorts, k) ==
            StageOf(longs[1..], OffsetBy(shorts, longs[0].key, Amount(longs[0])).shorts, k - 1)
  {
    assert longs[..k][1..] == longs[1..][..k - 1];
  }

  lemma {:induction false} NextStage(longs: seq<Layer>, shorts: seq<Remaining>, k: nat)
    requires k < |longs|
    ensures StageOf(longs, shorts, k + 1) ==
            OffsetBy(StageOf(longs, shorts, k), longs[k].key, Amount(longs[k])).shorts
    decreases k
  {
    hide OffsetBy, Amount;
    var after := OffsetBy(shorts, longs[0].key, Amount(longs[0])).shorts;
    StageUnfold(longs, shorts, k + 1);
    if k == 0 {
      assert longs[1..][..0] == [] && longs[..0] == [];
    } else {
      StageUnfold(longs, shorts, k);
      NextStage(longs[1..], after, k - 1);
    }
  }

  // ----- the record of a seniority -----

  function IsRecordOf(s: Seniority, direction: Direction): NetRecord -> bool {
    (r: NetRecord) => r.seniority == s && r.direction == direction
  }

  lemma {:induction false} NoRecordsOf(longs: seq<Layer>, shorts: seq<Remaining>, s: Seniority)
    requires forall i :: 0 <= i < |longs| ==> longs[i].key != s
    ensures Filter(IsRecordOf(s, Long), NetLongs(longs, shorts).records) == []
    decreases |longs|
  {
    hide OffsetBy, Amount, Sum;
    if longs != [] {
      var o := OffsetBy(shorts, longs[0].key, Amount(longs[0]));
      NoRecordsOf(longs[1..], o.shorts, s);
      FilterAppend(IsRecordOf(s, Long), LongRecords(longs[0], o), NetLongs(longs[1..], o.shorts).records);
      FilterNone(IsRecordOf(s, Long), LongRecords(longs[0], o));
    }
  }

  lemma {:induction false} RecordsOf(longs: seq<Layer>, shorts: seq<Remaining>, k: nat)
    requires UniqueKeys(longs) && k < |longs|
    ensures Filter(IsRecordOf(longs[k].key, Long), NetLongs(longs, shorts).records) ==
            LongRecords(longs[k], OffsetBy(StageOf(longs, shorts, k), longs[k].key, Amount(longs[k])))
    decreases k
  {
    hide OffsetBy, Amount, Sum;
    var s, o := longs[k].key, OffsetBy(shorts, longs[0].key, Amount(longs[0]));
    var rest := NetLongs(longs[1..], o.shorts).records;
    FilterAppend(IsRecordOf(s, Long), LongRecords(longs[0], o), rest);
    if k == 0 {
      assert longs[..0] == [];
      NoRecordsOf(longs[1..], o.shorts, s);
      FilterAll(IsRecordOf(s, Long), LongRecords(longs[0], o));
    } else {
      StageUnfold(longs, shorts, k);
      RecordsOf(longs[1..], o.shorts, k - 1);
      FilterNone(IsRecordOf(s, Long), LongRecords(longs[0], o));
    }
  }

  lemma NoMembers(records: seq<NetRecord>)
    ensures (forall r :: r !in records) ==> records == []
  {
    if records != [] {
      assert records[0] in records;
    }
  }

  lemma {:induction false} ShortsHaveNoLongs(layers: seq<Layer>, shorts: seq<Remaining>, s: Seniority)
    ensures Filter(IsRecordOf(s, Long), ShortRecords(layers, shorts)) == []
  {
    hide Filter;
    FilterMembers(IsRecordOf(s, Long), ShortRecords(layers, shorts));
    DirectionOfShorts(layers, shorts);
    var found := Filter(IsRecordOf(s, Long), ShortRecords(layers, shorts));
    assert forall r :: r !in found;
    NoMembers(found);
  }

  lemma {:induction false} DirectionOfShorts(layers: seq<Layer>, shorts: seq<Remaining>)
    ensures forall r :: r in ShortRecords(layers, shorts) ==>
              r.direction.Short? && exists k :: 0 <= k < |layers| && layers[k].key == r.seniority
  {
    hide Filter, Sum;
    if layers != [] {
      var n := |layers| - 1;
      var before := ShortRecords(layers[..n], shorts);
      DirectionOfShorts(layers[..n], shorts);
      forall r | r in before ensures exists k :: 0 <= k < |layers| && layers[k].key == r.seniority {
        var k :| 0 <= k < |layers[..n]| && layers[..n][k].key == r.seniority;
        assert layers[k].key == r.seniority;
      }
    }
  }

  lemma {:induction false} DirectionOfLongs(longs: seq<Layer>, shorts: seq<Remaining>)
    ensures forall r :: r in NetLongs(longs, shorts).records ==>
              r.direction.Long? && exists k :: 0 <= k < |longs| && longs[k].key == r.seniority
    decreases |longs|
  {
    hide OffsetBy, Amount, Sum;
    if longs != [] {
      var o := OffsetBy(shorts, longs[0].key, Amount(longs[0]));
      DirectionOfLongs(longs[1..], o.shorts);
      forall r | r in NetLongs(longs[1..], o.shorts).records
        ensures exists k :: 0 <= k < |longs| && longs[k].key == r.seniority
      {
        var k :| 0 <= k < |longs[1..]| && longs[1..][k].key == r.seniority;
        assert longs[k + 1].key == r.seniority;
      }
    }
  }

  /** What remains of the shorts before the layer of longs number `k` is offset. */
  function Stage(exposures: seq<Exposure>, k: nat): seq<Remaining>
    requires k <= |Longs(exposures)|
  {
    StageOf(Longs(exposures), Open(exposures), k)
  }

  /** The record of a seniority of longs, of which `before` and `after` are the stages. */
  ghost predicate IsLongRecord(r: NetRecord, exposures: seq<Exposure>, before: seq<Remaining>, after: seq<Remaining>) {
    var longs := Filter(IsIn(r.seniority, Long), exposures);
    && LosesTo(r.seniority, before, after)
    && r.direction.Long?
    && r.grossLong == Sum(GrossOf(), longs) && r.scaledLong == Sum(ScaledOf(), longs)
    && r.grossShort == Sum(RestGross(), before) - Sum(RestGross(), after)
    && r.scaledShort == Sum(RestScaled(), before) - Sum(RestScaled(), after)
    && r.net == r.scaledLong - r.scaledShort && r.net > 0.0
    && r.items == longs + Losers(before, after)
  }

  /**
    Each seniority of longs has a record exactly if more of it is there than the shorts lose to it. The
    record then shows all longs of the seniority, exactly the shorts that lose something, and the gross
    and scaled amounts of both.
  */
  lemma LongRecordsAre(exposures: seq<Exposure>, k: nat)
    requires k < |Longs(exposures)|
    ensures var s, before, after := Longs(exposures)[k].key, Stage(exposures, k), Stage(exposures, k + 1);
            var records := Filter(IsRecordOf(s, Long), NetRecords(exposures));
            && LosesTo(s, before, after)
            && (if Sum(ScaledOf(), Filter(IsIn(s, Long), exposures)) >
                   Sum(RestScaled(), before) - Sum(RestScaled(), after)
                then |records| == 1 && IsLongRecord(records[0], exposures, before, after)
                else records == [])
  {
    hide Filter, Sum, NetLongs, ShortRecords, OffsetBy, Losers, LosesTo, Longs, Open, SortedLayers, SortedShorts;
    var longs, shorts := Longs(exposures), Open(exposures);
    var layer, before := longs[k], Stage(exposures, k);
    RecordsSplit(exposures);
    GroupIs(exposures);
    RecordsOf(longs, shorts, k);
    NextStage(longs, shorts, k);
    OffsetLosesTo(before, layer.key, Amount(layer));
    OffsetItems(before, layer.key, Amount(layer));
    OffsetScaled(before, layer.key, Amount(layer));
    OffsetGross(before, layer.key, Amount(layer));
    FilterAppend(IsRecordOf(layer.key, Long), NetLongs(longs, shorts).records,
                 ShortRecords(Shorts(exposures), NetLongs(longs, shorts).shorts));
    ShortsHaveNoLongs(Shorts(exposures), NetLongs(longs, shorts).shorts, layer.key);
  }

  lemma RecordsSplit(exposures: seq<Exposure>)
    ensures var netted := NetLongs(Longs(exposures), Open(exposures));
            NetRecords(exposures) == netted.records + ShortRecords(Shorts(exposures), netted.shorts)
  {
    hide NetLongs, ShortRecords;
  }

  /** Every long record is of a seniority that has longs. */
  lemma LongRecordHasLayer(exposures: seq<Exposure>, r: NetRecord)
    requires r in NetRecords(exposures) && r.direction.Long?
    ensures exists k :: 0 <= k < |Longs(exposures)| && Longs(exposures)[k].key == r.seniority
  {
    hide Longs, Open, Shorts, NetRecords;
    RecordsSplit(exposures);
    DirectionOfLongs(Longs(exposures), Open(exposures));
    DirectionOfShorts(Shorts(exposures), NetLongs(Longs(exposures), Open(exposures)).shorts);
  }

  /** The stages begin with all shorts as they were given, and each one follows from the layers before. */
  lemma FirstStage(exposures: seq<Exposure>)
    ensures Stage(exposures, 0) == Open(exposures)
    ensures forall j :: 0 <= j < |Open(exposures)| ==>
              var c := Open(exposures)[j];
              c.gross == c.item.gross && c.scaled == c.item.scaled
    ensures multiset(ItemsOf(Open(exposures))) == multiset(Filter(IsOf(Short), exposures))
  {
    hide Longs, Shorts, Filter, Flat, SortedLayers, SortedShorts;
    assert Longs(exposures)[..0] == [];
    GroupIs(exposures);
    FlatPermutes(Shorts(exposures), exposures, Short);
    assert ItemsOf(Open(exposures)) == Flat(Shorts(exposures));
  }

  // ----- short records -----

  /** The record of a seniority of shorts, of which `left` are left in the end. */
  ghost predicate IsShortRecord(r: NetRecord, left: seq<Remaining>) {
    && r.direction.Short?
    && r.grossLong == 0.0 && r.scaledLong == 0.0
    && r.grossShort == Sum(RestGross(), left)
    && r.scaledShort == r.net == Sum(RestScaled(), left) && r.net > 0.0
    && r.items == ItemsOf(left)
  }

  lemma {:induction false} NoShortRecords(layers: seq<Layer>, shorts: seq<Remaining>, s: Seniority)
    requires s !in Keys(layers)
    ensures Filter(IsRecordOf(s, Short), ShortRecords(layers, shorts)) == []
  {
    hide Sum;
    if layers != [] {
      var n := |layers| - 1;
      var last := ShortRecord(layers[n].key, Filter(IsLeft(layers[n].key), shorts));
      assert Keys(layers)[n] == layers[n].key && Keys(layers)[..n] == Keys(layers[..n]);
      NoShortRecords(layers[..n], shorts, s);
      FilterAppend(IsRecordOf(s, Short), ShortRecords(layers[..n], shorts), last);
      FilterNone(IsRecordOf(s, Short), last);
    }
  }

  lemma OwnRecord(s: Seniority, key: Seniority, shorts: seq<Remaining>)
    ensures var record := ShortRecord(key, Filter(IsLeft(key), shorts));
            Filter(IsRecordOf(s, Short), record) == if key == s then record else []
  {
    hide Sum;
    var record := ShortRecord(key, Filter(IsLeft(key), shorts));
    if key == s {
      FilterAll(IsRecordOf(s, Short), record);
    } else {
      FilterNone(IsRecordOf(s, Short), record);
    }
  }

  lemma {:induction false} ShortRecordsOf(layers: seq<Layer>, shorts: seq<Remaining>, k: nat)
    requires UniqueKeys(layers) && k < |layers|
    ensures Filter(IsRecordOf(layers[k].key, Short), ShortRecords(layers, shorts)) ==
            ShortRecord(layers[k].key, Filter(IsLeft(layers[k].key), shorts))
  {
    hide Sum, Filter, ShortRecord;
    var n, s := |layers| - 1, layers[k].key;
    OwnRecord(s, layers[n].key, shorts);
    var last := ShortRecord(layers[n].key, Filter(IsLeft(layers[n].key), shorts));
    FilterAppend(IsRecordOf(s, Short), ShortRecords(layers[..n], shorts), last);
    if k == n {
      NoShortRecords(layers[..n], shorts, s);
    } else {
      ShortRecordsOf(layers[..n], shorts, k);
    }
  }

  lemma {:induction false} LongsHaveNoShorts(longs: seq<Layer>, shorts: seq<Remaining>, s: Seniority)
    ensures Filter(IsRecordOf(s, Short), NetLongs(longs, shorts).records) == []
  {
    hide Filter, NetLongs;
    var records := NetLongs(longs, shorts).records;
    FilterMembers(IsRecordOf(s, Short), records);
    DirectionOfLongs(longs, shorts);
    var found := Filter(IsRecordOf(s, Short), records);
    assert forall r :: r !in found;
    NoMembers(found);
  }

  lemma {:induction false} PositiveSum(shorts: seq<Remaining>)
    requires forall c :: c in shorts ==> c.scaled > 0.0
    ensures Sum(RestScaled(), shorts) >= 0.0 && (shorts != [] ==> Sum(RestScaled(), shorts) > 0.0)
  {
    if shorts != [] {
      PositiveSum(shorts[..|shorts| - 1]);
    }
  }

  /** Each seniority of shorts has a record exactly if some of it is left in the end, which the record shows. */
  lemma ShortRecordsAre(exposures: seq<Exposure>, s: Seniority)
    ensures var left := Filter(IsLeft(s), Stage(exposures, |Longs(exposures)|));
            var records := Filter(IsRecordOf(s, Short), NetRecords(exposures));
            if left == [] then records == [] else |records| == 1 && IsShortRecord(records[0], left)
  {
    hide Filter, Sum, NetLongs, ShortRecords, Longs, Open, Shorts, SortedLayers, SortedShorts, AreLayers;
    var longs, layers := Longs(exposures), Shorts(exposures);
    var final := NetLongs(longs, Open(exposures)).shorts;
    assert longs[..|longs|] == longs;
    RecordsSplit(exposures);
    UniqueShorts(exposures);
    FilterAppend(IsRecordOf(s, Short), NetLongs(longs, Open(exposures)).records, ShortRecords(layers, final));
    LongsHaveNoShorts(longs, Open(exposures), s);
    FilterMembers(IsLeft(s), final);
    var left := Filter(IsLeft(s), final);
    PositiveSum(left);
    if s in Keys(layers) {
      var k :| 0 <= k < |layers| && Keys(layers)[k] == s;
      ShortRecordsOf(layers, final, k);
    } else {
      NoShortRecords(layers, final, s);
      LeftHasLayer(exposures, s);
    }
  }

  lemma LeftHasLayer(exposures: seq<Exposure>, s: Seniority)
    ensures Filter(IsLeft(s), NetLongs(Longs(exposures), Open(exposures)).shorts) != [] ==> s in Keys(Shorts(exposures))
  {
    hide Filter, NetLongs, Longs, Open, Shorts;
    var final := NetLongs(Longs(exposures), Open(exposures)).shorts;
    var left := Filter(IsLeft(s), final);
    FilterMembers(IsLeft(s), final);
    NetLongsKeepItems(Longs(exposures), Open(exposures));
    OpenKeys(exposures);
    if left != [] {
      assert left[0] in left;
      var j :| 0 <= j < |final| && final[j] == left[0];
    }
  }

  // ----- the order of the records -----

  /** Long records come first, and each direction by rank. */
  ghost predicate InOrder(records: seq<NetRecord>) {
    forall i, j :: 0 <= i < j < |records| ==>
      && (records[i].direction.Short? ==> records[j].direction.Short?)
      && (records[i].direction == records[j].direction ==> Rank(records[i].seniority) <= Rank(records[j].seniority))
  }

  /** Every record of the second sequence may follow every record of the first. */
  lemma InOrderAppend(a: seq<NetRecord>, b: seq<NetRecord>)
    requires InOrder(a) && InOrder(b)
    requires forall x, y :: x in a && y in b ==>
               && (x.direction.Short? ==> y.direction.Short?)
               && (x.direction == y.direction ==> Rank(x.seniority) <= Rank(y.seniority))
    ensures InOrder(a + b)
  {
    hide Rank;
    forall i, j | 0 <= i < j < |a + b|
      ensures (a + b)[i].direction.Short? ==> (a + b)[j].direction.Short?
      ensures (a + b)[i].direction == (a + b)[j].direction ==>
                Rank((a + b)[i].seniority) <= Rank((a + b)[j].seniority)
    {
      if i < |a| <= j {
        assert (a + b)[i] in a && (a + b)[j] in b;
      }
    }
  }

  lemma {:induction false} LongsInOrder(longs: seq<Layer>, shorts: seq<Remaining>)
    requires SortedLayers(longs)
    ensures InOrder(NetLongs(longs, shorts).records)
    decreases |longs|
  {
    hide OffsetBy, Amount, Sum, Rank;
    if longs != [] {
      var o := OffsetBy(shorts, longs[0].key, Amount(longs[0]));
      LongsInOrder(longs[1..], o.shorts);
      DirectionOfLongs(longs[1..], o.shorts);
      InOrderAppend(LongRecords(longs[0], o), NetLongs(longs[1..], o.shorts).records);
    }
  }

  lemma {:induction false} ShortsInOrder(layers: seq<Layer>, shorts: seq<Remaining>)
    requires SortedLayers(layers)
    ensures InOrder(ShortRecords(layers, shorts))
  {
    hide Filter, Sum, Rank, IsLeft;
    if layers != [] {
      var n := |layers| - 1;
      ShortsInOrder(layers[..n], shorts);
      DirectionOfShorts(layers[..n], shorts);
      InOrderAppend(ShortRecords(layers[..n], shorts),
                    ShortRecord(layers[n].key, Filter(IsLeft(layers[n].key), shorts)));
    }
  }

  lemma RecordsInOrder(exposures: seq<Exposure>)
    ensures InOrder(NetRecords(exposures))
  {
    hide Filter, Sum, Rank, NetLongs, ShortRecords, Longs, Open, Shorts, SortedLayers, AreLayers, InOrder;
    var netted := NetLongs(Longs(exposures), Open(exposures));
    GroupIs(exposures);
    RecordsSplit(exposures);
    LongsInOrder(Longs(exposures), Open(exposures));
    DirectionOfLongs(Longs(exposures), Open(exposures));
    ShortsInOrder(Shorts(exposures), netted.shorts);
    DirectionOfShorts(Shorts(exposures), netted.shorts);
    InOrderAppend(netted.records, ShortRecords(Shorts(exposures), netted.shorts));
  }
}
