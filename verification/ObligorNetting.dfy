/**
  Netting of the exposures to one obligor: longs, the most senior first, use up the shorts that are
  not senior to them. Amounts are real numbers of any sign.
*/
module ObligorNetting {
  import opened Wrappers
  import opened Sequences
  import opened Sums
  import opened OrderedDicts

  datatype Seniority =
    | CoveredBond | GseGuaranteed | SeniorDebt | GseIssuedNotGuaranteed | Pse
    | NonSeniorDebt | Equity | NotRecoveryLinked

  const RANKS := 5

  function Rank(s: Seniority): (r: nat)
    ensures r < RANKS
  {
    match s
    case CoveredBond => 0
    case GseGuaranteed => 0
    case SeniorDebt => 1
    case GseIssuedNotGuaranteed => 1
    case Pse => 1
    case NonSeniorDebt => 2
    case Equity => 3
    case NotRecoveryLinked => 4
  }

  predicate CanOffset(long: Seniority, short: Seniority) {
    Rank(short) >= Rank(long)
  }

  datatype Direction = Long | Short

  datatype Exposure = Exposure(id: string, seniority: Seniority, direction: Direction, gross: real, scaled: real)

  type Layer = Item<Seniority, seq<Exposure>>

  function ScaledOf(): (f: Exposure -> real)
    ensures forall e :: f(e) == e.scaled
  {
    (e: Exposure) => e.scaled
  }

  function GrossOf(): (f: Exposure -> real)
    ensures forall e :: f(e) == e.gross
  {
    (e: Exposure) => e.gross
  }

  function IsIn(s: Seniority, direction: Direction): Exposure -> bool {
    (e: Exposure) => e.seniority == s && e.direction == direction
  }

  // ----- layers by seniority -----

  function ItemsAt(d: seq<Layer>, s: Seniority): seq<Exposure> {
    match Get(d, s) case None => [] case Some(items) => items
  }

  /** `grouped.setdefault(exposure.seniority, []).append(exposure)` for the exposures of one direction. */
  function BySeniority(exposures: seq<Exposure>, direction: Direction): seq<Layer> {
    if exposures == [] then []
    else
      var before, last := BySeniority(exposures[..|exposures| - 1], direction), exposures[|exposures| - 1];
      if last.direction != direction then before
      else Put(before, last.seniority, ItemsAt(before, last.seniority) + [last])
  }

  method GroupBySeniority(exposures: seq<Exposure>, direction: Direction) returns (grouped: seq<Layer>)
    ensures grouped == BySeniority(exposures, direction)
  {
    grouped := [];
    for i := 0 to |exposures|
      invariant grouped == BySeniority(exposures[..i], direction)
    {
      assert exposures[..i + 1][..i] == exposures[..i];
      var e := exposures[i];
      if e.direction == direction {
        grouped := Put(grouped, e.seniority, ItemsAt(grouped, e.seniority) + [e]);
      }
    }
    assert exposures[..|exposures|] == exposures;
  }

  function HasRank(r: nat): Layer -> bool { (layer: Layer) => Rank(layer.key) == r }

  function RanksBelow(layers: seq<Layer>, n: nat): seq<Layer> {
    if n == 0 then [] else RanksBelow(layers, n - 1) + Filter(HasRank(n - 1), layers)
  }

  /** `sorted(layers, key=_seniority_rank)`, which is stable. */
  function SortedByRank(layers: seq<Layer>): seq<Layer> {
    RanksBelow(layers, RANKS)
  }

  // ----- using up shorts -----

  /** A short and what remains of it. */
  datatype Remaining = Remaining(item: Exposure, gross: real, scaled: real)

  function Taken(c: Remaining, want: real): (t: real)
    ensures t == Min(Pos(want), Pos(c.scaled))
  {
    if c.scaled <= 0.0 || want <= 0.0 then 0.0 else Min(want, c.scaled)
  }

  /** Of the gross amount the same share is taken as of the scaled one. */
  function Rest(c: Remaining, want: real): Remaining {
    var t := Taken(c, want);
    if t <= 0.0 then c else Remaining(c.item, c.gross - c.gross * (t / c.scaled), c.scaled - t)
  }

  datatype Offset = Offset(shorts: seq<Remaining>, scaled: real, gross: real, items: seq<Exposure>)

  /** What offsetting against one more short does. */
  function OneMore(o: Offset, c: Remaining, long: Seniority, want: real): (r: Offset)
    ensures |r.shorts| == |o.shorts| + 1
  {
    if !CanOffset(long, c.item.seniority) then o.(shorts := o.shorts + [c])
    else
      var t, rest := Taken(c, want - o.scaled), Rest(c, want - o.scaled);
      Offset(o.shorts + [rest], o.scaled + t, o.gross + (c.gross - rest.gross),
             if t <= 0.0 then o.items else o.items + [c.item])
  }

  /** A long of this seniority uses up what it wants of the shorts, in their order. */
  function OffsetBy(shorts: seq<Remaining>, long: Seniority, want: real): (o: Offset)
    ensures |o.shorts| == |shorts|
  {
    if shorts == [] then Offset([], 0.0, 0.0, []) else
      var n := |shorts| - 1;
      OneMore(OffsetBy(shorts[..n], long, want), shorts[n], long, want)
  }

  datatype NetRecord = NetRecord(
    seniority: Seniority, direction: Direction, grossLong: real, grossShort: real,
    scaledLong: real, scaledShort: real, net: real, items: seq<Exposure>)

  datatype Netted = Netted(records: seq<NetRecord>, shorts: seq<Remaining>)

  function Amount(layer: Layer): real { Sum(ScaledOf(), layer.value) }

  function LongRecords(layer: Layer, o: Offset): seq<NetRecord> {
    if Amount(layer) - o.scaled <= 0.0 then []
    else
      [NetRecord(layer.key, Long, Sum(GrossOf(), layer.value), o.gross, Amount(layer), o.scaled,
                 Amount(layer) - o.scaled, layer.value + o.items)]
  }

  /** Layer by layer: each long layer uses up shorts, and what is not offset becomes a record. */
  function NetLongs(longs: seq<Layer>, shorts: seq<Remaining>): (r: Netted)
    ensures |r.shorts| == |shorts|
  {
    if longs == [] then Netted([], shorts) else
      var o := OffsetBy(shorts, longs[0].key, Amount(longs[0]));
      var rest := NetLongs(longs[1..], o.shorts);
      Netted(LongRecords(longs[0], o) + rest.records, rest.shorts)
  }

  function Initial(items: seq<Exposure>): (r: seq<Remaining>)
    ensures |r| == |items|
  {
    seq(|items|, i requires 0 <= i < |items| => Remaining(items[i], items[i].gross, items[i].scaled))
  }

  /** The shorts of all layers, in the order in which every long goes through them. */
  function Flat(layers: seq<Layer>): seq<Exposure> {
    if layers == [] then [] else layers[0].value + Flat(layers[1..])
  }

  function IsLeft(s: Seniority): Remaining -> bool { (c: Remaining) => c.item.seniority == s && c.scaled > 0.0 }

  function RestScaled(): (f: Remaining -> real)
    ensures forall c :: f(c) == c.scaled
  {
    (c: Remaining) => c.scaled
  }

  function RestGross(): (f: Remaining -> real)
    ensures forall c :: f(c) == c.gross
  {
    (c: Remaining) => c.gross
  }

  function ItemsOf(shorts: seq<Remaining>): (r: seq<Exposure>)
    ensures |r| == |shorts|
  {
    seq(|shorts|, i requires 0 <= i < |shorts| => shorts[i].item)
  }

  function ShortRecord(s: Seniority, left: seq<Remaining>): seq<NetRecord> {
    if left == [] then []
    else
      [NetRecord(s, Short, 0.0, Sum(RestGross(), left), 0.0, Sum(RestScaled(), left), Sum(RestScaled(), left),
                 ItemsOf(left))]
  }

  function ShortRecords(layers: seq<Layer>, shorts: seq<Remaining>): seq<NetRecord> {
    if layers == [] then []
    else
      var n := |layers| - 1;
      ShortRecords(layers[..n], shorts) + ShortRecord(layers[n].key, Filter(IsLeft(layers[n].key), shorts))
  }

  /** The net records of one obligor: what is left of the longs, then what is left of the shorts. */
  function NetRecords(exposures: seq<Exposure>): seq<NetRecord> {
    var longs, shorts := SortedByRank(BySeniority(exposures, Long)), SortedByRank(BySeniority(exposures, Short));
    var netted := NetLongs(longs, Initial(Flat(shorts)));
    netted.records + ShortRecords(shorts, netted.shorts)
  }

  // ----- the loops of the code -----

  /** What remains of a short while the longs go through the shorts. */
  class ShortState {
    const item: Exposure
    var gross: real
    var scaled: real

    constructor (item: Exposure)
      ensures this.item == item && gross == item.gross && scaled == item.scaled
    {
      this.item := item;
      gross := item.gross;
      scaled := item.scaled;
    }

    function Value(): Remaining
      reads this
    {
      Remaining(item, gross, scaled)
    }

    method Consume(requested: real) returns (takenScaled: real, takenGross: real)
      modifies this
      ensures takenScaled == Taken(old(Value()), requested)
      ensures Value() == Rest(old(Value()), requested) && takenGross == old(gross) - gross
    {
      if scaled <= 0.0 {
        return 0.0, 0.0;
      }
      takenScaled := Min(requested, scaled);
      if takenScaled <= 0.0 {
        return 0.0, 0.0;
      }
      var ratio := takenScaled / scaled;
      takenGross := gross * ratio;
      scaled := scaled - takenScaled;
      gross := gross - takenGross;
    }
  }

  function Values(states: seq<ShortState>): (r: seq<Remaining>)
    reads states
    ensures |r| == |states| && forall i :: 0 <= i < |states| ==> r[i] == states[i].Value()
  {
    if states == [] then [] else Values(states[..|states| - 1]) + [states[|states| - 1].Value()]
  }

  lemma OffsetStep(shorts: seq<Remaining>, long: Seniority, want: real, i: nat)
    requires i < |shorts|
    ensures OffsetBy(shorts[..i + 1], long, want) == OneMore(OffsetBy(shorts[..i], long, want), shorts[i], long, want)
  {
    hide OneMore;
    assert shorts[..i + 1][..i] == shorts[..i];
  }

  method OffsetLong(states: seq<ShortState>, long: Seniority, scaledLong: real)
    returns (usedScaled: real, usedGross: real, usedItems: seq<Exposure>)
    requires Distinct(states)
    modifies states
    ensures Offset(Values(states), usedScaled, usedGross, usedItems) == OffsetBy(old(Values(states)), long, scaledLong)
  {
    hide OffsetBy, Values, Taken, Rest;
    ghost var before := Values(states);
    usedScaled, usedGross, usedItems := 0.0, 0.0, [];
    NothingYet(states, before, long, scaledLong);
    for i := 0 to |states|
      invariant forall k :: i <= k < |states| ==> states[k].Value() == before[k]
      invariant Offset(Values(states[..i]), usedScaled, usedGross, usedItems) == OffsetBy(before[..i], long, scaledLong)
    {
      OffsetStep(before, long, scaledLong, i);
      ghost var done, now := Values(states[..i]), states[i].Value();
      ValuesSnoc(states, i);
      if !CanOffset(long, states[i].item.seniority) {
        continue;
      }
      var remainingLong := scaledLong - usedScaled;
      if remainingLong <= 0.0 {
        NothingWanted(before, long, scaledLong, i);
        ValuesSplit(states, before, i);
        return;
      }
      var takenScaled, takenGross := states[i].Consume(remainingLong);
      ValuesSnoc(states, i);
      ValuesSame(states[..i], done);
      NothingTaken(now, remainingLong);
      if takenScaled <= 0.0 {
        continue;
      }
      usedScaled := usedScaled + takenScaled;
      usedGross := usedGross + takenGross;
      usedItems := usedItems + [states[i].item];
    }
    assert states[..|states|] == states && before[..|states|] == before;
  }

  lemma NothingTaken(c: Remaining, want: real)
    ensures Taken(c, want) >= 0.0 && (Taken(c, want) == 0.0 ==> Rest(c, want) == c)
  {
  }

  lemma ValuesSnoc(states: seq<ShortState>, i: nat)
    requires i < |states|
    ensures Values(states[..i + 1]) == Values(states[..i]) + [states[i].Value()]
  {
    assert states[..i + 1][..i] == states[..i];
  }

  lemma ValuesSame(states: seq<ShortState>, values: seq<Remaining>)
    requires |values| == |states| && forall k :: 0 <= k < |states| ==> states[k].Value() == values[k]
    ensures Values(states) == values
  {
  }

  lemma NothingYet(states: seq<ShortState>, before: seq<Remaining>, long: Seniority, want: real)
    requires before == Values(states)
    ensures Offset(Values(states[..0]), 0.0, 0.0, []) == OffsetBy(before[..0], long, want)
    ensures |before| == |states| && forall k :: 0 <= k < |states| ==> states[k].Value() == before[k]
  {
  }

  lemma ValuesSplit(states: seq<ShortState>, before: seq<Remaining>, i: nat)
    requires i <= |states| == |before|
    requires forall k :: i <= k < |states| ==> states[k].Value() == before[k]
    ensures Values(states) == Values(states[..i]) + before[i..]
  {
  }

  lemma NotWanted(c: Remaining, want: real)
    requires want <= 0.0
    ensures Taken(c, want) == 0.0 && Rest(c, want) == c
  {
  }

  /** Once a long is offset, no short that follows is touched. */
  lemma {:induction false} NothingWanted(shorts: seq<Remaining>, long: Seniority, want: real, i: nat)
    requires i <= |shorts| && want - OffsetBy(shorts[..i], long, want).scaled <= 0.0
    ensures var o := OffsetBy(shorts[..i], long, want);
            OffsetBy(shorts, long, want) == o.(shorts := o.shorts + shorts[i..])
    decreases |shorts|
  {
    hide Taken, Rest, CanOffset;
    var o := OffsetBy(shorts[..i], long, want);
    if i == |shorts| {
      assert shorts[..i] == shorts && o.shorts + shorts[i..] == o.shorts;
    } else {
      var n := |shorts| - 1;
      assert shorts[..n][..i] == shorts[..i];
      NothingWanted(shorts[..n], long, want, i);
      NotWanted(shorts[n], want - o.scaled);
      assert o.shorts + shorts[i..] == (o.shorts + shorts[..n][i..]) + [shorts[n]];
    }
  }

  lemma LongsUnfold(longs: seq<Layer>, k: nat, shorts: seq<Remaining>)
    requires k < |longs|
    ensures var o := OffsetBy(shorts, longs[k].key, Amount(longs[k]));
            var rest := NetLongs(longs[k + 1..], o.shorts);
            NetLongs(longs[k..], shorts) == Netted(LongRecords(longs[k], o) + rest.records, rest.shorts)
  {
    assert longs[k..][1..] == longs[k + 1..];
  }

  lemma NoLongs(longs: seq<Layer>, records: seq<NetRecord>, shorts: seq<Remaining>)
    ensures NetLongs(longs[|longs|..], shorts) == Netted([], shorts) && records + [] == records
  {
  }

  method NetLongLayers(longs: seq<Layer>, states: seq<ShortState>) returns (records: seq<NetRecord>)
    requires Distinct(states)
    modifies states
    ensures Netted(records, Values(states)) == NetLongs(longs, old(Values(states)))
  {
    hide NetLongs, OffsetBy, Values, Sum;
    records := [];
    ghost var before := Values(states);
    assert longs[0..] == longs;
    for k := 0 to |longs|
      invariant var rest := NetLongs(longs[k..], Values(states));
                NetLongs(longs, before) == Netted(records + rest.records, rest.shorts)
    {
      var layer := longs[k];
      var scaledLong, grossLong := Sum(ScaledOf(), layer.value), Sum(GrossOf(), layer.value);
      ghost var o := OffsetBy(Values(states), layer.key, Amount(layer));
      LongsUnfold(longs, k, Values(states));
      AppendAssociates(records, LongRecords(layer, o), NetLongs(longs[k + 1..], o.shorts).records);
      var usedScaled, usedGross, usedItems := OffsetLong(states, layer.key, scaledLong);
      var net := scaledLong - usedScaled;
      if net > 0.0 {
        records := records + [NetRecord(layer.key, Long, grossLong, usedGross, scaledLong, usedScaled, net,
                                        layer.value + usedItems)];
      } else {
        assert records + [] == records;
      }
    }
    NoLongs(longs, records, Values(states));
  }

  method NetShortLayers(layers: seq<Layer>, states: seq<ShortState>) returns (records: seq<NetRecord>)
    ensures records == ShortRecords(layers, Values(states))
  {
    records := [];
    var shorts := Values(states);
    for k := 0 to |layers|
      invariant records == ShortRecords(layers[..k], shorts)
    {
      assert layers[..k + 1][..k] == layers[..k];
      var left := Filter(IsLeft(layers[k].key), shorts);
      if left == [] {
        assert records + [] == records;
        continue;
      }
      records := records + ShortRecord(layers[k].key, left);
    }
    assert layers[..|layers|] == layers;
  }

  method StatesOf(items: seq<Exposure>) returns (states: seq<ShortState>)
    ensures Distinct(states) && fresh(states) && Values(states) == Initial(items)
  {
    states := [];
    for i := 0 to |items|
      invariant |states| == i && Distinct(states) && fresh(states)
      invariant forall k :: 0 <= k < i ==> states[k].Value() == Remaining(items[k], items[k].gross, items[k].scaled)
    {
      var state := new ShortState(items[i]);
      states := states + [state];
    }
  }

  method NetGroup(exposures: seq<Exposure>) returns (records: seq<NetRecord>)
    ensures records == NetRecords(exposures)
  {
    var longs := GroupBySeniority(exposures, Long);
    var shorts := GroupBySeniority(exposures, Short);
    var states := StatesOf(Flat(SortedByRank(shorts)));
    records := NetLongLayers(SortedByRank(longs), states);
    var left := NetShortLayers(SortedByRank(shorts), states);
    records := records + left;
  }
}
