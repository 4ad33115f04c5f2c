/**
  What the netting of one obligor achieves: as much is offset as any permitted way of offsetting can,
  which is the least of the cuts through the seniority ranks.
*/
module NettingLaws {
  import opened Sums
  import opened ObligorNetting

  // ----- seniority -----

  /** From the most senior down; the seniorities of one class offset each other. */
  const CLASSES: seq<set<Seniority>> := [
    {CoveredBond, GseGuaranteed}, {SeniorDebt, GseIssuedNotGuaranteed, Pse}, {NonSeniorDebt}, {Equity},
    {NotRecoveryLinked}]

  /** A short offsets the longs of its own class and of all classes senior to it, and no others. */
  lemma OffsetsByClass(long: Seniority, short: Seniority, l: nat, s: nat)
    requires l < |CLASSES| && s < |CLASSES| && long in CLASSES[l] && short in CLASSES[s]
    ensures CanOffset(long, short) <==> l <= s
  {
  }

  // ----- one long -----

  /** What of a short counts from rank `t` on. */
  function ShortFrom(t: nat): Remaining -> real {
    (c: Remaining) => if Rank(c.item.seniority) >= t then Pos(c.scaled) else 0.0
  }

  function LayerBelow(t: nat): Layer -> real {
    (layer: Layer) => if Rank(layer.key) < t then Pos(Amount(layer)) else 0.0
  }

  ghost predicate SortedShorts(shorts: seq<Remaining>) {
    forall i, j :: 0 <= i < j < |shorts| ==> Rank(shorts[i].item.seniority) <= Rank(shorts[j].item.seniority)
  }

  ghost predicate SortedLayers(layers: seq<Layer>) {
    forall i, j :: 0 <= i < j < |layers| ==> Rank(layers[i].key) <= Rank(layers[j].key)
  }

  lemma RestIs(c: Remaining, want: real)
    ensures Rest(c, want).item == c.item && Rest(c, want).scaled == c.scaled - Taken(c, want)
    ensures Pos(Rest(c, want).scaled) == Pos(c.scaled) - Taken(c, want)
  {
  }

  lemma {:induction false} OffsetKeepsItems(shorts: seq<Remaining>, long: Seniority, want: real)
    ensures forall i :: 0 <= i < |shorts| ==> OffsetBy(shorts, long, want).shorts[i].item == shorts[i].item
  {
    hide Taken, Rest, CanOffset;
    if shorts != [] {
      var n := |shorts| - 1;
      OffsetKeepsItems(shorts[..n], long, want);
      RestIs(shorts[n], want - OffsetBy(shorts[..n], long, want).scaled);
    }
  }

  lemma {:induction false} FromIsMonotone(shorts: seq<Remaining>, s: nat, t: nat)
    requires s <= t
    ensures 0.0 <= Sum(ShortFrom(t), shorts) <= Sum(ShortFrom(s), shorts)
  {
    if shorts != [] {
      FromIsMonotone(shorts[..|shorts| - 1], s, t);
    }
  }

  lemma {:induction false} NothingFrom(shorts: seq<Remaining>, t: nat)
    requires forall i :: 0 <= i < |shorts| ==> Rank(shorts[i].item.seniority) < t
    ensures Sum(ShortFrom(t), shorts) == 0.0
  {
    if shorts != [] {
      NothingFrom(shorts[..|shorts| - 1], t);
    }
  }

  lemma OffsetUnfold(shorts: seq<Remaining>, long: Seniority, want: real, t: nat)
    requires shorts != []
    ensures var n := |shorts| - 1;
            var c, before, o := shorts[n], OffsetBy(shorts[..n], long, want), OffsetBy(shorts, long, want);
            var taken := if CanOffset(long, c.item.seniority) then Taken(c, want - before.scaled) else 0.0;
            && o.scaled == before.scaled + taken
            && Sum(ShortFrom(t), shorts) == Sum(ShortFrom(t), shorts[..n]) + ShortFrom(t)(c)
            && Sum(ShortFrom(t), o.shorts) ==
               Sum(ShortFrom(t), before.shorts) + ShortFrom(t)(c) - (if Rank(c.item.seniority) >= t then taken else 0.0)
  {
    hide Rest, Taken, OffsetBy;
    var n := |shorts| - 1;
    var c, before := shorts[n], OffsetBy(shorts[..n], long, want);
    OffsetStep(shorts, long, want, n);
    assert shorts[..n + 1] == shorts;
    RestIs(c, want - before.scaled);
    SumSnoc(ShortFrom(t), before.shorts, c);
    SumSnoc(ShortFrom(t), before.shorts, Rest(c, want - before.scaled));
  }

  /** A long takes what it wants, as far as there are shorts from its rank on. */
  lemma {:induction false} OffsetTakes(shorts: seq<Remaining>, long: Seniority, want: real)
    ensures OffsetBy(shorts, long, want).scaled == Min(Pos(want), Sum(ShortFrom(Rank(long)), shorts))
  {
    hide OffsetBy, Sum, Rank;
    if shorts == [] {
      NothingToOffset(long, want, Rank(long));
    } else {
      OffsetTakes(shorts[..|shorts| - 1], long, want);
      OffsetUnfold(shorts, long, want, Rank(long));
      FromIsMonotone(shorts[..|shorts| - 1], Rank(long), Rank(long));
    }
  }

  lemma NothingToOffset(long: Seniority, want: real, t: nat)
    ensures OffsetBy([], long, want) == Offset([], 0.0, 0.0, []) && Sum(ShortFrom(t), []) == 0.0
  {
  }

  lemma {:induction false} OffsetFromEarlier(shorts: seq<Remaining>, long: Seniority, want: real, t: nat)
    requires t <= Rank(long)
    ensures var o := OffsetBy(shorts, long, want);
            Sum(ShortFrom(t), o.shorts) == Sum(ShortFrom(t), shorts) - o.scaled
  {
    hide OffsetBy, Sum, Rank, Taken;
    if shorts == [] {
      NothingToOffset(long, want, t);
    } else {
      OffsetFromEarlier(shorts[..|shorts| - 1], long, want, t);
      OffsetUnfold(shorts, long, want, t);
    }
  }

  /** It takes the least junior of them first: from any later rank on, as much is left as possible. */
  lemma {:induction false} OffsetFromLater(shorts: seq<Remaining>, long: Seniority, want: real, t: nat)
    requires SortedShorts(shorts) && t >= Rank(long)
    ensures var o := OffsetBy(shorts, long, want);
            Sum(ShortFrom(t), o.shorts) ==
            Min(Sum(ShortFrom(t), shorts), Sum(ShortFrom(Rank(long)), shorts) - o.scaled)
  {
    hide OffsetBy, Sum, Rank;
    var all := Sum(ShortFrom(Rank(long)), shorts);
    if shorts == [] {
      NothingToOffset(long, want, t);
      NothingToOffset(long, want, Rank(long));
    } else {
      var n := |shorts| - 1;
      OffsetFromLater(shorts[..n], long, want, t);
      OffsetTakes(shorts[..n], long, want);
      OffsetUnfold(shorts, long, want, t);
      OffsetUnfold(shorts, long, want, Rank(long));
      FromIsMonotone(shorts[..n], Rank(long), t);
      if t > Rank(shorts[n].item.seniority) {
        NothingFrom(shorts[..n], t);
      }
    }
  }

  // ----- all longs -----

  /** How much all longs together offset. */
  function Used(longs: seq<Layer>, shorts: seq<Remaining>): real
    decreases |longs|
  {
    if longs == [] then 0.0 else
      var o := OffsetBy(shorts, longs[0].key, Amount(longs[0]));
      o.scaled + Used(longs[1..], o.shorts)
  }

  /** The longs below a rank and the shorts from it on: no permitted offset avoids both. */
  ghost function Cut(longs: seq<Layer>, shorts: seq<Remaining>, t: nat): real {
    Sum(LayerBelow(t), longs) + Sum(ShortFrom(t), shorts)
  }

  ghost predicate IsLeastCut(u: real, longs: seq<Layer>, shorts: seq<Remaining>) {
    && (forall t: nat :: u <= Cut(longs, shorts, t))
    && exists t: nat :: u == Cut(longs, shorts, t)
  }

  lemma {:induction false} NothingBelow(longs: seq<Layer>, t: nat)
    requires forall i :: 0 <= i < |longs| ==> Rank(longs[i].key) >= t
    ensures Sum(LayerBelow(t), longs) == 0.0
  {
    if longs != [] {
      NothingBelow(longs[..|longs| - 1], t);
    }
  }

  lemma {:induction false} BelowIsPositive(longs: seq<Layer>, t: nat)
    ensures Sum(LayerBelow(t), longs) >= 0.0
  {
    if longs != [] {
      BelowIsPositive(longs[..|longs| - 1], t);
    }
  }

  lemma SortedAfter(shorts: seq<Remaining>, long: Seniority, want: real)
    requires SortedShorts(shorts)
    ensures SortedShorts(OffsetBy(shorts, long, want).shorts)
  {
    OffsetKeepsItems(shorts, long, want);
  }

  /** What one long makes of a cut. */
  lemma CutStep(longs: seq<Layer>, shorts: seq<Remaining>, t: nat)
    requires longs != [] && SortedLayers(longs) && SortedShorts(shorts)
    ensures var a, o := Rank(longs[0].key), OffsetBy(shorts, longs[0].key, Amount(longs[0]));
            && o.scaled == Min(Pos(Amount(longs[0])), Sum(ShortFrom(a), shorts))
            && (t <= a ==>
                  && Cut(longs, shorts, t) == Sum(ShortFrom(t), shorts) >= Sum(ShortFrom(a), shorts)
                  && Cut(longs[1..], o.shorts, t) == Sum(ShortFrom(t), shorts) - o.scaled)
            && (t > a ==>
                  && Cut(longs, shorts, t) ==
                     Pos(Amount(longs[0])) + Sum(LayerBelow(t), longs[1..]) + Sum(ShortFrom(t), shorts)
                  && Cut(longs[1..], o.shorts, t) ==
                     Sum(LayerBelow(t), longs[1..]) +
                     Min(Sum(ShortFrom(t), shorts), Sum(ShortFrom(a), shorts) - o.scaled)
                  && Sum(LayerBelow(t), longs[1..]) >= 0.0 && Sum(ShortFrom(t), shorts) >= 0.0)
  {
    hide OffsetBy, Sum, Amount, Rank;
    var a, want := Rank(longs[0].key), Amount(longs[0]);
    OffsetTakes(shorts, longs[0].key, want);
    SumCons(LayerBelow(t), longs);
    BelowIsPositive(longs[1..], t);
    if t <= a {
      OffsetFromEarlier(shorts, longs[0].key, want, t);
      NothingBelow(longs, t);
      NothingBelow(longs[1..], t);
      FromIsMonotone(shorts, t, a);
    } else {
      OffsetFromLater(shorts, longs[0].key, want, t);
      FromIsMonotone(shorts, a, t);
    }
  }

  /** Going through longs and shorts by rank offsets exactly the least cut. */
  lemma {:induction false} UsedIsLeastCut(longs: seq<Layer>, shorts: seq<Remaining>)
    requires SortedLayers(longs) && SortedShorts(shorts)
    ensures IsLeastCut(Used(longs, shorts), longs, shorts)
    decreases |longs|
  {
    hide OffsetBy, Sum, Amount, Rank, Cut;
    if longs == [] {
      UsedNothing(longs, shorts);
    } else {
      var a, o := Rank(longs[0].key), OffsetBy(shorts, longs[0].key, Amount(longs[0]));
      var u := Used(longs[1..], o.shorts);
      SortedAfter(shorts, longs[0].key, Amount(longs[0]));
      UsedIsLeastCut(longs[1..], o.shorts);
      CutStep(longs, shorts, a);
      forall t: nat ensures o.scaled + u <= Cut(longs, shorts, t) {
        CutStep(longs, shorts, t);
        assert u <= Cut(longs[1..], o.shorts, t) && u <= Cut(longs[1..], o.shorts, a);
      }
      var t: nat :| u == Cut(longs[1..], o.shorts, t);
      CutStep(longs, shorts, t);
      assert o.scaled + u == Cut(longs, shorts, t) || o.scaled + u == Cut(longs, shorts, a);
    }
  }

  lemma UsedNothing(longs: seq<Layer>, shorts: seq<Remaining>)
    requires longs == []
    ensures IsLeastCut(Used(longs, shorts), longs, shorts)
  {
    forall t: nat ensures Used(longs, shorts) <= Cut(longs, shorts, t) {
      FromIsMonotone(shorts, t, t);
    }
    NothingFrom(shorts, RANKS);
    assert Used(longs, shorts) == Cut(longs, shorts, RANKS);
  }

  // ----- any other way of offsetting -----

  function Total(row: seq<real>): real {
    if row == [] then 0.0 else Total(row[..|row| - 1]) + row[|row| - 1]
  }

  /** Shares of permitted shorts that a long offsets: no more than there is of each short and of the long. */
  ghost predicate IsShare(row: seq<real>, long: Layer, shorts: seq<Remaining>) {
    && |row| == |shorts| && Total(row) <= Pos(Amount(long))
    && forall j :: 0 <= j < |row| ==>
         && 0.0 <= row[j] <= Pos(shorts[j].scaled)
         && (row[j] > 0.0 ==> CanOffset(long.key, shorts[j].item.seniority))
  }

  function Less(shorts: seq<Remaining>, row: seq<real>): (r: seq<Remaining>)
    requires |row| == |shorts|
    ensures |r| == |shorts|
  {
    seq(|shorts|, j requires 0 <= j < |shorts| => Remaining(shorts[j].item, shorts[j].gross, shorts[j].scaled - row[j]))
  }

  /** Any permitted way of offsetting: for each long its shares, of what the longs before it have left. */
  ghost predicate Allocates(rows: seq<seq<real>>, longs: seq<Layer>, shorts: seq<Remaining>)
    decreases |longs|
  {
    && |rows| == |longs|
    && (longs == [] || (IsShare(rows[0], longs[0], shorts) && Allocates(rows[1..], longs[1..], Less(shorts, rows[0]))))
  }

  function TotalOf(rows: seq<seq<real>>): real {
    if rows == [] then 0.0 else Total(rows[0]) + TotalOf(rows[1..])
  }

  lemma {:induction false} ShareLeaves(row: seq<real>, long: Layer, shorts: seq<Remaining>, t: nat)
    requires |row| == |shorts|
    requires forall j :: 0 <= j < |row| ==>
               && 0.0 <= row[j] <= Pos(shorts[j].scaled)
               && (row[j] > 0.0 ==> CanOffset(long.key, shorts[j].item.seniority))
    ensures Total(row) >= 0.0
    ensures Sum(ShortFrom(t), Less(shorts, row)) <= Sum(ShortFrom(t), shorts)
    ensures t <= Rank(long.key) ==> Sum(ShortFrom(t), Less(shorts, row)) == Sum(ShortFrom(t), shorts) - Total(row)
  {
    hide Rank;
    if shorts != [] {
      var n := |shorts| - 1;
      ShareLeaves(row[..n], long, shorts[..n], t);
      var left := Remaining(shorts[n].item, shorts[n].gross, shorts[n].scaled - row[n]);
      assert Less(shorts, row) == Less(shorts[..n], row[..n]) + [left];
      SumSnoc(ShortFrom(t), Less(shorts[..n], row[..n]), left);
      assert Pos(left.scaled) == Pos(shorts[n].scaled) - row[n];
    }
  }

  /** No way of offsetting gets through a cut. */
  lemma {:induction false} AllocationBelowCut(rows: seq<seq<real>>, longs: seq<Layer>, shorts: seq<Remaining>, t: nat)
    requires Allocates(rows, longs, shorts)
    ensures TotalOf(rows) <= Cut(longs, shorts, t)
    decreases |longs|
  {
    hide Sum, Amount, Rank, Total, Less;
    if longs == [] {
      BelowIsPositive(longs, t);
      FromIsMonotone(shorts, t, t);
    } else {
      ShareLeaves(rows[0], longs[0], shorts, t);
      AllocationBelowCut(rows[1..], longs[1..], Less(shorts, rows[0]), t);
      SumCons(LayerBelow(t), longs);
    }
  }

  /** By rank, at least as much is offset as in any other permitted way. */
  lemma UsedIsMaximal(rows: seq<seq<real>>, longs: seq<Layer>, shorts: seq<Remaining>)
    requires SortedLayers(longs) && SortedShorts(shorts) && Allocates(rows, longs, shorts)
    ensures TotalOf(rows) <= Used(longs, shorts)
  {
    hide Used, Cut, Allocates;
    UsedIsLeastCut(longs, shorts);
    var t: nat :| Used(longs, shorts) == Cut(longs, shorts, t);
    AllocationBelowCut(rows, longs, shorts, t);
  }

  // ----- offsetting by rank is one of these ways -----

  ghost predicate SameScaled(a: seq<Remaining>, b: seq<Remaining>) {
    |a| == |b| && forall j :: 0 <= j < |a| ==> a[j].item == b[j].item && a[j].scaled == b[j].scaled
  }

  lemma {:induction false} AllocatesByScaled(
    rows: seq<seq<real>>, longs: seq<Layer>, a: seq<Remaining>, b: seq<Remaining>)
    requires Allocates(rows, longs, a) && SameScaled(a, b)
    ensures Allocates(rows, longs, b)
    decreases |longs|
  {
    if longs != [] {
      AllocatesByScaled(rows[1..], longs[1..], Less(a, rows[0]), Less(b, rows[0]));
    }
  }

  function SharesOf(shorts: seq<Remaining>, long: Seniority, want: real): (row: seq<real>)
    ensures |row| == |shorts|
  {
    var left := OffsetBy(shorts, long, want).shorts;
    seq(|shorts|, j requires 0 <= j < |shorts| => shorts[j].scaled - left[j].scaled)
  }

  lemma {:induction false} SharesAre(shorts: seq<Remaining>, long: Seniority, want: real)
    ensures var row := SharesOf(shorts, long, want);
            && Total(row) == OffsetBy(shorts, long, want).scaled
            && forall j :: 0 <= j < |row| ==>
                 && 0.0 <= row[j] <= Pos(shorts[j].scaled)
                 && (row[j] > 0.0 ==> CanOffset(long, shorts[j].item.seniority))
  {
    hide Rest, CanOffset;
    if shorts != [] {
      var n := |shorts| - 1;
      SharesAre(shorts[..n], long, want);
      RestIs(shorts[n], want - OffsetBy(shorts[..n], long, want).scaled);
      assert SharesOf(shorts, long, want)[..n] == SharesOf(shorts[..n], long, want);
    }
  }

  lemma {:induction false} UsedIsAllocated(longs: seq<Layer>, shorts: seq<Remaining>) returns (rows: seq<seq<real>>)
    ensures Allocates(rows, longs, shorts) && TotalOf(rows) == Used(longs, shorts)
    decreases |longs|
  {
    hide OffsetBy, Sum, Amount;
    if longs == [] {
      rows := [];
    } else {
      var long, want := longs[0].key, Amount(longs[0]);
      var o, row := OffsetBy(shorts, long, want), SharesOf(shorts, long, want);
      SharesAre(shorts, long, want);
      OffsetTakes(shorts, long, want);
      OffsetKeepsItems(shorts, long, want);
      var rest := UsedIsAllocated(longs[1..], o.shorts);
      AllocatesByScaled(rest, longs[1..], o.shorts, Less(shorts, row));
      rows := [row] + rest;
      assert rows[1..] == rest;
    }
  }
}
