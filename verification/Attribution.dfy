/**
  Reconciling capital contributions with a total, and accepting a component's bundle of them. Amounts
  are real numbers, or not finite; rounding is not modelled.
*/
module Attribution {
  import opened Wrappers

  datatype Amount = Finite(value: real) | NonFinite

  datatype Contribution = Contribution(id: string, contribution: Option<Amount>, residual: Amount)

  datatype Status = Reconciled | PartialResidual | Unreconciled

  datatype Reconciliation = Reconciliation(
    recordCount: nat, contributionSum: real, residualSum: real, explainedTotal: real,
    capitalTotal: real, difference: real, tolerance: real, status: Status)
  {
    predicate IsReconciled() { status == Reconciled || status == PartialResidual }
  }

  datatype AmountError = NotFinite(field: string) | NegativeTolerance

  const DEFAULT_RECONCILIATION_TOLERANCE: real := 0.000001

  function Abs(x: real): real { if x < 0.0 then -x else x }

  function Max(x: real, y: real): real { if x < y then y else x }

  // ----- what a set of records adds up to -----

  function Sum(amounts: seq<real>): real {
    if amounts == [] then 0.0 else Sum(amounts[..|amounts| - 1]) + amounts[|amounts| - 1]
  }

  /** The contribution of a record, where none counts as zero. */
  function AmountOf(c: Contribution): Amount {
    match c.contribution case None => Finite(0.0) case Some(amount) => amount
  }

  predicate AllFinite(contributions: seq<Contribution>) {
    forall c :: c in contributions ==> AmountOf(c).Finite? && c.residual.Finite?
  }

  function ContributionSum(contributions: seq<Contribution>): real
    requires AllFinite(contributions)
  {
    if contributions == [] then 0.0
    else ContributionSum(contributions[..|contributions| - 1]) + AmountOf(contributions[|contributions| - 1]).value
  }

  function ResidualSum(contributions: seq<Contribution>): real
    requires AllFinite(contributions)
  {
    if contributions == [] then 0.0
    else ResidualSum(contributions[..|contributions| - 1]) + contributions[|contributions| - 1].residual.value
  }

  /** A record without a contribution counts with its residual only. */
  lemma NoContributionIsZero(contributions: seq<Contribution>, c: Contribution)
    requires AllFinite(contributions + [c]) && c.contribution.None?
    ensures AllFinite(contributions) && ContributionSum(contributions + [c]) == ContributionSum(contributions)
    ensures ResidualSum(contributions + [c]) == ResidualSum(contributions) + c.residual.value
  {
    assert (contributions + [c])[..|contributions|] == contributions;
    forall d | d in contributions ensures AmountOf(d).Finite? && d.residual.Finite? {
      assert d in contributions + [c];
    }
  }

  function Tolerance(total: real, relative: real): real {
    relative * Max(Abs(total), 1.0)
  }

  /** The tolerance is the least amount that is neither below the relative one nor below that share of the total. */
  lemma ToleranceIsLeast(total: real, relative: real, amount: real)
    requires relative >= 0.0
    ensures Tolerance(total, relative) <= amount <==> relative <= amount && relative * Abs(total) <= amount
  {
    if Abs(total) < 1.0 {
      ScaledGrows(Abs(total), 1.0, relative);
    } else {
      ScaledGrows(1.0, Abs(total), relative);
    }
  }

  /** A total that is larger in size is compared with no less tolerance. */
  lemma ToleranceGrows(x: real, y: real, relative: real)
    requires relative >= 0.0 && Abs(x) <= Abs(y)
    ensures 0.0 <= Tolerance(x, relative) <= Tolerance(y, relative)
  {
    ScaledGrows(0.0, Max(Abs(x), 1.0), relative);
    ScaledGrows(Max(Abs(x), 1.0), Max(Abs(y), 1.0), relative);
  }

  lemma ScaledGrows(x: real, y: real, factor: real)
    requires x <= y && factor >= 0.0
    ensures factor * x <= factor * y
  {
    assert factor * (y - x) >= 0.0;
  }

  method AbsoluteTolerance(total: Amount, relative: Amount) returns (r: Result<real, AmountError>)
    ensures total.NonFinite? ==> r == Failure(NotFinite("capital_total"))
    ensures total.Finite? && relative.NonFinite? ==> r == Failure(NotFinite("relative_tolerance"))
    ensures total.Finite? && relative.Finite? ==>
              r == if relative.value < 0.0 then Failure(NegativeTolerance)
                   else Success(Tolerance(total.value, relative.value))
  {
    if total.NonFinite? {
      return Failure(NotFinite("capital_total"));
    }
    if relative.NonFinite? {
      return Failure(NotFinite("relative_tolerance"));
    }
    if relative.value < 0.0 {
      return Failure(NegativeTolerance);
    }
    return Success(Tolerance(total.value, relative.value));
  }

  /** The first amount that is not finite, of a record's contribution and then its residual. */
  ghost predicate FirstNonFinite(contributions: seq<Contribution>, i: nat, field: string) {
    && i < |contributions| && AllFinite(contributions[..i])
    && if AmountOf(contributions[i]).NonFinite? then field == "contribution " + contributions[i].id
       else contributions[i].residual.NonFinite? && field == "residual " + contributions[i].id
  }

  method ReconcileContributionSet(contributions: seq<Contribution>, total: Amount, relative: Amount)
    returns (r: Result<Reconciliation, AmountError>)
    ensures r.Success? <==>
              total.Finite? && relative.Finite? && relative.value >= 0.0 && AllFinite(contributions)
    ensures total.NonFinite? ==> r == Failure(NotFinite("capital_total"))
    ensures total.Finite? && relative.NonFinite? ==> r == Failure(NotFinite("relative_tolerance"))
    ensures total.Finite? && relative.Finite? && relative.value < 0.0 ==> r == Failure(NegativeTolerance)
    ensures total.Finite? && relative.Finite? && relative.value >= 0.0 && r.Failure? ==>
              r.error.NotFinite? && exists i :: FirstNonFinite(contributions, i, r.error.field)
    ensures r.Success? ==>
              var c, e := ContributionSum(contributions), ResidualSum(contributions);
              var tolerance := Tolerance(total.value, relative.value);
              && r.value.recordCount == |contributions| && r.value.tolerance == tolerance
              && r.value.contributionSum == c && r.value.residualSum == e && r.value.explainedTotal == c + e
              && r.value.capitalTotal == total.value && r.value.difference == c + e - total.value
              && (r.value.status.Reconciled? <==> Within(c, total.value, tolerance))
              && (r.value.IsReconciled() <==>
                  Within(c, total.value, tolerance) || Within(c + e, total.value, tolerance))
  {
    var tolerance := AbsoluteTolerance(total, relative);
    if tolerance.Failure? {
      return Failure(tolerance.error);
    }
    var contributionAmounts, residualAmounts := [], [];
    for i := 0 to |contributions|
      invariant AllFinite(contributions[..i])
      invariant Sum(contributionAmounts) == ContributionSum(contributions[..i])
      invariant Sum(residualAmounts) == ResidualSum(contributions[..i])
    {
      var record := contributions[i];
      assert contributions[..i + 1] == contributions[..i] + [record];
      var amount := AmountOf(record);
      if amount.NonFinite? {
        assert FirstNonFinite(contributions, i, "contribution " + record.id);
        return Failure(NotFinite("contribution " + record.id));
      }
      if record.residual.NonFinite? {
        assert FirstNonFinite(contributions, i, "residual " + record.id);
        return Failure(NotFinite("residual " + record.id));
      }
      assert (contributionAmounts + [amount.value])[..|contributionAmounts|] == contributionAmounts;
      assert (residualAmounts + [record.residual.value])[..|residualAmounts|] == residualAmounts;
      assert contributions[..i + 1][..i] == contributions[..i];
      contributionAmounts := contributionAmounts + [amount.value];
      residualAmounts := residualAmounts + [record.residual.value];
    }
    assert contributions[..|contributions|] == contributions;
    var contributionSum, residualSum := Sum(contributionAmounts), Sum(residualAmounts);
    var explained := contributionSum + residualSum;
    var difference := explained - total.value;
    var status :=
      if Abs(contributionSum - total.value) <= tolerance.value then Reconciled
      else if Abs(difference) <= tolerance.value then PartialResidual
      else Unreconciled;
    return Success(Reconciliation(|contributions|, contributionSum, residualSum, explained,
                                  total.value, difference, tolerance.value, status));
  }

  // ----- bundles -----

  predicate Within(x: real, total: real, tolerance: real) {
    total - tolerance <= x <= total + tolerance
  }

  datatype Bundle = Bundle(component: string, contributions: seq<Contribution>, total: Amount)

  function BundleTolerance(total: real): real {
    Tolerance(total, DEFAULT_RECONCILIATION_TOLERANCE)
  }

  /** The contributions alone, or with their residuals, lie within tolerance of the total. */
  predicate Accepted(b: Bundle) {
    && b.total.Finite? && AllFinite(b.contributions)
    && var c, e := ContributionSum(b.contributions), ResidualSum(b.contributions);
       || Within(c, b.total.value, BundleTolerance(b.total.value))
       || Within(c + e, b.total.value, BundleTolerance(b.total.value))
  }

  datatype BundleError = BadAmount(error: AmountError) | NotReconciled

  method MakeBundle(component: string, contributions: seq<Contribution>, total: Amount)
    returns (r: Result<Bundle, BundleError>)
    ensures var b := Bundle(component, contributions, total);
            && (r.Success? <==> Accepted(b)) && (r.Success? ==> r.value == b)
            && (r.Failure? ==> (r.error.NotReconciled? <==> total.Finite? && AllFinite(contributions)))
  {
    var reconciliation := ReconcileContributionSet(contributions, total, Finite(DEFAULT_RECONCILIATION_TOLERANCE));
    if reconciliation.Failure? {
      return Failure(BadAmount(reconciliation.error));
    }
    if !reconciliation.value.IsReconciled() {
      return Failure(NotReconciled);
    }
    return Success(Bundle(component, contributions, total));
  }

  // ----- the documented invariant -----

  /** The total is the contributions plus the residuals, within tolerance. */
  predicate Documented(b: Bundle)
    requires b.total.Finite? && AllFinite(b.contributions)
  {
    Within(ContributionSum(b.contributions) + ResidualSum(b.contributions), b.total.value,
           BundleTolerance(b.total.value))
  }

  /** A total on the edge of the tolerance above or below a sum. */
  function EdgeTotal(c: real, up: bool): (t: real)
    ensures up ==> t - BundleTolerance(t) == c
    ensures !up ==> t + BundleTolerance(t) == c
  {
    var eps := DEFAULT_RECONCILIATION_TOLERANCE;
    if up then
      if c >= 1.0 - eps then c / (1.0 - eps)
      else if c >= -1.0 - eps then c + eps
      else c / (1.0 + eps)
    else
      if c >= 1.0 + eps then c / (1.0 + eps)
      else if c >= -1.0 + eps then c - eps
      else c / (1.0 - eps)
  }

  /**
    The documented invariant holds of every bundle accepted for some records, whatever its total,
    exactly if their residuals add up to zero: contributions that match alone hide any residual.
  */
  lemma DocumentedIffNoResidual(component: string, contributions: seq<Contribution>)
    requires AllFinite(contributions)
    ensures (forall total: real ::
               Accepted(Bundle(component, contributions, Finite(total))) ==>
                 Documented(Bundle(component, contributions, Finite(total))))
            <==> ResidualSum(contributions) == 0.0
  {
    hide ContributionSum, ResidualSum;
    var c, e := ContributionSum(contributions), ResidualSum(contributions);
    var total := EdgeTotal(c, e < 0.0);
    var b := Bundle(component, contributions, Finite(total));
    ToleranceIsPositive(total);
    assert Accepted(b);
    assert e != 0.0 ==> !Documented(b);
  }

  lemma ToleranceIsPositive(total: real)
    ensures BundleTolerance(total) > 0.0
  {
  }

  /** A record of ten with a residual of five is accepted as ten, though together they are fifteen. */
  lemma AcceptedButNotDocumented() returns (b: Bundle)
    ensures Accepted(b) && !Documented(b)
  {
    b := Bundle("frtb-sbm", [Contribution("a", Some(Finite(10.0)), Finite(5.0))], Finite(10.0));
    assert b.contributions[..0] == [];
    assert ContributionSum(b.contributions) == 10.0 && ResidualSum(b.contributions) == 5.0;
  }

  // ----- several bundles -----

  /** What the bundle's records explain of its total, with residuals only where they are needed. */
  function Explained(b: Bundle): real
    requires Accepted(b)
  {
    var c := ContributionSum(b.contributions);
    if Within(c, b.total.value, BundleTolerance(b.total.value)) then c else c + ResidualSum(b.contributions)
  }

  ghost predicate AllAccepted(bundles: seq<Bundle>) {
    forall i :: 0 <= i < |bundles| ==> Accepted(bundles[i])
  }

  ghost function Totals(bundles: seq<Bundle>): (ts: seq<real>)
    requires AllAccepted(bundles)
    ensures |ts| == |bundles| && forall i :: 0 <= i < |ts| ==> ts[i] == bundles[i].total.value
  {
    seq(|bundles|, i requires 0 <= i < |bundles| => bundles[i].total.value)
  }

  ghost function Total(ts: seq<real>): real {
    if ts == [] then 0.0 else ts[0] + Total(ts[1..])
  }

  /** The totals by size, where none counts for less than one. */
  ghost function Weight(ts: seq<real>): real {
    if ts == [] then 0.0 else Max(Abs(ts[0]), 1.0) + Weight(ts[1..])
  }

  ghost function AllExplained(bundles: seq<Bundle>): real
    requires AllAccepted(bundles)
  {
    if bundles == [] then 0.0 else Explained(bundles[0]) + AllExplained(bundles[1..])
  }

  lemma OneIsExplained(b: Bundle)
    requires Accepted(b)
    ensures Within(Explained(b), b.total.value, BundleTolerance(b.total.value))
  {
    hide ContributionSum, ResidualSum, BundleTolerance;
  }

  /** Without any condition on signs, the errors add up to at most the tolerances of the single totals. */
  lemma {:induction false} ExplainedWithinWeight(bundles: seq<Bundle>)
    requires AllAccepted(bundles)
    ensures Within(AllExplained(bundles), Total(Totals(bundles)),
                   DEFAULT_RECONCILIATION_TOLERANCE * Weight(Totals(bundles)))
  {
    hide ContributionSum, ResidualSum, Explained, Accepted;
    if bundles != [] {
      ExplainedWithinWeight(bundles[1..]);
      OneIsExplained(bundles[0]);
      assert Totals(bundles)[1..] == Totals(bundles[1..]);
    }
  }

  /** `n` times the same amount. */
  function Times(n: nat, amount: real): real {
    n as real * amount
  }

  lemma OneMore(n: nat, amount: real)
    ensures Times(n + 1, amount) == Times(n, amount) + amount && Times(0, amount) == 0.0
  {
  }

  lemma TimesTolerance(n: nat, total: real)
    ensures Times(n, BundleTolerance(total)) == DEFAULT_RECONCILIATION_TOLERANCE * Times(n, Max(Abs(total), 1.0))
  {
    assert BundleTolerance(total) == 0.000001 * Max(Abs(total), 1.0);
  }

  /** The bundles explain the grand total within its own tolerance for each of them. */
  ghost predicate ExplainTheGrandTotal(bundles: seq<Bundle>)
    requires AllAccepted(bundles)
  {
    var total := Total(Totals(bundles));
    Within(AllExplained(bundles), total, Times(|bundles|, BundleTolerance(total)))
  }

  /** Cancelling totals do not make the grand total smaller than their sizes admit. */
  ghost predicate Balanced(ts: seq<real>) {
    Weight(ts) <= Times(|ts|, Max(Abs(Total(ts)), 1.0))
  }

  /** Bundles without residuals whose only records lie as far above their totals as is accepted. */
  ghost function EdgeBundles(ts: seq<real>): (r: seq<Bundle>)
    ensures |r| == |ts|
    ensures forall i :: 0 <= i < |ts| ==> r[i] == EdgeBundle(ts[i])
  {
    seq(|ts|, i requires 0 <= i < |ts| => EdgeBundle(ts[i]))
  }

  ghost function EdgeBundle(t: real): Bundle {
    Bundle("frtb-sbm", [Contribution("edge", Some(Finite(t + BundleTolerance(t))), Finite(0.0))], Finite(t))
  }

  lemma EdgeIsAccepted(t: real)
    ensures Accepted(EdgeBundle(t)) && Explained(EdgeBundle(t)) == t + BundleTolerance(t)
  {
    ToleranceIsPositive(t);
    hide BundleTolerance;
    var contributions := EdgeBundle(t).contributions;
    assert contributions[..0] == [];
    assert ContributionSum(contributions) == t + BundleTolerance(t);
  }

  lemma EdgesAreAccepted(ts: seq<real>)
    ensures AllAccepted(EdgeBundles(ts)) && Totals(EdgeBundles(ts)) == ts
  {
    forall i | 0 <= i < |ts| ensures Accepted(EdgeBundles(ts)[i]) && EdgeBundles(ts)[i].total == Finite(ts[i]) {
      EdgeIsAccepted(ts[i]);
    }
  }

  lemma {:induction false} EdgesExplain(ts: seq<real>)
    ensures AllAccepted(EdgeBundles(ts))
    ensures AllExplained(EdgeBundles(ts)) == Total(ts) + DEFAULT_RECONCILIATION_TOLERANCE * Weight(ts)
  {
    EdgesAreAccepted(ts);
    hide Accepted, Explained, EdgeBundle;
    if ts != [] {
      EdgesExplain(ts[1..]);
      EdgeIsAccepted(ts[0]);
      assert EdgeBundles(ts)[1..] == EdgeBundles(ts[1..]);
    }
  }

  lemma EdgesMissUnlessBalanced(ts: seq<real>)
    requires !Balanced(ts)
    ensures AllAccepted(EdgeBundles(ts)) && Totals(EdgeBundles(ts)) == ts && !ExplainTheGrandTotal(EdgeBundles(ts))
  {
    hide Accepted, EdgeBundle, Weight, Total, BundleTolerance, Times, AllExplained;
    EdgesAreAccepted(ts);
    EdgesExplain(ts);
    TimesTolerance(|ts|, Total(ts));
  }

  lemma BalancedBundlesExplain(bundles: seq<Bundle>)
    requires AllAccepted(bundles) && Balanced(Totals(bundles))
    ensures ExplainTheGrandTotal(bundles)
  {
    hide Accepted, Weight, Total, BundleTolerance, Times, AllExplained;
    ExplainedWithinWeight(bundles);
    TimesTolerance(|bundles|, Total(Totals(bundles)));
  }

  /**
    Which totals guarantee that accepted bundles explain their grand total within its tolerance for
    each bundle: exactly those that are balanced, whatever the records of the bundles.
  */
  lemma GrandTotalIsExplainedIff(ts: seq<real>)
    ensures (forall bundles :: AllAccepted(bundles) && Totals(bundles) == ts ==> ExplainTheGrandTotal(bundles)) <==>
            Balanced(ts)
  {
    hide AllAccepted, Balanced, ExplainTheGrandTotal;
    if Balanced(ts) {
      forall bundles | AllAccepted(bundles) && Totals(bundles) == ts ensures ExplainTheGrandTotal(bundles) {
        BalancedBundlesExplain(bundles);
      }
    } else {
      EdgesMissUnlessBalanced(ts);
    }
  }

  lemma {:induction false} WeightBound(ts: seq<real>, bound: real)
    requires forall i :: 0 <= i < |ts| ==> Max(Abs(ts[i]), 1.0) <= bound
    ensures Weight(ts) <= Times(|ts|, bound)
  {
    hide Times;
    OneMore(0, bound);
    if ts != [] {
      WeightBound(ts[1..], bound);
      OneMore(|ts[1..]|, bound);
    }
  }

  lemma {:induction false} NonNegativeTotals(ts: seq<real>)
    requires forall i :: 0 <= i < |ts| ==> ts[i] >= 0.0
    ensures Total(ts) >= 0.0 && forall i :: 0 <= i < |ts| ==> ts[i] <= Total(ts)
  {
    if ts != [] {
      NonNegativeTotals(ts[1..]);
      forall i | 0 <= i < |ts| ensures ts[i] <= Total(ts) {
        assert i > 0 ==> ts[i] == ts[1..][i - 1];
      }
    }
  }

  /** Totals that are not negative are balanced, so their bundles explain the grand total. */
  lemma GrandTotalIsExplained(bundles: seq<Bundle>)
    requires AllAccepted(bundles) && forall i :: 0 <= i < |bundles| ==> bundles[i].total.value >= 0.0
    ensures ExplainTheGrandTotal(bundles)
  {
    hide Accepted, Weight, Total, Times, ExplainTheGrandTotal;
    var ts := Totals(bundles);
    NonNegativeTotals(ts);
    WeightBound(ts, Max(Abs(Total(ts)), 1.0));
    BalancedBundlesExplain(bundles);
  }

  /** Totals of both signs can fail to be, for instance a million and its opposite. */
  lemma MixedSignsNeedNotCancel()
    ensures !Balanced([1000000.0, -1000000.0])
    ensures AllAccepted(EdgeBundles([1000000.0, -1000000.0]))
    ensures !ExplainTheGrandTotal(EdgeBundles([1000000.0, -1000000.0]))
  {
    var ts := [1000000.0, -1000000.0];
    assert ts[1..] == [-1000000.0] && ts[1..][1..] == [];
    assert Total(ts) == 0.0 && Weight(ts) == 2000000.0;
    EdgesMissUnlessBalanced(ts);
  }
}
