/**
  The calendar helper of the fixture generator: the last weekdays on or before a date. A date is its
  proleptic Gregorian ordinal, of which 1 (1 January of year 1, a Monday) is the first.
*/
module BusinessDates {
  import opened Wrappers
  import opened Sequences

  const FIRST_ORDINAL := 1

  const LAST_ORDINAL := 3652059

  type Date = d: int | FIRST_ORDINAL <= d <= LAST_ORDINAL witness 1

  datatype DateError = CountNotPositive | DateOverflow

  function Weekday(d: int): (r: int)
    ensures 0 <= r < 7
  {
    (d + 6) % 7
  }

  predicate IsBusinessDay(d: int) {
    Weekday(d) < 5
  }

  /** How many business days there are from `low` to `high`. */
  function CountBusinessDays(low: int, high: int): nat
    decreases high - low
  {
    if high < low then 0
    else CountBusinessDays(low, high - 1) + if IsBusinessDay(high) then 1 else 0
  }

  lemma {:induction false} CountFromBelow(low: int, high: int)
    requires low <= high
    ensures CountBusinessDays(low, high) == (if IsBusinessDay(low) then 1 else 0) + CountBusinessDays(low + 1, high)
    decreases high - low
  {
    if low < high {
      CountFromBelow(low, high - 1);
    }
  }

  /** Whole weeks have five business days, and the first five of the days left over are business days. */
  function BusinessDaysThrough(d: nat): nat {
    5 * (d / 7) + if d % 7 < 5 then d % 7 else 5
  }

  lemma ThroughNext(d: nat)
    requires d > 0
    ensures BusinessDaysThrough(d) == BusinessDaysThrough(d - 1) + if IsBusinessDay(d) then 1 else 0
  {
    NextDay(d - 1);
    assert (d + 6) % 7 == (d - 1) % 7;
  }

  lemma ThroughNone()
    ensures BusinessDaysThrough(0) == 0
  {
  }

  lemma {:induction false} CountThrough(d: nat)
    ensures CountBusinessDays(FIRST_ORDINAL, d) == BusinessDaysThrough(d)
  {
    hide BusinessDaysThrough, IsBusinessDay;
    if d == 0 {
      ThroughNone();
    } else {
      CountThrough(d - 1);
      ThroughNext(d);
    }
  }

  lemma NextDay(d: nat)
    ensures (d + 1) % 7 == if d % 7 == 6 then 0 else d % 7 + 1
    ensures (d + 1) / 7 == d / 7 + if d % 7 == 6 then 1 else 0
  {
  }

  ghost predicate Increasing(dates: seq<int>) {
    forall i, j :: 0 <= i < j < |dates| ==> dates[i] < dates[j]
  }

  /** Exactly the business days from the first of the dates to the end date, in order. */
  ghost predicate AreLastBusinessDays(dates: seq<int>, end: int) {
    && Increasing(dates)
    && forall d :: d in dates <==> dates != [] && dates[0] <= d <= end && IsBusinessDay(d)
  }

  /** The dates found so far, latest first: exactly the business days after `current`. */
  ghost predicate FoundDown(dates: seq<int>, current: int, end: int) {
    && (forall i, j :: 0 <= i < j < |dates| ==> dates[i] > dates[j])
    && (forall d :: d in dates <==> current < d <= end && IsBusinessDay(d))
    && |dates| == CountBusinessDays(current + 1, end)
  }

  lemma FoundStep(dates: seq<int>, current: int, end: int)
    requires FoundDown(dates, current, end) && current <= end
    ensures FoundDown(if IsBusinessDay(current) then dates + [current] else dates, current - 1, end)
  {
    CountFromBelow(current, end);
    var more := dates + [current];
    assert forall d :: d in more <==> d in dates || d == current;
    assert forall i :: 0 <= i < |dates| ==> dates[i] in dates;
  }

  lemma FoundInOrder(dates: seq<int>, current: int, end: int)
    requires FoundDown(dates, current, end)
    ensures AreLastBusinessDays(Reversed(dates), end)
  {
    var reversed := Reversed(dates);
    forall d ensures d in reversed <==> d in dates {
      if d in dates {
        var i :| 0 <= i < |dates| && dates[i] == d;
        assert reversed[|dates| - 1 - i] == d;
      }
    }
    assert dates != [] ==> reversed[0] in reversed;
  }

  /**
    The dates are the last `count` business days up to the end date, none skipped. It fails if the
    count is not positive, and also where the loop would step before the first date: there have to be
    enough business days after that one, even if it is a business day itself.
  */
  method BusinessDatesEnding(end: Date, count: int) returns (r: Result<seq<int>, DateError>)
    ensures count <= 0 <==> r == Failure(CountNotPositive)
    ensures r.Success? <==> 0 < count < BusinessDaysThrough(end)
    ensures r.Success? ==> |r.value| == count && AreLastBusinessDays(r.value, end)
  {
    hide BusinessDaysThrough, AreLastBusinessDays;
    if count <= 0 {
      return Failure(CountNotPositive);
    }
    var dates: seq<int> := [];
    var current: int := end;
    CountThrough(end);
    CountFromBelow(FIRST_ORDINAL, end);
    assert IsBusinessDay(FIRST_ORDINAL);
    while |dates| < count
      invariant FIRST_ORDINAL <= current <= end
      invariant FoundDown(dates, current, end) && |dates| <= count
      decreases current
    {
      FoundStep(dates, current, end);
      if Weekday(current) < 5 {
        dates := dates + [current];
      }
      if current == FIRST_ORDINAL {
        return Failure(DateOverflow);
      }
      current := current - 1;
    }
    CountDown(current, end);
    FoundInOrder(dates, current, end);
    return Success(Reversed(dates));
  }

  lemma CountDown(current: int, end: int)
    requires FIRST_ORDINAL <= current <= end
    ensures CountBusinessDays(current + 1, end) <= CountBusinessDays(FIRST_ORDINAL + 1, end)
    decreases current
  {
    if current > FIRST_ORDINAL {
      CountFromBelow(current, end);
      CountDown(current - 1, end);
    }
  }
}
