/**
  What a longer TTL does to a store of the same capacity: two stores that differ only in it, run side
  by side.
*/
module IdleTimeouts {
  import opened Wrappers
  import opened Sequences
  import opened RecencyList
  import opened RecencyRuns

  /** Whatever a `get` finds with the limits `short`, after any run, it finds with `long` too. */
  ghost predicate NeverLoses(short: Limits, long: Limits) {
    forall ops, start, id, at ::
      Monotone(ops, start) && Clock(ops, start) <= at && Lookup(short, Run(short, ops), id, at).Some? ==>
        Lookup(long, Run(long, ops), id, at) == Lookup(short, Run(short, ops), id, at)
  }

  lemma FilterOne(p: Entry -> bool, e: Entry)
    ensures Filter(p, [e]) == if p(e) then [e] else []
  {
    assert [e][1..] == [];
  }

  // ----- where it is safe -----

  /** With room for one session, the store with the shorter TTL is empty or holds what the other holds. */
  ghost predicate Follows(a: seq<Entry>, b: seq<Entry>) {
    a == [] || a == b
  }

  lemma FollowsAfterStep(short: Limits, long: Limits, a: seq<Entry>, b: seq<Entry>, op: Op)
    requires short.maxSessions == long.maxSessions <= 1 && short.ttl <= long.ttl
    requires Follows(a, b) && |a| <= 1
    ensures Follows(Step(short, a, op), Step(long, b, op))
    ensures op.Get? && Lookup(short, a, op.id, op.evictAt).Some? ==>
              Lookup(long, b, op.id, op.evictAt) == Lookup(short, a, op.id, op.evictAt)
  {
    if !op.Delete? && a != [] {
      assert a == [a[0]];
      FilterOne(LiveSince(op.evictAt - short.ttl), a[0]);
      FilterOne(LiveSince(op.evictAt - long.ttl), a[0]);
    }
  }

  lemma {:induction false} FollowsAfterRun(short: Limits, long: Limits, ops: seq<Op>, start: real)
    requires short.maxSessions == long.maxSessions <= 1 && short.ttl <= long.ttl && Monotone(ops, start)
    ensures Follows(Run(short, ops), Run(long, ops))
  {
    if ops != [] {
      var before := ops[..|ops| - 1];
      FollowsAfterRun(short, long, before, start);
      RunReachable(short, before, start);
      FollowsAfterStep(short, long, Run(short, before), Run(long, before), ops[|ops| - 1]);
    }
  }

  lemma SafeForOneSession(short: Limits, long: Limits)
    requires short.maxSessions == long.maxSessions <= 1 && short.ttl <= long.ttl
    ensures NeverLoses(short, long)
  {
    forall ops, start, id, at | Monotone(ops, start) && Lookup(short, Run(short, ops), id, at).Some?
      ensures Lookup(long, Run(long, ops), id, at) == Lookup(short, Run(short, ops), id, at)
    {
      FollowsAfterRun(short, long, ops, start);
      RunReachable(short, ops, start);
      FollowsAfterStep(short, long, Run(short, ops), Run(long, ops), Get(id, at, at));
    }
  }

  /** A store with a negative TTL never answers, so it has nothing to lose. */
  lemma SafeForNegativeTtl(short: Limits, long: Limits)
    requires short.ttl < 0.0
    ensures NeverLoses(short, long)
  {
    forall ops, start, id, at | Monotone(ops, start) && Clock(ops, start) <= at
      ensures Lookup(short, Run(short, ops), id, at).None?
    {
      RunReachable(short, ops, start);
      GetIsFresh(short, Run(short, ops), id, at);
    }
  }

  // ----- where it is not -----

  /** The ids "bb", "bbb", ... */
  function OtherId(k: nat): SessionId {
    seq(k + 1, _ => 'b')
  }

  function Creates(k: nat, at: real): seq<Op> {
    if k == 0 then [] else Creates(k - 1, at) + [Create(OtherId(k), "", at, at)]
  }

  function Created(k: nat, at: real): (r: seq<Entry>)
    ensures |r| == k
    ensures forall e :: e in r ==> e.lastAccess == at && 2 <= |e.id| <= k + 1
  {
    if k == 0 then [] else Created(k - 1, at) + [Entry(OtherId(k), "", at)]
  }

  /**
    "x" is idle for exactly the TTL of one store, which revives it; where the TTL is shorter it is gone.
    Then further sessions fill the store, and where "x" takes up room they push out "a".
  */
  function RevivingOps(k: nat, at: real): seq<Op> {
    [Create("x", "", 0.0, 0.0), Create("a", "", at, at), Get("x", at, at)] + Creates(k, at)
  }

  lemma RunSnoc(limits: Limits, ops: seq<Op>, op: Op)
    ensures Run(limits, ops + [op]) == Step(limits, Run(limits, ops), op)
  {
    assert (ops + [op])[..|ops|] == ops;
  }

  lemma RevivingSnoc(k: nat, at: real)
    requires k > 0
    ensures RevivingOps(k, at) == RevivingOps(k - 1, at) + [Create(OtherId(k), "", at, at)]
  {
  }

  lemma {:induction false} RevivingIsMonotone(k: nat, at: real)
    requires 0.0 <= at
    ensures Monotone(RevivingOps(k, at), 0.0) && Clock(RevivingOps(k, at), 0.0) == at
  {
    var c1, c2, c3 := Create("x", "", 0.0, 0.0), Create("a", "", at, at), Get("x", at, at);
    if k == 0 {
      MonotoneSnoc([], c1, 0.0);
      MonotoneSnoc([c1], c2, 0.0);
      MonotoneSnoc([c1, c2], c3, 0.0);
      assert [] + [c1] == [c1] && [c1] + [c2] == [c1, c2] && [c1, c2] + [c3] == RevivingOps(0, at);
    } else {
      RevivingIsMonotone(k - 1, at);
      MonotoneSnoc(RevivingOps(k - 1, at), Create(OtherId(k), "", at, at), 0.0);
      RevivingSnoc(k, at);
    }
  }

  lemma MonotoneSnoc(ops: seq<Op>, op: Op, start: real)
    requires Monotone(ops, start) && Timely(op, Clock(ops, start))
    ensures Monotone(ops + [op], start) && Clock(ops + [op], start) == ClockAfter(op, Clock(ops, start))
  {
    assert (ops + [op])[..|ops|] == ops;
  }

  /** Creating a session where none has been idle drops no more than the capacity demands. */
  lemma StepOfCreate(limits: Limits, s: seq<Entry>, id: SessionId, at: real)
    requires limits.ttl >= 0.0 && forall e :: e in s ==> e.lastAccess == at && e.id != id
    ensures Step(limits, s, Create(id, "", at, at)) == KeepLast(s + [Entry(id, "", at)], limits.maxSessions)
  {
    FilterAll(LiveSince(at - limits.ttl), s);
    FilterAll(OtherThan(id), s);
  }

  /** The session "a" is created when "x" has been idle for `at`. */
  lemma CreateAfterIdle(limits: Limits, at: real)
    requires limits.maxSessions >= 2
    ensures Step(limits, [Entry("x", "", 0.0)], Create("a", "", at, at)) ==
            if limits.ttl < at then [Entry("a", "", at)] else [Entry("x", "", 0.0), Entry("a", "", at)]
  {
    var x, a := Entry("x", "", 0.0), Entry("a", "", at);
    assert x.id[0] != a.id[0];
    FilterOne(LiveSince(at - limits.ttl), x);
    FilterOne(OtherThan("a"), x);
    assert [] + [a] == [a] && [x] + [a] == [x, a];
  }

  /** Then "x" is looked for. */
  lemma GetAfterIdle(limits: Limits, at: real)
    requires 0.0 <= limits.ttl <= at
    ensures limits.ttl < at ==> Step(limits, [Entry("a", "", at)], Get("x", at, at)) == [Entry("a", "", at)]
    ensures limits.ttl == at ==>
              Step(limits, [Entry("x", "", 0.0), Entry("a", "", at)], Get("x", at, at)) ==
              [Entry("a", "", at), Entry("x", "", at)]
  {
    var x, a := Entry("x", "", 0.0), Entry("a", "", at);
    assert x.id[0] != a.id[0];
    if limits.ttl < at {
      FilterOne(LiveSince(at - limits.ttl), a);
    } else {
      FilterAll(LiveSince(at - limits.ttl), [x, a]);
      FilterOne(OtherThan("x"), a);
      assert [x, a][1..] == [a] && Filter(OtherThan("x"), [x, a]) == [a];
      assert [a] + [x.(lastAccess := at)] == [a, Entry("x", "", at)];
    }
  }

  /** The first three operations, where "x" has expired and where it has not. */
  lemma RevivingStart(limits: Limits, at: real)
    requires limits.maxSessions >= 2 && 0.0 <= limits.ttl <= at && 0.0 < at
    ensures Run(limits, RevivingOps(0, at)) ==
            if limits.ttl < at then [Entry("a", "", at)] else [Entry("a", "", at), Entry("x", "", at)]
  {
    var c1, c2, c3 := Create("x", "", 0.0, 0.0), Create("a", "", at, at), Get("x", at, at);
    RunSnoc(limits, [], c1);
    RunSnoc(limits, [c1], c2);
    RunSnoc(limits, [c1, c2], c3);
    StepOfCreate(limits, [], "x", 0.0);
    assert Run(limits, []) == [] && KeepLast([] + [Entry("x", "", 0.0)], limits.maxSessions) == [Entry("x", "", 0.0)];
    CreateAfterIdle(limits, at);
    GetAfterIdle(limits, at);
    hide Run, Step, KeepLast;
    assert [] + [c1] == [c1] && [c1] + [c2] == [c1, c2] && [c1, c2] + [c3] == RevivingOps(0, at);
  }

  lemma CreateOther(limits: Limits, first: seq<Entry>, k: nat, at: real)
    requires limits.ttl >= 0.0 && k > 0 && forall e :: e in first ==> e.lastAccess == at && |e.id| == 1
    ensures Step(limits, first + Created(k - 1, at), Create(OtherId(k), "", at, at)) ==
            KeepLast(first + Created(k, at), limits.maxSessions)
  {
    StepOfCreate(limits, first + Created(k - 1, at), OtherId(k), at);
    hide KeepLast, Step;
    AppendAssociates(first, Created(k - 1, at), [Entry(OtherId(k), "", at)]);
  }

  lemma KeepLastOfMore(e: Entry, rest: seq<Entry>, n: nat)
    ensures |rest| == n ==> KeepLast([e] + rest, n) == rest
    ensures |rest| <= n ==> KeepLast(rest, n) == rest
  {
  }

  /** After `k` further creates the store holds the last of all these sessions that fit. */
  lemma {:induction false} RevivingRun(limits: Limits, k: nat, at: real)
    requires limits.maxSessions >= 2 && k < limits.maxSessions && 0.0 <= limits.ttl <= at && 0.0 < at
    ensures Run(limits, RevivingOps(k, at)) ==
            if limits.ttl < at then [Entry("a", "", at)] + Created(k, at)
            else if k + 1 < limits.maxSessions then [Entry("a", "", at), Entry("x", "", at)] + Created(k, at)
            else [Entry("x", "", at)] + Created(k, at)
  {
    hide Run, Step, KeepLast, RevivingOps;
    var a, x := Entry("a", "", at), Entry("x", "", at);
    if k == 0 {
      RevivingStart(limits, at);
      assert [a] + [] == [a] && [a, x] + [] == [a, x];
    } else {
      RevivingRun(limits, k - 1, at);
      RevivingSnoc(k, at);
      RunSnoc(limits, RevivingOps(k - 1, at), Create(OtherId(k), "", at, at));
      var first := if limits.ttl < at then [a] else [a, x];
      CreateOther(limits, first, k, at);
      assert [a] + ([x] + Created(k, at)) == [a, x] + Created(k, at);
      KeepLastOfMore(a, [x] + Created(k, at), limits.maxSessions);
      KeepLastOfMore(a, first + Created(k, at), limits.maxSessions);
    }
  }

  /** With room for two sessions or more, the trace is one that the longer TTL loses. */
  lemma RevivingLoses(short: Limits, long: Limits)
    requires short.maxSessions == long.maxSessions >= 2 && 0.0 <= short.ttl < long.ttl
    ensures var ops, at := RevivingOps(long.maxSessions - 1, long.ttl), long.ttl;
            && Monotone(ops, 0.0) && Clock(ops, 0.0) == at
            && Lookup(short, Run(short, ops), "a", at).Some? && Lookup(long, Run(long, ops), "a", at).None?
  {
    hide Run, Monotone, Clock, RevivingOps, Created;
    var k, at := long.maxSessions - 1, long.ttl;
    RevivingIsMonotone(k, at);
    RevivingRun(short, k, at);
    RevivingRun(long, k, at);
    var a, x := Entry("a", "", at), Entry("x", "", at);
    FilterAll(LiveSince(at - short.ttl), [a] + Created(k, at));
    FilterAll(LiveSince(at - long.ttl), [x] + Created(k, at));
    assert a.id[0] != x.id[0];
    FindMissing([x] + Created(k, at), "a");
  }

  /**
    For two stores of the same capacity a longer TTL is safe exactly if there is room for at most one
    session, or the shorter TTL is negative; otherwise it can keep a session alive that pushes out another.
  */
  lemma LongerTtlIsSafeIff(short: Limits, long: Limits)
    requires short.maxSessions == long.maxSessions && short.ttl < long.ttl
    ensures NeverLoses(short, long) <==> short.maxSessions <= 1 || short.ttl < 0.0
  {
    hide Run, Lookup, Monotone, Clock;
    if short.maxSessions <= 1 {
      SafeForOneSession(short, long);
    } else if short.ttl < 0.0 {
      SafeForNegativeTtl(short, long);
    } else {
      RevivingLoses(short, long);
    }
  }

  /** For instance, with room for two sessions, a TTL of 9 loses "a" where a TTL of 5 keeps it. */
  lemma LongerTtlCanLoseASession()
    ensures var ops :=
              [Create("x", "", 0.0, 0.0), Create("a", "", 9.0, 9.0), Get("x", 9.0, 9.0), Create("bb", "", 9.0, 9.0)];
            && Lookup(Limits(2, 5.0), Run(Limits(2, 5.0), ops), "a", 9.0).Some?
            && Lookup(Limits(2, 9.0), Run(Limits(2, 9.0), ops), "a", 9.0).None?
  {
    RevivingLoses(Limits(2, 5.0), Limits(2, 9.0));
    RevivingSnoc(1, 9.0);
    assert OtherId(1) == "bb";
    assert Creates(0, 9.0) == [];
    hide Lookup, Run;
    assert RevivingOps(1, 9.0) ==
           [Create("x", "", 0.0, 0.0), Create("a", "", 9.0, 9.0), Get("x", 9.0, 9.0), Create("bb", "", 9.0, 9.0)];
  }
}
