/** What every state of the recency list satisfies that a run can reach, and what evictions remove. */
module RecencyRuns {
  import opened Wrappers
  import opened Sequences
  import opened RecencyList
  import opened RecencySteps

  /** Every run keeps the bound, the uniqueness of ids and the recency order. */
  lemma {:induction false} RunReachable(limits: Limits, ops: seq<Op>, start: real)
    requires Monotone(ops, start)
    ensures Reachable(limits, Run(limits, ops), Clock(ops, start))
    decreases |ops|
  {
    if ops != [] {
      var before := ops[..|ops| - 1];
      var last := ops[|ops| - 1];
      RunReachable(limits, before, start);
      StepReachable(limits, Run(limits, before), Clock(before, start), last);
    }
  }

  // ----- what the two evictions remove -----

  /** Expired entries form a prefix, so what survives is a suffix. */
  lemma {:induction false} ExpiredFormPrefix(s: seq<Entry>, clock: real, now: real, ttl: real) returns (k: nat)
    requires InRecencyOrder(s, clock)
    ensures k <= |s| && Live(s, now, ttl) == s[k..]
    ensures forall i :: 0 <= i < |s| ==> (s[i].lastAccess < now - ttl <==> i < k)
  {
    if s == [] || s[0].lastAccess >= now - ttl {
      k := 0;
      FilterAll(LiveSince(now - ttl), s);
    } else {
      forall e | e in s[1..] ensures e.lastAccess <= clock {}
      var k' := ExpiredFormPrefix(s[1..], clock, now, ttl);
      k := k' + 1;
      assert s[1..][k'..] == s[k..];
    }
  }

  /**
    `create` keeps its own session exactly when the store may hold any, and the entries it pushes out
    are the ones idle longest: each was used no later than any entry that stays.
  */
  lemma CreateEvictsLeastRecentlyUsed(limits: Limits, s: seq<Entry>, now: real, op: Op, gone: Entry)
    requires op.Create? && Reachable(limits, s, now) && Timely(op, now)
    requires gone in Without(Live(s, op.evictAt, limits.ttl), op.id)
    requires gone !in Step(limits, s, op)
    ensures |Step(limits, s, op)| == limits.maxSessions
    ensures forall kept :: kept in Step(limits, s, op) ==> gone.lastAccess <= kept.lastAccess
  {
    var rest := Without(Live(s, op.evictAt, limits.ttl), op.id);
    FilterKeepsOrder(LiveSince(op.evictAt - limits.ttl), s, now);
    FilterKeepsOrder(OtherThan(op.id), Live(s, op.evictAt, limits.ttl), now);
    FilterMembers(OtherThan(op.id), Live(s, op.evictAt, limits.ttl));
    var all := rest + [Entry(op.id, op.upload, op.stampAt)];
    AppendNewest(rest, now, Entry(op.id, op.upload, op.stampAt));
    assert gone in all;
    var i :| 0 <= i < |all| && all[i] == gone;
    var n := |all| - limits.maxSessions;
    assert i < n;
    forall kept | kept in all[n..] ensures gone.lastAccess <= kept.lastAccess {
      var j :| 0 <= j < |all[n..]| && all[n..][j] == kept;
      assert all[n + j] == kept;
    }
  }

  lemma CreateKeepsOwnSession(limits: Limits, s: seq<Entry>, op: Op)
    requires op.Create?
    ensures Find(Step(limits, s, op), op.id) == (
      if limits.maxSessions > 0 then Some(Entry(op.id, op.upload, op.stampAt)) else None)
  {
    var rest := Without(Live(s, op.evictAt, limits.ttl), op.id);
    var own := Entry(op.id, op.upload, op.stampAt);
    var kept := Step(limits, s, op);
    FilterMembers(OtherThan(op.id), Live(s, op.evictAt, limits.ttl));
    FindMissing(kept, op.id);
    if limits.maxSessions > 0 {
      assert kept[|kept| - 1] == own;
      forall e | e in kept ensures e in rest || e == own {
        assert e in rest + [own];
      }
    }
  }

  /** `get` answers exactly with an entry it holds that has not been idle past the TTL. */
  lemma GetIsFresh(limits: Limits, s: seq<Entry>, id: SessionId, evictAt: real)
    requires DistinctIds(s)
    ensures forall e :: Lookup(limits, s, id, evictAt) == Some(e) <==>
                          e in s && e.id == id && evictAt - e.lastAccess <= limits.ttl
  {
    var live := Live(s, evictAt, limits.ttl);
    FilterMembers(LiveSince(evictAt - limits.ttl), s);
    FindMissing(live, id);
    forall e | e in s && e.id == id && evictAt - e.lastAccess <= limits.ttl
      ensures Lookup(limits, s, id, evictAt) == Some(e)
    {
      assert e in live;
      var found := Find(live, id).value;
      assert found in s;
    }
  }

  /** Operation `k` creates the session, and no later one creates or deletes it. */
  ghost predicate LastCreated(ops: seq<Op>, k: nat, id: SessionId) {
    && k < |ops| && ops[k].Create? && ops[k].id == id
    && forall j :: k < j < |ops| ==> (ops[j].Get? || ops[j].id != id)
  }

  /** What is held under an id is what the last create has put there; nothing is held that was deleted since. */
  lemma {:induction false} HeldIsLastCreated(limits: Limits, ops: seq<Op>, e: Entry) returns (k: nat)
    requires e in Run(limits, ops)
    ensures LastCreated(ops, k, e.id) && ops[k].upload == e.upload
  {
    var n := |ops| - 1;
    var before, op := Run(limits, ops[..n]), ops[n];
    StepMembers(limits, before, op, e);
    if op.Create? && op.id == e.id {
      k := n;
    } else {
      var was :| was in before && was.id == e.id && was.upload == e.upload;
      k := HeldIsLastCreated(limits, ops[..n], was);
      assert ops[..n][k] == ops[k];
      assert forall j :: k < j < n ==> ops[..n][j] == ops[j];
    }
  }

  /** An entry after a step was made by it, or was there with the same upload and is not deleted. */
  lemma StepMembers(limits: Limits, s: seq<Entry>, op: Op, e: Entry)
    requires e in Step(limits, s, op)
    ensures if op.Create? && op.id == e.id then e.upload == op.upload
            else (op.Get? || op.id != e.id) && exists was :: was in s && was.id == e.id && was.upload == e.upload
  {
    match op
    case Create(id, upload, evictAt, stampAt) =>
      var live := Live(s, evictAt, limits.ttl);
      FilterMembers(LiveSince(evictAt - limits.ttl), s);
      FilterMembers(OtherThan(id), live);
      assert e in Without(live, id) + [Entry(id, upload, stampAt)];
    case Get(id, evictAt, stampAt) =>
      var live := Live(s, evictAt, limits.ttl);
      FilterMembers(LiveSince(evictAt - limits.ttl), s);
      FilterMembers(OtherThan(id), live);
    case Delete(id) =>
      FilterMembers(OtherThan(id), s);
  }
}
