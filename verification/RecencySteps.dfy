/** Each operation keeps the capacity, the uniqueness of ids and the recency order. */
module RecencySteps {
  import opened Wrappers
  import opened Sequences
  import opened RecencyList

  lemma CreateReachable(limits: Limits, s: seq<Entry>, now: real, op: Op)
    requires op.Create? && Reachable(limits, s, now) && Timely(op, now)
    ensures Reachable(limits, Step(limits, s, op), op.stampAt)
  {
    var live := Live(s, op.evictAt, limits.ttl);
    FilterKeepsOrder(LiveSince(op.evictAt - limits.ttl), s, now);
    FilterKeepsOrder(OtherThan(op.id), live, now);
    var all := Without(live, op.id) + [Entry(op.id, op.upload, op.stampAt)];
    FilterMembers(OtherThan(op.id), live);
    AppendNewest(Without(live, op.id), now, Entry(op.id, op.upload, op.stampAt));
    var kept := KeepLast(all, limits.maxSessions);
    forall e | e in kept ensures e in all {}
  }

  lemma GetReachable(limits: Limits, s: seq<Entry>, now: real, op: Op)
    requires op.Get? && Reachable(limits, s, now) && Timely(op, now)
    ensures Reachable(limits, Step(limits, s, op), op.stampAt)
  {
    var live := Live(s, op.evictAt, limits.ttl);
    FilterKeepsOrder(LiveSince(op.evictAt - limits.ttl), s, now);
    FilterKeepsOrder(OtherThan(op.id), live, now);
    var found := Find(live, op.id);
    if found.Some? {
      WithoutLength(live, op.id);
      FilterMembers(OtherThan(op.id), live);
      AppendNewest(Without(live, op.id), now, found.value.(lastAccess := op.stampAt));
    }
  }

  lemma StepReachable(limits: Limits, s: seq<Entry>, now: real, op: Op)
    requires Reachable(limits, s, now) && Timely(op, now)
    ensures Reachable(limits, Step(limits, s, op), ClockAfter(op, now))
  {
    match op
    case Create(_, _, _, _) => CreateReachable(limits, s, now, op);
    case Get(_, _, _) => GetReachable(limits, s, now, op);
    case Delete(id) => FilterKeepsOrder(OtherThan(id), s, now);
  }
}
