/** More capacity never loses a session: two stores that differ only in it, run side by side. */
module Capacity {
  import opened Wrappers
  import opened Sequences
  import opened RecencyList
  import opened RecencyRuns

  /** The smaller store's list sits inside the larger one's, and the surplus stays within the extra room. */
  ghost predicate Includes(small: Limits, large: Limits, a: seq<Entry>, b: seq<Entry>) {
    IsSubsequence(a, b) && |b| - |a| <= large.maxSessions - small.maxSessions
  }

  lemma IncludesAfterKeepLast(small: Limits, large: Limits, a: seq<Entry>, b: seq<Entry>)
    requires small.maxSessions <= large.maxSessions && Includes(small, large, a, b)
    ensures Includes(small, large, KeepLast(a, small.maxSessions), KeepLast(b, large.maxSessions))
  {
    var da := if |a| <= small.maxSessions then 0 else |a| - small.maxSessions;
    var db := if |b| <= large.maxSessions then 0 else |b| - large.maxSessions;
    SubsequenceDrop(a, b, da, db);
  }

  lemma IncludesAfterFilter(small: Limits, large: Limits, p: Entry -> bool, a: seq<Entry>, b: seq<Entry>)
    requires Includes(small, large, a, b)
    ensures Includes(small, large, Filter(p, a), Filter(p, b))
  {
    SubsequenceFilter(p, a, b);
  }

  lemma IncludesAfterAppend(small: Limits, large: Limits, a: seq<Entry>, b: seq<Entry>, e: Entry)
    requires Includes(small, large, a, b)
    ensures Includes(small, large, a + [e], b + [e])
  {
    SubsequenceAppend(a, b, e);
  }

  /** A miss in the smaller store does not load anything, yet a hit in the larger one may reorder it. */
  lemma IncludesAfterGet(small: Limits, large: Limits, a: seq<Entry>, b: seq<Entry>, id: SessionId, stampAt: real)
    requires Includes(small, large, a, b) && DistinctIds(a) && DistinctIds(b)
    ensures Includes(small, large, AfterGet(a, id, stampAt), AfterGet(b, id, stampAt))
    ensures Find(a, id).Some? ==> Find(b, id) == Find(a, id)
  {
    WithoutLength(a, id);
    WithoutLength(b, id);
    SubsequenceFilter(OtherThan(id), a, b);
    var hitA, hitB := Find(a, id), Find(b, id);
    if hitA.Some? {
      SubsequenceMember(a, b, hitA.value);
      SubsequenceAppend(Without(a, id), Without(b, id), hitA.value.(lastAccess := stampAt));
    } else if hitB.Some? {
      FindMissing(a, id);
      FilterAll(OtherThan(id), a);
      SubsequenceAppend(a, Without(b, id), hitB.value.(lastAccess := stampAt));
    }
  }

  lemma IncludesAfterStep(small: Limits, large: Limits, a: seq<Entry>, b: seq<Entry>, op: Op)
    requires small.maxSessions <= large.maxSessions && small.ttl == large.ttl
    requires Includes(small, large, a, b) && DistinctIds(a) && DistinctIds(b)
    ensures Includes(small, large, Step(small, a, op), Step(large, b, op))
    ensures op.Get? ==>
      var hit := Lookup(small, a, op.id, op.evictAt);
      hit.Some? ==> Lookup(large, b, op.id, op.evictAt) == hit
  {
    hide Includes, Filter, Find, IsSubsequence, KeepLast, AfterGet;
    if !op.Delete? {
      var unexpired := LiveSince(op.evictAt - small.ttl);
      IncludesAfterFilter(small, large, unexpired, a, b);
      if op.Create? {
        var own := Entry(op.id, op.upload, op.stampAt);
        var la, lb := Filter(unexpired, a), Filter(unexpired, b);
        IncludesAfterFilter(small, large, OtherThan(op.id), la, lb);
        IncludesAfterAppend(small, large, Without(la, op.id), Without(lb, op.id), own);
        IncludesAfterKeepLast(small, large, Without(la, op.id) + [own], Without(lb, op.id) + [own]);
      } else {
        FilterDistinctIds(unexpired, a);
        FilterDistinctIds(unexpired, b);
        IncludesAfterGet(small, large, Filter(unexpired, a), Filter(unexpired, b), op.id, op.stampAt);
      }
    } else {
      IncludesAfterFilter(small, large, OtherThan(op.id), a, b);
    }
  }

  lemma {:induction false} FilterDistinctIds(p: Entry -> bool, s: seq<Entry>)
    requires DistinctIds(s)
    ensures DistinctIds(Filter(p, s))
  {
    if s != [] {
      FilterDistinctIds(p, s[1..]);
      FilterMembers(p, s[1..]);
      var rest := Filter(p, s[1..]);
      forall i | 0 <= i < |rest| ensures rest[i].id != s[0].id {
        assert rest[i] in s[1..];
      }
    }
  }

  /**
    Capacity inclusion: run the same operations, on the same clock, on two stores that differ only in
    `maxSessions`. Whatever the smaller one still holds the larger one holds too, with the same
    stamps and in the same order, and it holds no more than the extra capacity besides.
  */
  lemma {:induction false} CapacityInclusion(small: Limits, large: Limits, ops: seq<Op>, start: real)
    requires small.maxSessions <= large.maxSessions && small.ttl == large.ttl && Monotone(ops, start)
    ensures IsSubsequence(Run(small, ops), Run(large, ops))
    ensures |Run(large, ops)| - |Run(small, ops)| <= large.maxSessions - small.maxSessions
    decreases |ops|
  {
    if ops != [] {
      var before := ops[..|ops| - 1];
      var last := ops[|ops| - 1];
      CapacityInclusion(small, large, before, start);
      RunReachable(small, before, start);
      RunReachable(large, before, start);
      IncludesAfterStep(small, large, Run(small, before), Run(large, before), last);
    }
  }

  /** So a `get` that succeeds with the smaller capacity gives the same session with the larger one. */
  lemma MoreCapacityNeverLosesASession(small: Limits, large: Limits, ops: seq<Op>, start: real, id: SessionId, at: real)
    requires small.maxSessions <= large.maxSessions && small.ttl == large.ttl && Monotone(ops, start)
    requires Lookup(small, Run(small, ops), id, at).Some?
    ensures Lookup(large, Run(large, ops), id, at) == Lookup(small, Run(small, ops), id, at)
  {
    CapacityInclusion(small, large, ops, start);
    RunReachable(small, ops, start);
    RunReachable(large, ops, start);
    IncludesAfterStep(small, large, Run(small, ops), Run(large, ops), Get(id, at, at));
  }
}
