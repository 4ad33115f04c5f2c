/**
  The session store as a plain recency list, least recently used first. `SessionStore` in
  Sessions.dfy is proved to refine it.

  An operation carries the clock readings it takes: one when expired entries are dropped and, for
  `Create` and a successful `Get`, one more when the entry is stamped.
*/
module RecencyList {
  import opened Wrappers
  import opened Sequences

  type SessionId = string
  type Upload = string  // stands for the table, the source metadata and the raw bytes together

  datatype Entry = Entry(id: SessionId, upload: Upload, lastAccess: real)

  datatype Op =
    | Create(id: SessionId, upload: Upload, evictAt: real, stampAt: real)
    | Get(id: SessionId, evictAt: real, stampAt: real)
    | Delete(id: SessionId)

  datatype Limits = Limits(maxSessions: nat, ttl: real)

  // ----- the list operations -----

  function LiveSince(cutoff: real): Entry -> bool {
    (e: Entry) => e.lastAccess >= cutoff
  }

  function OtherThan(id: SessionId): Entry -> bool {
    (e: Entry) => e.id != id
  }

  function Live(s: seq<Entry>, now: real, ttl: real): seq<Entry> {
    Filter(LiveSince(now - ttl), s)
  }

  function Without(s: seq<Entry>, id: SessionId): seq<Entry> {
    Filter(OtherThan(id), s)
  }

  function KeepLast<T>(s: seq<T>, n: nat): seq<T> {
    if |s| <= n then s else s[|s| - n..]
  }

  function Find(s: seq<Entry>, id: SessionId): (r: Option<Entry>)
    ensures r.Some? ==> r.value in s && r.value.id == id
  {
    if s == [] then None
    else if s[0].id == id then Some(s[0])
    else Find(s[1..], id)
  }

  lemma {:induction false} FindMissing(s: seq<Entry>, id: SessionId)
    ensures Find(s, id).None? <==> forall e :: e in s ==> e.id != id
  {
    if s != [] {
      FindMissing(s[1..], id);
    }
  }

  function AfterGet(s: seq<Entry>, id: SessionId, stampAt: real): seq<Entry> {
    match Find(s, id)
    case None => s
    case Some(e) => Without(s, id) + [e.(lastAccess := stampAt)]
  }

  function Step(limits: Limits, s: seq<Entry>, op: Op): seq<Entry> {
    match op
    case Create(id, upload, evictAt, stampAt) =>
      KeepLast(Without(Live(s, evictAt, limits.ttl), id) + [Entry(id, upload, stampAt)], limits.maxSessions)
    case Get(id, evictAt, stampAt) =>
      AfterGet(Live(s, evictAt, limits.ttl), id, stampAt)
    case Delete(id) =>
      Without(s, id)
  }

  /** What `get` hands back (before it is stamped); `None` is the KeyError. */
  function Lookup(limits: Limits, s: seq<Entry>, id: SessionId, evictAt: real): Option<Entry> {
    Find(Live(s, evictAt, limits.ttl), id)
  }

  function Run(limits: Limits, ops: seq<Op>): seq<Entry> {
    if ops == [] then [] else Step(limits, Run(limits, ops[..|ops| - 1]), ops[|ops| - 1])
  }

  // ----- the clock -----

  /** The clock reading after `op`, if it was `now` before. */
  function ClockAfter(op: Op, now: real): real {
    if op.Delete? then now else op.stampAt
  }

  predicate Timely(op: Op, now: real) {
    op.Delete? || now <= op.evictAt <= op.stampAt
  }

  /** The clock after `ops`, if it was `start` at the beginning. */
  function Clock(ops: seq<Op>, start: real): real {
    if ops == [] then start else ClockAfter(ops[|ops| - 1], Clock(ops[..|ops| - 1], start))
  }

  /** The operations read a clock that starts at `start` and never goes back. */
  predicate Monotone(ops: seq<Op>, start: real) {
    ops == [] ||
    (Monotone(ops[..|ops| - 1], start) && Timely(ops[|ops| - 1], Clock(ops[..|ops| - 1], start)))
  }

  // ----- what every reachable state satisfies -----

  ghost predicate DistinctIds(s: seq<Entry>) {
    forall i, j :: 0 <= i < j < |s| ==> s[i].id != s[j].id
  }

  ghost predicate InRecencyOrder(s: seq<Entry>, now: real) {
    && (forall i, j :: 0 <= i < j < |s| ==> s[i].lastAccess <= s[j].lastAccess)
    && (forall e :: e in s ==> e.lastAccess <= now)
  }

  ghost predicate Reachable(limits: Limits, s: seq<Entry>, now: real) {
    |s| <= limits.maxSessions && DistinctIds(s) && InRecencyOrder(s, now)
  }

  lemma {:induction false} FilterKeepsOrder(p: Entry -> bool, s: seq<Entry>, now: real)
    requires DistinctIds(s) && InRecencyOrder(s, now)
    ensures DistinctIds(Filter(p, s)) && InRecencyOrder(Filter(p, s), now)
  {
    if s != [] {
      FilterKeepsOrder(p, s[1..], now);
      FilterMembers(p, s[1..]);
      var rest := Filter(p, s[1..]);
      forall i | 0 <= i < |rest|
        ensures rest[i].id != s[0].id && s[0].lastAccess <= rest[i].lastAccess
      {
        assert rest[i] in s[1..];
      }
      forall e | e in Filter(p, s) ensures e.lastAccess <= now {
        assert e == s[0] || e in rest;
      }
    }
  }

  /** Stamping an entry with the latest clock reading and putting it last keeps the order. */
  lemma AppendNewest(s: seq<Entry>, now: real, e: Entry)
    requires DistinctIds(s) && InRecencyOrder(s, now)
    requires now <= e.lastAccess && forall x :: x in s ==> x.id != e.id
    ensures DistinctIds(s + [e]) && InRecencyOrder(s + [e], e.lastAccess)
  {
    forall x | x in s + [e] ensures x.lastAccess <= e.lastAccess {}
    forall i, j | 0 <= i < j < |s + [e]|
      ensures (s + [e])[i].id != (s + [e])[j].id && (s + [e])[i].lastAccess <= (s + [e])[j].lastAccess
    {
      assert (s + [e])[i] in s;
    }
  }

  /** Removing an id that is present shortens the list by exactly one. */
  lemma {:induction false} WithoutLength(s: seq<Entry>, id: SessionId)
    requires DistinctIds(s)
    ensures |Without(s, id)| == if Find(s, id).Some? then |s| - 1 else |s|
  {
    if s != [] {
      if s[0].id == id {
        forall e | e in s[1..] ensures OtherThan(id)(e) {}
        FilterAll(OtherThan(id), s[1..]);
      } else {
        WithoutLength(s[1..], id);
      }
    }
  }
}
