/**
  The in-memory session store: an ordered dictionary of session objects, oldest first, that drops
  what has been idle past the TTL and what exceeds the capacity. Each method is one critical section
  of the store's lock. Clock readings and the fresh session id are parameters.
*/
module Sessions {
  import opened Wrappers
  import opened Sequences
  import opened RecencyList
  import opened RecencyRuns

  class ClientSession {
    const upload: Upload
    var lastAccess: real

    constructor (upload: Upload, lastAccess: real)
      ensures this.upload == upload && this.lastAccess == lastAccess
    {
      this.upload := upload;
      this.lastAccess := lastAccess;
    }
  }

  datatype Slot = Slot(id: SessionId, session: ClientSession)

  // ----- the ordered dictionary -----

  function FindSlot(slots: seq<Slot>, id: SessionId): Option<ClientSession> {
    if slots == [] then None
    else if slots[0].id == id then Some(slots[0].session)
    else FindSlot(slots[1..], id)
  }

  function RemoveSlot(slots: seq<Slot>, id: SessionId): seq<Slot> {
    if slots == [] then []
    else if slots[0].id == id then RemoveSlot(slots[1..], id)
    else [slots[0]] + RemoveSlot(slots[1..], id)
  }

  ghost function SessionsOf(slots: seq<Slot>): set<ClientSession> {
    set slot | slot in slots :: slot.session
  }

  lemma SessionsCons(slots: seq<Slot>)
    requires slots != []
    ensures SessionsOf(slots) == {slots[0].session} + SessionsOf(slots[1..])
  {
    assert slots == [slots[0]] + slots[1..];
  }

  ghost predicate DistinctSessions(slots: seq<Slot>) {
    slots == [] || (slots[0].session !in SessionsOf(slots[1..]) && DistinctSessions(slots[1..]))
  }

  ghost function EntryOf(slot: Slot): Entry
    reads slot.session
  {
    Entry(slot.id, slot.session.upload, slot.session.lastAccess)
  }

  /** The recency list that the slots stand for. */
  ghost function EntriesOf(slots: seq<Slot>): (r: seq<Entry>)
    reads SessionsOf(slots)
    ensures |r| == |slots|
  {
    if slots == [] then [] else
      SessionsCons(slots);
      [EntryOf(slots[0])] + EntriesOf(slots[1..])
  }

  lemma SessionsAppend(a: seq<Slot>, b: seq<Slot>)
    ensures SessionsOf(a + b) == SessionsOf(a) + SessionsOf(b)
  {
  }

  lemma {:induction false} DistinctAppend(a: seq<Slot>, b: seq<Slot>)
    ensures DistinctSessions(a + b) <==>
              DistinctSessions(a) && DistinctSessions(b) && SessionsOf(a) !! SessionsOf(b)
  {
    if a == [] {
      assert a + b == b;
    } else {
      assert (a + b)[1..] == a[1..] + b;
      DistinctAppend(a[1..], b);
      SessionsAppend(a[1..], b);
      SessionsCons(a);
      hide SessionsOf;
    }
  }

  lemma {:induction false} EntriesAppend(a: seq<Slot>, b: seq<Slot>)
    ensures EntriesOf(a + b) == EntriesOf(a) + EntriesOf(b)
    ensures SessionsOf(a + b) == SessionsOf(a) + SessionsOf(b)
    ensures DistinctSessions(a + b) <==>
              DistinctSessions(a) && DistinctSessions(b) && SessionsOf(a) !! SessionsOf(b)
  {
    SessionsAppend(a, b);
    DistinctAppend(a, b);
    hide DistinctSessions, SessionsOf;
    if a == [] {
      assert a + b == b;
    } else {
      assert (a + b)[1..] == a[1..] + b;
      EntriesAppend(a[1..], b);
    }
  }

  lemma EntriesKeepLast(slots: seq<Slot>, n: nat)
    ensures EntriesOf(KeepLast(slots, n)) == KeepLast(EntriesOf(slots), n)
    ensures SessionsOf(KeepLast(slots, n)) <= SessionsOf(slots)
    ensures DistinctSessions(slots) ==> DistinctSessions(KeepLast(slots, n))
  {
    if |slots| > n {
      var k := |slots| - n;
      EntriesAppend(slots[..k], slots[k..]);
      assert slots[..k] + slots[k..] == slots;
    }
  }

  lemma {:induction false} EntriesRemove(slots: seq<Slot>, id: SessionId)
    ensures EntriesOf(RemoveSlot(slots, id)) == Without(EntriesOf(slots), id)
    ensures SessionsOf(RemoveSlot(slots, id)) <= SessionsOf(slots)
    ensures DistinctSessions(slots) ==> DistinctSessions(RemoveSlot(slots, id))
  {
    if slots != [] {
      EntriesRemove(slots[1..], id);
      SessionsCons(slots);
      assert EntriesOf(slots)[1..] == EntriesOf(slots[1..]);
      if slots[0].id != id {
        SessionsCons(RemoveSlot(slots, id));
        assert RemoveSlot(slots, id)[1..] == RemoveSlot(slots[1..], id);
      }
    }
  }

  lemma {:induction false} EntriesFind(slots: seq<Slot>, id: SessionId)
    ensures FindSlot(slots, id).Some? <==> Find(EntriesOf(slots), id).Some?
    ensures FindSlot(slots, id).Some? ==>
              && FindSlot(slots, id).value in SessionsOf(slots)
              && Find(EntriesOf(slots), id) == Some(EntryOf(Slot(id, FindSlot(slots, id).value)))
  {
    if slots != [] {
      SessionsCons(slots);
      EntriesFind(slots[1..], id);
      assert EntriesOf(slots)[1..] == EntriesOf(slots[1..]);
    }
  }

  lemma {:induction false} RemoveDropsSession(slots: seq<Slot>, id: SessionId, session: ClientSession)
    requires DistinctSessions(slots) && FindSlot(slots, id) == Some(session)
    ensures session !in SessionsOf(RemoveSlot(slots, id))
  {
    if slots[0].id == id {
      EntriesRemove(slots[1..], id);
    } else {
      SessionsCons(RemoveSlot(slots, id));
      EntriesFind(slots[1..], id);
      RemoveDropsSession(slots[1..], id, session);
      assert RemoveSlot(slots, id)[1..] == RemoveSlot(slots[1..], id);
    }
  }

  ghost function NotAmong(ids: seq<SessionId>): Entry -> bool {
    (e: Entry) => e.id !in ids
  }

  ghost function RemoveAll(slots: seq<Slot>, ids: seq<SessionId>): seq<Slot> {
    if ids == [] then slots
    else RemoveSlot(RemoveAll(slots, ids[..|ids| - 1]), ids[|ids| - 1])
  }

  lemma {:induction false} EntriesRemoveAll(slots: seq<Slot>, ids: seq<SessionId>)
    ensures EntriesOf(RemoveAll(slots, ids)) == Filter(NotAmong(ids), EntriesOf(slots))
    ensures DistinctSessions(slots) ==>
              && DistinctSessions(RemoveAll(slots, ids))
              && SessionsOf(RemoveAll(slots, ids)) <= SessionsOf(slots)
    decreases |ids|
  {
    if ids == [] {
      FilterAll(NotAmong(ids), EntriesOf(slots));
    } else {
      var rest, id := ids[..|ids| - 1], ids[|ids| - 1];
      EntriesRemoveAll(slots, rest);
      EntriesRemove(RemoveAll(slots, rest), id);
      FilterTwice(NotAmong(rest), OtherThan(id), NotAmong(ids), EntriesOf(slots));
    }
  }

  /** The ids of the sessions last used before `cutoff`. */
  function ExpiredIds(slots: seq<Slot>, cutoff: real): seq<SessionId>
    reads SessionsOf(slots)
  {
    if slots == [] then [] else
      SessionsCons(slots);
      (if slots[0].session.lastAccess < cutoff then [slots[0].id] else []) + ExpiredIds(slots[1..], cutoff)
  }

  lemma {:induction false} ExpiredIdsExact(slots: seq<Slot>, cutoff: real)
    requires DistinctIds(EntriesOf(slots))
    ensures forall id :: id in ExpiredIds(slots, cutoff) ==> exists e :: e in EntriesOf(slots) && e.id == id
    ensures forall e :: e in EntriesOf(slots) ==> (e.id in ExpiredIds(slots, cutoff) <==> e.lastAccess < cutoff)
  {
    if slots != [] {
      var rest, first := EntriesOf(slots[1..]), EntryOf(slots[0]);
      var s := EntriesOf(slots);
      assert s == [first] + rest;
      forall e | e in rest ensures e in s && e.id != first.id {
        var k :| 0 <= k < |rest| && rest[k] == e;
        assert s[k + 1] == e && s[0] == first;
      }
      assert DistinctIds(rest) by {
        forall i, j | 0 <= i < j < |rest| ensures rest[i].id != rest[j].id {
          assert s[i + 1] == rest[i] && s[j + 1] == rest[j];
        }
      }
      ExpiredIdsExact(slots[1..], cutoff);
      assert first in s;
    }
  }

  lemma ExpiredIdsAreTheRest(slots: seq<Slot>, cutoff: real)
    requires DistinctIds(EntriesOf(slots))
    ensures Filter(NotAmong(ExpiredIds(slots, cutoff)), EntriesOf(slots)) == Filter(LiveSince(cutoff), EntriesOf(slots))
  {
    ExpiredIdsExact(slots, cutoff);
    FilterSame(NotAmong(ExpiredIds(slots, cutoff)), LiveSince(cutoff), EntriesOf(slots));
  }

  // ----- the store -----

  class SessionStore {
    const limits: Limits
    var slots: seq<Slot>
    ghost const start: real     // the clock when the store was made
    ghost var history: seq<Op>  // every operation so far

    ghost predicate Valid()
      reads this, SessionsOf(slots)
    {
      && DistinctSessions(slots)
      && Monotone(history, start)
      && EntriesOf(slots) == Run(limits, history)
    }

    constructor (limits: Limits, now: real)
      ensures Valid() && this.limits == limits && start == now
      ensures slots == [] && history == []
    {
      this.limits := limits;
      this.slots := [];
      this.history := [];
      this.start := now;
    }

    method EvictExpired(now: real)
      requires DistinctSessions(slots) && DistinctIds(EntriesOf(slots))
      modifies this`slots
      ensures EntriesOf(slots) == Live(old(EntriesOf(slots)), now, limits.ttl)
      ensures DistinctSessions(slots) && SessionsOf(slots) <= old(SessionsOf(slots))
    {
      ExpiredIdsAreTheRest(slots, now - limits.ttl);
      var expired := ExpiredIds(slots, now - limits.ttl);
      PopAll(expired);
    }

    method PopAll(ids: seq<SessionId>)
      requires DistinctSessions(slots)
      modifies this`slots
      ensures EntriesOf(slots) == Filter(NotAmong(ids), old(EntriesOf(slots)))
      ensures DistinctSessions(slots) && SessionsOf(slots) <= old(SessionsOf(slots))
    {
      ghost var all := slots;
      for i := 0 to |ids|
        invariant slots == RemoveAll(all, ids[..i])
      {
        assert ids[..i + 1][..i] == ids[..i];
        slots := RemoveSlot(slots, ids[i]);
      }
      assert ids[..|ids|] == ids;
      EntriesRemoveAll(all, ids);
    }

    method EvictOverflow()
      modifies this`slots
      ensures slots == KeepLast(old(slots), limits.maxSessions)
    {
      ghost var all := slots;
      while |slots| > limits.maxSessions
        invariant |slots| <= |all| && slots == all[|all| - |slots|..]
        invariant slots == all || |slots| >= limits.maxSessions
      {
        slots := slots[1..];
      }
    }

    /** `d[id] = session` and `move_to_end(id)`. */
    method PutLast(id: SessionId, session: ClientSession)
      requires DistinctSessions(slots) && session !in SessionsOf(RemoveSlot(slots, id))
      modifies this`slots
      ensures EntriesOf(slots) == Without(old(EntriesOf(slots)), id) + [EntryOf(Slot(id, session))]
      ensures DistinctSessions(slots) && SessionsOf(slots) <= old(SessionsOf(slots)) + {session}
      ensures session in SessionsOf(slots)
    {
      EntriesRemove(slots, id);
      EntriesAppend(RemoveSlot(slots, id), [Slot(id, session)]);
      slots := RemoveSlot(slots, id) + [Slot(id, session)];
    }

    /** Stores a new session under `id`, the most recent one, and returns the id. */
    method Create(id: SessionId, upload: Upload, evictAt: real, stampAt: real) returns (sessionId: SessionId)
      requires Valid() && Clock(history, start) <= evictAt <= stampAt
      modifies this
      ensures Valid() && sessionId == id
      ensures history == old(history) + [Op.Create(id, upload, evictAt, stampAt)]
      ensures EntriesOf(slots) == Step(limits, old(EntriesOf(slots)), Op.Create(id, upload, evictAt, stampAt))
      ensures fresh(SessionsOf(slots) - old(SessionsOf(slots)))
    {
      RunReachable(limits, history, start);
      var _ := Admit(id, upload, evictAt, stampAt);
      Record(Op.Create(id, upload, evictAt, stampAt));
      return id;
    }

    /** The body of `create` apart from the bookkeeping of the history. */
    method Admit(id: SessionId, upload: Upload, evictAt: real, stampAt: real) returns (session: ClientSession)
      requires DistinctSessions(slots) && DistinctIds(EntriesOf(slots))
      modifies this`slots
      ensures DistinctSessions(slots)
      ensures EntriesOf(slots) == Step(limits, old(EntriesOf(slots)), Op.Create(id, upload, evictAt, stampAt))
      ensures fresh(session) && SessionsOf(slots) <= old(SessionsOf(slots)) + {session}
    {
      ghost var live := Live(EntriesOf(slots), evictAt, limits.ttl);
      EvictExpired(evictAt);
      session := new ClientSession(upload, stampAt);
      EntriesRemove(slots, id);
      PutLast(id, session);
      assert EntriesOf(slots) == Without(live, id) + [Entry(id, upload, stampAt)];
      EntriesKeepLast(slots, limits.maxSessions);
      EvictOverflow();
    }

    /** Returns the live session, freshly stamped and moved to the recent end; `None` is the KeyError. */
    method Get(id: SessionId, evictAt: real, stampAt: real) returns (found: Option<ClientSession>)
      requires Valid() && Clock(history, start) <= evictAt <= stampAt
      modifies this, SessionsOf(slots)
      ensures Valid() && SessionsOf(slots) <= old(SessionsOf(slots))
      ensures history == old(history) + [Op.Get(id, evictAt, stampAt)]
      ensures EntriesOf(slots) == Step(limits, old(EntriesOf(slots)), Op.Get(id, evictAt, stampAt))
      ensures found.Some? <==> Lookup(limits, old(EntriesOf(slots)), id, evictAt).Some?
      ensures found.Some? ==>
                && found.value in SessionsOf(slots)
                && Lookup(limits, old(EntriesOf(slots)), id, evictAt).value
                   == Entry(id, found.value.upload, old(found.value.lastAccess))
                && found.value.lastAccess == stampAt
      ensures forall s :: s in old(SessionsOf(slots)) && Some(s) != found ==> s.lastAccess == old(s.lastAccess)
    {
      RunReachable(limits, history, start);
      found := Fetch(id, evictAt, stampAt);
      Record(Op.Get(id, evictAt, stampAt));
    }

    /** The body of `get` apart from the bookkeeping of the history. */
    method Fetch(id: SessionId, evictAt: real, stampAt: real) returns (found: Option<ClientSession>)
      requires DistinctSessions(slots) && DistinctIds(EntriesOf(slots))
      modifies this`slots, SessionsOf(slots)
      ensures DistinctSessions(slots) && SessionsOf(slots) <= old(SessionsOf(slots))
      ensures EntriesOf(slots) == AfterGet(Live(old(EntriesOf(slots)), evictAt, limits.ttl), id, stampAt)
      ensures found.Some? <==> Lookup(limits, old(EntriesOf(slots)), id, evictAt).Some?
      ensures found.Some? ==>
                && found.value in SessionsOf(slots)
                && Lookup(limits, old(EntriesOf(slots)), id, evictAt).value
                   == Entry(id, found.value.upload, old(found.value.lastAccess))
                && found.value.lastAccess == stampAt
      ensures forall s :: s in old(SessionsOf(slots)) && Some(s) != found ==> s.lastAccess == old(s.lastAccess)
    {
      ghost var live := Live(EntriesOf(slots), evictAt, limits.ttl);
      EvictExpired(evictAt);
      assert EntriesOf(slots) == live;
      found := FindSlot(slots, id);
      EntriesFind(slots, id);
      assert found.Some? ==> found.value in SessionsOf(slots);
      if found.Some? {
        Touch(id, found.value, stampAt);
      }
    }

    /** Stamps a session that is held under `id` and moves it to the recent end. */
    method Touch(id: SessionId, session: ClientSession, stampAt: real)
      requires DistinctSessions(slots) && FindSlot(slots, id) == Some(session)
      modifies this`slots, session`lastAccess
      ensures EntriesOf(slots) == Without(old(EntriesOf(slots)), id) + [Entry(id, session.upload, stampAt)]
      ensures DistinctSessions(slots) && SessionsOf(slots) <= old(SessionsOf(slots))
      ensures session in SessionsOf(slots) && session.lastAccess == stampAt
    {
      EntriesFind(slots, id);
      RemoveDropsSession(slots, id, session);
      EntriesRemove(slots, id);
      ghost var rest := RemoveSlot(slots, id);
      ghost var before := EntriesOf(rest);
      session.lastAccess := stampAt;
      assert EntriesOf(rest) == before;
      EntriesRemove(slots, id);
      PutLast(id, session);
    }

    method Delete(id: SessionId)
      requires Valid()
      modifies this
      ensures Valid() && SessionsOf(slots) <= old(SessionsOf(slots))
      ensures history == old(history) + [Op.Delete(id)]
      ensures EntriesOf(slots) == Without(old(EntriesOf(slots)), id)
    {
      EntriesRemove(slots, id);
      slots := RemoveSlot(slots, id);
      Record(Op.Delete(id));
    }

    method Len() returns (n: nat)
      requires Valid()
      ensures n == |Run(limits, history)| <= limits.maxSessions
    {
      RunReachable(limits, history, start);
      return |slots|;
    }

    /** Appends the operation just carried out to the history. */
    ghost method Record(op: Op)
      requires DistinctSessions(slots) && Monotone(history, start) && Timely(op, Clock(history, start))
      requires EntriesOf(slots) == Step(limits, Run(limits, history), op)
      modifies this`history
      ensures Valid() && history == old(history) + [op]
    {
      assert (history + [op])[..|history|] == history;
      history := history + [op];
    }
  }
}
