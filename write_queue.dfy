/** The write-back queue of js/mDB.js as the module state it is: mDBqueue,
    mDBi, mDBt and the persisted counter, updated in place by mDBadd, mDBdel,
    mDBaddQueue, mDBprocess and the two request callbacks. Every method is
    proved against the step functions of QueueSpec, whose lemmas carry the
    invariants, per-collection order and the counter's meaning. */
module WriteQueue {
  import opened Types
  import opened QueueSpec

  /** Whether a record belongs to the contacts pseudo-folder (`a.p === 'contacts'`). */
  predicate IsContact(n: Record)
  {
    "p" in n && n["p"] == "contacts"
  }

  /** The fields mDBadd removes before storing a node record: a truthy `key`
      always, a truthy `name` or `ar` unless the node is a contact. */
  predicate Derived(n: Record, f: string)
  {
    Truthy(n, f) && (f == "key" || ((f == "name" || f == "ar") && !IsContact(n)))
  }

  /** mDBadd's cleanup of a record before it is queued as a put. */
  function StripDerived(n: Record): (r: Record)
    ensures forall f :: f in r ==> f in n && r[f] == n[f]
    ensures forall f :: f in n && !Derived(n, f) ==> f in r
    ensures forall f :: f in n && f !in r ==> Truthy(n, f)
    ensures !Truthy(r, "key")
    ensures !IsContact(n) ==> !Truthy(r, "name") && !Truthy(r, "ar")
    ensures IsContact(n) ==> IsContact(r)
  {
    map f | f in n && !Derived(n, f) :: n[f]
  }

  /** Stripping twice removes nothing more. */
  lemma StripIdempotent(n: Record)
    ensures StripDerived(StripDerived(n)) == StripDerived(n)
  {
    var r := StripDerived(n);
    assert IsContact(r) == IsContact(n);
    forall f | f in r ensures !Derived(r, f) {
      assert Truthy(r, f) == Truthy(n, f);
    }
  }

  class Queue {
    var queue: map<string, seq<Option<Entry>>>
    var order: seq<string>
    var cursor: map<string, nat>
    var active: Option<string>
    var inFlight: Option<Req<string>>
    var pending: Option<int>
    var requests: seq<Req<string>>
    var transactions: seq<string>
    /** Every entry accepted since the last reset, in arrival order. */
    ghost var arrivals: seq<Req<string>>
    /** The counter's excess over the entries not yet committed: the commits
        that failed, and whatever the stored counter already held. */
    ghost var excess: int

    function State(): QState<string>
      reads this
    {
      QState(queue, order, cursor, active, inFlight, pending, requests, transactions)
    }

    ghost predicate Valid()
      reads this
    {
      Inv(State()) && Fifo(State(), arrivals)
    }

    /** The stored counter equals the entries not yet committed plus the
        excess: the failed commits and the count stored at page load. */
    ghost predicate Exact()
      reads this
    {
      excess >= 0 && Tracks(State(), excess)
    }

    /** A fresh page load: the queue is empty and the counter is whatever
        localStorage holds. */
    constructor(stored: Option<int>)
      requires stored.Some? ==> stored.value >= 0
      ensures State() == Empty(stored) && Valid() && Exact() && arrivals == []
    {
      queue, order, cursor := map[], [], map[];
      active, inFlight, pending := None, None, stored;
      requests, transactions := [], [];
      arrivals := [];
      excess := if stored.Some? then stored.value else 0;
      EmptyInv<string>(stored);
    }

    /** mDBaddQueue: count the entry, append it to its collection, and run
        mDBprocess when no collection is active. Collections are the store
        names its callers pass; an empty name would be falsy in `!mDBt.t`. */
    method AddQueue(t: string, e: Entry)
      requires Valid() && IsStore(t)
      modifies this
      ensures State() == Enqueue(old(State()), t, e)
      ensures Valid() && arrivals == old(arrivals) + [Req(t, e)]
      ensures excess == old(excess) && (old(Exact()) ==> Exact())
    {
      ghost var s0 := State();
      PushEntry(t, e);
      PushOk(s0, t, e);
      if active.None? {
        Process();
      }
      EnqueueKeeps(s0, old(arrivals), t, e, excess);
    }

    /** Lines 201-204 of mDBaddQueue: count the entry (an absent counter
        reads as 0) and append it to its collection's array. */
    method PushEntry(t: string, e: Entry)
      modifies this
      ensures State() == Push(old(State()), t, e)
      ensures arrivals == old(arrivals) + [Req(t, e)] && excess == old(excess)
    {
      var c := if pending.None? then 0 else pending.value;
      pending := Some(c + 1);
      if t !in queue {
        queue := queue[t := []];
        order := order + [t];
      }
      queue := queue[t := queue[t] + [Some(e)]];
      arrivals := arrivals + [Req(t, e)];
    }

    /** mDBadd: queue a put of the record, stripped of its derived fields. */
    method Add(t: string, n: Record)
      requires Valid() && IsStore(t)
      modifies this
      ensures State() == Enqueue(old(State()), t, Put(StripDerived(n)))
      ensures Valid() && arrivals == old(arrivals) + [Req(t, Put(StripDerived(n)))]
      ensures excess == old(excess) && (old(Exact()) ==> Exact())
    {
      AddQueue(t, Put(StripDerived(n)));
    }

    /** mDBdel: queue a delete of the key. */
    method Del(t: string, id: string)
      requires Valid() && IsStore(t) && id != ""
      modifies this
      ensures State() == Enqueue(old(State()), t, Delete(id))
      ensures Valid() && arrivals == old(arrivals) + [Req(t, Delete(id))]
      ensures excess == old(excess) && (old(Exact()) ==> Exact())
    {
      AddQueue(t, Delete(id));
    }

    /** mDBprocess: scan the collections in key order; for the first whose
        cursor is below its array's length, issue the slot at the cursor and
        return. When no collection has work, reset mDBt and mDBqueue. */
    method Process()
      requires Scannable(State())
      modifies this
      ensures State() == Step(old(State()))
      ensures arrivals == old(arrivals) && excess == old(excess)
    {
      ghost var s0 := State();
      var keys := order;
      var k := 0;
      while k < |keys|
        invariant 0 <= k <= |keys| && keys == s0.order
        invariant State() == s0
        invariant arrivals == old(arrivals) && excess == old(excess)
        invariant forall j :: 0 <= j < k ==> Cursor(s0, keys[j]) >= |s0.queue[keys[j]]|
      {
        var t := keys[k];
        assert t in s0.order;
        if t !in cursor {
          cursor := cursor[t := 0];
        }
        // The source's inner `while` never runs its body twice: the slot at
        // the cursor is present (Scannable), so the first pass returns.
        if cursor[t] < |queue[t]| {
          FirstWithWorkAt(s0, keys, k);
          IssueWithCursor(s0, t);
          IssueSlot(t);
          return;
        }
        assert t in s0.cursor;
        assert cursor == s0.cursor;
        k := k + 1;
      }
      NoneWithWork(s0, keys);
      active := None;
      queue := map[];
      order := [];
    }

    /** The body of mDBprocess's inner loop: open a transaction unless the
        collection is already active, issue the slot at the cursor, clear it
        and advance the cursor, dropping the collection once drained. */
    method IssueSlot(t: string)
      requires Scannable(State()) && t in queue && t in cursor && cursor[t] < |queue[t]|
      modifies this
      ensures State() == Issue(old(State()), t)
      ensures arrivals == old(arrivals) && excess == old(excess)
    {
      var i := cursor[t];
      var e := queue[t][i].value;
      if active != Some(t) {
        active := Some(t);
        transactions := transactions + [t];
      }
      requests := requests + [Req(t, e)];
      inFlight := Some(Req(t, e));
      ClearSlot(t, i);
    }

    /** `delete mDBqueue[t][mDBi[t]]` and `mDBi[t]++`; once the array is
        drained, the collection leaves mDBqueue and mDBi. */
    method ClearSlot(t: string, i: nat)
      requires t in queue && i < |queue[t]|
      modifies this
      ensures i + 1 == |old(queue[t])| ==>
        && queue == old(queue) - {t} && cursor == old(cursor) - {t} && order == Without(old(order), t)
      ensures i + 1 < |old(queue[t])| ==>
        && queue == old(queue)[t := old(queue[t])[i := None]] && cursor == old(cursor)[t := i + 1]
        && order == old(order)
      ensures active == old(active) && inFlight == old(inFlight) && pending == old(pending)
      ensures requests == old(requests) && transactions == old(transactions)
      ensures arrivals == old(arrivals) && excess == old(excess)
    {
      if i + 1 == |queue[t]| {
        queue := queue - {t};
        cursor := cursor - {t};
        order := Without(order, t);
      } else {
        queue := queue[t := queue[t][i := None]];
        cursor := cursor[t := i + 1];
      }
    }

    /** onsuccess of the outstanding request: decrement a positive counter,
        then re-enter mDBprocess. */
    method OnCommitSuccess()
      requires Valid() && inFlight.Some?
      modifies this
      ensures State() == Complete(old(State()), true)
      ensures Valid() && arrivals == old(arrivals)
      ensures excess == old(excess) && (old(Exact()) ==> Exact())
    {
      ghost var s0 := State();
      inFlight := None;
      if pending.Some? && pending.value > 0 {
        pending := Some(pending.value - 1);
      }
      assert State() == Settled(s0, true);
      SettledOk(s0, true);
      Process();
      CompleteKeeps(s0, arrivals, true, excess);
    }

    /** onerror of the outstanding request: the counter is left as it is,
        and mDBprocess still runs. */
    method OnCommitError()
      requires Valid() && inFlight.Some?
      modifies this
      ensures State() == Complete(old(State()), false)
      ensures Valid() && arrivals == old(arrivals)
      ensures excess == old(excess) + 1 && (old(Exact()) ==> Exact())
    {
      ghost var s0 := State();
      inFlight := None;
      excess := excess + 1;
      assert State() == Settled(s0, false);
      SettledOk(s0, false);
      Process();
      CompleteKeeps(s0, arrivals, false, old(excess));
    }

    /** The reset of mDBfetch when the nodes store is empty, as intended:
        the counter is deleted, mDBqueue and mDBi emptied. The request in
        flight, if any, keeps its collection active until its callback runs. */
    method Reset()
      requires Valid()
      modifies this
      ensures State() == Cleared(old(State()))
      ensures Valid() && arrivals == requests
      ensures excess == 0 && (old(inFlight).None? ==> Exact())
    {
      ghost var s0 := State();
      pending := None;
      queue := map[];
      order := [];
      cursor := map[];
      arrivals := requests;
      excess := 0;
      ClearedInv(s0);
    }

    /** mDBrestart's `delete localStorage[u_handle + '_mDBcount']`. */
    method ForgetCount()
      requires Valid()
      modifies this
      ensures State() == old(State()).(pending := None)
      ensures Valid() && arrivals == old(arrivals)
      ensures Outstanding(old(State())) == 0 ==> excess == 0 && Exact()
      ensures Outstanding(old(State())) != 0 ==> excess == old(excess)
    {
      pending := None;
      if Outstanding(State()) == 0 {
        excess := 0;
      }
      assert forall u :: Cursor(State(), u) == Cursor(old(State()), u);
      assert forall u :: Pending(State(), u) == Pending(old(State()), u);
    }
  }

  /** mDBaddQueue keeps the invariants, appends to the arrivals, and keeps
      an exact counter exact. */
  lemma EnqueueKeeps(s: QState<string>, arrivals: seq<Req<string>>, t: string, e: Entry, excess: int)
    requires Inv(s) && Fifo(s, arrivals)
    ensures Inv(Enqueue(s, t, e)) && Fifo(Enqueue(s, t, e), arrivals + [Req(t, e)])
    ensures excess >= 0 && Tracks(s, excess) ==> Tracks(Enqueue(s, t, e), excess)
  {
    EnqueueInv(s, t, e);
    EnqueueFifo(s, arrivals, t, e);
    if excess >= 0 && Tracks(s, excess) {
      EnqueueTracks(s, t, e, excess);
    }
  }

  /** A request callback keeps the invariants and the arrivals, and keeps an
      exact counter exact, counting a failure. */
  lemma CompleteKeeps(s: QState<string>, arrivals: seq<Req<string>>, ok: bool, excess: int)
    requires Inv(s) && s.inFlight.Some? && Fifo(s, arrivals)
    ensures Inv(Complete(s, ok)) && Fifo(Complete(s, ok), arrivals)
    ensures excess >= 0 && Tracks(s, excess) ==> Tracks(Complete(s, ok), if ok then excess else excess + 1)
  {
    CompleteInv(s, ok);
    CompleteFifo(s, arrivals, ok);
    if excess >= 0 && Tracks(s, excess) {
      CompleteTracks(s, ok, excess);
    }
  }

  /** `if (!mDBi[t]) mDBi[t]=0` before the inner loop does not change which
      slot is issued. */
  lemma IssueWithCursor(s: QState<string>, t: string)
    requires Scannable(s) && t in s.queue && Cursor(s, t) < |s.queue[t]|
    ensures var s1 := s.(cursor := s.cursor[t := Cursor(s, t)]);
      Scannable(s1) && Cursor(s1, t) == Cursor(s, t) && Issue(s1, t) == Issue(s, t)
  {
    var s1 := s.(cursor := s.cursor[t := Cursor(s, t)]);
    assert forall u :: Cursor(s1, u) == Cursor(s, u);
    var i := Cursor(s, t);
    if i + 1 == |s.queue[t]| {
      assert s1.cursor - {t} == s.cursor - {t};
    } else {
      assert s1.cursor[t := i + 1] == s.cursor[t := i + 1];
    }
  }

  /** When no key of the order has work, the scan finds none. */
  lemma NoneWithWork(s: QState<string>, keys: seq<string>)
    requires forall t :: t in keys ==> t in s.queue
    requires forall j :: 0 <= j < |keys| ==> Cursor(s, keys[j]) >= |s.queue[keys[j]]|
    ensures FirstWithWork(s, keys) == None
  {
    if keys != [] {
      assert Cursor(s, keys[0]) >= |s.queue[keys[0]]|;
      assert forall j :: 0 <= j < |keys[1..]| ==> keys[1..][j] == keys[j + 1];
      NoneWithWork(s, keys[1..]);
    }
  }
}
