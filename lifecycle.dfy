/** The life of the local cache in js/mDB.js: the heartbeat lock between
    browser sessions (mDBactive and the test at the top of mDBstart), the
    state of the connection held in `mDB` and moved by mDBstart, the open
    request's callbacks, mDBfetch, mDBreload and mDBrestart, and the bulk
    load that mDBquery runs over the stores. Timers and IndexedDB callbacks
    are event methods; the clock is a parameter; what the engine asks of
    IndexedDB and of the rest of the application is recorded in `effects`. */
module Lifecycle {
  import opened Types
  import opened QueueSpec
  import opened WriteQueue
  import opened Loader

  /** mDBv: the layout version of the stores. */
  const Version: int := 6
  /** A heartbeat younger than this (in ms) means another session holds the store. */
  const LockWindow: int := 1000
  /** mDBactive rewrites the heartbeat this often (in ms). */
  const RefreshPeriod: int := 500
  /** The delay (in ms) of the open and delete timeouts. */
  const GuardDelay: int := 2000

  /** The value of `mDB`: 1 while opening, 2 while the database is being
      deleted, undefined once the session runs on live data only, and the
      connection once open. */
  datatype Db = Opening | Deleting | Disabled | Open(handle: nat)

  /** `if (mDB)`: every state but the disabled one is truthy. */
  predicate Live(db: Db)
  {
    !db.Disabled?
  }

  /** `if (mDB && mDB.close) mDB.close()`. */
  function Closing(db: Db): (r: seq<Effect>)
    ensures r != [] <==> db.Open?
    ensures forall e :: e in r ==> db.Open? && e == CloseDatabase(db.handle)
  {
    if db.Open? then [CloseDatabase(db.handle)] else []
  }

  /** A pending timeout that gives up the store if `mDB` is still where it
      was when the timeout was armed. */
  datatype Guard =
    | OpenGuard(due: int)              // mDBstart's 2000 ms timeout
    | DeleteGuard(due: int)            // mDBreload's 2000 ms timeout

  /** What a pending mDBcount('f') result is for: the choice in the open's
      onsuccess, or the check in mDBfetch. */
  datatype CountUse = Decide | FetchCheck

  /** The test at the top of mDBstart: another session holds the store when
      a heartbeat is stored and was written less than LockWindow ms ago. */
  function ShouldYield(heartbeat: Option<int>, now: int): (r: bool)
    ensures r <==> heartbeat.Some? && now - heartbeat.value < LockWindow
    ensures heartbeat.None? ==> !r
  {
    heartbeat.Some? && heartbeat.value + LockWindow > now
  }

  /** How onsuccess of the open continues (lines 98-122). */
  datatype OpenPath =
    | Upgrade     // stores written by an older layout: record mDBv and rebuild
    | BulkCheck   // nothing pending and a maxaction: count the nodes, maybe load
    | LiveFetch   // mDBfetch

  function OpenDecision(count: Option<int>, version: Option<int>, maxaction: bool): (p: OpenPath)
    ensures p == Upgrade <==> count.Some? && (version.None? || version.value < Version)
    ensures p == BulkCheck ==> count == Some(0) && maxaction && version.Some? && version.value >= Version
    ensures p == LiveFetch ==> count.None? || count.value != 0 || !maxaction
    ensures p == LiveFetch <==> !(count.Some? && (version.None? || version.value < Version)) && !(count == Some(0) && maxaction)
  {
    if count.Some? && (version.None? || version.value < Version) then Upgrade
    else if count == Some(0) && maxaction then BulkCheck
    else LiveFetch
  }

  /** Once mDBv has been recorded, no later open asks for an upgrade; with no
      counter stored (a first visit, or after mDBrestart) the open fetches
      live data. */
  lemma UpgradeOnce(count: Option<int>, maxaction: bool)
    ensures OpenDecision(count, Some(Version), maxaction) != Upgrade
    ensures OpenDecision(None, None, maxaction) == LiveFetch
  {
  }

  /** A heartbeat loop has at most one pending `setTimeout(mDBactive, 500,
      act)`; `loops` maps the token of each pending one to when it is due.
      Tokens are fresh, and the loop of the current token wrote the stored
      heartbeat one period before it is due again. */
  ghost predicate LockOk(act: Option<nat>, nextToken: nat, heartbeat: Option<int>, loops: map<nat, int>)
  {
    && (act.Some? ==> act.value < nextToken)
    && (forall k :: k in loops ==> k < nextToken)
    && (act.Some? && act.value in loops ==> heartbeat == Some(loops[act.value] - RefreshPeriod))
  }

  /** While the loop of the current token is pending, every session that
      starts before it is LockWindow - RefreshPeriod ms overdue yields, so
      two sessions never use the store together while the loop keeps up. */
  lemma LockHeld(act: Option<nat>, nextToken: nat, heartbeat: Option<int>, loops: map<nat, int>, now: int)
    requires LockOk(act, nextToken, heartbeat, loops) && act.Some? && act.value in loops
    requires loops[act.value] - RefreshPeriod <= now < loops[act.value] + LockWindow - RefreshPeriod
    ensures ShouldYield(heartbeat, now)
  {
  }

  /** At most one request is outstanding at a time, and counts and cursors
      only run over an open connection. */
  ghost predicate PhaseOk(db: Db, opening: bool, deleting: bool, counting: Option<CountUse>, pass: Option<Pass>)
  {
    && (opening ==> !deleting && counting.None? && pass.None?)
    && (deleting ==> counting.None? && pass.None?)
    && (counting.Some? ==> pass.None? && db.Open?)
    && (pass.Some? ==> db.Open?)
  }

  /** The open cursor's calls so far are the hydrations of what it
      delivered, in cursor order. */
  ghost predicate PassOk(pass: Option<Pass>, calls: seq<Effect>, seen: seq<Option<Record>>)
  {
    pass.Some? ==> calls == Hydrations(pass.value, seen)
  }

  /** One more cursor value keeps the open pass's trace in step. */
  lemma PassStep(pass: Option<Pass>, calls: seq<Effect>, seen: seq<Option<Record>>, v: Option<Record>)
    requires PassOk(pass, calls, seen) && pass.Some?
    ensures v.None? ==> PassOk(pass, calls, seen + [v])
    ensures v.Some? ==> PassOk(pass, calls + Hydrate(pass.value, v.value), seen + [v])
    ensures HasUndefined(seen + [v]) <==> HasUndefined(seen) || v.None?
  {
    HydrationsStep(pass.value, seen, v);
    if v.None? {
      assert Hydrations(pass.value, seen + [v]) == Hydrations(pass.value, seen) + [];
      assert Hydrations(pass.value, seen) + [] == Hydrations(pass.value, seen);
    }
  }

  class Session {
    var db: Db
    /** mDBact: the token of the heartbeat loop that may run (None: false). */
    var act: Option<nat>
    /** Where fresh tokens come from (Math.random() in the source). */
    var nextToken: nat
    /** mDBStartError: the previous open threw. */
    var startError: bool
    /** localStorage[u_handle + '_mDBactive']. */
    var heartbeat: Option<int>
    /** localStorage[u_handle + '_mDBv']. */
    var version: Option<int>
    /** Whether localStorage[u_handle + '_maxaction'] is set. */
    var maxaction: bool
    /** The passes of mDBloaded marked 1. */
    var loaded: set<Pass>
    /** The pending open and delete timeouts. */
    var guards: seq<Guard>
    /** The pending heartbeat timeouts, by token. */
    var loops: map<nat, int>
    var effects: seq<Effect>
    /** The open request has not reported success or error yet. */
    var opening: bool
    /** The deleteDatabase request of mDBreload has not reported yet. */
    var deleting: bool
    /** An mDBcount('f') request is outstanding, and what it is for. */
    var counting: Option<CountUse>
    /** The pass whose cursor mDBquery has open. */
    var pass: Option<Pass>
    /** `fr`: the open cursor met an undefined value. */
    var forced: bool
    /** M.d has an entry. */
    var hasNodes: bool
    /** Where fresh connection handles come from. */
    var nextHandle: nat
    /** The write-back queue, with the persisted counter. */
    const queue: Queue
    /** The values the open cursor has delivered. */
    ghost var seen: seq<Option<Record>>
    /** The hydration calls the open cursor has made. */
    ghost var calls: seq<Effect>

    /** The session's own invariant; the queue keeps its own (Queue.Valid). */
    ghost predicate Valid()
      reads this
    {
      && LockOk(act, nextToken, heartbeat, loops)
      && PhaseOk(db, opening, deleting, counting, pass)
      && PassOk(pass, calls, seen)
    }

    /** No request of the engine is outstanding. */
    predicate Idle()
      reads this
    {
      !opening && !deleting && counting.None? && pass.None?
    }

    twostate predicate LockKept()
      reads this
    {
      && act == old(act) && nextToken == old(nextToken) && heartbeat == old(heartbeat)
      && guards == old(guards) && loops == old(loops)
    }

    twostate predicate MetaKept()
      reads this
    {
      && version == old(version) && maxaction == old(maxaction) && startError == old(startError)
      && loaded == old(loaded) && hasNodes == old(hasNodes) && nextHandle == old(nextHandle)
    }

    /** A page load: the engine exists (`var mDB=1`), nothing is outstanding,
        and localStorage holds what an earlier visit left. */
    constructor(stored: Option<int>, heartbeat0: Option<int>, version0: Option<int>, maxaction0: bool, hasNodes0: bool)
      requires stored.Some? ==> stored.value >= 0
      ensures Valid() && queue.Valid() && Idle() && fresh(queue)
      ensures db == Opening && act.None? && !startError && loaded == {} && guards == [] && loops == map[] && effects == []
      ensures heartbeat == heartbeat0 && version == version0 && maxaction == maxaction0 && hasNodes == hasNodes0
      ensures queue.State() == Empty(stored)
    {
      db := Opening;
      act := None;
      nextToken := 0;
      startError := false;
      heartbeat := heartbeat0;
      version := version0;
      maxaction := maxaction0;
      loaded := {};
      guards := [];
      loops := map[];
      effects := [];
      opening := false;
      deleting := false;
      counting := None;
      pass := None;
      forced := false;
      hasNodes := hasNodes0;
      nextHandle := 0;
      queue := new Queue(stored);
      seen := [];
      calls := [];
    }

    // -------------------------------------------------------------------
    // The heartbeat lock and mDBstart

    /** mDBstart. When another session's heartbeat is fresh, give up the
        store and fetch live data. Otherwise take a fresh token, run its
        heartbeat loop, arm the open timeout and open the database. */
    method Start(now: int, openThrows: bool)
      requires Valid() && Idle()
      modifies this
      ensures Valid() && version == old(version) && maxaction == old(maxaction) && loaded == old(loaded)
      ensures hasNodes == old(hasNodes) && nextHandle == old(nextHandle)
      ensures ShouldYield(old(heartbeat), now) ==>
        && db == Disabled && effects == old(effects) + [LoadFm] && Idle()
        && LockKept() && startError == old(startError)
      ensures !ShouldYield(old(heartbeat), now) ==>
        && act == Some(old(nextToken)) && nextToken == old(nextToken) + 1
        && heartbeat == Some(now) && startError == openThrows
        && loops == old(loops)[old(nextToken) := now + RefreshPeriod]
        && OpenAttempted(old(db), old(effects), old(startError), old(guards) + [OpenGuard(now + GuardDelay)],
                         now, openThrows)
    {
      if ShouldYield(heartbeat, now) {
        db := Disabled;
        effects := effects + [LoadFm];
        return;
      }
      var token := nextToken;
      nextToken := nextToken + 1;
      act := Some(token);
      Beat(token, now);
      guards := guards + [OpenGuard(now + GuardDelay)];
      OpenAttempt(now, openThrows);
    }

    /** What OpenAttempt did, from the state before it. */
    predicate OpenAttempted(db0: Db, effects0: seq<Effect>, startError0: bool, guards0: seq<Guard>,
                            now: int, openThrows: bool)
      reads this
    {
      && (!openThrows ==>
            && db == db0 && opening && !deleting && counting.None? && pass.None?
            && effects == effects0 + [OpenDatabase] && guards == guards0)
      && (openThrows && !startError0 ==>
            && db == Deleting && deleting && !opening && counting.None? && pass.None?
            && effects == effects0 + Closing(db0) + [DeleteDatabase]
            && guards == guards0 + [DeleteGuard(now + GuardDelay)])
      && (openThrows && startError0 ==>
            && Idle() && db == (if Live(db0) then Disabled else db0)
            && effects == effects0 + (if Live(db0) then [LoadFm] else []) && guards == guards0)
    }

    /** The `try { indexedDB.open(..) } catch` of mDBstart: an open that
        throws is retried once through mDBreload, and a second one in a row
        gives up the store; one that does not throw leaves its request
        outstanding. */
    method OpenAttempt(now: int, openThrows: bool)
      requires Valid() && Idle()
      modifies this
      ensures version == old(version) && maxaction == old(maxaction) && loaded == old(loaded)
      ensures hasNodes == old(hasNodes) && nextHandle == old(nextHandle) && startError == openThrows
      ensures act == old(act) && nextToken == old(nextToken) && heartbeat == old(heartbeat) && loops == old(loops)
      ensures OpenAttempted(old(db), old(effects), old(startError), old(guards), now, openThrows)
      ensures Valid()
    {
      if openThrows {
        if !startError {
          startError := true;
          Reload(now);
        } else {
          Abandon();
        }
        return;
      }
      startError := false;
      effects := effects + [OpenDatabase];
      opening := true;
    }

    /** mDBactive(token): only while `token` is still mDBact, write the
        heartbeat and come back in RefreshPeriod ms. After a write, every
        session that starts within the next LockWindow ms yields. */
    method Beat(token: nat, now: int)
      requires Valid() && token < nextToken && token !in loops
      modifies this
      ensures Valid() && MetaKept() && act == old(act) && nextToken == old(nextToken)
      ensures db == old(db) && effects == old(effects) && guards == old(guards)
      ensures opening == old(opening) && deleting == old(deleting) && counting == old(counting) && pass == old(pass)
      ensures old(act) == Some(token) ==>
        && heartbeat == Some(now) && loops == old(loops)[token := now + RefreshPeriod]
        && forall later :: now <= later < now + LockWindow ==> ShouldYield(heartbeat, later)
      ensures old(act) != Some(token) ==> heartbeat == old(heartbeat) && loops == old(loops)
    {
      if act != Some(token) {
        return;
      }
      heartbeat := Some(now);
      loops := loops[token := now + RefreshPeriod];
    }

    /** An open or delete timeout comes due: it gives up the store only if
        `mDB` is still in the state that armed it. */
    method FireGuard(i: nat, now: int)
      requires Valid() && i < |guards| && now >= guards[i].due
      modifies this
      ensures Valid() && MetaKept() && act == old(act) && nextToken == old(nextToken)
      ensures heartbeat == old(heartbeat) && loops == old(loops)
      ensures opening == old(opening) && deleting == old(deleting) && counting == old(counting) && pass == old(pass)
      ensures guards == old(guards[..i] + guards[i + 1..])
      ensures old(guards[i]).OpenGuard? ==>
        if old(db) == Opening then db == Disabled && effects == old(effects) + [LoadFm]
        else db == old(db) && effects == old(effects)
      ensures old(guards[i]).DeleteGuard? ==>
        if old(db) == Deleting then db == Disabled && effects == old(effects) + [LoadFm]
        else db == old(db) && effects == old(effects)
    {
      var g := guards[i];
      guards := guards[..i] + guards[i + 1..];
      if (g.OpenGuard? && db == Opening) || (g.DeleteGuard? && db == Deleting) {
        db := Disabled;
        effects := effects + [LoadFm];
      }
    }

    /** A heartbeat timeout comes due: mDBactive runs with its token. */
    method FireLoop(token: nat, now: int)
      requires Valid() && token in loops && now >= loops[token]
      modifies this
      ensures Valid() && MetaKept() && act == old(act) && nextToken == old(nextToken)
      ensures db == old(db) && effects == old(effects) && guards == old(guards)
      ensures opening == old(opening) && deleting == old(deleting) && counting == old(counting) && pass == old(pass)
      ensures old(act) == Some(token) ==> heartbeat == Some(now) && loops == old(loops)[token := now + RefreshPeriod]
      ensures old(act) != Some(token) ==> heartbeat == old(heartbeat) && loops == old(loops) - {token}
    {
      loops := loops - {token};
      Beat(token, now);
      assert old(loops)[token := now + RefreshPeriod] == (old(loops) - {token})[token := now + RefreshPeriod];
    }

    /** rOnError and onblocked: unless the store was already given up, give
        it up and fetch live data. */
    method Abandon()
      requires Valid() && !deleting && counting.None? && pass.None?
      modifies this
      ensures Valid() && MetaKept() && LockKept() && opening == old(opening) && !deleting && counting.None? && pass.None?
      ensures Live(old(db)) ==> db == Disabled && effects == old(effects) + [LoadFm]
      ensures !Live(old(db)) ==> db == old(db) && effects == old(effects)
    {
      if Live(db) {
        db := Disabled;
        effects := effects + [LoadFm];
      }
    }

    // -------------------------------------------------------------------
    // The open request's callbacks

    /** onupgradeneeded: create the four stores with their key paths. */
    method OnUpgradeNeeded()
      requires Valid() && opening
      modifies this
      ensures Valid() && MetaKept() && LockKept() && db == old(db) && opening
      ensures effects == old(effects) + [CreateStore(NodesStore, "h"), CreateStore(OutKeysStore, "h"),
                                         CreateStore(SharesStore, "h_u"), CreateStore(UsersStore, "u")]
    {
      effects := effects + [CreateStore(NodesStore, "h"), CreateStore(OutKeysStore, "h"),
                            CreateStore(SharesStore, "h_u"), CreateStore(UsersStore, "u")];
    }

    /** onerror of the open request. */
    method OnOpenError()
      requires Valid() && opening
      modifies this
      ensures Valid() && Idle() && MetaKept() && LockKept()
      ensures Live(old(db)) ==> db == Disabled && effects == old(effects) + [LoadFm]
      ensures !Live(old(db)) ==> db == old(db) && effects == old(effects)
    {
      opening := false;
      Abandon();
    }

    /** onblocked of the open request: the request stays outstanding, but a
        success it reports later finds the store given up. */
    method OnOpenBlocked()
      requires Valid() && opening
      modifies this
      ensures Valid() && opening && MetaKept() && LockKept() && !Live(db)
      ensures effects == old(effects) + (if Live(old(db)) then [LoadFm] else [])
    {
      Abandon();
    }

    /** onsuccess of the open request. A late success, after the store was
        given up, changes nothing. Otherwise the connection is kept and the
        stored counter chooses how to go on (AfterOpen). */
    method OnOpenSuccess(now: int)
      requires Valid() && opening
      modifies this
      ensures Valid() && !opening && loaded == old(loaded) && hasNodes == old(hasNodes) && maxaction == old(maxaction)
      ensures startError == old(startError) && nextToken == old(nextToken) && heartbeat == old(heartbeat)
      ensures !Live(old(db)) ==> db == old(db) && effects == old(effects) && Idle() && LockKept() && MetaKept()
      ensures loops == old(loops)
      ensures Live(old(db)) ==>
        && nextHandle == old(nextHandle) + 1
        && OpenedAs(old(nextHandle), queue.pending, old(version), old(act), old(effects), old(guards), now)
    {
      opening := false;
      if !Live(db) {
        return;
      }
      db := Open(nextHandle);
      nextHandle := nextHandle + 1;
      AfterOpen(queue.pending, now);
    }

    /** What AfterOpen did over connection h, from the state before it. */
    predicate OpenedAs(h: nat, count: Option<int>, version0: Option<int>, act0: Option<nat>,
                       effects0: seq<Effect>, guards0: seq<Guard>, now: int)
      reads this
    {
      match OpenDecision(count, version0, maxaction)
      case Upgrade =>
        && version == Some(Version) && act.None? && db == Deleting && deleting
        && effects == effects0 + [CloseDatabase(h), DeleteDatabase]
        && guards == guards0 + [DeleteGuard(now + GuardDelay)]
      case BulkCheck =>
        && version == version0 && act == act0 && db == Open(h) && counting == Some(Decide)
        && effects == effects0 + [CountRecords(NodesStore)] && guards == guards0
      case LiveFetch =>
        && version == version0 && act == act0 && db == Open(h) && counting == Some(FetchCheck)
        && effects == effects0 + [CountRecords(NodesStore)] && guards == guards0
    }

    /** The rest of the open's onsuccess, given the stored counter: stores
        of an older layout with a counter are rebuilt after recording mDBv
        and stopping the heartbeat loop; a session with nothing pending and
        a maxaction counts the nodes to choose the bulk load; any other goes
        through mDBfetch. */
    method AfterOpen(count: Option<int>, now: int)
      requires Valid() && Idle() && db.Open?
      modifies this
      ensures Valid() && loaded == old(loaded) && hasNodes == old(hasNodes) && maxaction == old(maxaction)
      ensures startError == old(startError) && nextToken == old(nextToken) && heartbeat == old(heartbeat)
      ensures nextHandle == old(nextHandle) && !opening && loops == old(loops)
      ensures OpenedAs(old(db).handle, count, old(version), old(act), old(effects), old(guards), now)
    {
      if count.Some? && (version.None? || version.value < Version) {
        version := Some(Version);
        act := None;
        Reload(now);
        return;
      }
      if count == Some(0) && maxaction {
        counting := Some(Decide);
        effects := effects + [CountRecords(NodesStore)];
      } else {
        Fetch();
      }
    }

    // -------------------------------------------------------------------
    // mDBfetch and the node count

    /** mDBfetch: count the nodes store; the result decides. */
    method Fetch()
      requires Valid() && Idle() && db.Open?
      modifies this
      ensures Valid() && MetaKept() && LockKept() && db == old(db)
      ensures counting == Some(FetchCheck) && !opening && !deleting && pass.None?
      ensures effects == old(effects) + [CountRecords(NodesStore)]
    {
      counting := Some(FetchCheck);
      effects := effects + [CountRecords(NodesStore)];
    }

    /** onsuccess of mDBcount('f') with `c` records. For the choice after the
        open: an empty nodes store goes through mDBfetch, any other starts
        the bulk load with the first pass. For mDBfetch: an empty nodes store
        drops the counter and the queue and fetches everything live; any
        other rebuilds the store. */
    method OnCountResult(c: nat, now: int)
      requires Valid() && queue.Valid() && counting.Some?
      modifies this, queue
      ensures queue.Valid()
      ensures MetaKept() && act == old(act) && nextToken == old(nextToken) && heartbeat == old(heartbeat)
      ensures loops == old(loops)
      ensures !(old(counting) == Some(FetchCheck) && c != 0) ==> guards == old(guards)
      ensures old(counting) == Some(Decide) && c == 0 ==>
        && counting == Some(FetchCheck) && db == old(db) && effects == old(effects) + [CountRecords(NodesStore)]
        && queue.State() == old(queue.State())
      ensures old(counting) == Some(Decide) && c != 0 ==>
        && pass == Some(LoadOrder[0]) && counting.None? && !forced && db == old(db)
        && seen == [] && calls == []
        && effects == old(effects) + [OpenCursor(StoreOf(LoadOrder[0]))]
        && queue.State() == old(queue.State())
      ensures old(counting) == Some(FetchCheck) && c == 0 ==>
        && Idle() && db == old(db) && effects == old(effects) + [LoadFm]
        && queue.State() == Cleared(old(queue.State()))
      ensures old(counting) == Some(FetchCheck) && c != 0 ==>
        && db == Deleting && deleting && effects == old(effects) + Closing(old(db)) + [DeleteDatabase]
        && guards == old(guards) + [DeleteGuard(now + GuardDelay)]
        && queue.State() == old(queue.State())
      ensures Valid()
    {
      var use := counting.value;
      counting := None;
      match use
      case Decide =>
        if c == 0 {
          Fetch();
        } else {
          Query(LoadOrder[0]);
        }
      case FetchCheck =>
        if c == 0 {
          queue.Reset();
          effects := effects + [LoadFm];
        } else {
          Reload(now);
        }
    }

    /** onerror of mDBcount: mDBfetch again. */
    method OnCountError()
      requires Valid() && counting.Some?
      modifies this
      ensures Valid() && MetaKept() && LockKept() && db == old(db)
      ensures counting == Some(FetchCheck) && effects == old(effects) + [CountRecords(NodesStore)]
    {
      counting := None;
      Fetch();
    }

    // -------------------------------------------------------------------
    // The bulk load

    /** mDBquery(t): open a cursor over the store pass t reads. */
    method Query(t: Pass)
      requires Valid() && Idle() && db.Open?
      modifies this
      ensures Valid() && MetaKept() && LockKept() && db == old(db)
      ensures pass == Some(t) && !forced && counting.None? && !opening && !deleting
      ensures seen == [] && calls == [] && forced == HasUndefined(seen)
      ensures effects == old(effects) + [OpenCursor(StoreOf(t))]
    {
      effects := effects + [OpenCursor(StoreOf(t))];
      pass := Some(t);
      forced := false;
      seen := [];
      calls := [];
    }

    /** The cursor delivers a record whose value is `v` (None: reading it
        threw or gave undefined). An undefined value only sets `fr`; a
        defined one is handed to the pass's collaborator. The cursor goes on
        either way. */
    method OnCursorValue(v: Option<Record>)
      requires Valid() && pass.Some?
      modifies this
      ensures Valid() && LockKept() && pass == old(pass) && db == old(db)
      ensures loaded == old(loaded) && version == old(version) && maxaction == old(maxaction)
      ensures startError == old(startError) && nextHandle == old(nextHandle)
      ensures forced == (old(forced) || v.None?)
      ensures old(forced) == HasUndefined(old(seen)) ==> forced == HasUndefined(seen)
      ensures v.None? ==> effects == old(effects) && hasNodes == old(hasNodes) && calls == old(calls)
      ensures v.Some? ==> effects == old(effects) + Hydrate(old(pass).value, v.value)
      ensures v.Some? ==> calls == old(calls) + Hydrate(old(pass).value, v.value)
      ensures v.Some? ==> hasNodes == (old(hasNodes) || old(pass) == Some(Nodes))
      ensures seen == old(seen) + [v]
    {
      if v.None? {
        SkipUndefined();
      } else {
        Hydrated(v.value);
      }
    }

    /** `fr = true` for a value that reading threw on or found undefined. */
    method SkipUndefined()
      requires Valid() && pass.Some?
      modifies this
      ensures Valid() && LockKept() && MetaKept() && pass == old(pass) && db == old(db)
      ensures forced && effects == old(effects) && calls == old(calls) && seen == old(seen) + [None]
      ensures HasUndefined(seen)
    {
      forced := true;
      Trace(None);
    }

    /** A defined value goes to the pass's collaborator. */
    method Hydrated(r: Record)
      requires Valid() && pass.Some?
      modifies this
      ensures Valid() && LockKept() && pass == old(pass) && db == old(db) && forced == old(forced)
      ensures loaded == old(loaded) && version == old(version) && maxaction == old(maxaction)
      ensures startError == old(startError) && nextHandle == old(nextHandle)
      ensures effects == old(effects) + Hydrate(old(pass).value, r)
      ensures calls == old(calls) + Hydrate(old(pass).value, r)
      ensures hasNodes == (old(hasNodes) || old(pass) == Some(Nodes))
      ensures seen == old(seen) + [Some(r)]
      ensures old(forced) == HasUndefined(old(seen)) ==> forced == HasUndefined(seen)
    {
      var t := pass.value;
      effects := effects + Hydrate(t, r);
      if t == Nodes {
        hasNodes := true;
      }
      Trace(Some(r));
    }

    /** Extends the open pass's trace by one cursor value. */
    ghost method Trace(v: Option<Record>)
      requires pass.Some? && PassOk(pass, calls, seen)
      modifies this`calls, this`seen
      ensures PassOk(pass, calls, seen) && seen == old(seen) + [v]
      ensures HasUndefined(seen) <==> HasUndefined(old(seen)) || v.None?
      ensures v.None? ==> calls == old(calls)
      ensures v.Some? ==> calls == old(calls) + Hydrate(pass.value, v.value)
    {
      PassStep(pass, calls, seen, v);
      if v.Some? {
        calls := calls + Hydrate(pass.value, v.value);
      }
      seen := seen + [v];
    }

    /** The cursor is exhausted. A pass that met an undefined value rebuilds
        the store; otherwise the pass is marked loaded and the next unloaded
        one runs; after the last, a stored maxaction and a non-empty M.d
        lead to the incremental catch-up, and anything else to a rebuild. */
    method OnCursorEnd(now: int)
      requires Valid() && pass.Some?
      modifies this
      ensures version == old(version) && maxaction == old(maxaction) && hasNodes == old(hasNodes)
      ensures startError == old(startError) && nextHandle == old(nextHandle)
      ensures act == old(act) && nextToken == old(nextToken) && heartbeat == old(heartbeat) && Valid()
      ensures loops == old(loops) && old(effects) <= effects
      ensures old(calls) == Hydrations(old(pass).value, old(seen))
      ensures match AfterPass(old(pass).value, old(forced), old(loaded), maxaction, hasNodes)
        case ForcedReload =>
          && loaded == old(loaded) && db == Deleting && deleting
          && effects == old(effects) + Closing(old(db)) + [DeleteDatabase]
          && guards == old(guards) + [DeleteGuard(now + GuardDelay)]
        case Next(n) =>
          && loaded == old(loaded) + {old(pass).value} && pass == Some(n) && !forced
          && seen == [] && calls == []
          && effects == old(effects) + [OpenCursor(StoreOf(n))] && guards == old(guards)
        case Reload =>
          && loaded == old(loaded) + {old(pass).value} && db == Deleting && deleting
          && effects == old(effects) + Closing(old(db)) + [DeleteDatabase]
          && guards == old(guards) + [DeleteGuard(now + GuardDelay)]
        case CatchUp =>
          && loaded == old(loaded) + {old(pass).value} && Idle() && db == old(db)
          && effects == old(effects) + [GetSc] && guards == old(guards)
    {
      var t := pass.value;
      pass := None;
      if forced {
        Reload(now);
        return;
      }
      loaded := loaded + {t};
      var next := NextUnloaded(loaded);
      match next
      case Some(n) =>
        Query(n);
      case None =>
        if !maxaction || !hasNodes {
          Reload(now);
        } else {
          effects := effects + [GetSc];
        }
    }

    // -------------------------------------------------------------------
    // mDBreload and mDBrestart

    /** mDBreload: close the connection if there is one, mark the store as
        being deleted, arm the delete timeout and delete the database. */
    method Reload(now: int)
      requires Valid() && Idle()
      modifies this
      ensures Valid() && MetaKept() && act == old(act) && nextToken == old(nextToken) && heartbeat == old(heartbeat)
      ensures db == Deleting && deleting && !opening && counting.None? && pass.None?
      ensures effects == old(effects) + Closing(old(db)) + [DeleteDatabase]
      ensures guards == old(guards) + [DeleteGuard(now + GuardDelay)] && loops == old(loops)
    {
      effects := effects + Closing(db);
      db := Deleting;
      guards := guards + [DeleteGuard(now + GuardDelay)];
      effects := effects + [DeleteDatabase];
      deleting := true;
    }

    /** onsuccess and onerror of the delete request both run mDBrestart. */
    method OnDeleteDone(now: int, openThrows: bool)
      requires Valid() && queue.Valid() && deleting
      modifies this, queue
      ensures queue.Valid()
      ensures Valid()
      ensures !Live(old(db)) ==>
        && db == old(db) && effects == old(effects) && Idle() && LockKept() && MetaKept()
        && queue.State() == old(queue.State())
      ensures Live(old(db)) ==>
        && queue.State() == old(queue.State()).(pending := None) && !maxaction && loaded == {}
        && act == Some(old(nextToken) + 1) && nextToken == old(nextToken) + 2 && heartbeat == Some(now)
        && startError == openThrows && version == old(version) && hasNodes == old(hasNodes)
        && loops == old(loops)[old(nextToken) + 1 := now + RefreshPeriod]
        && OpenAttempted(Opening, old(effects), old(startError), old(guards) + [OpenGuard(now + GuardDelay)],
                         now, openThrows)
    {
      deleting := false;
      Restart(now, openThrows);
    }

    /** mDBrestart: unless the store was given up meanwhile, delete the
        pending counter, forget what the last load left (Unlock) and run
        mDBstart. With the heartbeat
        deleted, that start never yields. */
    method Restart(now: int, openThrows: bool)
      requires Valid() && queue.Valid() && Idle()
      modifies this, queue
      ensures queue.Valid()
      ensures Valid()
      ensures !Live(old(db)) ==>
        && db == old(db) && effects == old(effects) && Idle() && LockKept() && MetaKept()
        && queue.State() == old(queue.State())
      ensures Live(old(db)) ==>
        && queue.State() == old(queue.State()).(pending := None) && !maxaction && loaded == {}
        && act == Some(old(nextToken) + 1) && nextToken == old(nextToken) + 2 && heartbeat == Some(now)
        && startError == openThrows && version == old(version) && hasNodes == old(hasNodes)
        && loops == old(loops)[old(nextToken) + 1 := now + RefreshPeriod]
        && OpenAttempted(Opening, old(effects), old(startError), old(guards) + [OpenGuard(now + GuardDelay)],
                         now, openThrows)
    {
      if Live(db) {
        queue.ForgetCount();
        Unlock();
        Start(now, openThrows);
      }
    }

    /** The first half of mDBrestart, on the session: delete the maxaction
        and the heartbeat, take a fresh token (stopping the heartbeat loop),
        reset mDBloaded and mark the store as opening. */
    method Unlock()
      requires Valid() && Idle()
      modifies this
      ensures Valid() && Idle()
      ensures !maxaction && loaded == {} && heartbeat.None? && db == Opening
      ensures act == Some(old(nextToken)) && nextToken == old(nextToken) + 1
      ensures version == old(version) && startError == old(startError) && hasNodes == old(hasNodes)
      ensures nextHandle == old(nextHandle) && guards == old(guards) && loops == old(loops) && effects == old(effects)
    {
      maxaction := false;
      heartbeat := None;
      act := Some(nextToken);
      nextToken := nextToken + 1;
      loaded := {};
      db := Opening;
    }
  }
}
