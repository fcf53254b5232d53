# A verified model of the local cache engine of js/mDB.js

js/mDB.js keeps a copy of the account's file-manager state in the browser's
IndexedDB. The engine does four jobs:

- **Write-back queue.** It persists every node, share, user and key change
  through a write-back queue (`mDBadd`, `mDBdel`, `mDBaddQueue`, `mDBprocess`
  and the two request callbacks). The queue keeps at most one put or delete
  in flight at a time; the model proves this for every step, and the reset
  in `mDBfetch` as written breaks it (see Findings). The number of entries not yet committed is kept in
  `localStorage[u_handle + '_mDBcount']`.
- **Heartbeat lock.** It keeps two browser sessions from using the store
  together (`mDBactive` and the test at the top of `mDBstart`).
- **Lifecycle.** It moves the connection `mDB` through its life: opening,
  upgrading, deciding between a bulk load and a live fetch, rebuilding
  through `mDBreload`/`mDBrestart`, and giving up the store whenever
  something goes wrong.
- **Bulk loader.** It streams the stores into the in-memory model, one pass
  per key of `mDBloaded` (`mDBquery`).

The project has five modules:

- `Types` (types.dfy) holds the records and the store names, the queue
  entries (`Put`/`Delete`), and `Effect`. An `Effect` is one thing the engine
  asks of IndexedDB or of the rest of the application.
- `QueueSpec` (queue_spec.dfy) states the write-back queue on values. `QState`
  holds `mDBqueue`, its key order, `mDBi`, `mDBt.t`, the request in flight,
  the counter, and the traces of issued requests and opened transactions.
  The module has one step function per piece of source code. Its lemmas
  prove three things:
  - the invariants that keep `mDBprocess` from failing or spinning;
  - that every entry is issued once, in arrival order within its collection;
  - that the counter equals the uncommitted entries plus the failed commits.
  The module is generic over the collection name.
- `WriteQueue` (write_queue.dfy) has class `Queue`. It holds the same state
  as fields and updates it in place, as the source does. Every method is
  proved to move the state exactly as the step function does, and to keep
  the invariants. `mDBadd`'s cleanup of a record (`StripDerived`) is here.
- `Loader` (loader.dfy) states the bulk loader on values:
  - the passes and their order;
  - the store each pass reads;
  - the collaborator call each cursor value leads to;
  - what the end of a pass does next.
- `Lifecycle` (lifecycle.dfy) has class `Session`. It holds the state of `mDB`,
  the heartbeat lock, the pending timeouts, the persisted metadata and the
  running pass. It has one event method per timer and IndexedDB callback.
  The clock is a parameter. Every call into IndexedDB or the application is
  appended to `effects`.

## Model

| member | source | states |
|---|---|---|
| QueueSpec.EmptyInv | js/mDB.js:137-150 | A fresh page (empty `mDBqueue`, `mDBi`, `mDBt`, any non-negative stored counter) satisfies the queue invariant |
| QueueSpec.Without | js/mDB.js:187 | `delete mDBqueue[t]` removes exactly `t` from the key order and keeps the other keys distinct and in place |
| QueueSpec.Push | js/mDB.js:201-204 | The push of `mDBaddQueue`: count the entry and append it to its collection's array, creating the array and a last key when absent; its properties are `PushOk`, `PushScannable`, `PushPending` and `EnqueueTracks` |
| QueueSpec.Issue | js/mDB.js:160-190 | One request of `mDBprocess`: open a transaction unless the collection is active, issue the slot at the cursor, clear it, and drop a drained collection; its properties are `IssueFlight`, `IssueMidOk`, `IssueLastOk`, `IssuePending`, `IssueFifo` and `IssueOutstanding` |
| QueueSpec.Step | js/mDB.js:152-197 | `mDBprocess`: issue for the first collection with work, or reset `mDBt` and `mDBqueue`; its properties are `StepIssuesHead`, `StepInv`, `StepFifo` and `StepOutstanding` |
| QueueSpec.Enqueue | js/mDB.js:199-206 | `mDBaddQueue`: push, then step only when no collection is active; its properties are `EnqueueInv`, `EnqueueFifo`, `EnqueueTracks`, `EnqueueIdle` and `EnqueueBehindFlight` |
| QueueSpec.Settled | js/mDB.js:172-181 | A request callback's own update: nothing in flight, and a positive counter decremented on success only; `SettledOk` states it |
| QueueSpec.Complete | js/mDB.js:172-181 | A request callback: settle, then re-enter `mDBprocess`; its properties are `CompleteInv`, `CompleteFifo`, `CompleteProgress` and `CompleteTracks` |
| QueueSpec.ClearedAsWritten | js/mDB.js:21-23 | The reset of `mDBfetch` as written: counter deleted, `mDBt` and `mDBqueue` emptied, `mDBi` kept; `StaleCursorDropsEntry` and `ResetIssuesBesideFlight` show what follows |
| QueueSpec.Cleared | js/mDB.js:21-23 | The corrected reset: counter deleted, `mDBqueue` and `mDBi` emptied, `mDBt.t` kept for the request in flight; `ClearedInv`, `ClearedKeepsNextEntry` and `ResetsAgreeWhenIdle` state it |
| QueueSpec.FirstWithWork | js/mDB.js:155-158 | The collection `mDBprocess` works on is in the key order and has a slot at its cursor; when there is none, no collection has work |
| QueueSpec.FirstIsHead | js/mDB.js:155-158 | Between two steps, the first collection with work is the first key of `mDBqueue` |
| QueueSpec.SettledOk | js/mDB.js:172-181 | A request callback clears the request in flight, keeps the queue sound and moves no cursor |
| QueueSpec.PushOk | js/mDB.js:201-204 | Appending an entry keeps the queue sound and, while a collection is active, the whole invariant |
| QueueSpec.PushScannable | js/mDB.js:201-204 | After the push, `mDBprocess`'s loops neither fail nor spin, and no cursor moved |
| QueueSpec.StepIssuesHead | js/mDB.js:152-197 | With nothing in flight, `mDBprocess` issues the slot at the cursor of the first collection, in a new transaction unless that collection is active, and clears or drops the slot; with nothing waiting it resets `mDBt` and `mDBqueue` |
| QueueSpec.StepOnHead | js/mDB.js:155-190 | With a collection waiting, the step issues that collection's slot |
| QueueSpec.StepOnEmpty | js/mDB.js:194-196 | With nothing waiting, the step only resets `mDBt` and `mDBqueue` |
| QueueSpec.IssueMidOk | js/mDB.js:183-184 | Clearing a slot that is not the last and advancing the cursor keeps the queue sound and the key order |
| QueueSpec.IssueLastOk | js/mDB.js:183-189 | Clearing the last slot drops the collection from `mDBqueue`, `mDBi` and the key order, and keeps the queue sound |
| QueueSpec.DropHeadOk | js/mDB.js:187-188 | Removing the head collection from the key order, `mDBqueue` and `mDBi` together keeps the queue sound |
| QueueSpec.IssueFlight | js/mDB.js:160-171 | The issued request is the one in flight and the last issued, and its collection is the active one, in the last transaction opened |
| QueueSpec.StepInv | js/mDB.js:152-197 | `mDBprocess` with nothing in flight restores the single-flight invariant |
| QueueSpec.EnqueueInv | js/mDB.js:199-206 | `mDBaddQueue` keeps the single-flight invariant |
| QueueSpec.CompleteInv | js/mDB.js:172-181 | Both request callbacks keep the single-flight invariant |
| QueueSpec.PushPending | js/mDB.js:203-204 | The push appends the entry to its collection's waiting entries and leaves every other collection's waiting entries as they were |
| QueueSpec.IssuePending | js/mDB.js:167-184 | Issuing a slot appends its entry to the issued requests and takes it off the front of its collection's waiting entries; other collections are unchanged |
| QueueSpec.StepFifo | js/mDB.js:152-197 | A step keeps, per collection, issued followed by waiting equal to what arrived, in arrival order |
| QueueSpec.IssueFifo | js/mDB.js:160-190 | Issuing the head slot keeps issued followed by waiting equal to what arrived |
| QueueSpec.FifoAfterIssue | js/mDB.js:167-184 | Moving a collection's first waiting entry to the end of the issued requests keeps issued followed by waiting equal to what arrived, for every collection |
| QueueSpec.EnqueueFifo | js/mDB.js:199-206 | `mDBaddQueue` appends the entry to its collection's arrivals and keeps the per-collection order |
| QueueSpec.CompleteFifo | js/mDB.js:172-181 | The callbacks keep the per-collection order |
| QueueSpec.EnqueueTracks | js/mDB.js:201-202 | `mDBaddQueue` raises the counter by one, with an absent counter read as 0, and keeps it equal to the uncommitted entries plus failed commits |
| QueueSpec.StepOutstanding | js/mDB.js:152-197 | A step moves entries between waiting and in flight but never changes how many are outstanding, nor the counter |
| QueueSpec.IssueOutstanding | js/mDB.js:160-190 | Issuing the head slot turns one waiting entry into the request in flight |
| QueueSpec.IssueOthersWaiting | js/mDB.js:155-190 | Issuing the head slot leaves what waits in every other collection |
| QueueSpec.CompleteProgress | js/mDB.js:172-181 | Each callback lowers the number of outstanding entries by one, so a flush ends |
| QueueSpec.CompleteTracks | js/mDB.js:172-181 | A success decrements the counter, an error leaves it; the counter stays the uncommitted entries plus failed commits |
| QueueSpec.Drain | js/mDB.js:172-181 | Running the callbacks until nothing is in flight reaches a state that keeps the invariant |
| QueueSpec.DrainIssuesAll | js/mDB.js:152-206 | Once the flush has run, every arrived entry was issued exactly once, in arrival order within its collection, and the queue is empty and inactive |
| QueueSpec.EnqueueIdle | js/mDB.js:199-206 | `mDBaddQueue` on an idle queue issues the entry at once, in a new transaction, and leaves nothing waiting |
| QueueSpec.EnqueueWhileLastInFlight | js/mDB.js:160-205 | An entry queued behind the last request of its collection waits (`mDBt.t` is set); that request's callback issues it in the same transaction; the next callback issues nothing |
| QueueSpec.EnqueueBehindFlight | js/mDB.js:201-205 | With a request in flight and nothing waiting, `mDBaddQueue` only pushes: the entry is the single slot of its collection |
| QueueSpec.CompleteIssuesWaiting | js/mDB.js:172-190 | A callback with one waiting slot issues it, in the same transaction when its collection is active, and leaves nothing waiting |
| QueueSpec.CompleteIdle | js/mDB.js:172-196 | A callback with nothing waiting issues nothing and resets `mDBt` and `mDBqueue` |
| QueueSpec.SecondSlotIssued | js/mDB.js:183-185 | Two entries queued behind a collection's last request: the callback issues the first and leaves `mDBi[t]` at 1 |
| QueueSpec.SecondSlotStep | js/mDB.js:183-185 | With two slots of one collection waiting, the callback issues the first and moves the cursor to 1 |
| QueueSpec.StaleCursorReachable | js/mDB.js:199-206 | From an empty queue, three entries of one collection and one success reach a cursor of 1 |
| QueueSpec.StaleCursorDropsEntry | js/mDB.js:19-24 | The reset as written keeps `mDBi`: the next entry of that collection is never issued, and once the request in flight succeeds the counter reads 0 with nothing issued for it |
| QueueSpec.ResetIssuesBesideFlight | js/mDB.js:19-24 | The reset as written empties `mDBt` while a request is in flight: the next entry is issued at once in a new transaction, beside the outstanding request, and the invariant is broken |
| QueueSpec.ResetsAgreeWhenIdle | js/mDB.js:19-24 | With nothing in flight, the corrected reset and the reset as written give the same state |
| QueueSpec.ClearedInv | js/mDB.js:19-24 | The intended reset (counter, `mDBqueue` and `mDBi` cleared, `mDBt.t` kept for the request in flight) keeps the invariant and the per-collection order |
| QueueSpec.ClearedKeepsNextEntry | js/mDB.js:19-24 | After the intended reset, an entry queued while a request is in flight is issued by that request's callback |
| WriteQueue.StripDerived | js/mDB.js:139-146 | The stored record is the given one minus a truthy `key` and, outside contacts, a truthy `name` and `ar`; every other field is kept with its value |
| WriteQueue.StripIdempotent | js/mDB.js:142-144 | Stripping twice removes nothing more |
| WriteQueue.Queue.constructor | js/mDB.js:137-150 | A page load starts with the empty queue and the stored counter, sound, with an exact counter |
| WriteQueue.Queue.AddQueue | js/mDB.js:199-206 | The new state is `Enqueue` of the old one; the invariant holds, the entry joins the arrivals, and an exact counter stays exact |
| WriteQueue.Queue.PushEntry | js/mDB.js:201-204 | The new state is `Push` of the old one: counter raised, entry appended, new key added last |
| WriteQueue.Queue.Add | js/mDB.js:139-146 | `mDBadd` queues a put of the stripped record |
| WriteQueue.Queue.Del | js/mDB.js:208-211 | `mDBdel` queues a delete of the key |
| WriteQueue.Queue.Process | js/mDB.js:152-197 | The scan leaves the state as `Step` does: it issues the first collection's slot at its cursor, or resets when none has work |
| WriteQueue.Queue.IssueSlot | js/mDB.js:160-190 | The inner loop's body moves the state as `Issue` does |
| WriteQueue.Queue.ClearSlot | js/mDB.js:183-189 | The slot is cleared and the cursor advanced, or the drained collection leaves `mDBqueue`, `mDBi` and the key order; nothing else changes |
| WriteQueue.Queue.OnCommitSuccess | js/mDB.js:172-176 | The new state is `Complete(_, true)` of the old one; the invariant and an exact counter are kept |
| WriteQueue.Queue.OnCommitError | js/mDB.js:177-181 | The new state is `Complete(_, false)`; the failure is counted, so an exact counter stays exact |
| WriteQueue.Queue.Reset | js/mDB.js:19-23 | The new state is the intended reset, and the invariant holds over the requests issued so far; with nothing in flight the deleted counter is exact again (`excess` is 0) |
| WriteQueue.Queue.ForgetCount | js/mDB.js:328 | Only the counter is deleted; the invariant holds, and when nothing is outstanding the deleted counter is exact (`excess` is 0) |
| WriteQueue.EnqueueKeeps | js/mDB.js:199-206 | `mDBaddQueue` keeps the invariant, extends the arrivals and keeps an exact counter exact |
| WriteQueue.CompleteKeeps | js/mDB.js:172-181 | A callback keeps the invariant and the arrivals, and keeps an exact counter exact, counting a failure |
| WriteQueue.IssueWithCursor | js/mDB.js:157 | `if (!mDBi[t]) mDBi[t]=0` does not change which slot is issued nor the state after it |
| WriteQueue.NoneWithWork | js/mDB.js:155-158 | When no key's cursor is below its length, the scan finds no collection |
| Loader.Pass.Index | js/mDB.js:340 | Every pass has a position in the order of `mDBloaded` |
| Loader.Key | js/mDB.js:340 | Every pass but `f_sk` is named after the store it reads |
| Loader.EveryPassLoads | js/mDB.js:340 | `mDBloaded` has a key for every pass |
| Loader.StoreOf | js/mDB.js:230-232 | The `f_sk` pass reads the nodes store; every other pass reads its own store |
| Loader.Hydrate | js/mDB.js:246-255 | A defined value leads to exactly one call of its pass's collaborator with that value, except that the share-key pass calls only for a node with a truthy `sk` |
| Loader.Hydrations | js/mDB.js:233-257 | A pass's calls are all its own collaborator's, in cursor order: exactly one per defined value outside the share-key pass, at most one per defined value in it, none for an undefined one |
| Loader.HydrationsStep | js/mDB.js:233-257 | One more cursor value appends its call, and some value was undefined exactly when one was before or this one is; the cursor events use it to keep `fr` equal to that |
| Loader.NodePassAddsEachNode | js/mDB.js:248 | Every defined value of the nodes pass reaches `M.addNode` |
| Loader.FirstUnloaded | js/mDB.js:267-274 | The next pass is an unloaded key, or every key is loaded |
| Loader.NextUnloaded | js/mDB.js:267-274 | The next pass is not loaded; when none is next, every pass is loaded |
| Loader.LoadsInOrder | js/mDB.js:266-274 | Starting from nothing loaded, passes run in the order ok, u, f_sk, f, s, and none follows s |
| Loader.AfterPass | js/mDB.js:258-283 | A pass that met an undefined value forces a reload; otherwise the next unloaded pass runs; after the last, a stored maxaction and a non-empty `M.d` lead to catch-up, and anything else to a reload |
| Lifecycle.Live | js/mDB.js:42 | `if (mDB)`: every state of `mDB` but the given-up one is truthy |
| Lifecycle.Closing | js/mDB.js:301 | `if (mDB && mDB.close) mDB.close()`: exactly an open connection is closed, and nothing else is asked of IndexedDB |
| Lifecycle.ShouldYield | js/mDB.js:48 | A session yields exactly when a heartbeat is stored and is less than 1000 ms old |
| Lifecycle.OpenDecision | js/mDB.js:98-123 | A stored counter with an absent or older layout version forces a rebuild; a zero counter with a maxaction checks the nodes count; anything else fetches |
| Lifecycle.UpgradeOnce | js/mDB.js:98-107 | After mDBv is recorded no open asks for an upgrade; with no counter the open fetches live data |
| Lifecycle.LockHeld | js/mDB.js:30-35 | While the current loop's timeout is pending, any session starting before it is 500 ms overdue yields |
| Lifecycle.PassStep | js/mDB.js:233-257 | One more cursor value keeps the pass's calls equal to the hydrations of what it visited |
| Lifecycle.Session.constructor | js/mDB.js:6-12 | A page load: `mDB` is 1, nothing outstanding, no timers, and the stored metadata as found |
| Lifecycle.Session.Start | js/mDB.js:37-83 | A fresh heartbeat gives up the store and fetches live data; otherwise a fresh token runs its heartbeat loop, the open timeout is armed and the open is attempted |
| Lifecycle.Session.OpenAttempt | js/mDB.js:71-83 | An open that throws is retried once through `mDBreload`, and gives up the store when it throws again; otherwise the open request is outstanding |
| Lifecycle.Session.Beat | js/mDB.js:30-35 | Only the current token writes the heartbeat and reschedules; after a write every session starting in the next 1000 ms yields |
| Lifecycle.Session.FireGuard | js/mDB.js:61-69 | The open or delete timeout gives up the store only when `mDB` is still 1 or 2 respectively |
| Lifecycle.Session.FireLoop | js/mDB.js:34 | A due heartbeat timeout runs `mDBactive` with its token |
| Lifecycle.Session.Abandon | js/mDB.js:39-47 | Unless already given up, the store is given up and live data fetched |
| Lifecycle.Session.OnUpgradeNeeded | js/mDB.js:126-134 | The four stores are created with their key paths |
| Lifecycle.Session.OnOpenError | js/mDB.js:84 | The open error gives up the store |
| Lifecycle.Session.OnOpenBlocked | js/mDB.js:85-93 | A blocked open gives up the store |
| Lifecycle.Session.OnOpenSuccess | js/mDB.js:94-97 | A late success changes nothing; otherwise the connection is kept and the stored counter chooses how to go on |
| Lifecycle.Session.AfterOpen | js/mDB.js:98-123 | Rebuild after recording mDBv and stopping the heartbeat loop, count the nodes for the bulk-load choice, or `mDBfetch`, as `OpenDecision` says |
| Lifecycle.Session.Fetch | js/mDB.js:14-17 | `mDBfetch` counts the nodes store |
| Lifecycle.Session.OnCountResult | js/mDB.js:17-27 | For the open's choice, an empty nodes store fetches and any other starts the bulk load with an empty trace; for `mDBfetch`, an empty one applies the corrected reset to the queue (see Findings) and loads live, any other rebuilds |
| Lifecycle.Session.OnCountError | js/mDB.js:221-224 | A failed count runs `mDBfetch` again |
| Lifecycle.Session.Query | js/mDB.js:227-233 | A cursor opens over the pass's store, with `fr` cleared and nothing visited or called yet |
| Lifecycle.Session.OnCursorValue | js/mDB.js:235-256 | An undefined value sets `fr`; a defined one makes its pass's call; the trace grows by the value, and `fr` stays set exactly when some visited value was undefined |
| Lifecycle.Session.SkipUndefined | js/mDB.js:240-246 | An unreadable or undefined value sets `fr` and calls nothing; the visited values now include an undefined one |
| Lifecycle.Session.Hydrated | js/mDB.js:247-255 | A defined value makes its pass's call, leaves `fr` matching whether a visited value was undefined, and marks `M.d` non-empty on the nodes pass |
| Lifecycle.Session.OnCursorEnd | js/mDB.js:258-283 | The calls made were the pass's hydrations; what follows is what `AfterPass` says: reload, next pass (opened with an empty trace), reload or catch-up; both reloads arm the delete timeout, the other cases leave the timeouts alone |
| Lifecycle.Session.Reload | js/mDB.js:299-312 | The open connection is closed, `mDB` becomes 2, the delete timeout is armed and the database deleted |
| Lifecycle.Session.OnDeleteDone | js/mDB.js:313-321 | Either answer of the delete runs `mDBrestart`: unless the store was given up, the counter and maxaction are dropped, a fresh token beats, the open timeout is armed and the open attempted; otherwise nothing else changes |
| Lifecycle.Session.Restart | js/mDB.js:324-338 | Unless the store was given up, the counter, maxaction and heartbeat are deleted, `mDBloaded` reset and `mDBstart` run, which then never yields |
| Lifecycle.Session.Unlock | js/mDB.js:326-335 | Maxaction and heartbeat deleted, a fresh token stops the heartbeat loop, nothing loaded, `mDB` is 1 |

## Left out

- js/megaPromise.js and js/emailchange.js are not part of this model. The engine does not depend on them.
- IndexedDB, localStorage and `setTimeout` are not run. Requests become `Effect` values, their answers become event methods, and timers are the `guards` and `loops` fields. The clock is the `now` parameter.
- Logging (`d`, `console`), `Qt` timing and `loadingDialog` are left out. They do not affect state.
- `mDBclear` is left out. It is not called from the engine.
- `mDBcount` is modelled by its callers only. Its request is `CountRecords`, and its answers are `OnCountResult` and `OnCountError`.
- The collaborators (`loadfm`, `getsc`, `process_ok`, `M.addNode`, `M.addUser`, `M.nodeShare`, `crypto_process_sharekey`) become effects. Their own behaviour is not modelled.
- `Math.random()` tokens are modelled by a counter that never repeats. The source relies on random values not colliding.
- Floating-point time and `parseInt` of stored strings are modelled as integers.
- WriteQueue.StripDerived: returns a new map, whereas the source deletes fields from the caller's object. The aliasing of the caller's record is not modelled.
- WriteQueue.Queue.Del: requires a store name, as AddQueue does, and a non-empty key. With an empty id neither branch of lines 169-170 creates a request, and line 172 then throws; that failure is not modelled.
- WriteQueue.Queue.Process: the source's inner `while` is a single `if`. The queue invariant makes its body run at most once, and a falsy slot at the cursor (which would spin) cannot occur.
- The queue is modelled as a write-back queue over any connection. `mDB.transaction` failing on a closed or absent connection is not modelled.
- Lifecycle.Session.Start: requires that no request of the engine is outstanding. A second `mDBstart` racing an open is not modelled.
- Lifecycle.Session.OnCursorValue: requires a running pass. Cursor and count answers arriving after the connection was replaced are not modelled.
- Lifecycle.Session.OnOpenSuccess: a success that arrives after the store was given up is modelled as the source's early return. A success for an earlier, abandoned request is not told apart.
- WriteQueue.Queue.Reset: applies the corrected reset (`mDBi` emptied, `mDBt.t` kept) instead of lines 21-23 as written. The two agree whenever nothing is in flight (`ResetsAgreeWhenIdle`); the reset as written is `ClearedAsWritten`, and Findings says what it does.
- Lifecycle.Session.OnCountResult: on an empty nodes store for `mDBfetch`, the queue takes the corrected reset of `WriteQueue.Queue.Reset`, not lines 21-23 as written. The two agree whenever nothing is in flight.
- WriteQueue.Queue.AddQueue: requires a store name for the collection, as every caller in the source passes. An empty name would read as no collection active at line 205; that case is not modelled.
- WriteQueue.Queue.Add: requires a store name for the collection, as AddQueue does.
- Lifecycle.Session.Hydrated: marks `M.d` non-empty after any defined value of the nodes pass. This assumes `M.addNode` always adds the node to `M.d`; that is the collaborator's behaviour, which is not modelled.
- QueueSpec.Tracks: the counter equals the uncommitted entries only while no commit has failed. Each failure leaves it one higher. The ghost field `excess` counts those failures plus what the counter held at page load. After a reset taken while a request is in flight the deleted counter reads one below the outstanding entries, so the counter is not shown exact again on that path.
- Passes are an enumeration, not the string keys of `mDBloaded`. Collections are strings in `WriteQueue` and a type parameter in `QueueSpec`.
- The calls of the running pass are also kept as a ghost trace (`calls`). This separates them from the other effects the session records.

### Behaviour of the code worth noting

- The yield test (line 48) looks only at the age of the stored heartbeat, not at whose token wrote it.
- After a successful open, the choice depends on the counter being stored and equal to 0 and a maxaction being stored. It then counts the nodes: an empty store goes through `mDBfetch`, any other starts the bulk load. Every other case goes through `mDBfetch`, which deletes the counter and loads live when the nodes store is empty, and otherwise rebuilds (lines 14-27, 107-123).
- `mDBrestart` deletes the counter, the maxaction and the heartbeat, but not the recorded layout version `mDBv` (lines 328-330).
- `mDBadd` strips fields by the record's `p` field (contacts keep `name` and `ar`), in every collection it is given. A truthy `key` is stripped in every record (lines 142-144).
- A failed commit does not decrement the counter, so the counter exceeds the uncommitted entries by the failures (line 174).

## Findings

| source | as written | input that shows it | evidently intended | confidence | as-written member | corrected member |
|---|---|---|---|---|---|---|
| js/mDB.js:19-24 | mDBfetch's reset clears `mDBt` and `mDBqueue` but keeps `mDBi` | Queue three entries `a`, `b`, `c` of collection `t` on an empty queue, complete the first request (cursor of `t` is 1, `b` in flight), run the reset, then queue `d` in `t`: `mDBprocess` sees cursor 1 and length 1, issues nothing and drops `d`; when `b` succeeds the counter reads 0, with `d` never written | The reset also clears `mDBi`, so `d` is issued | not executed; whether a write is queued before the startup count answers is not shown | QueueSpec.StaleCursorDropsEntry | QueueSpec.ClearedKeepsNextEntry |
| js/mDB.js:22 | mDBfetch's reset sets `mDBt = {}` even while a request is in flight | With one request in flight and nothing waiting, run the reset, then queue `e` in `t`: `!mDBt.t` holds, so `mDBprocess` issues `e` in a new transaction while the first request's callback is still pending, and two requests are outstanding | `mDBt.t` stays set until the outstanding request's callback runs, so at most one request is in flight and `e` is issued by that callback | not executed; low, since IndexedDB accepts two outstanding requests and only the single-flight discipline is lost | QueueSpec.ResetIssuesBesideFlight | QueueSpec.ClearedInv |
