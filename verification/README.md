# slock: a verified model of the lock engine

slock is a lock server. Clients ask for a lock on a key under a lock id, with a timeout (how long to wait), an expiry
(how long to hold), a count (how many holders the key may have) and a re-entry count. This project models the hard part
of the server in Dafny and proves what it is meant to keep:

- **The lock engine.** `KeySpec` is a reference machine for one key: an ordered list of holds, an index, an ordered list
  of waiters; one function for each critical section. `Runs` lets any number of keys take any interleaving of critical
  sections, together with the pools of command records, and proves the laws of whole runs: every request is answered
  exactly once, every hold is ended exactly once, counters and records are conserved. `HoldLaws` says in numbers what a
  request gets, and `Accounts` that what a client can add up from requests and replies is what the server has.
  `Policies` proves capacity from both sides, reader/writer exclusion, no overtaking and complete wake-ups.
- **The plain machine.** `PlainMachine` is a key as clients may think of it, with rules of its own: a row with one entry
  for every time the key is locked, and a row of waiters; no depths, no index, no lookups but searches. `PlainLevels`
  and `PlainSpec` prove that the reference machine answers like it, and exactly when it does not.
- **The lock manager as the program has it**: one promoted current lock, a queue of the other holders that is cleaned
  lazily, a map index, a lazily cleaned queue of waiters, reference counts and recycled lock objects. `ManagerModel` and
  `EngineModel` say on values what each operation does, `ManagerProofs` and `EngineProofs` prove that this is what the
  reference machine does, `EngineRuns` carries it over whole runs, `EngineLaws` states the laws of whole runs of the
  manager itself, `EngineTwins` has a run after which it no longer answers as the plain machine, and `Engine` has the
  classes `LockManager` and `LockDB`, whose methods update shared lock objects in place and are proved against those
  functions.
- **The timers** (`TimerModel`, `TimerProofs`, `TimerRuns`, `TimerWheel`): a wheel of 16 slots with re-insertion, the
  exact-deadline map behind it, batches, and deadlines that change on the way. No lock comes up early, late or twice,
  for any clock, but for two kinds of changes (`TimerLimits`). `TimedKey` joins a key with the timers: how long a hold
  or a waiter stays, from the request to the batch that ends it.
- **The chunked deque** (`QueueModel`, `QueueProofs`, `QueueCompaction`, `LockQueue`): nodes of doubling size in
  separate arrays, two cursors with cached nodes, recycling, compaction in place. It behaves as a plain sequence.
- **The long-wait queues**: locks addressed by a packed (node, slot) index. `LongWaitModel` and `LongWait` have one
  queue, as a value and in place; `LongLocks` and `LongRuns` have all queues of a shard under their deadlines, with
  locks that carry deadline and index, and connect each operation with the timers; `LongTimers` does so for whole runs;
  `LongDrift` is a run that ends in an index out of range.
- **The key index** (`KeyIndex`): a fast entry and a counter for each hash slot, backed by a map.
- **The text protocol** (`RespModel`, `RespProofs`, `RespRoundTrip`, `RespChunks`, `RespMessages`, `Wire`,
  `TextParser`): the incremental parsers of both sides against the printers of both sides, and both against the bytes on
  the wire. The format is that of the Redis serialization protocol (RESP2), sections "Arrays", "Bulk strings", "Simple
  strings" and "Simple errors".
- **The pools of command records**: `CommandPool` has the lists of one connection and the shared one, `ServerPools` all
  connections, whose lists together are the pool of the database in `Runs`.

A critical section is one step; the statistics that the program updates right after it gives the mutex back belong to
the step. The identity of a request is that of the pooled command record that carries it. Counters and clocks are
unbounded numbers; results that the program cuts to 16 bits are cut.

## What the code does not keep

Places where the code does not do what one would expect. The model follows the code.

- Unlocking a hold that sits in a long expiry queue, is not the current lock, has reached the front of the queue of
  holds and is in no other structure recycles its lock object twice (server/db.go:1584, server/db.go:1636).
  `UnlockRefines` proves exactly when, and `DoubleFreeReached` gives a run that gets there. That unlock is still
  answered as it should be, but afterwards the free list has a lock twice: the laws of runs of the manager
  (`RunRefines`, `ReferenceCounts`, `RecycledIffUnused`, `ManagerPlainIff`, `ManagerIsPlain`, `ManagerTwins`,
  `ExactlyOnce`, `EngineIsLegal`, `EngineCapacity`) are about runs without such an unlock, that is, about every run up
  to the first one.
- Two waiting requests with the same lock id can leave a hold that cannot be unlocked by id (server/lock.go:64). The
  manager answers as the plain machine exactly as long as the index names the first hold of every lock id:
  `ManagerPlainIff` for the manager, `PlainIff` and `FindIffFirst` for the reference machine. Distinct waiting ids are
  enough (`ManagerIsPlain`, `PlainRefinement`). Where it does not hold, `UnlockTells` and `TwoUnlocksTell` say how a
  client sees it; `ManagerTwins` gives a run of the manager, and `TwinsReached` one of the reference machine.
- When a chunk completes an argument that began in an earlier chunk, the parser stores the missing length instead of the
  total (server/protocol.go:970). `ChunkedRoundTrip` and `ChunkedReplies` prove exactly which chunkings are read
  correctly, and `SplitReached` gives one that is not.
- Empty arguments are not stored (server/protocol.go:951-972). `ArrayRead` says what is read instead.
- The client reads each byte of a message as a code point (client/protocol.go:281). `MessageIff` proves exactly which
  messages survive, whatever the chunks.
- The compaction of a long-wait queue does not lower its node count (server/db.go:430-434). `NodeIndexDrift` proves,
  from the state before it, exactly when the count becomes wrong. The count is used when the queue is given up, and
  `DrainGood` and `CompactGood` prove exactly when that indexes out of range (server/queue.go:171-173); `DriftReached`
  and `ResetOutOfRange` give runs that get there.
- A hold whose time is cut while its lock is in a slot of the wheel is looked at no earlier (server/db.go:1401,
  server/db.go:1236-1244), so that it may go on past its new deadline. `RenewedExpires` proves until when, and
  `CutTooLate` gives a run. A hold that is renewed while its lock is in a batch is ended by that batch all the same
  (server/db.go:1273-1291): `RenewedTooLate` and `DoomedComesUp` prove it, and `DoomedReached` gives a run.

With an update of a held lock outside the long queue, timeout and timeout flag change places (server/db.go:1401); the
model does the same and claims nothing about these two fields.

## Model

| member | source | states |
|---|---|---|
| KeyProofs.StepConserves | server/db.go:1454-1507 | for every record: owned after a step plus returned equals owned before plus submitted, for every kind of critical section |
| KeyProofs.StepKeeps | server/db.go:1348-1753 | every critical section keeps: depths in 1..0xff, the index points at a later hold with that id, waiters imply the waited flag, no record owned twice |
| KeyProofs.StepCounts | server/db.go:1409-1497 | every step moves LockedCount with the sum of depths and WaitCount with the waiters, and grants balance releases, expiries, holds and zero-expiry grants |
| Runs.CommandOwnership | server/protocol.go:806-865 | in every run a record owned by a hold or waiter is in no pool and in no connection's hands, belongs to one key, and no record is pooled twice |
| Runs.Conservation | server/db.go:1289-1311 | in every run LockedCount is the sum of depths, WaitCount the number of waiters, and LockCount = UnLockCount + ExpriedCount + LockedCount + zero-expiry grants |
| Runs.AnsweredOnce | server/db.go:1152-1180 | under every interleaving a request has been answered as often as it was submitted, unless it waits right now |
| Runs.WaiterAnswer | server/db.go:1152-1180 | a step that does not submit a request answers it exactly if the request stops waiting in it, and then with SUCCED from a wake-up or with TIMEOUT from its timer |
| Runs.WaitersSettled | server/db.go:1152-1180 | under every interleaving a request that was queued has got exactly one of SUCCED from a wake-up and TIMEOUT from its timer, unless it waits right now |
| Runs.EndedOnce | server/db.go:1273-1305 | under every interleaving a hold has been ended as often as granted, unless held right now: by an unlock answered SUCCED with no level left, or by a notice EXPRIED, never both |
| Runs.Reachable | server/db.go:1348-1753 | all reachable databases satisfy the invariant: every key well formed, every record in one place, counters exact |
| Policies.Capacity | server/db.go:1667-1683 | if all requests on a key carry Count = n, it never has more than min(n + 1, 0xffff) holds, whatever re-entries, updates, expiries and wake-ups happen |
| Policies.ReaderWriterExclusion | client/rwlock.go:23-56 | with Counts 0 and 0xffff and fixed roles, every reachable state has one hold or only readers |
| Policies.NoOvertaking | server/db.go:1447-1455 | as long as a request waits, no request that was not ahead of it is let in over any stretch of a run; only re-entry may pass |
| Policies.AdmitsOldest | server/db.go:1685-1708 | while somebody waits, only the oldest waiter is let in, and by a wake-up |
| Policies.WakeUpComplete | server/db.go:1685-1708 | the wake-up loop answers the oldest waiters in order, at most one grant each, and stops only with nobody waiting and the flag cleared, or with the levels held at 65535 or above the Count of the first hold or of the oldest waiter |
| Policies.GrantedIff | server/db.go:1667-1683 | in every legal run in which all requests on a key carry Count = n: with nobody waiting and the key open, a request of an id without a hold is answered SUCCED if and only if the levels held are none, or at most n and not 65535; otherwise it waits or is answered TIMEOUT |
| HoldLaws.UnlockTakes | server/db.go:1510-1665 | an unlock is answered SUCCED if and only if it is about a hold; it takes one level if RCOUNT is not 0 and another is left, otherwise all; the reply counts the levels left, the counters move by the levels taken, no other hold changes |
| HoldLaws.GrantIff | server/db.go:1454-1506 | for any counts: a request of an id without a hold is let in if and only if nobody waits and the levels held are none, or at most both counts and not 65535; otherwise it waits or is answered TIMEOUT |
| HoldLaws.WakeIff | server/db.go:1685-1753 | the oldest waiter is let in if and only if there is that room |
| HoldLaws.ReentryIff | server/db.go:1409-1449 | an id that holds re-enters if and only if its depth is below 255 and at most RCOUNT and there is an expiry time; otherwise LOCKED_ERROR or EXPRIED, and nothing changes |
| HoldLaws.ShownFirst | server/db.go:1372-1385 | a request that only asks is told UNOWN_ERROR with the levels held and the terms of the first hold, and changes nothing |
| HoldLaws.UpdateNotice | server/db.go:1389-1449 | an update gives its hold the new terms and is answered LOCKED_ERROR |
| HoldLaws.LockDeadline | server/lock.go:37-42 | with times in seconds, a request at `now` that gets, renews or re-enters a hold leaves the deadline `now` + expiry + 1, a queued one `now` + timeout + 1, and all others as they were |
| HoldLaws.WakeDeadline | server/db.go:1717-1724 | a waiter let in at `now` gets the deadline `now` + expiry + 1 |
| HoldLaws.OtherDeadlines | server/lock.go:143-149 | the deadlines of times that never end or are in milliseconds |
| HoldLaws.ExpiryNotice | server/db.go:1273-1311 | a hold that the timer ends is told EXPRIED, with the sum of the remaining levels and none of its own, and loses all its levels; a request that holds nothing is told nothing |
| HoldLaws.TimeoutNotice | server/db.go:1152-1180 | a waiter that the timer ends is told TIMEOUT, nothing that is held changes, and the key is open again if nobody else waits |
| Accounts.AccountsAreRight | server/db.go:1348-1753 | over every run, an account kept from requests, their times and replies alone (waits until, holds how deep, on what terms, until) is what the key has: depth is grants and re-entries less unlocks, deadlines are those of the last grant or renewal |
| PlainSpec.SameStep | server/db.go:1348-1753 | every request, timeout, expiry and wake-up gives the reply with its counts, the returned records, the counters and the state of the plain machine, which has rules of its own, as long as the index names first holds |
| PlainSpec.FindIffFirst | server/lock.go:117-127 | the lookups of the reference machine are searches through the list of holds if and only if the index names the first hold of every id |
| PlainSpec.PlainIff | server/lock.go:36-127 | the reference machine answers as the plain machine, all along any run and to any unlock in any state of it, if and only if the index names first holds in every state |
| PlainSpec.PlainRefinement | server/lock.go:36-127 | over every run with distinct waiting ids, the replies (code, lcount, lrcount) of the reference machine are those of the plain machine |
| PlainSpec.UnlockTells | server/lock.go:117-127 | in a state where the index misses a first hold, an unlock of its id ends another hold or is refused, unlike with the plain machine |
| PlainSpec.TwoUnlocksTell | server/lock.go:97-115 | there the replies alone differ after two unlocks of that id at the latest |
| EngineLaws.ManagerPlainIff | server/lock.go:36-127 | the manager with its lazily cleaned queues answers as the plain machine, all along any run and to any unlock in any state of it, if and only if its index names first holds in every state (runs up to a double recycling) |
| EngineLaws.ManagerIsPlain | server/db.go:1348-1753 | from a new manager, with distinct waiting ids, every lock, unlock, timeout, expiry and wake-up is answered as by the plain machine (runs up to a double recycling) |
| EngineTwins.ManagerTwins | server/db.go:1685-1753 | a run of a new manager with two waiting requests of one id, after which its index misses a hold and it does not answer as the plain machine |
| EngineLaws.ExactlyOnce | server/db.go:239-316 | in every run of the manager, with stale locks in timers and collected batches, requests are answered exactly once, those that were queued with exactly one of SUCCED from a wake-up and TIMEOUT from their timer, and holds are ended exactly once, by an unlock answered SUCCED or a notice EXPRIED (runs up to a double recycling) |
| EngineLaws.WaiterAnswer | server/db.go:1152-1180 | a step of the manager that does not submit a request answers it exactly if it stops waiting, with SUCCED from a wake-up or TIMEOUT from its timer |
| EngineLaws.EngineIsLegal | server/db.go:1348-1753 | every run of the manager is a legal run of the database with the same key and counters, so that the laws of legal runs hold of it (runs up to a double recycling) |
| EngineLaws.EngineCapacity | server/db.go:1667-1683 | with Count = n in all requests the manager never has more than min(n + 1, 0xffff) live holds (runs up to a double recycling) |
| PlainSpec.StepFaithful | server/lock.go:58-94 | as long as waiting ids stay distinct, the index finds exactly the holds behind the first one |
| PlainSpec.TwinsReached | server/db.go:1685-1708 | a run with two waiting requests of one id reaches two holds of that id with one index entry |
| PlainSpec.TwinsDiffer | server/lock.go:117-127 | in that state the second unlock by id is refused although a hold of the id is there, unlike with the plain machine |
| ManagerProofs.DropHolds | server/lock.go:76-90 | cleaning the queue of holders drops only dead holds, keeps shape and reference counts, and ends at a live one |
| ManagerProofs.DropWaiters | server/lock.go:179-202 | cleaning the queue of waiters drops only requests that no longer wait, and ends at one that does |
| ManagerProofs.RemoveCurrentKeeps | server/lock.go:68-95 | ending the current hold promotes the next live one, takes it out of the index, and removes exactly the first hold of the reference machine |
| ManagerProofs.RemoveQueuedKeeps | server/lock.go:97-115 | ending a queued hold removes exactly that hold and its index entry in the reference machine |
| EngineProofs.LockRefines | server/db.go:1348-1508 | for every manager and request, same state, reply, returned records and counters as the reference machine; representation and exact reference counts kept |
| EngineProofs.UnlockRefines | server/db.go:1510-1665 | the same for unlock; reference counts stay exact if and only if the unlock does not recycle a lock twice |
| EngineProofs.TimeOutRefines | server/db.go:1152-1195 | a timeout entry times a waiting request out as the reference machine does, and changes nothing visible for one that was granted meanwhile |
| EngineProofs.ExpireRefines | server/db.go:1273-1322 | an expiry entry ends a live hold as the reference machine does, and changes nothing visible for one that was released meanwhile |
| EngineProofs.WakeRefines | server/db.go:1685-1753 | one turn of the wake-up loop is the wake-up step of the reference machine, whatever dead entries the queue holds |
| EngineProofs.EndHoldKeeps | server/db.go:1566-1655 | ending a hold, in a long queue or not, removes it from the reference machine and settles its counts, with the exact double-free condition |
| EngineProofs.RetimedKeeps | server/db.go:1105-1136 | a timer that moves a live lock changes nothing visible and no count |
| EngineProofs.DoubleFreeReached | server/db.go:1630-1642 | two grants and a move to the long queue reach an exact state in which unlocking the second recycles its lock twice |
| EngineRuns.RunRefines | server/db.go:1348-1753 | every run of the engine, with timers in any order, gives the replies, returned records, counters and key of a run of the reference machine (runs up to a double recycling) |
| EngineRuns.ReferenceCounts | server/lock.go:221-228 | in every reachable state ref_count is the number of structures that contain the lock, between 1 and 4 for locks in use, and 0 for recycled ones, which are listed once |
| EngineRuns.RecycledIffUnused | server/lock.go:221-276 | in every state reachable from a new manager a lock object is recycled if and only if no structure contains it; none is lost |
| Engine.LockManager.constructor | server/lock.go:26-30 | a new manager is valid, exactly counted, and an empty key |
| Engine.LockManager.AddLock | server/lock.go:36-66 | in place: the new lock is promoted, or queued and indexed, with one level and, in seconds, the deadline `now` + expiry + 1 |
| Engine.LockManager.RemoveLock | server/lock.go:68-115 | the two cleaning loops over shared lock objects do what the value-level removal does |
| Engine.LockManager.GetLockedLock | server/lock.go:117-127 | the lock found is the very hold that the reference machine finds for the id, or none |
| Engine.LockManager.UpdateLockedLock | server/lock.go:129-170 | new terms of a hold: in seconds the deadline is `now` + expiry + 1, and the check counts are 1 unless the flags keep them |
| Engine.LockManager.AddWaitLock | server/lock.go:172-177 | the request joins the end of the queue and the flag is set |
| Engine.LockManager.GetWaitLock | server/lock.go:179-202 | the cleaning loop gives the oldest request that still waits, or none |
| Engine.LockManager.FreeLock | server/lock.go:221-228 | the lock leaves the key and goes to the free list |
| Engine.LockManager.GetOrNewLock | server/lock.go:230-258 | a recycled lock, taken from the end of the free list, is filled for the request |
| Engine.LockManager.Stock | server/lock.go:231-239 | eight new lock objects, unknown to the manager before, when the free list is empty |
| Engine.LockDB.Lock | server/db.go:1348-1508 | a lock request on the objects: outcome of the reference machine, invariant and exact reference counts kept |
| Engine.LockDB.UnLock | server/db.go:1510-1665 | the critical section of an unlock on the objects: outcome of the reference machine; reference counts exact if and only if no lock is recycled twice |
| Engine.LockDB.DoTimeOut | server/db.go:1152-1195 | on the objects: a request that still waits is timed out as in the reference machine, one granted meanwhile only loses the entry; invariant and exact reference counts kept |
| Engine.LockDB.DoExpired | server/db.go:1273-1322 | on the objects: a live hold is ended as in the reference machine, one released meanwhile only loses the entry; invariant and exact reference counts kept |
| Engine.LockDB.DoLock | server/db.go:1667-1683 | between critical sections, true exactly if the levels held are none, or at most the Count of the first hold and that of the request, and not 65535 |
| Engine.LockDB.WakeUpWaitLock | server/db.go:1710-1753 | the waiter becomes a hold, or is answered at once if it asks for none |
| Engine.LockDB.WakeUpWaitLocks | server/db.go:1685-1708 | the loop on the objects is the complete wake-up of the reference machine, with all replies and returned records in order |
| Engine.LockDB.AddTimeOut | server/db.go:1097-1136 | a waiting lock enters a timeout structure and is counted |
| Engine.LockDB.AddExpired | server/db.go:1217-1259 | a hold enters an expiry structure and is counted |
| Engine.LockDB.RemoveLongTimeOut | server/db.go:1143-1150 | a lock leaves the long timeout queue and loses that count |
| Engine.LockDB.RemoveLongExpired | server/db.go:1265-1271 | a lock leaves the long expiry queue and loses that count |
| Engine.LockDB.Retime | server/db.go:246-275 | the timers may move a live lock without anything visible changing |
| TimerModel.LookProgress | server/db.go:242-267 | a lock put back into the slot being emptied has fewer looks left, so emptying a slot terminates |
| TimerProofs.AddValid | server/db.go:1097-1136 | an added lock comes up by its deadline, or by the next second checked if that has passed, and no other lock is disturbed |
| TimerProofs.DrainSlotValid | server/db.go:239-270 | emptying a slot, with re-insertions into it, keeps every waiting lock and its due time |
| TimerProofs.DrainLongValid | server/db.go:273-306 | the queue of a deadline is emptied into the batch and nothing else is lost |
| TimerRuns.TimerExactness | server/db.go:209-316 | for every non-decreasing clock and any interleaving of arrivals, grants and removals, a waiting lock comes up at most once, in a batch whose clock has reached its deadline while the batch before had not reached the time by which it is due, and always by the end of the first batch that has; the two times are the same unless the deadline had passed on arrival or was cut |
| TimerProofs.BackOff | server/db.go:1097-1136 | fewer than nine looks: one of 16 slots, as many seconds ahead as looks or at the deadline; from then on the queue of the deadline |
| TimerProofs.LookCounts | server/db.go:246-250 | a look at a lock that is not due counts one more |
| TimerProofs.RenewValid | server/lock.go:129-156 | a lock that gets a new deadline where it is keeps its place and is due at the deadline or at its next look, whichever is later; in a batch it is doomed |
| TimerRuns.DoomedComesUp | server/db.go:1273-1291 | a lock that gets a new deadline while in a batch comes up in that very batch |
| TimerLimits.CutTooLate | server/db.go:1236-1244 | a run in which a whole batch passes a deadline that was cut |
| TimerLimits.DoomedReached | server/db.go:1273-1291 | a run in which a lock comes up with its old deadline |
| TimedKey.GrantedExpires | server/db.go:1454-1467 | key and timers joined: a hold granted at t with Expried e and left alone is not ended by a batch with a clock below t + e + 1, and is ended by the first batch at or after it (or after the next second the timers check), whatever else happens on the key, on others and in the timers |
| TimedKey.LetInExpires | server/db.go:1710-1731 | the same for a waiter that is let in at t |
| TimedKey.RenewedExpires | server/db.go:1388-1437 | the same for a hold renewed or re-entered at t outside a batch, but not before its lock is looked at next |
| TimedKey.RenewedTooLate | server/db.go:1273-1291 | a hold renewed while its lock is in a batch is ended by that batch |
| TimedKey.QueuedTimesOut | server/db.go:1485-1498 | a request queued at t with Timeout e and not let in is not given up by a batch with a clock below t + e + 1, and is given up by the first batch at or after it (or after the next second the timers check) |
| TimedKey.HoldExpires | server/db.go:1273-1322 | from any state: a hold whose lock waits in the timers ends in time, or goes on |
| TimedKey.WaiterTimesOut | server/db.go:1152-1195 | from any state: a waiter whose lock waits in the timers is given up in time, or goes on |
| TimerRuns.NoneLeftBehind | server/db.go:221-224 | no batch ends with a lock left behind that was due in it |
| TimerWheel.Wheel.Insert | server/db.go:1097-1136 | slot, back-off, clamping and the move to the long queue after eight looks, in place |
| TimerWheel.Wheel.Renew | server/lock.go:129-156 | a new deadline and count of looks, in place |
| TimerWheel.Wheel.CheckSlot | server/db.go:242-267 | the loop terminates, even when locks are put back into the slot, in the state that `DrainSlotValid` is about |
| TimerWheel.Wheel.CheckLong | server/db.go:275-303 | the loop ends in the state that `DrainLongValid` is about |
| TimerWheel.Wheel.CheckTime | server/db.go:557-643 | one batch: the waiting locks due by its clock come up, each once, and no other, but for locks whose deadline was cut, which come up between deadline and next look |
| TimerWheel.Wheel.CheckTimeOut | server/db.go:209-228 | over any non-decreasing clock a waiting lock, unless its deadline was cut, comes up in the first batch that has reached its due time and in no other |
| QueueProofs.PushIsAppend | server/queue.go:44-78 | Push appends, in a node or across nodes, allocated or reused |
| QueueProofs.PushGrows | server/queue.go:48-73 | Push allocates only when the tail enters a node that is not there: one node of twice the last size, up to 4194303 |
| QueueProofs.PushLeftIsPrepend | server/queue.go:80-96 | PushLeft prepends |
| QueueProofs.PopIsFirst | server/queue.go:98-114 | Pop takes the first value |
| QueueProofs.PopRightIsLast | server/queue.go:116-132 | PopRight takes the last value |
| QueueProofs.ResizeKeeps | server/queue.go:215-238 | moving nodes down keeps the content, whatever is allocated behind the tail |
| QueueProofs.ResizeExact | server/queue.go:224-232 | the node count stays right if and only if nothing is allocated behind the tail (or nothing is moved) |
| QueueProofs.ResizeMoves | server/queue.go:215-238 | which nodes move, which are given back, and the counts and size afterwards |
| QueueProofs.ResetReleases | server/queue.go:170-175 | exactly the nodes from the base on are given back |
| QueueProofs.RellacReleases | server/queue.go:189-203 | exactly the farther half of the nodes behind the tail is given back, none before the base |
| QueueProofs.ResetUsable | server/queue.go:170-187 | a drained queue is usable and empty after Reset, even with a node count that is too high, as long as it is the number of a node |
| QueueProofs.RellacUsable | server/queue.go:189-213 | a drained queue is usable and empty after Rellac |
| QueueCompaction.SweepCell | server/queue.go:252-260 | one step of the compaction: the write cursor does not pass the read cursor, the cells between are nil, nothing unread changes |
| QueueCompaction.PushNoAlloc | server/queue.go:44-78 | Push allocates nothing during the compaction |
| QueueCompaction.ProgressEnd | server/queue.go:240-274 | after the sweep the content is the non-nil values in their order, and the cells outside are nil |
| LockQueue.LockQueue.constructor | server/queue.go:31-42 | a new queue is empty |
| LockQueue.LockQueue.Push | server/queue.go:44-78 | on the arrays: the plain sequence with the value at the end |
| LockQueue.LockQueue.PushLeft | server/queue.go:80-96 | on the arrays: the value at the front, or "full" exactly when the head cursor is at the very first cell |
| LockQueue.LockQueue.Pop | server/queue.go:98-114 | on the arrays: the first value, or nil exactly for the empty sequence |
| LockQueue.LockQueue.PopRight | server/queue.go:116-132 | on the arrays: the last value, or nil exactly for the empty sequence |
| LockQueue.LockQueue.Head | server/queue.go:134-140 | the first value of the sequence |
| LockQueue.LockQueue.Len | server/queue.go:279-290 | the length of the sequence |
| LockQueue.LockQueue.Reset | server/queue.go:170-187 | on the arrays: a drained queue becomes a usable empty queue; the node count may be too high but must be the number of a node, which the loop indexes with it |
| LockQueue.LockQueue.Rellac | server/queue.go:189-213 | on the arrays: a drained queue becomes a usable empty queue |
| LockQueue.LockQueue.Resize | server/queue.go:215-238 | on the arrays: content kept, node count right exactly under the stated condition |
| LockQueue.LockQueue.Restructuring | server/queue.go:240-277 | compaction on the arrays: non-nil values in order, no allocation, exactly the nodes behind the new tail + 1 released |
| LongWaitModel.PackInverse | server/db.go:1115 | node and slot are recovered from the packed index, which is never 0 |
| LongWaitModel.PackBits | server/db.go:1146 | the shifts and masks compute this packing and its inverse in 64 bits |
| LongWaitModel.InsertAgrees | server/db.go:1115-1123 | an inserted lock gets the index of its cell; all indices still lead to their cells |
| LongWaitModel.RemoveAgrees | server/db.go:1143-1150 | a lock is found at its index, leaves one more hole, and all other indices still agree |
| LongWaitModel.MoveAgrees | server/db.go:404-413 | a lock moved by the compaction gets the index of its new cell |
| LongWaitModel.CompactedAgrees | server/db.go:392-439 | the compaction keeps the locks and their order, gives every lock the index of its new cell and leaves no hole |
| LongWaitModel.NodeIndexDrift | server/db.go:430-437 | the node count stays right if and only if the values in the queue before the compaction fill the nodes before the last but one |
| LongLocks.IndexAgreement | server/db.go:1105-1150 | every lock with an index is stored at the node and slot it encodes in the queue of its own deadline, nothing is stored elsewhere or twice, in one queue or in two, and free counts are numbers of holes |
| LongLocks.EnqueueGood | server/db.go:1100-1124 | kept when a lock joins: overdue deadlines clamped, queue found, taken from the spare ones or made |
| LongLocks.DequeueGood | server/db.go:1265-1271 | kept when a lock leaves through its own deadline and index |
| LongLocks.CompactGood | server/db.go:383-455 | kept by the compaction of any queue, which gives an emptied queue up; fails exactly if it then indexes a node that does not exist |
| LongLocks.DrainGood | server/db.go:273-306 | kept when a deadline comes: all its locks are out and the queue is given up; fails exactly if its node count is the number of no node |
| LongRuns.LongWaitAgreement | server/db.go:704-784 | the agreement after any sequence of insertions, removals, compactions and drains in any number of queues, from empty ones, that does not index out of range |
| LongRuns.SpareBound | server/db.go:298-302 | at most 8096 spare queues are kept in any run |
| LongRuns.JoinImplements | server/db.go:1225-1244 | joining is what the timers do with their queue of a deadline |
| LongRuns.LeaveImplements | server/db.go:1143-1150 | removal by index is the removal by search of the timers |
| LongRuns.CompactionImplements | server/db.go:704-784 | a compaction is not seen by the timers |
| LongRuns.DueImplements | server/db.go:600-633 | draining a deadline is what the timers do when it comes |
| LongTimers.TimersImplemented | server/db.go:557-784 | every run of the timers, with compactions at any time, is carried out by the queues of cells if and only if no compaction and no drain indexes out of range, and then leaves the same locks in the same order |
| LongTimers.ShardAgreement | server/db.go:1097-1150 | from an empty shard, after every such run a lock has an index exactly if the timers have it in a queue, and then its cell in the queue of the same deadline is the one that the index encodes |
| LongDrift.DriftReached | server/db.go:430-437 | for every n, a run after which the node count of a queue in use is at least n and wrong |
| LongDrift.ResetOutOfRange | server/queue.go:171-175 | a run after which giving a queue up indexes out of range |
| LongWait.LongWaitLockQueue.Insert | server/db.go:1115-1123 | on the arrays: the lock is told the index of the cell it is put in |
| LongWait.LongWaitLockQueue.Remove | server/db.go:1143-1150 | on the arrays: the cell of the index becomes a hole and is counted |
| LongWait.LongWaitLockQueue.Compact | server/db.go:392-439 | the nested loops on the arrays, with new indices, do the compaction that `CompactedAgrees` is about |
| LongWait.LongWaitLockQueue.PopLocks | server/db.go:275-294 | the loop takes exactly the locks of the queue out and leaves it drained |
| LongWait.LongWaitLockQueue.Recycle | server/db.go:298-302 | an empty queue is made ready to be used again |
| KeyIndex.AddFast | server/db.go:908-947 | a new key in an unused slot goes to the fast entry; the index stands for the plain map with that key added |
| KeyIndex.AddMapped | server/db.go:949-983 | a new key in a used slot goes to the map; same |
| KeyIndex.RemoveAgrees | server/db.go:1011-1095 | removing a live manager, fast or mapped, removes its key from the plain map |
| KeyIndex.LookupAgrees | server/db.go:985-1009 | a lookup through counter, fast entry and map is a lookup in the plain map |
| KeyIndex.ManagerIndex.GetLockManager | server/db.go:985-1009 | the manager of the key in the plain map, or none |
| KeyIndex.ManagerIndex.GetOrNewLockManager | server/db.go:901-983 | the manager of the key, new exactly when the plain map had none; KeyCount is the size of the map |
| KeyIndex.ManagerIndex.RemoveLockManager | server/db.go:1011-1095 | a live manager gives its key back, any other changes nothing; counts per slot stay exact |
| RespProofs.ParseIsIdeal | server/protocol.go:880-999 | one call of the parser is the byte-by-byte reference parser unless the buffer completes an earlier argument without its line feed |
| RespProofs.AtoiDigits | server/protocol.go:890-910 | printed lengths fit the number buffer and are read as themselves |
| RespRoundTrip.ArrayRead | client/protocol.go:289-296 | for every list of arguments: read as those that are not empty, complete if and only if there are some and none is empty |
| RespRoundTrip.BulkRead | server/protocol.go:1011-1014 | a single result is read as itself, and as nothing when it is empty |
| RespRoundTrip.StreamRead | server/protocol.go:1159-1196 | any list of printed commands is read back, one command per call |
| RespChunks.ChunkedRoundTrip | server/protocol.go:949-972 | for both sides, any commands and any chunking: exactly these commands come out if and only if no chunk completes an argument begun earlier without its line feed |
| RespChunks.SplitReached | server/protocol.go:970 | a command in three chunks that does not come out |
| Wire.WireRead | server/protocol.go:880-999 | any stream of bytes in the format (numbers 42, 36, 43, 45, 13, 10 and decimal lengths, from whatever printer), in any chunks: what it says comes out, each item with its kind, if and only if no chunk splits an argument end |
| Wire.ArrayOnWire | client/protocol.go:289-296 | what is printed for arguments is an array in the format |
| Wire.BulkOnWire | server/protocol.go:1011-1014 | what is printed for a single result is a bulk string in the format |
| Wire.PingBytes | client/protocol.go:289-296 | the fourteen bytes of PING, through the printer and through both parsers |
| Wire.MessageBytes | client/protocol.go:135-161 | "+OK" is read as a message |
| Wire.ErrorBytes | client/protocol.go:135-161 | "-ERR no" is read as an error |
| Wire.ResultBytes | client/protocol.go:135-161 | "$2 OK" is read as a single result |
| Wire.FirstByteRefused | server/protocol.go:884-886 | a server refuses at its first byte what does not begin with "*" |
| Wire.NumberIff | server/protocol.go:896 | a count or length is read if and only if it is decimal, with a sign or without, within 64 bits |
| Wire.StrayBytesRefused | server/protocol.go:892-908 | a line feed behind another byte than a carriage return, a number of more than 64 bytes, and an argument without "$" are refused |
| RespMessages.MessageIff | client/protocol.go:270-284 | a simple string or error, in any chunks, comes out as sent, and as a message or an error as it was sent, if and only if it is ASCII without CR and LF |
| RespMessages.ChunkedReplies | client/protocol.go:135-287 | messages, single results and arrays mixed on one connection, in any chunks: exactly these replies, each with its kind, come out if and only if no chunk completes an argument begun earlier without its line feed |
| TextParser.TextProtocolParser.ParseBuffer | server/protocol.go:880-999 | the loops over buffer and number array give the parser state, position and success that the round-trip laws are about, for the server and for the client |
| TextParser.TextProtocolParser.Receive | server/protocol.go:1159-1196 | a chunk yields, call after call, exactly the commands that the chunking law is about |
| TextParser.BuildCommand | client/protocol.go:289-296 | the printing loop gives the array that `ArrayRead` reads back, in the format of `Wire` |
| TextParser.BuildReply | server/protocol.go:1001-1021 | byte for byte: "-ERR " and a text, "+" and a text, a bulk string or an array in the format of `Wire`, as `MessageIff`, `BulkRead` and `ArrayRead` read them |
| CommandPool.Connection.GetLockCommand | server/protocol.go:806-847 | a record leaves the three lists exactly once, and is new exactly when all are empty; an empty own list takes over the second one, or up to nine of the shared one |
| CommandPool.Connection.FreeLockCommand | server/protocol.go:849-851 | a returned record is pooled once more |
| CommandPool.Connection.FreeLockCommandLocked | server/protocol.go:853-865 | the same from another thread, open or closed |
| CommandPool.Connection.InitLockCommand | server/protocol.go:770-782 | four records for a new connection: shared ones as far as there are, then new ones, each pooled once |
| CommandPool.Connection.UnInitLockCommand | server/protocol.go:784-804 | a connection that ends gives every record to the shared list |
| ServerPools.Server.GetLockCommand | server/protocol.go:806-847 | with any number of connections: taking a record is a checkout of the database model, and all lists together stay its pool |
| ServerPools.Server.Finish | server/db.go:1742-1749 | the records that a critical section gives up go back to any connections, open or closed, on any thread: together with the section this is the step of the database model |
| ServerPools.Server.Connect | server/protocol.go:770-782 | a new connection stocks the pool with the new records that it makes, and with no others |
| ServerPools.Server.Close | server/protocol.go:784-804 | a connection that ends changes nothing in the pool |
| ServerPools.Server.RecordsApart | server/protocol.go:806-865 | whatever the connections have done, no record is in two lists or twice in one, and the record of a hold or waiter of any key is in none |

## Left out

- The append-only file (server/aof.go) and all uses of it; pushing to it does nothing here.
- The ring of free lock managers: a new manager is always fresh.
- Millisecond timers: they depend on the real clock and sleeping threads. A lock with the millisecond flag is counted in
  the timer structures of the engine but not in the wheel.
- Timer batches that overlap: the program starts a thread for every second of a batch, the model takes them one after
  another.
- Close and flush of a database, logging, and races on values that are read after a mutex is given back.
- Timeout and timeout flag of a hold after an update: no claim, because the program passes them in different orders.
- EngineRuns.RunRefines: runs end before the first unlock that recycles a lock twice, because the program then hands one
  lock object out to two requests; that unlock itself is covered by `UnlockRefines`.
- EngineLaws.ManagerPlainIff: the same.
- EngineLaws.ManagerIsPlain: the same.
- EngineLaws.ExactlyOnce: the same.
- EngineLaws.EngineIsLegal: the same.
- EngineLaws.EngineCapacity: the same.
- EngineRuns.RecycledIffUnused: the same, and the free list belongs to one manager.
- LongRuns.LongWaitAgreement: runs end when an index is out of range, where the program stops; `CompactGood` and
  `DrainGood` say exactly when that is.
- ServerPools.Server.Finish: each call is atomic, and connections of the text protocol and in-memory ones, which have
  one list where binary ones have two, are not separate classes.
- Engine.LockManager.GetOrNewLock: the free list belongs to one manager, where the program shares it among the managers
  of a shard; so `EngineRuns.RecycledIffUnused` is about the lock objects of one manager.
- Engine.LockManager.UpdateLockedLock: does not model the append-file time and the push to that file.
- Engine.LockManager.FreeLock: does not model that manager, protocol and command of a recycled lock are cleared.
- Engine.LockDB.Lock: the critical section on a given manager; looking the manager up, retrying on a freed one and
  giving an unused one back are in `KeyIndex` only.
- Engine.LockDB.UnLock: the critical section on a given manager; the answer for a missing manager is that for an empty
  key, giving an unused manager back is in `KeyIndex` only, and the wake-up that follows is `WakeUpWaitLocks`.
- Engine.LockDB.DoTimeOut: giving an unused manager back is in `KeyIndex` only.
- Engine.LockDB.DoExpired: giving an unused manager back is in `KeyIndex` only, and the wake-up that follows is
  `WakeUpWaitLocks`.
- Engine.LockDB.AddTimeOut: the timer structures are sets of locks in the engine, and the place in a long queue is a
  parameter; what the structures do is in the timer and long-wait modules.
- Engine.LockDB.AddExpired: the same.
- Engine.LockDB.RemoveLongTimeOut: the cell and the free count are in `LongLocks` and `LongWait`.
- Engine.LockDB.RemoveLongExpired: the same.
- Engine.LockDB.Retime: the queues between which the lock moves are in `TimerModel` and `LongLocks`.
- TimerWheel.Wheel.CheckTime: locks are numbers with a record in a table instead of shared objects, and there is one
  shard; the queues of the slots are plain sequences.
- LongLocks.EnqueueGood: the map from deadlines to queues holds values; that two deadlines never share a queue object is
  not modelled. When to compact is not modelled either.
- TimedKey.GrantedExpires: the timers are joined with the reference machine of one key, not with the lock objects of the
  manager; other keys' locks come and go in the same timers, and the clock that a request reads is independent of theirs.
- LockQueue.LockQueue.Resize: does not model 32-bit wrap-around of the computed size.
- KeyIndex.ManagerIndex.GetOrNewLockManager: each call is atomic; managers are numbers with a record in a table.
- `Tail` and `Shrink` of the queue: `Tail` indexes -1 at a node boundary, `Shrink` mixes two node indices and is not
  used.
- The 64-byte binary codecs, client wrappers, streams, admin commands, key normalisation: they would only add easy
  members.
