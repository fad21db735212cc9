/** The lock manager of one key as values: lock records under their identities, one promoted current lock, queues
    cleaned lazily, a map index and reference counts. Each function is what one method of the manager does. */
module ManagerModel {
  import opened Protocol
  import opened KeySpec
  import opened Lazy
  import opened Locks

  /** `inTimeout` and `inExpiry` are the locks of this key that are in a timeout (expiry) structure or in a batch
      collected from one; `attached` are the locks in use for this key. */
  datatype Manager = Manager(
    records: map<Lock, Record>,
    currentLock: Option<Lock>,
    locks: seq<Lock>,
    lockMaps: map<LockId, Lock>,
    waitLocks: seq<Lock>,
    freeLocks: seq<Lock>,
    refCount: int,
    locked: nat,
    waited: bool,
    inTimeout: set<Lock>,
    inExpiry: set<Lock>,
    attached: set<Lock>)
  {
    function Get(l: Lock): Record { if l in records then records[l] else BLANK }

    function Set(l: Lock, r: Record): Manager { this.(records := records[l := r]) }

    ghost predicate IsHold(l: Lock) { currentLock == Some(l) || l in locks }
  }

  function ViewOf(r: Record): LockView {
    LockView(r.command, r.expireTime, r.timeoutTime, r.locked, r.timeouted)
  }

  function Views(m: Manager, ls: seq<Lock>): seq<LockView> {
    seq(|ls|, i requires 0 <= i < |ls| => ViewOf(m.Get(ls[i])))
  }

  /** The promoted lock, then the queue of the others. */
  function AllHolds(m: Manager): seq<Lock> {
    (if m.currentLock.Some? then [m.currentLock.value] else []) + m.locks
  }

  /** The key as the reference machine sees it. */
  function Abs(m: Manager): KeyState {
    KeyState(LiveHolds(Views(m, AllHolds(m))),
             map id | id in m.lockMaps :: m.Get(m.lockMaps[id]).command.commandId,
             LiveWaiters(Views(m, m.waitLocks)),
             m.waited)
  }

  // ---------- the operations of the manager

  function FreeLock(m: Manager, l: Lock): Manager {
    m.(refCount := m.refCount - 1, freeLocks := m.freeLocks + [l], attached := m.attached - {l})
  }

  /** Drops one count, and recycles the lock with its last one. */
  function Release(m: Manager, l: Lock): Manager {
    var r := m.Get(l);
    var m' := m.Set(l, r.(refCount := r.refCount - 1));
    if r.refCount - 1 == 0 then FreeLock(m', l) else m'
  }

  /** Drops the holds that are gone from the front of the queue. */
  function DropDeadHolds(m: Manager): Manager
    decreases |m.locks|
  {
    if m.locks != [] && m.Get(m.locks[0]).locked == 0
    then DropDeadHolds(Release(m.(locks := m.locks[1..]), m.locks[0]))
    else m
  }

  /** Drops the requests that no longer wait from the front of the queue. */
  function DropDeadWaiters(m: Manager): Manager
    decreases |m.waitLocks|
  {
    if m.waitLocks != [] && m.Get(m.waitLocks[0]).timeouted
    then DropDeadWaiters(Release(m.(waitLocks := m.waitLocks[1..]), m.waitLocks[0]))
    else m
  }

  function Promote(m: Manager): Manager {
    if m.locks == [] then m
    else m.(currentLock := Some(m.locks[0]),
            locks := m.locks[1..],
            lockMaps := m.lockMaps - {m.Get(m.locks[0]).command.lockId})
  }

  function RemoveLock(m: Manager, l: Lock): Manager {
    var r := m.Get(l);
    if m.currentLock == Some(l) then
      Promote(DropDeadHolds(m.Set(l, r.(locked := 0, refCount := r.refCount - 1)).(currentLock := None)))
    else
      DropDeadHolds(m.Set(l, r.(locked := 0)).(lockMaps := m.lockMaps - {r.command.lockId}))
  }

  /** Does a grant set the deadline? (Not when it counts in milliseconds.) */
  predicate SetsDeadline(c: LockCommand) {
    c.expriedFlag & 0x0400 == 0 || c.expriedFlag & 0x4000 != 0
  }

  function Granted(r: Record, now: int): Record {
    var c := r.command;
    var expireTime := if SetsDeadline(c) then ExpireTime(now, c.expried, c.expriedFlag) else r.expireTime;
    r.(expireTime := expireTime, locked := 1, refCount := r.refCount + 1)
  }

  function AddLock(m: Manager, l: Lock, now: int): Manager {
    var c := m.Get(l).command;
    var m' := m.Set(l, Granted(m.Get(l), now));
    if m.currentLock.None? then m'.(currentLock := Some(l))
    else m'.(locks := m.locks + [l], lockMaps := m.lockMaps[c.lockId := l])
  }

  function AddWaitLock(m: Manager, l: Lock): Manager {
    var r := m.Get(l);
    m.Set(l, r.(refCount := r.refCount + 1)).(waitLocks := m.waitLocks + [l], waited := true)
  }

  function GetLockedLock(m: Manager, id: LockId): Option<Lock> {
    if m.currentLock.Some? && m.Get(m.currentLock.value).command.lockId == id then m.currentLock
    else if id in m.lockMaps then Some(m.lockMaps[id])
    else None
  }

  // ---------- the representation invariant

  ghost predicate NoDuplicates(ls: seq<Lock>) {
    forall i, j :: 0 <= i < j < |ls| ==> ls[i] != ls[j]
  }

  /** Every lock in a structure is attached. */
  ghost predicate InUse(m: Manager) {
    && (m.currentLock.Some? ==> m.currentLock.value in m.attached)
    && (forall l :: l in m.locks ==> l in m.attached)
    && (forall l :: l in m.waitLocks ==> l in m.attached)
    && m.inTimeout <= m.attached && m.inExpiry <= m.attached
  }

  /** No queue holds a lock twice. */
  ghost predicate Members(m: Manager) {
    && InUse(m)
    && (m.currentLock.Some? ==> m.currentLock.value !in m.locks)
    && NoDuplicates(m.locks) && NoDuplicates(m.waitLocks)
  }

  /** Live holds are in an expiry structure and not expired, dead ones are expired, and only holds have a depth;
      `ending` is a hold that is being ended. */
  ghost predicate HoldsOk(m: Manager, ending: Option<Lock>) {
    && (m.currentLock.Some? ==> m.Get(m.currentLock.value).locked > 0)
    && (forall l :: l in m.attached && m.IsHold(l) && Some(l) != ending && m.Get(l).locked > 0 ==>
          !m.Get(l).expired && l in m.inExpiry)
    && (forall l :: l in m.attached && m.IsHold(l) && m.Get(l).locked == 0 ==> m.Get(l).expired)
    && (forall l :: l in m.inExpiry && !m.Get(l).expired ==> m.IsHold(l) && m.Get(l).locked > 0)
    && (forall l :: l in m.attached && !m.IsHold(l) ==> m.Get(l).locked == 0)
  }

  /** The index points at live holds of the queue, under their own lock ids. */
  ghost predicate IndexOk(m: Manager) {
    forall id :: id in m.lockMaps ==>
      m.lockMaps[id] in m.locks && m.Get(m.lockMaps[id]).locked > 0 && m.Get(m.lockMaps[id]).command.lockId == id
  }

  /** Live waiters are in a timeout structure and hold nothing. */
  ghost predicate WaitsOk(m: Manager) {
    && (forall l :: l in m.waitLocks && !m.Get(l).timeouted ==>
          l in m.inTimeout && !m.IsHold(l) && l !in m.inExpiry && m.Get(l).expireTime == 0)
    && (forall l :: l in m.inTimeout && !m.Get(l).timeouted ==> l in m.waitLocks)
  }

  /** Only a live waiter or a live hold is in a long queue. */
  ghost predicate LongOk(m: Manager) {
    forall l :: l in m.attached && m.Get(l).longWaitIndex > 0 ==>
      (l in m.inExpiry && !m.Get(l).expired) || (l in m.inTimeout && !m.Get(l).timeouted)
  }

  ghost predicate Shape(m: Manager, ending: Option<Lock>) {
    Members(m) && HoldsOk(m, ending) && IndexOk(m) && WaitsOk(m) && LongOk(m)
  }

  // ---------- reference counts

  /** The number of structures that contain the lock. */
  ghost function Uses(m: Manager, l: Lock): int {
    Bit(m.IsHold(l)) + Bit(l in m.waitLocks) + Bit(l in m.inTimeout) + Bit(l in m.inExpiry)
  }

  /** Reference counts are exact, except that a lock in `over` has one count more than uses and that a lock in
      `idle` may have no use. */
  ghost predicate CountsExact(m: Manager, over: set<Lock>, idle: set<Lock>) {
    && m.refCount == |m.attached|
    && (forall l :: l in m.attached ==> m.Get(l).refCount == Uses(m, l) + Bit(l in over))
    && (forall l :: l in m.attached ==> m.Get(l).refCount > 0 || l in idle)
  }

  /** Recycled locks are not in use, and none is listed twice. */
  ghost predicate FreeOk(m: Manager) {
    && NoDuplicates(m.freeLocks)
    && (forall l :: l in m.freeLocks ==> l !in m.attached && m.Get(l).refCount == 0 && m.Get(l).locked == 0)
  }

  ghost predicate RefsExact(m: Manager, over: set<Lock>, idle: set<Lock>) {
    CountsExact(m, over, idle) && FreeOk(m)
  }
}
