/** The critical sections of the engine on one lock manager, as values: each function is one method of the database
    up to the point where it gives the manager's mutex back. */
module EngineModel {
  import opened Protocol
  import opened Locks
  import opened ManagerModel

  /** The new manager, the reply sent, the command records returned to a pool and the new statistics. */
  datatype Result = Result(manager: Manager, reply: Option<Reply>, freed: seq<nat>, stats: Stats)

  // ---------- taking a lock object for a request

  /** The lock objects that become available when the free list is empty. */
  function Stocked(m: Manager, news: seq<Lock>): Manager {
    if m.freeLocks != [] then m
    else m.(freeLocks := news[..],
            records := map l | l in m.records.Keys + (set x | x in news) :: if l in news then BLANK else m.Get(l))
  }

  function Filled(r: Record, cmd: LockCommand, now: int): Record {
    r.(command := cmd, startTime := now, expireTime := 0,
       timeoutTime := TimeoutTime(now, cmd.timeout, cmd.timeoutFlag),
       timeoutCheckedCount := 1, expireCheckedCount := 1, longWaitIndex := 0)
  }

  function GetOrNewLock(m: Manager, cmd: LockCommand, now: int): Manager
    requires m.freeLocks != []
  {
    var l := m.freeLocks[|m.freeLocks| - 1];
    m.Set(l, Filled(m.Get(l), cmd, now))
    .(freeLocks := m.freeLocks[..|m.freeLocks| - 1], refCount := m.refCount + 1, attached := m.attached + {l})
  }

  // ---------- timers; `place` is the long-queue index the timer assigns, or 0 for the wheel

  function AddTimeOut(m: Manager, l: Lock, place: nat): Manager {
    var r := m.Get(l);
    m.Set(l, r.(timeouted := false, longWaitIndex := if place > 0 then place else r.longWaitIndex,
                refCount := r.refCount + 1))
    .(inTimeout := m.inTimeout + {l})
  }

  function AddExpired(m: Manager, l: Lock, place: nat): Manager {
    var r := m.Get(l);
    m.Set(l, r.(expired := false, longWaitIndex := if place > 0 then place else r.longWaitIndex,
                refCount := r.refCount + 1))
    .(inExpiry := m.inExpiry + {l})
  }

  function RemoveLongTimeOut(m: Manager, l: Lock): Manager {
    var r := m.Get(l);
    m.Set(l, r.(longWaitIndex := 0, refCount := r.refCount - 1)).(inTimeout := m.inTimeout - {l})
  }

  function RemoveLongExpired(m: Manager, l: Lock): Manager {
    var r := m.Get(l);
    m.Set(l, r.(longWaitIndex := 0, refCount := r.refCount - 1)).(inExpiry := m.inExpiry - {l})
  }

  // ---------- locking

  function UpdateLockedLock(m: Manager, l: Lock, timeout: Uint16, timeoutFlag: bv16, cmd: LockCommand,
    now: int): Manager
  {
    var r := m.Get(l);
    m.Set(l, r.(
      command := r.command.(timeout := timeout, timeoutFlag := timeoutFlag, expried := cmd.expried,
                            expriedFlag := cmd.expriedFlag, count := cmd.count, rcount := cmd.rcount),
      timeoutTime := TimeoutTime(now, timeout, timeoutFlag),
      expireTime := ExpireTime(now, cmd.expried, cmd.expriedFlag),
      timeoutCheckedCount := if timeoutFlag & 0x2000 == 0 then 1 else r.timeoutCheckedCount,
      expireCheckedCount := if cmd.expriedFlag & 0x2000 == 0 then 1 else r.expireCheckedCount))
  }

  function TimeoutTerms(cmd: LockCommand, swap: bool): (Uint16, bv16) {
    if swap then (cmd.timeoutFlag as int, cmd.timeout as bv16) else (cmd.timeout, cmd.timeoutFlag)
  }

  /** The new terms of a hold. A hold in the long expiry queue is taken out and timed afresh. When the request is an
      update and the hold is not there, timeout and timeout flag change places, as in the program. */
  function Renew(m: Manager, l: Lock, cmd: LockCommand, now: int, place: nat, swap: bool): Manager {
    if m.Get(l).longWaitIndex > 0 then
      AddExpired(UpdateLockedLock(RemoveLongExpired(m, l), l, cmd.timeout, cmd.timeoutFlag, cmd, now), l, place)
    else
      var terms := TimeoutTerms(cmd, swap);
      UpdateLockedLock(m, l, terms.0, terms.1, cmd, now)
  }

  function ShownLock(cmd: LockCommand, r: Record): LockCommand {
    cmd.(lockId := r.command.lockId, count := r.command.count, rcount := r.command.rcount)
  }

  function HeldOp(m: Manager, l: Lock, cmd: LockCommand, now: int, st: Stats, place: nat): Result {
    var r := m.Get(l);
    if cmd.flag == 0x02 then
      Result(Renew(m, l, cmd, now, place, true), Some(ReplyTo(cmd, LockedError, m.locked, r.locked)),
             [cmd.commandId], st)
    else if r.locked < MAX_DEPTH && r.locked <= cmd.rcount then
      if cmd.expried == 0 then
        Result(m, Some(ReplyTo(cmd.(count := r.command.count, rcount := r.command.rcount), Expried, m.locked,
          r.locked)),
               [cmd.commandId], st)
      else
        var m1 := m.Set(l, r.(locked := r.locked + 1)).(locked := m.locked + 1);
        Result(Renew(m1, l, cmd, now, place, false), Some(ReplyTo(cmd, Succed, m.locked + 1, r.locked + 1)),
               [cmd.commandId], st.(lockCount := st.lockCount + 1, lockedCount := st.lockedCount + 1))
    else
      Result(m, Some(ReplyTo(cmd, LockedError, m.locked, r.locked)), [cmd.commandId], st)
  }

  /** May the lock be granted? */
  predicate DoLock(m: Manager, count: Uint16) {
    || m.locked == 0
    || (m.locked != MAX_LOCKED && m.currentLock.Some? && m.locked <= m.Get(m.currentLock.value).command.count
        && m.locked <= count)
  }

  function GrantHold(m: Manager, l: Lock, now: int, place: nat): Manager {
    AddExpired(AddLock(m, l, now).(locked := m.locked + 1), l, place)
  }

  function FreshOp(m: Manager, cmd: LockCommand, now: int, st: Stats, place: nat): Result
    requires m.freeLocks != []
  {
    var l := m.freeLocks[|m.freeLocks| - 1];
    var m1 := GetOrNewLock(m, cmd, now);
    if !m.waited && DoLock(m, cmd.count) then
      if cmd.expried > 0 then
        Result(GrantHold(m1, l, now, place), Some(ReplyTo(cmd, Succed, m.locked + 1, 1)), [],
               st.(lockCount := st.lockCount + 1, lockedCount := st.lockedCount + 1))
      else
        Result(FreeLock(m1, l), Some(ReplyTo(cmd, Succed, m.locked, m1.Get(l).locked)), [cmd.commandId],
               st.(lockCount := st.lockCount + 1))
    else if cmd.timeout > 0 then
      Result(AddTimeOut(AddWaitLock(m1, l), l, place), None, [], st.(waitCount := st.waitCount + 1))
    else
      Result(FreeLock(m1, l), Some(ReplyTo(cmd, TimedOut, m.locked, m1.Get(l).locked)), [cmd.commandId], st)
  }

  /** Does the request only ask for the current hold? */
  predicate Shows(m: Manager, cmd: LockCommand) {
    m.locked > 0 && m.currentLock.Some? && cmd.flag == 0x01
  }

  function HeldBy(m: Manager, id: LockId): Option<Lock> {
    if m.locked > 0 then GetLockedLock(m, id) else None
  }

  predicate NeedsNewLocks(m: Manager, cmd: LockCommand) {
    !Shows(m, cmd) && HeldBy(m, cmd.lockId).None? && m.freeLocks == []
  }

  /** `news` are the lock objects made when one is needed and the free list is empty. */
  function LockOp(m: Manager, cmd: LockCommand, now: int, st: Stats, news: seq<Lock>, place: nat): Result
    requires NeedsNewLocks(m, cmd) ==> news != []
  {
    if Shows(m, cmd) then
      var r := m.Get(m.currentLock.value);
      Result(m, Some(ReplyTo(ShownLock(cmd, r), UnownError, m.locked, r.locked)), [cmd.commandId], st)
    else
      var found := HeldBy(m, cmd.lockId);
      if found.Some? then HeldOp(m, found.value, cmd, now, st, place)
      else FreshOp(Stocked(m, news), cmd, now, st, place)
  }

  // ---------- unlocking

  /** The lock leaves the holds. If it sat in the long expiry queue nothing else keeps it, and it is recycled. */
  function EndHold(m: Manager, l: Lock): Manager {
    var r := m.Get(l);
    var m1 := m.Set(l, r.(expired := true));
    if r.longWaitIndex > 0 then
      var m2 := RemoveLock(RemoveLongExpired(m1, l), l);
      var m3 := m2.(locked := if r.locked <= m2.locked then m2.locked - r.locked else 0);
      if m3.Get(l).refCount == 0 then FreeLock(m3, l) else m3
    else
      var m2 := RemoveLock(m1, l);
      m2.(locked := if r.locked <= m2.locked then m2.locked - r.locked else 0)
  }

  function ReleaseOp(m: Manager, l: Lock, cmd: LockCommand, st: Stats): Result {
    var r := m.Get(l);
    if r.locked > 1 && cmd.rcount != 0 && m.locked > 0 then
      Result(m.Set(l, r.(locked := r.locked - 1)).(locked := m.locked - 1),
             Some(ReplyTo(cmd, Succed, m.locked - 1, r.locked - 1)), [cmd.commandId],
             st.(unLockCount := st.unLockCount + 1, lockedCount := st.lockedCount - 1))
    else
      var m' := EndHold(m, l);
      Result(m', Some(ReplyTo(cmd, Succed, m'.locked, 0)), [cmd.commandId, r.command.commandId],
             st.(unLockCount := st.unLockCount + r.locked, lockedCount := st.lockedCount - r.locked))
  }

  function UnLockOp(m: Manager, cmd: LockCommand, st: Stats): Result {
    var failed := st.(unlockErrorCount := st.unlockErrorCount + 1);
    if m.locked == 0 || m.currentLock.None? then
      Result(m, Some(ReplyTo(cmd, UnlockError, m.locked, 0)), [cmd.commandId], failed)
    else
      var found := GetLockedLock(m, cmd.lockId);
      if found.Some? then ReleaseOp(m, found.value, cmd, st)
      else if cmd.flag == 0x01 then
        ReleaseOp(m, m.currentLock.value, ShownLock(cmd, m.Get(m.currentLock.value)), st)
      else Result(m, Some(ReplyTo(cmd, UnownError, m.locked, 0)), [cmd.commandId], failed)
  }

  // ---------- timers that fire

  /** A timer structure moves a live lock: to a long queue (`place` > 0), or out of one into a batch. */
  function Retimed(m: Manager, l: Lock, place: nat): Manager {
    m.Set(l, m.Get(l).(longWaitIndex := place))
  }

  /** The timeout entry of a lock is consumed: out of the wheel, the long queue or a collected batch. */
  function DropTimeOut(m: Manager, l: Lock): Manager {
    Release(m.(inTimeout := m.inTimeout - {l}), l)
  }

  function DropExpired(m: Manager, l: Lock): Manager {
    Release(m.(inExpiry := m.inExpiry - {l}), l)
  }

  function DoTimeOutOp(m: Manager, l: Lock, st: Stats): Result {
    var r := m.Get(l);
    if r.timeouted then Result(DropTimeOut(m, l), None, [], st)
    else
      var m1 := DropDeadWaiters(m.Set(l, r.(timeouted := true)));
      var m2 := m1.(waited := m1.waited && m1.waitLocks != []);
      var m3 := DropTimeOut(m2, l);
      Result(m3, Some(ReplyTo(r.command, TimedOut, m3.locked, r.locked)), [r.command.commandId],
             st.(waitCount := st.waitCount - 1, timeoutedCount := st.timeoutedCount + 1))
  }

  function DoExpiredOp(m: Manager, l: Lock, st: Stats): Result {
    var r := m.Get(l);
    if r.expired then Result(DropExpired(m, l), None, [], st)
    else
      var m1 := m.Set(l, r.(expired := true))
                .(locked := if r.locked <= m.locked then m.locked - r.locked else 0);
      var m2 := DropExpired(RemoveLock(m1, l), l);
      Result(m2, Some(ReplyTo(r.command, Expried, m2.locked, 0)), [r.command.commandId],
             st.(lockedCount := st.lockedCount - r.locked, expriedCount := st.expriedCount + r.locked))
  }

  // ---------- waking waiters

  function WakeUpWaitLock(m: Manager, l: Lock, now: int, st: Stats, place: nat): Result {
    var r := m.Get(l);
    var m1 := m.Set(l, r.(timeouted := true));
    var m2 := if r.longWaitIndex > 0 then RemoveLongTimeOut(m1, l) else m1;
    var granted := st.(lockCount := st.lockCount + 1, waitCount := st.waitCount - 1);
    if r.command.expried > 0 then
      Result(GrantHold(m2, l, now, place), Some(ReplyTo(r.command, Succed, m.locked + 1, 1)), [],
             granted.(lockedCount := granted.lockedCount + 1))
    else
      Result(m2, Some(ReplyTo(r.command, Succed, m.locked, r.locked)), [r.command.commandId], granted)
  }

  /** One turn of the wake-up loop. */
  function WakeOp(m: Manager, now: int, st: Stats, place: nat): Result {
    if !m.waited then Result(m, None, [], st)
    else
      var m1 := DropDeadWaiters(m);
      if m1.waitLocks == [] then Result(m1.(waited := false), None, [], st)
      else if !DoLock(m1, m1.Get(m1.waitLocks[0]).command.count) then Result(m1, None, [], st)
      else WakeUpWaitLock(m1, m1.waitLocks[0], now, st, place)
  }
}
