/** The engine itself: lock managers and the database, with lock objects shared by several structures and updated in
    place. Every method is proved against the value-level function of the same name. */
module Engine {
  import opened Protocol
  import opened KeySpec
  import opened KeyProofs
  import opened Lazy
  import opened Locks
  import M = ManagerModel
  import E = EngineModel
  import P = EngineProofs
  import ManagerProofs

  class LockManager {
    var currentLock: Lock?
    var locks: seq<Lock>
    var lockMaps: map<LockId, Lock>
    var waitLocks: seq<Lock>
    var freeLocks: seq<Lock>
    var refCount: int
    var locked: nat
    var waited: bool

    // The lock objects of this key that are in a timeout (expiry) structure or in a batch collected from one, those
    // in use for this key, and those this manager may touch.
    ghost var inTimeout: set<Lock>
    ghost var inExpiry: set<Lock>
    ghost var attached: set<Lock>
    ghost var known: set<Lock>

    ghost function Records(): map<Lock, Record>
      reads this`known, known
    {
      map l | l in known :: l.Fields()
    }

    /** The manager and its lock objects as a value. */
    ghost function Value(): M.Manager
      reads this, known
    {
      M.Manager(Records(), if currentLock == null then None else Some(currentLock), locks, lockMaps, waitLocks,
                freeLocks, refCount, locked, waited, inTimeout, inExpiry, attached)
    }

    /** The key as the reference machine sees it. */
    ghost function Abs(): KeyState
      reads this, known
    {
      M.Abs(Value())
    }

    /** All lock objects that the structures mention are known. */
    ghost predicate Owned()
      reads this
    {
      && (currentLock != null ==> currentLock in known)
      && (forall l :: l in locks ==> l in known)
      && (forall l :: l in waitLocks ==> l in known)
      && (forall l :: l in freeLocks ==> l in known)
      && (forall id :: id in lockMaps ==> lockMaps[id] in known)
      && attached <= known && inTimeout <= known && inExpiry <= known
    }

    /** The invariant whenever the mutex of the manager is free. */
    ghost predicate Valid()
      reads this, known
    {
      Owned() && P.Valid(Value())
    }

    /** Reference counts are exact and recycled locks are in no structure. */
    ghost predicate RefsExact()
      reads this, known
    {
      M.RefsExact(Value(), {}, {})
    }

    constructor ()
      ensures Valid() && RefsExact() && Abs() == EMPTY && known == {}
    {
      currentLock, locks, lockMaps, waitLocks, freeLocks := null, [], map[], [], [];
      refCount, locked, waited := 0, 0, false;
      inTimeout, inExpiry, attached, known := {}, {}, {}, {};
      new;
      hide Valid, RefsExact, Abs;
      Unfilled();
    }

    lemma Unfilled()
      requires currentLock == null && locks == [] && lockMaps == map[] && waitLocks == [] && freeLocks == []
      requires refCount == 0 && locked == 0 && !waited && inTimeout == {} && inExpiry == {} && attached == {}
      requires known == {}
      ensures Valid() && RefsExact() && Abs() == EMPTY
    {
      hide P.Valid, M.RefsExact, M.Abs;
      P.NewManager();
      assert Value() == P.NEW_MANAGER;
    }

    /** Only the fields of `l` changed. */
    twostate lemma Wrote(l: Lock)
      requires l in known && known == old(known)
      requires forall x :: x in known && x != l ==> unchanged(x)
      ensures Records() == old(Records())[l := l.Fields()]
    {
    }

    lemma GetIs(l: Lock)
      requires l in known
      ensures Value().Get(l) == l.Fields()
    {
    }

    lemma ValueIs()
      ensures Value().waited == waited && Value().locked == locked && Value().freeLocks == freeLocks
    {
    }

    method FreeLock(lock: Lock)
      requires Owned() && lock in known
      modifies `refCount, `freeLocks, `attached
      ensures Owned() && Value() == M.FreeLock(old(Value()), lock)
    {
      hide Records;
      refCount := refCount - 1;
      freeLocks := freeLocks + [lock];
      attached := attached - {lock};
    }

    /** Drops one count, and recycles the lock with its last one. */
    method Release(lock: Lock)
      requires Owned() && lock in known
      modifies `refCount, `freeLocks, `attached, lock`refCount
      ensures Owned() && Value() == M.Release(old(Value()), lock)
    {
      hide Records, M.FreeLock;
      GetIs(lock);
      lock.refCount := lock.refCount - 1;
      Wrote(lock);
      if lock.refCount == 0 {
        FreeLock(lock);
      }
    }

    method PopHold()
      requires Owned() && locks != []
      modifies this, known
      ensures Owned() && known == old(known) && Value() == ManagerProofs.PoppedHold(old(Value()))
      ensures locks == old(locks)[1..]
    {
      hide M.Release, Records;
      var lock := locks[0];
      locks := locks[1..];
      Release(lock);
    }

    /** Drops the holds that are gone from the front of the queue. */
    method DropDeadHolds()
      requires Owned()
      modifies this, known
      ensures Owned() && known == old(known) && Value() == M.DropDeadHolds(old(Value()))
    {
      hide M.DropDeadHolds, ManagerProofs.PoppedHold;
      while locks != [] && locks[0].locked == 0
        invariant Owned() && known == old(known)
        invariant M.DropDeadHolds(Value()) == M.DropDeadHolds(old(Value()))
        decreases |locks|
      {
        ManagerProofs.DropHoldsStep(Value());
        GetIs(locks[0]);
        PopHold();
      }
      ManagerProofs.DropHoldsStep(Value());
    }

    /** The oldest hold of the queue becomes the current lock. */
    method Promote()
      requires Owned()
      modifies `currentLock, `locks, `lockMaps
      ensures Owned() && Value() == M.Promote(old(Value()))
    {
      hide Records;
      if locks != [] {
        GetIs(locks[0]);
        lockMaps := lockMaps - {locks[0].command.lockId};
        currentLock := locks[0];
        locks := locks[1..];
      }
    }

    method RemoveCurrent(lock: Lock)
      requires Owned() && lock in known && currentLock == lock
      modifies this, known
      ensures Owned() && known == old(known) && Value() == M.RemoveLock(old(Value()), lock)
    {
      hide M.DropDeadHolds, M.Promote, Records;
      GetIs(lock);
      lock.locked, lock.refCount := 0, lock.refCount - 1;
      Wrote(lock);
      currentLock := null;
      DropDeadHolds();
      Promote();
    }

    method RemoveQueued(lock: Lock)
      requires Owned() && lock in known && currentLock != lock
      modifies this, known
      ensures Owned() && known == old(known) && Value() == M.RemoveLock(old(Value()), lock)
    {
      hide M.DropDeadHolds, M.Promote, Records;
      GetIs(lock);
      lock.locked := 0;
      Wrote(lock);
      lockMaps := lockMaps - {lock.command.lockId};
      DropDeadHolds();
    }

    method RemoveLock(lock: Lock)
      requires Owned() && lock in known
      modifies this, known
      ensures Owned() && known == old(known) && Value() == M.RemoveLock(old(Value()), lock)
    {
      hide M.RemoveLock, Records;
      if currentLock == lock {
        RemoveCurrent(lock);
      } else {
        RemoveQueued(lock);
      }
    }

    method PopWaiter()
      requires Owned() && waitLocks != []
      modifies this, known
      ensures Owned() && known == old(known) && Value() == ManagerProofs.PoppedWaiter(old(Value()))
      ensures waitLocks == old(waitLocks)[1..]
    {
      hide M.Release, Records;
      var lock := waitLocks[0];
      waitLocks := waitLocks[1..];
      Release(lock);
    }

    /** Drops the requests that no longer wait from the front of the queue, and gives the oldest that does. */
    method GetWaitLock() returns (lock: Lock?)
      requires Owned()
      modifies this, known
      ensures Owned() && known == old(known) && Value() == M.DropDeadWaiters(old(Value()))
      ensures lock == if waitLocks == [] then null else waitLocks[0]
    {
      hide M.DropDeadWaiters, ManagerProofs.PoppedWaiter;
      while waitLocks != [] && waitLocks[0].timeouted
        invariant Owned() && known == old(known)
        invariant M.DropDeadWaiters(Value()) == M.DropDeadWaiters(old(Value()))
        decreases |waitLocks|
      {
        ManagerProofs.DropWaitersStep(Value());
        GetIs(waitLocks[0]);
        PopWaiter();
      }
      ManagerProofs.DropWaitersStep(Value());
      lock := if waitLocks == [] then null else waitLocks[0];
    }

    method Grant(lock: Lock, now: int)
      modifies lock
      ensures lock.Fields() == M.Granted(old(lock.Fields()), now) && lock.command == old(lock.command)
      ensures lock.locked == 1 && lock.refCount == old(lock.refCount) + 1
      ensures lock.command.expriedFlag & 0x0400 == 0 ==> lock.expireTime == now + lock.command.expried + 1
      ensures lock.command.expriedFlag & 0x0400 != 0 && lock.command.expriedFlag & 0x4000 != 0 ==>
                lock.expireTime == 0x7fff_ffff_ffff_ffff
    {
      if M.SetsDeadline(lock.command) {
        lock.expireTime := ExpireTime(now, lock.command.expried, lock.command.expriedFlag);
      }
      lock.locked, lock.refCount := 1, lock.refCount + 1;
    }

    method AddLock(lock: Lock, now: int)
      requires Owned() && lock in known
      modifies `currentLock, `locks, `lockMaps, lock
      ensures Owned() && Value() == M.AddLock(old(Value()), lock, now)
      ensures lock.locked == 1 && lock.refCount == old(lock.refCount) + 1 && lock.command == old(lock.command)
      ensures lock.command.expriedFlag & 0x0400 == 0 ==> lock.expireTime == now + lock.command.expried + 1
      ensures lock.command.expriedFlag & 0x0400 != 0 && lock.command.expriedFlag & 0x4000 != 0 ==>
                lock.expireTime == 0x7fff_ffff_ffff_ffff
      ensures if old(currentLock) == null then currentLock == lock && locks == old(locks) && lockMaps == old(lockMaps)
              else currentLock == old(currentLock) && locks == old(locks) + [lock]
                   && lockMaps == old(lockMaps)[lock.command.lockId := lock]
    {
      hide Records, M.Granted;
      GetIs(lock);
      Grant(lock, now);
      Wrote(lock);
      if currentLock == null {
        currentLock := lock;
      } else {
        locks := locks + [lock];
        lockMaps := lockMaps[lock.command.lockId := lock];
      }
    }

    method AddWaitLock(lock: Lock)
      requires Owned() && lock in known
      modifies `waitLocks, `waited, lock`refCount
      ensures Owned() && Value() == M.AddWaitLock(old(Value()), lock)
    {
      hide Records;
      GetIs(lock);
      lock.refCount := lock.refCount + 1;
      Wrote(lock);
      waitLocks := waitLocks + [lock];
      waited := true;
    }

    /** Between critical sections, the lock found is the hold that the reference machine finds for the id. */
    method GetLockedLock(id: LockId) returns (lock: Lock?)
      requires Owned()
      ensures Valid() && currentLock != null ==>
                var i := Find(Abs(), id);
                if lock == null then i.None?
                else i.Some? && Abs().holders[i.value] == HoldOf(M.ViewOf(lock.Fields()))
      ensures M.GetLockedLock(Value(), id) == if lock == null then None else Some(lock)
      ensures lock != null ==> lock in known
    {
      hide Records, P.Valid, M.Abs, Find, HoldOf, M.ViewOf;
      lock := LookUp(id);
      if P.Valid(Value()) && currentLock != null {
        P.FoundHold(Value(), id);
        if lock != null {
          GetIs(lock);
        }
      }
    }

    method LookUp(id: LockId) returns (lock: Lock?)
      requires Owned()
      ensures M.GetLockedLock(Value(), id) == if lock == null then None else Some(lock)
      ensures lock != null ==> lock in known
    {
      hide Records;
      if currentLock != null {
        GetIs(currentLock);
        if currentLock.command.lockId == id {
          return currentLock;
        }
      }
      lock := if id in lockMaps then lockMaps[id] else null;
    }

    method UpdateLockedLock(lock: Lock, timeout: Uint16, timeoutFlag: bv16, cmd: LockCommand, now: int)
      requires Owned() && lock in known
      modifies lock
      ensures Owned() && Value() == E.UpdateLockedLock(old(Value()), lock, timeout, timeoutFlag, cmd, now)
      ensures lock.command.count == cmd.count && lock.command.rcount == cmd.rcount
      ensures lock.command.lockId == old(lock.command.lockId) && lock.command.commandId == old(lock.command.commandId)
      ensures cmd.expriedFlag & 0x0400 == 0 ==> lock.expireTime == now + cmd.expried + 1
      ensures cmd.expriedFlag & 0x0400 != 0 && cmd.expriedFlag & 0x4000 != 0 ==>
                lock.expireTime == 0x7fff_ffff_ffff_ffff
      ensures cmd.expriedFlag & 0x0400 != 0 && cmd.expriedFlag & 0x4000 == 0 ==> lock.expireTime == 0
      ensures timeoutFlag & 0x0400 == 0 ==> lock.timeoutTime == now + timeout + 1
      ensures lock.expireCheckedCount == if cmd.expriedFlag & 0x2000 == 0 then 1 else old(lock.expireCheckedCount)
      ensures lock.timeoutCheckedCount == if timeoutFlag & 0x2000 == 0 then 1 else old(lock.timeoutCheckedCount)
      ensures lock.locked == old(lock.locked) && lock.refCount == old(lock.refCount)
    {
      hide Records, ExpireTime, TimeoutTime;
      GetIs(lock);
      Deadlines(now, timeout, timeoutFlag, cmd.expried, cmd.expriedFlag);
      lock.command := lock.command.(timeout := timeout, timeoutFlag := timeoutFlag, expried := cmd.expried,
                                    expriedFlag := cmd.expriedFlag, count := cmd.count, rcount := cmd.rcount);
      lock.timeoutTime := TimeoutTime(now, timeout, timeoutFlag);
      lock.expireTime := ExpireTime(now, cmd.expried, cmd.expriedFlag);
      if timeoutFlag & 0x2000 == 0 {
        lock.timeoutCheckedCount := 1;
      }
      if cmd.expriedFlag & 0x2000 == 0 {
        lock.expireCheckedCount := 1;
      }
      Wrote(lock);
    }

    lemma Deadlines(now: int, timeout: Uint16, timeoutFlag: bv16, expried: Uint16, expriedFlag: bv16)
      ensures expriedFlag & 0x0400 == 0 ==> ExpireTime(now, expried, expriedFlag) == now + expried + 1
      ensures expriedFlag & 0x0400 != 0 && expriedFlag & 0x4000 != 0 ==>
                ExpireTime(now, expried, expriedFlag) == 0x7fff_ffff_ffff_ffff
      ensures expriedFlag & 0x0400 != 0 && expriedFlag & 0x4000 == 0 ==> ExpireTime(now, expried, expriedFlag) == 0
      ensures timeoutFlag & 0x0400 == 0 ==> TimeoutTime(now, timeout, timeoutFlag) == now + timeout + 1
    {
    }

    method MakeLocks() returns (made: seq<Lock>)
      ensures |made| == 8 && fresh(made) && M.NoDuplicates(made)
      ensures forall l :: l in made ==> l.Fields() == BLANK
    {
      made := [];
      while |made| < 8
        invariant |made| <= 8 && fresh(made) && M.NoDuplicates(made)
        invariant forall l :: l in made ==> l.Fields() == BLANK
      {
        var lock := new Lock();
        made := made + [lock];
      }
    }

    /** Eight new lock objects when the free list is empty; the last listed is the first to be used. */
    method Stock() returns (ghost news: seq<Lock>)
      requires Owned()
      modifies `freeLocks, `known
      ensures Owned() && freeLocks != [] && old(known) <= known && fresh(known - old(known))
      ensures old(freeLocks) == [] ==> P.NewLocks(old(Value()), news)
      ensures Value() == E.Stocked(old(Value()), news)
    {
      hide Records;
      news := [];
      if freeLocks == [] {
        var made := MakeLocks();
        freeLocks := made;
        known := known + (set l | l in made);
        news := made;
        Made(made);
      }
    }

    /** Adding blank locks is all that stocking does to the records. */
    twostate lemma Made(new made: seq<Lock>)
      requires fresh(made) && old(freeLocks) == [] && known == old(known) + (set l | l in made)
      requires forall l :: l in made ==> l.Fields() == BLANK
      requires forall x :: x in old(known) ==> unchanged(x)
      requires old(Owned()) && made != [] && M.NoDuplicates(made)
      ensures Records() == E.Stocked(old(Value()), made).records && P.NewLocks(old(Value()), made)
    {
    }

    method Fill(lock: Lock, cmd: LockCommand, now: int)
      modifies lock
      ensures lock.Fields() == E.Filled(old(lock.Fields()), cmd, now)
      ensures lock.command == cmd && lock.startTime == now && lock.expireTime == 0 && lock.longWaitIndex == 0
      ensures lock.timeoutTime == if cmd.timeoutFlag & 0x0400 == 0 then now + cmd.timeout + 1 else 0
      ensures lock.timeoutCheckedCount == 1 && lock.expireCheckedCount == 1
    {
      lock.command, lock.startTime, lock.expireTime := cmd, now, 0;
      lock.timeoutTime := TimeoutTime(now, cmd.timeout, cmd.timeoutFlag);
      lock.timeoutCheckedCount, lock.expireCheckedCount, lock.longWaitIndex := 1, 1, 0;
    }

    method GetOrNewLock(cmd: LockCommand, now: int) returns (lock: Lock)
      requires Owned() && freeLocks != []
      modifies `freeLocks, `refCount, `attached, known
      ensures Owned() && lock in known && lock == old(freeLocks)[|old(freeLocks)| - 1]
      ensures Value() == E.GetOrNewLock(old(Value()), cmd, now)
      ensures lock.command == cmd && lock.startTime == now && lock.expireTime == 0 && lock.longWaitIndex == 0
      ensures lock.timeoutTime == if cmd.timeoutFlag & 0x0400 == 0 then now + cmd.timeout + 1 else 0
      ensures lock.timeoutCheckedCount == 1 && lock.expireCheckedCount == 1
    {
      hide Records, E.Filled;
      lock := freeLocks[|freeLocks| - 1];
      GetIs(lock);
      Fill(lock, cmd, now);
      Wrote(lock);
      freeLocks := freeLocks[..|freeLocks| - 1];
      refCount := refCount + 1;
      attached := attached + {lock};
    }
  }

  /** A database: the clock, the counters, and the critical sections on a manager. `place` is the index that the long
      queue gives to a lock it takes in, or 0 when the lock goes to the wheel. */
  class LockDB {
    var currentTime: int
    var state: Stats

    constructor (now: int)
      ensures currentTime == now && state == Stats(0, 0, 0, 0, 0, 0, 0)
    {
      currentTime, state := now, Stats(0, 0, 0, 0, 0, 0, 0);
    }

    // ---------- timers

    method AddTimeOut(m: LockManager, lock: Lock, place: nat)
      requires m.Owned() && lock in m.known
      modifies m`inTimeout, lock
      ensures m.Owned() && m.Value() == E.AddTimeOut(old(m.Value()), lock, place)
      ensures !lock.timeouted && lock.refCount == old(lock.refCount) + 1 && m.inTimeout == old(m.inTimeout) + {lock}
      ensures lock.longWaitIndex == if place > 0 then place else old(lock.longWaitIndex)
    {
      hide LockManager.Records;
      m.GetIs(lock);
      lock.timeouted, lock.refCount := false, lock.refCount + 1;
      if place > 0 {
        lock.longWaitIndex := place;
      }
      m.Wrote(lock);
      m.inTimeout := m.inTimeout + {lock};
    }

    method AddExpired(m: LockManager, lock: Lock, place: nat)
      requires m.Owned() && lock in m.known
      modifies m`inExpiry, lock
      ensures m.Owned() && m.Value() == E.AddExpired(old(m.Value()), lock, place)
      ensures !lock.expired && lock.refCount == old(lock.refCount) + 1 && m.inExpiry == old(m.inExpiry) + {lock}
      ensures lock.longWaitIndex == if place > 0 then place else old(lock.longWaitIndex)
    {
      hide LockManager.Records;
      m.GetIs(lock);
      lock.expired, lock.refCount := false, lock.refCount + 1;
      if place > 0 {
        lock.longWaitIndex := place;
      }
      m.Wrote(lock);
      m.inExpiry := m.inExpiry + {lock};
    }

    method RemoveLongTimeOut(m: LockManager, lock: Lock)
      requires m.Owned() && lock in m.known
      modifies m`inTimeout, lock
      ensures m.Owned() && m.Value() == E.RemoveLongTimeOut(old(m.Value()), lock)
      ensures lock.longWaitIndex == 0 && lock.refCount == old(lock.refCount) - 1
      ensures m.inTimeout == old(m.inTimeout) - {lock} && lock.timeouted == old(lock.timeouted)
    {
      hide LockManager.Records;
      m.GetIs(lock);
      lock.longWaitIndex, lock.refCount := 0, lock.refCount - 1;
      m.Wrote(lock);
      m.inTimeout := m.inTimeout - {lock};
    }

    method RemoveLongExpired(m: LockManager, lock: Lock)
      requires m.Owned() && lock in m.known
      modifies m`inExpiry, lock
      ensures m.Owned() && m.Value() == E.RemoveLongExpired(old(m.Value()), lock)
      ensures lock.longWaitIndex == 0 && lock.refCount == old(lock.refCount) - 1
      ensures m.inExpiry == old(m.inExpiry) - {lock} && lock.expired == old(lock.expired)
    {
      hide LockManager.Records;
      m.GetIs(lock);
      lock.longWaitIndex, lock.refCount := 0, lock.refCount - 1;
      m.Wrote(lock);
      m.inExpiry := m.inExpiry - {lock};
    }

    /** A timer moves a live lock: to a long queue, where it gets the index `place`, or out of one into a batch. */
    method Retime(m: LockManager, lock: Lock, place: nat)
      requires m.Valid() && m.RefsExact()
      requires (lock in m.inExpiry && !lock.expired) || (lock in m.inTimeout && !lock.timeouted)
      modifies lock`longWaitIndex
      ensures m.Valid() && m.RefsExact() && m.Abs() == old(m.Abs()) && lock.longWaitIndex == place
    {
      hide LockManager.Records, P.Valid, M.RefsExact, M.Abs;
      m.GetIs(lock);
      ghost var before := m.Value();
      P.RetimedKeeps(before, lock, place);
      lock.longWaitIndex := place;
      m.Wrote(lock);
    }

    // ---------- locking

    method Renew(m: LockManager, lock: Lock, cmd: LockCommand, place: nat, swap: bool)
      requires m.Owned() && lock in m.known
      modifies m`inExpiry, lock
      ensures m.Owned() && m.Value() == E.Renew(old(m.Value()), lock, cmd, currentTime, place, swap)
    {
      hide LockManager.Records, LockManager.Value, E.AddExpired, E.UpdateLockedLock, E.RemoveLongExpired,
           E.TimeoutTerms;
      m.GetIs(lock);
      if lock.longWaitIndex > 0 {
        RemoveLongExpired(m, lock);
        m.UpdateLockedLock(lock, cmd.timeout, cmd.timeoutFlag, cmd, currentTime);
        AddExpired(m, lock, place);
      } else {
        var terms := E.TimeoutTerms(cmd, swap);
        m.UpdateLockedLock(lock, terms.0, terms.1, cmd, currentTime);
      }
    }

    method LockHeld(m: LockManager, lock: Lock, cmd: LockCommand, place: nat)
      returns (reply: Option<Reply>, freed: seq<nat>)
      requires m.Owned() && lock in m.known
      modifies `state, m`inExpiry, m`locked, lock
      ensures m.Owned()
      ensures E.Result(m.Value(), reply, freed, state)
              == E.HeldOp(old(m.Value()), lock, cmd, currentTime, old(state), place)
    {
      hide LockManager.Records, E.Renew, ReplyTo;
      m.GetIs(lock);
      freed := [cmd.commandId];
      var locked, depth := m.locked, lock.locked;
      if cmd.flag == 0x02 {
        reply := Some(ReplyTo(cmd, LockedError, locked, depth));
        Renew(m, lock, cmd, place, true);
      } else if depth < MAX_DEPTH && depth <= cmd.rcount {
        if cmd.expried == 0 {
          var shown := cmd.(count := lock.command.count, rcount := lock.command.rcount);
          reply := Some(ReplyTo(shown, Expried, locked, depth));
        } else {
          m.locked, lock.locked := locked + 1, depth + 1;
          m.Wrote(lock);
          Renew(m, lock, cmd, place, false);
          reply := Some(ReplyTo(cmd, Succed, locked + 1, depth + 1));
          state := state.(lockCount := state.lockCount + 1, lockedCount := state.lockedCount + 1);
        }
      } else {
        reply := Some(ReplyTo(cmd, LockedError, locked, depth));
      }
    }

    /** Between critical sections: nothing is held, or the levels held are at most the Count of the first hold and
        that of the request, and not 65535. */
    method DoLock(m: LockManager, count: Uint16) returns (granted: bool)
      requires m.Owned()
      ensures m.Valid() ==>
                var hs := m.Abs().holders; var n := Locked(hs);
                granted <==> n == 0 || (n != 65535 && hs != [] && n <= hs[0].count && n <= count)
      ensures granted == E.DoLock(m.Value(), count)
    {
      hide P.Valid, M.Abs, Locked, E.DoLock;
      granted := GrantTest(m, count);
      if P.Valid(m.Value()) {
        P.ValidFacts(m.Value(), count);
      }
    }

    method GrantTest(m: LockManager, count: Uint16) returns (granted: bool)
      requires m.Owned()
      ensures granted == E.DoLock(m.Value(), count)
    {
      hide LockManager.Records;
      if m.locked == 0 {
        return true;
      }
      if m.locked == MAX_LOCKED || m.currentLock == null {
        return false;
      }
      m.GetIs(m.currentLock);
      return m.locked <= m.currentLock.command.count && m.locked <= count;
    }

    method GrantHold(m: LockManager, lock: Lock, place: nat)
      requires m.Owned() && lock in m.known
      modifies m, m.known
      ensures m.Owned() && m.known == old(m.known)
      ensures m.Value() == E.GrantHold(old(m.Value()), lock, currentTime, place)
    {
      hide LockManager.Records, M.AddLock, E.AddExpired;
      m.AddLock(lock, currentTime);
      m.locked := m.locked + 1;
      AddExpired(m, lock, place);
    }

    method LockFresh(m: LockManager, cmd: LockCommand, place: nat) returns (reply: Option<Reply>, freed: seq<nat>)
      requires m.Owned() && m.freeLocks != []
      modifies `state, m, m.known
      ensures m.Owned() && m.known == old(m.known)
      ensures E.Result(m.Value(), reply, freed, state)
              == E.FreshOp(old(m.Value()), cmd, currentTime, old(state), place)
    {
      hide LockManager.Value, LockManager.Owned, LockManager.Valid, LockManager.Abs, E.GrantHold, E.GetOrNewLock,
           M.FreeLock, M.AddWaitLock, E.AddTimeOut, ReplyTo, E.DoLock;
      m.ValueIs();
      var free := DoLock(m, cmd.count);
      var granted := !m.waited && free;
      var locked := m.locked;
      var lock := m.GetOrNewLock(cmd, currentTime);
      m.GetIs(lock);
      reply, freed := None, [];
      if granted && cmd.expried > 0 {
        GrantHold(m, lock, place);
        reply := Some(ReplyTo(cmd, Succed, locked + 1, 1));
        state := state.(lockCount := state.lockCount + 1, lockedCount := state.lockedCount + 1);
      } else if granted {
        reply, freed := Some(ReplyTo(cmd, Succed, locked, lock.locked)), [cmd.commandId];
        m.FreeLock(lock);
        state := state.(lockCount := state.lockCount + 1);
      } else if cmd.timeout > 0 {
        m.AddWaitLock(lock);
        AddTimeOut(m, lock, place);
        state := state.(waitCount := state.waitCount + 1);
      } else {
        reply, freed := Some(ReplyTo(cmd, TimedOut, locked, lock.locked)), [cmd.commandId];
        m.FreeLock(lock);
      }
    }

    method ShowLock(m: LockManager, cmd: LockCommand) returns (reply: Option<Reply>)
      requires m.Owned() && m.currentLock != null
      ensures var r := m.Value().Get(m.currentLock);
              reply == Some(ReplyTo(E.ShownLock(cmd, r), UnownError, m.locked, r.locked))
    {
      m.GetIs(m.currentLock);
      reply := Some(ReplyTo(E.ShownLock(cmd, m.currentLock.Fields()), UnownError, m.locked, m.currentLock.locked));
    }

    method LockSection(m: LockManager, cmd: LockCommand, place: nat)
      returns (reply: Option<Reply>, freed: seq<nat>, ghost news: seq<Lock>)
      requires m.Owned()
      modifies `state, m, m.known
      ensures m.Owned() && old(m.known) <= m.known && fresh(m.known - old(m.known))
      ensures E.NeedsNewLocks(old(m.Value()), cmd) ==> P.NewLocks(old(m.Value()), news)
      ensures E.Result(m.Value(), reply, freed, state)
              == E.LockOp(old(m.Value()), cmd, currentTime, old(state), news, place)
    {
      hide LockManager.Records, E.HeldOp, E.FreshOp, E.Stocked, M.GetLockedLock, LockManager.Owned, P.NewLocks,
           M.Manager.Get;
      if m.locked > 0 && m.currentLock != null && cmd.flag == 0x01 {
        news := [];
        reply := ShowLock(m, cmd);
        freed := [cmd.commandId];
      } else {
        var lock: Lock? := null;
        if m.locked > 0 {
          lock := m.GetLockedLock(cmd.lockId);
        }
        if lock != null {
          news := [];
          reply, freed := LockHeld(m, lock, cmd, place);
        } else {
          news := m.Stock();
          reply, freed := LockFresh(m, cmd, place);
        }
      }
    }

    /** A lock request does to the key what the reference machine does, and keeps the representation. */
    method Lock(m: LockManager, cmd: LockCommand, place: nat) returns (reply: Option<Reply>, freed: seq<nat>)
      requires m.Valid() && m.RefsExact() && Owned(m.Abs(), cmd.commandId) == 0
      modifies `state, m, m.known
      ensures m.Valid() && m.RefsExact() && fresh(m.known - old(m.known))
      ensures Outcome(m.Abs(), reply, freed, state) == LockStep(old(m.Abs()), cmd, currentTime, old(state))
    {
      hide LockManager.Value, LockManager.Owned, P.Valid, M.RefsExact, M.Abs, E.LockOp, LockStep, P.NewLocks;
      ghost var before, st := m.Value(), state;
      ghost var news;
      reply, freed, news := LockSection(m, cmd, place);
      P.LockRefines(before, cmd, currentTime, st, news, place);
    }

    // ---------- unlocking

    method EndHold(m: LockManager, lock: Lock)
      requires m.Owned() && lock in m.known
      modifies m, m.known
      ensures m.Owned() && m.known == old(m.known) && m.Value() == E.EndHold(old(m.Value()), lock)
    {
      hide LockManager.Records, LockManager.Owned, M.RemoveLock, E.RemoveLongExpired, M.FreeLock;
      m.GetIs(lock);
      var depth := lock.locked;
      lock.expired := true;
      m.Wrote(lock);
      if lock.longWaitIndex > 0 {
        RemoveLongExpired(m, lock);
        m.RemoveLock(lock);
        Subtract(m, depth);
        m.GetIs(lock);
        if lock.refCount == 0 {
          m.FreeLock(lock);
        }
      } else {
        m.RemoveLock(lock);
        Subtract(m, depth);
      }
    }

    method Subtract(m: LockManager, depth: nat)
      requires m.Owned()
      modifies m`locked
      ensures m.Owned()
      ensures var v := old(m.Value()); m.Value() == v.(locked := if depth <= v.locked then v.locked - depth else 0)
    {
      hide LockManager.Records;
      m.locked := if depth <= m.locked then m.locked - depth else 0;
    }

    method Release(m: LockManager, lock: Lock, cmd: LockCommand) returns (reply: Option<Reply>, freed: seq<nat>)
      requires m.Owned() && lock in m.known
      modifies `state, m, m.known
      ensures m.Owned() && m.known == old(m.known)
      ensures E.Result(m.Value(), reply, freed, state) == E.ReleaseOp(old(m.Value()), lock, cmd, old(state))
    {
      hide LockManager.Records, E.EndHold, ReplyTo;
      m.GetIs(lock);
      var depth := lock.locked;
      if depth > 1 && cmd.rcount != 0 && m.locked > 0 {
        m.locked, lock.locked := m.locked - 1, depth - 1;
        m.Wrote(lock);
        reply, freed := Some(ReplyTo(cmd, Succed, m.locked, depth - 1)), [cmd.commandId];
        state := state.(unLockCount := state.unLockCount + 1, lockedCount := state.lockedCount - 1);
      } else {
        freed := [cmd.commandId, lock.command.commandId];
        EndHold(m, lock);
        reply := Some(ReplyTo(cmd, Succed, m.locked, 0));
        state := state.(unLockCount := state.unLockCount + depth, lockedCount := state.lockedCount - depth);
      }
    }

    method UnLockSection(m: LockManager, cmd: LockCommand) returns (reply: Option<Reply>, freed: seq<nat>)
      requires m.Owned()
      modifies `state, m, m.known
      ensures m.Owned() && m.known == old(m.known)
      ensures E.Result(m.Value(), reply, freed, state) == E.UnLockOp(old(m.Value()), cmd, old(state))
    {
      hide LockManager.Records, E.ReleaseOp, M.GetLockedLock, ReplyTo, E.ShownLock;
      freed := [cmd.commandId];
      if m.locked == 0 || m.currentLock == null {
        reply := Some(ReplyTo(cmd, UnlockError, m.locked, 0));
        state := state.(unlockErrorCount := state.unlockErrorCount + 1);
        return;
      }
      var lock := m.GetLockedLock(cmd.lockId);
      if lock != null {
        reply, freed := Release(m, lock, cmd);
      } else if cmd.flag == 0x01 {
        m.GetIs(m.currentLock);
        reply, freed := Release(m, m.currentLock, E.ShownLock(cmd, m.currentLock.Fields()));
      } else {
        reply := Some(ReplyTo(cmd, UnownError, m.locked, 0));
        state := state.(unlockErrorCount := state.unlockErrorCount + 1);
      }
    }

    /** The critical section of an unlock request does to the key what the reference machine does; reference counts
        stay exact unless it recycles a lock that the cleaning of the queue has already recycled. */
    method UnLock(m: LockManager, cmd: LockCommand) returns (reply: Option<Reply>, freed: seq<nat>)
      requires m.Valid() && m.RefsExact() && Owned(m.Abs(), cmd.commandId) == 0
      modifies `state, m, m.known
      ensures m.Valid() && m.known == old(m.known)
      ensures m.RefsExact() <==> !old(P.FreesTwice(m.Value(), cmd))
      ensures Outcome(m.Abs(), reply, freed, state) == UnlockStep(old(m.Abs()), cmd, old(state))
    {
      hide LockManager.Value, LockManager.Owned, P.Valid, M.RefsExact, M.Abs, E.UnLockOp, UnlockStep, P.FreesTwice;
      ghost var before, st := m.Value(), state;
      reply, freed := UnLockSection(m, cmd);
      P.UnlockRefines(before, cmd, st);
    }

    // ---------- timers that fire

    method DropTimeOut(m: LockManager, lock: Lock)
      requires m.Owned() && lock in m.known
      modifies m, m.known
      ensures m.Owned() && m.known == old(m.known) && m.Value() == E.DropTimeOut(old(m.Value()), lock)
    {
      hide LockManager.Records, M.Release;
      m.inTimeout := m.inTimeout - {lock};
      m.Release(lock);
    }

    method DropExpired(m: LockManager, lock: Lock)
      requires m.Owned() && lock in m.known
      modifies m, m.known
      ensures m.Owned() && m.known == old(m.known) && m.Value() == E.DropExpired(old(m.Value()), lock)
    {
      hide LockManager.Records, M.Release;
      m.inExpiry := m.inExpiry - {lock};
      m.Release(lock);
    }

    /** The lock no longer waits, and the queue is cleaned. */
    method StopWaiting(m: LockManager, lock: Lock)
      requires m.Owned() && lock in m.known
      modifies m, m.known
      ensures m.Owned() && m.known == old(m.known)
      ensures var v := old(m.Value());
              var w := M.DropDeadWaiters(v.Set(lock, v.Get(lock).(timeouted := true)));
              m.Value() == w.(waited := w.waited && w.waitLocks != [])
    {
      hide LockManager.Records, M.DropDeadWaiters;
      m.GetIs(lock);
      lock.timeouted := true;
      m.Wrote(lock);
      var next := m.GetWaitLock();
      if next == null {
        m.waited := false;
      }
    }

    method TimeOutSection(m: LockManager, lock: Lock) returns (reply: Option<Reply>, freed: seq<nat>)
      requires m.Owned() && lock in m.known
      modifies `state, m, m.known
      ensures m.Owned() && m.known == old(m.known)
      ensures E.Result(m.Value(), reply, freed, state) == E.DoTimeOutOp(old(m.Value()), lock, old(state))
    {
      hide LockManager.Records, LockManager.Owned, M.DropDeadWaiters, E.DropTimeOut, ReplyTo;
      m.GetIs(lock);
      reply, freed := None, [];
      if lock.timeouted {
        DropTimeOut(m, lock);
        return;
      }
      var depth, cmd := lock.locked, lock.command;
      StopWaiting(m, lock);
      DropTimeOut(m, lock);
      reply, freed := Some(ReplyTo(cmd, TimedOut, m.locked, depth)), [cmd.commandId];
      state := state.(waitCount := state.waitCount - 1, timeoutedCount := state.timeoutedCount + 1);
    }

    /** The timeout entry of a request comes up. A request that still waits is timed out; one that was granted in the
        meantime only loses the entry. */
    method DoTimeOut(m: LockManager, lock: Lock) returns (reply: Option<Reply>, freed: seq<nat>)
      requires m.Valid() && m.RefsExact() && lock in m.inTimeout
      requires !lock.timeouted ==> lock.longWaitIndex == 0
      modifies `state, m, m.known
      ensures m.Valid() && m.RefsExact() && m.known == old(m.known)
      ensures Outcome(m.Abs(), reply, freed, state)
              == if old(lock.timeouted) then Outcome(old(m.Abs()), None, [], old(state))
                 else TimeOutStep(old(m.Abs()), old(lock.command.commandId), old(state))
    {
      hide LockManager.Records, P.Valid, M.RefsExact, M.Abs, E.DoTimeOutOp, TimeOutStep;
      m.GetIs(lock);
      ghost var before, st := m.Value(), state;
      reply, freed := TimeOutSection(m, lock);
      P.TimeOutRefines(before, lock, st);
    }

    method ExpireSection(m: LockManager, lock: Lock) returns (reply: Option<Reply>, freed: seq<nat>)
      requires m.Owned() && lock in m.known
      modifies `state, m, m.known
      ensures m.Owned() && m.known == old(m.known)
      ensures E.Result(m.Value(), reply, freed, state) == E.DoExpiredOp(old(m.Value()), lock, old(state))
    {
      hide LockManager.Records, M.RemoveLock, E.DropExpired, ReplyTo;
      m.GetIs(lock);
      reply, freed := None, [];
      if lock.expired {
        DropExpired(m, lock);
        return;
      }
      var depth, cmd := lock.locked, lock.command;
      lock.expired := true;
      m.Wrote(lock);
      Subtract(m, depth);
      m.RemoveLock(lock);
      DropExpired(m, lock);
      reply, freed := Some(ReplyTo(cmd, Expried, m.locked, 0)), [cmd.commandId];
      state := state.(lockedCount := state.lockedCount - depth, expriedCount := state.expriedCount + depth);
    }

    /** The expiry entry of a hold comes up. A live hold is ended; one that was released in the meantime only loses the
        entry. */
    method DoExpired(m: LockManager, lock: Lock) returns (reply: Option<Reply>, freed: seq<nat>)
      requires m.Valid() && m.RefsExact() && lock in m.inExpiry && lock.longWaitIndex == 0
      modifies `state, m, m.known
      ensures m.Valid() && m.RefsExact() && m.known == old(m.known)
      ensures Outcome(m.Abs(), reply, freed, state)
              == if old(lock.expired) then Outcome(old(m.Abs()), None, [], old(state))
                 else ExpireStep(old(m.Abs()), old(lock.command.commandId), old(state))
    {
      hide LockManager.Records, P.Valid, M.RefsExact, M.Abs, E.DoExpiredOp, ExpireStep;
      m.GetIs(lock);
      ghost var before, st := m.Value(), state;
      reply, freed := ExpireSection(m, lock);
      P.ExpireRefines(before, lock, st);
    }

    // ---------- waking waiters

    method WakeUpWaitLock(m: LockManager, lock: Lock, place: nat) returns (reply: Option<Reply>, freed: seq<nat>)
      requires m.Owned() && lock in m.known
      modifies `state, m, m.known
      ensures m.Owned() && m.known == old(m.known)
      ensures E.Result(m.Value(), reply, freed, state)
              == E.WakeUpWaitLock(old(m.Value()), lock, currentTime, old(state), place)
    {
      hide LockManager.Records, E.RemoveLongTimeOut, E.GrantHold, ReplyTo;
      m.GetIs(lock);
      var locked, depth, cmd := m.locked, lock.locked, lock.command;
      lock.timeouted := true;
      m.Wrote(lock);
      if lock.longWaitIndex > 0 {
        RemoveLongTimeOut(m, lock);
      }
      state := state.(lockCount := state.lockCount + 1, waitCount := state.waitCount - 1);
      if cmd.expried > 0 {
        GrantHold(m, lock, place);
        reply, freed := Some(ReplyTo(cmd, Succed, locked + 1, 1)), [];
        state := state.(lockedCount := state.lockedCount + 1);
      } else {
        reply, freed := Some(ReplyTo(cmd, Succed, locked, depth)), [cmd.commandId];
      }
    }

    method WakeSection(m: LockManager, place: nat) returns (reply: Option<Reply>, freed: seq<nat>)
      requires m.Owned()
      modifies `state, m, m.known
      ensures m.Owned() && m.known == old(m.known)
      ensures E.Result(m.Value(), reply, freed, state) == E.WakeOp(old(m.Value()), currentTime, old(state), place)
    {
      hide LockManager.Records, M.DropDeadWaiters, E.WakeUpWaitLock, E.DoLock;
      reply, freed := None, [];
      if !m.waited {
        return;
      }
      var lock := m.GetWaitLock();
      if lock == null {
        m.waited := false;
        return;
      }
      m.GetIs(lock);
      var free := DoLock(m, lock.command.count);
      if free {
        reply, freed := WakeUpWaitLock(m, lock, place);
      }
    }

    /** One critical section of the wake-up loop. */
    method WakeTurn(m: LockManager, place: nat) returns (reply: Option<Reply>, freed: seq<nat>)
      requires m.Valid() && m.RefsExact()
      modifies `state, m, m.known
      ensures m.Valid() && m.RefsExact() && m.known == old(m.known)
      ensures Outcome(m.Abs(), reply, freed, state) == WakeStep(old(m.Abs()), currentTime, old(state))
    {
      hide LockManager.Value, LockManager.Owned, P.Valid, M.RefsExact, M.Abs, E.WakeOp, WakeStep;
      ghost var before, st := m.Value(), state;
      reply, freed := WakeSection(m, place);
      P.WakeRefines(before, currentTime, st, place);
    }

    /** The wake-up loop without interference between its turns. */
    method WakeUpWaitLocks(m: LockManager, place: nat) returns (replies: seq<Reply>, freed: seq<nat>)
      requires m.Valid() && m.RefsExact()
      modifies `state, m, m.known
      ensures m.Valid() && m.RefsExact() && m.known == old(m.known)
      ensures (m.Abs(), replies, freed, state) == WakeAll(old(m.Abs()), currentTime, old(state))
    {
      hide LockManager.Value, LockManager.Owned, P.Valid, M.RefsExact, M.Abs, WakeStep, WakeAll;
      replies, freed := [], [];
      var woken := true;
      ghost var whole := WakeAll(m.Abs(), currentTime, state);
      assert [] + whole.1 == whole.1 && [] + whole.2 == whole.2;
      while woken
        invariant m.Valid() && m.RefsExact() && m.known == old(m.known)
        invariant var rest := WakeAll(m.Abs(), currentTime, state);
                  whole == if woken then (rest.0, replies + rest.1, freed + rest.2, rest.3)
                           else (m.Abs(), replies, freed, state)
        decreases if woken then |m.Abs().waiters| + 1 else 0
      {
        P.WakeAllTurn(m.Abs(), currentTime, state);
        var reply, given := WakeTurn(m, place);
        woken := reply.Some?;
        ghost var rest := WakeAll(m.Abs(), currentTime, state);
        if woken {
          assert replies + ([reply.value] + rest.1) == replies + [reply.value] + rest.1;
          assert freed + (given + rest.2) == freed + given + rest.2;
          replies, freed := replies + [reply.value], freed + given;
        } else {
          assert replies + [] == replies && freed + [] == freed;
        }
      }
    }
  }
}
