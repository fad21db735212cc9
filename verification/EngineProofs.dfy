/** Every critical section of the engine keeps the representation of the manager and does to the key exactly what the
    reference machine does: same state, same reply, same returned records, same statistics. */
module EngineProofs {
  import opened Protocol
  import opened KeySpec
  import opened KeyProofs
  import opened Lazy
  import opened Locks
  import opened ManagerModel
  import opened ManagerProofs
  import opened EngineModel

  /** The invariant of a manager whenever its mutex is free. */
  ghost predicate Valid(m: Manager) {
    && Shape(m, None)
    && (m.currentLock.None? ==> m.locks == [])
    && m.locked == Locked(Abs(m).holders)
    && (m.waited <==> m.waitLocks != [])
    && WellFormed(Abs(m))
  }

  /** The engine did what the reference machine does. */
  ghost predicate Refines(r: Result, o: Outcome) {
    Abs(r.manager) == o.state && r.reply == o.reply && r.freed == o.freed && r.stats == o.stats
  }

  // ---------- frames

  ghost predicate SameStructures(m: Manager, m': Manager) {
    && m'.currentLock == m.currentLock && m'.locks == m.locks && m'.lockMaps == m.lockMaps
    && m'.waitLocks == m.waitLocks && m'.inTimeout == m.inTimeout && m'.inExpiry == m.inExpiry
  }

  /** The structures are the same, and so are the records of the locks in them. */
  ghost predicate SameBut(m: Manager, m': Manager, l: Lock) {
    && SameStructures(m, m') && Unused(m, l)
    && (forall x :: x in m.attached && x != l ==> x in m'.attached)
    && (forall x :: x in m'.attached && x != l ==> x in m.attached && m'.Get(x) == m.Get(x))
  }

  /** A lock that is in no structure. */
  ghost predicate Unused(m: Manager, l: Lock) {
    !m.IsHold(l) && l !in m.waitLocks && l !in m.inTimeout && l !in m.inExpiry
  }

  lemma SameButMembers(m: Manager, m': Manager, l: Lock)
    requires Members(m) && SameBut(m, m', l)
    ensures Members(m')
  {
  }

  /** What happens to a lock in no structure does not matter, as long as it has no depth and no long-queue index. */
  lemma SameButShape(m: Manager, m': Manager, l: Lock)
    requires Shape(m, None) && SameBut(m, m', l)
    requires l in m'.attached ==> m'.Get(l).locked == 0 && m'.Get(l).longWaitIndex == 0
    ensures Shape(m', None)
  {
    SameButMembers(m, m', l);
    assert forall x :: m'.IsHold(x) <==> m.IsHold(x);
  }

  lemma SameButAbs(m: Manager, m': Manager, l: Lock)
    requires Members(m) && IndexOk(m) && SameBut(m, m', l) && m'.waited == m.waited
    ensures Abs(m') == Abs(m)
  {
    assert forall x :: x in AllHolds(m) ==> x != l && x in m.attached;
    assert forall x :: x in m.waitLocks ==> x != l && x in m.attached;
    SameViews(m, m', AllHolds(m));
    SameViews(m, m', m.waitLocks);
    SameIndex(m, m');
  }

  // ---------- taking and returning lock objects

  ghost predicate NewLocks(m: Manager, news: seq<Lock>) {
    news != [] && NoDuplicates(news) && forall l :: l in news ==> l !in m.records && l !in m.attached
  }

  lemma StockedRecords(m: Manager, news: seq<Lock>)
    requires m.freeLocks == [] ==> NewLocks(m, news)
    ensures var m' := Stocked(m, news);
            && m'.freeLocks != [] && m' == m.(records := m'.records, freeLocks := m'.freeLocks)
            && (forall l :: l in m.attached ==> m'.Get(l) == m.Get(l))
            && (m.freeLocks == [] ==> m'.freeLocks == news && forall l :: l in news ==> m'.Get(l) == BLANK)
  {
  }

  lemma StockedExact(m: Manager, news: seq<Lock>)
    requires RefsExact(m, {}, {}) && (m.freeLocks == [] ==> NewLocks(m, news))
    ensures RefsExact(Stocked(m, news), {}, {})
  {
    StockedRecords(m, news);
    assert forall l :: Uses(Stocked(m, news), l) == Uses(m, l);
  }

  lemma StockedKeeps(m: Manager, news: seq<Lock>)
    requires Shape(m, None) && (m.freeLocks == [] ==> NewLocks(m, news))
    ensures var m' := Stocked(m, news); Shape(m', None) && Abs(m') == Abs(m)
  {
    var m' := Stocked(m, news);
    if m.freeLocks == [] {
      StockedRecords(m, news);
      assert SameBut(m, m', news[0]);
      hide Members, HoldsOk, WaitsOk, LongOk, IndexOk, Abs;
      SameButShape(m, m', news[0]);
      SameButAbs(m, m', news[0]);
    }
  }

  /** The lock object a request is about to use: attached, counted, in no structure. */
  ghost predicate Borrowed(m: Manager, l: Lock, cmd: LockCommand, now: int) {
    && Shape(m, None) && RefsExact(m, {}, {l}) && l in m.attached && Unused(m, l)
    && m.Get(l).command == cmd && m.Get(l).locked == 0 && m.Get(l).refCount == 0 && m.Get(l).expireTime == 0
    && m.Get(l).longWaitIndex == 0 && m.Get(l).timeoutTime == TimeoutTime(now, cmd.timeout, cmd.timeoutFlag)
  }

  lemma LastFree(m: Manager, cmd: LockCommand, now: int)
    requires Members(m) && RefsExact(m, {}, {}) && m.freeLocks != []
    ensures var l := m.freeLocks[|m.freeLocks| - 1];
            && SameBut(m, GetOrNewLock(m, cmd, now), l) && l !in m.attached
            && m.Get(l).refCount == 0 && m.Get(l).locked == 0
  {
  }

  lemma GetOrNewLockFree(m: Manager, cmd: LockCommand, now: int)
    requires FreeOk(m) && m.freeLocks != []
    ensures FreeOk(GetOrNewLock(m, cmd, now))
  {
    var m' := GetOrNewLock(m, cmd, now);
    var n := |m'.freeLocks|;
    forall x | x in m'.freeLocks ensures x !in m'.attached && m'.Get(x).refCount == 0 && m'.Get(x).locked == 0 {
      assert x in m.freeLocks && x != m.freeLocks[n];
    }
  }

  lemma AttachedExact(m: Manager, m': Manager, l: Lock)
    requires CountsExact(m, {}, {}) && SameBut(m, m', l) && l !in m.attached && m'.attached == m.attached + {l}
    requires m'.refCount == m.refCount + 1 && m'.Get(l).refCount == 0
    ensures CountsExact(m', {}, {l})
  {
    assert forall x :: Uses(m', x) == Uses(m, x);
    assert Uses(m', l) == 0;
  }

  lemma GetOrNewLockExact(m: Manager, cmd: LockCommand, now: int)
    requires Members(m) && RefsExact(m, {}, {}) && m.freeLocks != []
    ensures RefsExact(GetOrNewLock(m, cmd, now), {}, {m.freeLocks[|m.freeLocks| - 1]})
  {
    LastFree(m, cmd, now);
    GetOrNewLockFree(m, cmd, now);
    hide Members, CountsExact, FreeOk, TimeoutTime, SameBut;
    AttachedExact(m, GetOrNewLock(m, cmd, now), m.freeLocks[|m.freeLocks| - 1]);
  }

  lemma GetOrNewLockKeeps(m: Manager, cmd: LockCommand, now: int)
    requires Shape(m, None) && RefsExact(m, {}, {}) && m.freeLocks != []
    ensures var l := m.freeLocks[|m.freeLocks| - 1];
            Borrowed(GetOrNewLock(m, cmd, now), l, cmd, now) && Abs(GetOrNewLock(m, cmd, now)) == Abs(m)
  {
    hide Members, HoldsOk, WaitsOk, LongOk, IndexOk, RefsExact, Abs, TimeoutTime;
    var l := m.freeLocks[|m.freeLocks| - 1];
    var m' := GetOrNewLock(m, cmd, now);
    LastFree(m, cmd, now);
    GetOrNewLockExact(m, cmd, now);
    SameButShape(m, m', l);
    SameButAbs(m, m', l);
  }

  lemma ReturnExact(m: Manager, l: Lock, idle: set<Lock>)
    requires RefsExact(m, {}, idle + {l}) && l in m.attached && m.Get(l).refCount == 0 && m.Get(l).locked == 0
    ensures RefsExact(FreeLock(m, l), {}, idle)
  {
    assert forall x :: Uses(FreeLock(m, l), x) == Uses(m, x);
  }

  lemma ReturnKeeps(m: Manager, l: Lock)
    requires Shape(m, None) && RefsExact(m, {}, {l}) && l in m.attached && Unused(m, l) && m.Get(l).locked == 0
    ensures var m' := FreeLock(m, l); Shape(m', None) && RefsExact(m', {}, {}) && Abs(m') == Abs(m)
  {
    assert m.Get(l).refCount == 0;
    assert {} + {l} == {l};
    ReturnExact(m, l, {});
    hide Members, HoldsOk, WaitsOk, LongOk, IndexOk, RefsExact, Abs;
    var m' := FreeLock(m, l);
    SameButShape(m, m', l);
    SameButAbs(m, m', l);
  }

  // ---------- granting a hold

  /** A lock that can become a hold: a new one, or a waiter that has just stopped waiting. */
  ghost predicate Grantable(m: Manager, l: Lock) {
    && Shape(m, None) && l in m.attached && !m.IsHold(l) && l !in m.inExpiry
    && (m.currentLock.None? ==> m.locks == [])
    && m.Get(l).expireTime == 0 && m.Get(l).longWaitIndex == 0
    && (l in m.waitLocks || l in m.inTimeout ==> m.Get(l).timeouted)
  }

  /** The record of a lock that has just been granted. */
  ghost predicate GrantedRecord(r: Record, r': Record, now: int) {
    && r'.command == r.command && r'.timeoutTime == r.timeoutTime && r'.timeouted == r.timeouted
    && r'.locked == 1 && !r'.expired && r'.refCount == r.refCount + 2
    && r'.expireTime == ExpireTime(now, r.command.expried, r.command.expriedFlag)
  }

  lemma GrantRecords(m: Manager, l: Lock, now: int, place: nat)
    requires m.Get(l).expireTime == 0
    ensures var m' := GrantHold(m, l, now, place);
            && GrantedRecord(m.Get(l), m'.Get(l), now)
            && (forall x :: x != l ==> m'.Get(x) == m.Get(x))
            && (if m.currentLock.None?
              then m'.currentLock == Some(l) && m'.locks == m.locks && m'.lockMaps == m.lockMaps
                else m'.currentLock == m.currentLock && m'.locks == m.locks + [l]
                     && m'.lockMaps == m.lockMaps[m.Get(l).command.lockId := l])
            && m'.waitLocks == m.waitLocks && m'.waited == m.waited && m'.inTimeout == m.inTimeout
            && m'.inExpiry == m.inExpiry + {l} && m'.attached == m.attached && m'.refCount == m.refCount
            && m'.freeLocks == m.freeLocks && m'.locked == m.locked + 1
            && (forall x :: m'.IsHold(x) <==> m.IsHold(x) || x == l)
  {
  }

  lemma GrantMembers(m: Manager, l: Lock, now: int, place: nat)
    requires Grantable(m, l)
    ensures var m' := GrantHold(m, l, now, place);
            Members(m') && IndexOk(m') && (m'.currentLock.None? ==> m'.locks == [])
  {
    GrantRecords(m, l, now, place);
    hide GrantHold, GrantedRecord, HoldsOk, WaitsOk, LongOk, ExpireTime;
    var m' := GrantHold(m, l, now, place);
    assert m'.Get(l).locked == 1 && m'.Get(l).command == m.Get(l).command by {
      GrantRecord(m, l, now, place);
    }
  }

  lemma GrantRecord(m: Manager, l: Lock, now: int, place: nat)
    requires m.Get(l).expireTime == 0
    ensures var m' := GrantHold(m, l, now, place);
            m'.Get(l).locked == 1 && m'.Get(l).command == m.Get(l).command && !m'.Get(l).expired
            && m'.Get(l).timeouted == m.Get(l).timeouted
  {
    GrantRecords(m, l, now, place);
  }

  lemma GrantShape(m: Manager, l: Lock, now: int, place: nat)
    requires Grantable(m, l)
    ensures Shape(GrantHold(m, l, now, place), None)
  {
    GrantMembers(m, l, now, place);
    GrantRecords(m, l, now, place);
    GrantRecord(m, l, now, place);
    hide GrantHold, GrantedRecord, Members, IndexOk, ExpireTime;
    var m' := GrantHold(m, l, now, place);
    assert HoldsOk(m', None);
    assert WaitsOk(m');
    assert LongOk(m');
  }

  lemma GrantExact(m: Manager, l: Lock, now: int, place: nat)
    requires m.Get(l).expireTime == 0 && l in m.attached && !m.IsHold(l) && l !in m.inExpiry
    requires RefsExact(m, {}, {l})
    ensures RefsExact(GrantHold(m, l, now, place), {}, {})
  {
    GrantRecords(m, l, now, place);
    hide GrantHold, ExpireTime;
    var m' := GrantHold(m, l, now, place);
    assert forall x :: Uses(m', x) == Uses(m, x) + (if x == l then 2 else 0);
  }

  lemma GrantHolders(m: Manager, l: Lock, now: int, place: nat)
    requires Grantable(m, l)
    ensures var c := m.Get(l).command;
            Abs(GrantHold(m, l, now, place)).holders
            == Abs(m).holders + [Hold(c.commandId, c.lockId, 1, c.count, c.rcount,
                                      ExpireTime(now, c.expried, c.expriedFlag))]
  {
    GrantRecords(m, l, now, place);
    var m' := GrantHold(m, l, now, place);
    hide GrantHold, HoldsOk, WaitsOk, LongOk, IndexOk, ExpireTime;
    assert AllHolds(m') == AllHolds(m) + [l];
    ViewsSplit(m', AllHolds(m), [l]);
    assert forall x :: x in AllHolds(m) ==> x != l;
    SameViews(m, m', AllHolds(m));
    assert Views(m', [l]) == [ViewOf(m'.Get(l))];
    LiveHoldsSplit(Views(m, AllHolds(m)), [ViewOf(m'.Get(l))]);
    LiveHoldsOne(ViewOf(m'.Get(l)));
  }

  lemma GrantIndex(m: Manager, l: Lock, now: int, place: nat)
    requires Grantable(m, l)
    ensures var c := m.Get(l).command;
            Abs(GrantHold(m, l, now, place)).index
            == if m.currentLock.None? then Abs(m).index else Abs(m).index[c.lockId := c.commandId]
  {
    hide GrantHold, GrantedRecord, HoldsOk, WaitsOk, LongOk, ExpireTime, LiveHolds, LiveWaiters, Views, AllHolds,
         Members;
    GrantRecords(m, l, now, place);
    GrantRecord(m, l, now, place);
  }

  /** A grant adds the hold at the end of the list, and indexes it unless it is the only one. */
  lemma GrantAbs(m: Manager, l: Lock, now: int, place: nat)
    requires Grantable(m, l)
    ensures var c := m.Get(l).command;
            Abs(GrantHold(m, l, now, place))
            == AddHold(Abs(m), Hold(c.commandId, c.lockId, 1, c.count, c.rcount,
                                    ExpireTime(now, c.expried, c.expriedFlag)))
  {
    GrantHolders(m, l, now, place);
    GrantIndex(m, l, now, place);
    CurrentIffHolds(m);
    GrantRecords(m, l, now, place);
    WaitersFrame(m, GrantHold(m, l, now, place), m.waitLocks);
  }

  lemma CurrentIffHolds(m: Manager)
    requires HoldsOk(m, None) && (m.currentLock.None? ==> m.locks == [])
    ensures m.currentLock.None? <==> Abs(m).holders == []
    ensures m.currentLock.Some? ==> Abs(m).holders[0] == HoldOf(ViewOf(m.Get(m.currentLock.value)))
  {
    HoldsOfAbs(m);
    if m.currentLock.Some? {
      CurrentHold(m);
    } else {
      assert Views(m, m.locks) == [];
    }
  }

  // ---------- queueing a waiter

  function Queued(m: Manager, l: Lock, place: nat): Manager {
    AddTimeOut(AddWaitLock(m, l), l, place)
  }

  lemma QueuedRecords(m: Manager, l: Lock, place: nat)
    ensures var m' := Queued(m, l, place); var r := m.Get(l); var r' := m'.Get(l);
            && r' == r.(timeouted := false, longWaitIndex := r'.longWaitIndex, refCount := r.refCount + 2)
            && (forall x :: x != l ==> m'.Get(x) == m.Get(x))
            && m' == m.(records := m'.records, waitLocks := m.waitLocks + [l], waited := true,
                        inTimeout := m.inTimeout + {l})
  {
  }

  lemma QueuedShape(m: Manager, l: Lock, place: nat)
    requires Shape(m, None) && l in m.attached && Unused(m, l)
    requires m.Get(l).locked == 0 && m.Get(l).expireTime == 0
    ensures Shape(Queued(m, l, place), None)
  {
    QueuedRecords(m, l, place);
    hide Queued;
    var m' := Queued(m, l, place);
    assert forall x :: m'.IsHold(x) <==> m.IsHold(x);
    assert Members(m');
    assert HoldsOk(m', None);
    assert IndexOk(m');
  }

  lemma QueuedExact(m: Manager, l: Lock, place: nat)
    requires l in m.attached && Unused(m, l) && RefsExact(m, {}, {l})
    ensures RefsExact(Queued(m, l, place), {}, {})
  {
    QueuedRecords(m, l, place);
    hide Queued;
    var m' := Queued(m, l, place);
    assert forall x :: m'.IsHold(x) <==> m.IsHold(x);
    assert forall x :: Uses(m', x) == Uses(m, x) + (if x == l then 2 else 0);
  }

  lemma QueuedAbs(m: Manager, l: Lock, place: nat)
    requires Members(m) && IndexOk(m) && Unused(m, l)
    ensures Abs(Queued(m, l, place))
            == Abs(m).(waiters := Abs(m).waiters + [WaiterOf(ViewOf(m.Get(l)))], waited := true)
  {
    QueuedRecords(m, l, place);
    hide Queued;
    var m' := Queued(m, l, place);
    assert forall x :: x in AllHolds(m) ==> x != l;
    SameViews(m, m', AllHolds(m));
    SameIndex(m, m');
    ViewsSplit(m', m.waitLocks, [l]);
    SameViews(m, m', m.waitLocks);
    assert Views(m', [l]) == [ViewOf(m'.Get(l))];
    LiveWaitersSplit(Views(m, m.waitLocks), [ViewOf(m'.Get(l))]);
    LiveWaitersOne(ViewOf(m'.Get(l)));
  }

  // ---------- a request by a lock id that holds nothing

  lemma DoLockIsMayGrant(m: Manager, count: Uint16)
    requires HoldsOk(m, None) && (m.currentLock.None? ==> m.locks == []) && m.locked == Locked(Abs(m).holders)
    ensures DoLock(m, count) <==> MayGrant(Abs(m), count)
  {
    CurrentIffHolds(m);
    hide HoldsOk, Abs;
  }

  lemma GrantFresh(m: Manager, cmd: LockCommand, now: int, place: nat)
    requires Valid(m) && RefsExact(m, {}, {}) && m.freeLocks != []
    ensures var l := m.freeLocks[|m.freeLocks| - 1];
            var m' := GrantHold(GetOrNewLock(m, cmd, now), l, now, place);
            && Shape(m', None) && RefsExact(m', {}, {}) && (m'.currentLock.None? ==> m'.locks == [])
            && (m'.waited <==> m'.waitLocks != [])
            && Abs(m') == AddHold(Abs(m), HoldFor(cmd, now)) && m'.locked == m.locked + 1
  {
    var l := m.freeLocks[|m.freeLocks| - 1];
    var m1 := GetOrNewLock(m, cmd, now);
    GetOrNewLockKeeps(m, cmd, now);
    hide Shape, RefsExact, Abs, ExpireTime, TimeoutTime;
    GrantRecords(m1, l, now, place);
    GrantShape(m1, l, now, place);
    GrantExact(m1, l, now, place);
    GrantAbs(m1, l, now, place);
    GrantMembers(m1, l, now, place);
  }

  lemma QueueFresh(m: Manager, cmd: LockCommand, now: int, place: nat)
    requires Valid(m) && RefsExact(m, {}, {}) && m.freeLocks != []
    ensures var l := m.freeLocks[|m.freeLocks| - 1];
            var m' := AddTimeOut(AddWaitLock(GetOrNewLock(m, cmd, now), l), l, place);
            && Shape(m', None) && RefsExact(m', {}, {}) && (m'.currentLock.None? ==> m'.locks == [])
            && (m'.waited <==> m'.waitLocks != []) && m'.locked == m.locked
            && Abs(m') == Abs(m).(waiters := Abs(m).waiters + [WaiterFor(cmd, now)], waited := true)
  {
    var l := m.freeLocks[|m.freeLocks| - 1];
    var m1 := GetOrNewLock(m, cmd, now);
    GetOrNewLockKeeps(m, cmd, now);
    hide RefsExact, Abs, ExpireTime, TimeoutTime, Members, HoldsOk, WaitsOk, LongOk, IndexOk;
    QueuedShape(m1, l, place);
    QueuedExact(m1, l, place);
    QueuedAbs(m1, l, place);
  }

  lemma ReturnFresh(m: Manager, cmd: LockCommand, now: int)
    requires Valid(m) && RefsExact(m, {}, {}) && m.freeLocks != []
    ensures var l := m.freeLocks[|m.freeLocks| - 1];
            var m1 := GetOrNewLock(m, cmd, now);
            var m' := FreeLock(m1, l);
            && Shape(m', None) && RefsExact(m', {}, {}) && (m'.currentLock.None? ==> m'.locks == [])
            && (m'.waited <==> m'.waitLocks != []) && m'.locked == m.locked
            && Abs(m') == Abs(m) && m1.Get(l).locked == 0
  {
    GetOrNewLockKeeps(m, cmd, now);
    hide RefsExact, Abs, TimeoutTime, Shape;
    ReturnKeeps(GetOrNewLock(m, cmd, now), m.freeLocks[|m.freeLocks| - 1]);
  }

  lemma ValidFacts(m: Manager, count: Uint16)
    requires Valid(m)
    ensures m.waited == Abs(m).waited && m.locked == Locked(Abs(m).holders)
    ensures DoLock(m, count) <==> MayGrant(Abs(m), count)
  {
    DoLockIsMayGrant(m, count);
  }

  lemma HoldForOne(cmd: LockCommand, now: int)
    ensures HoldFor(cmd, now).depth == 1
  {
  }

  /** A request by a lock id that holds nothing is granted, queued or refused as the reference machine says. */
  lemma FreshRefines(m: Manager, cmd: LockCommand, now: int, st: Stats, place: nat)
    requires Valid(m) && RefsExact(m, {}, {}) && m.freeLocks != []
    ensures var r := FreshOp(m, cmd, now, st, place);
            && Shape(r.manager, None) && RefsExact(r.manager, {}, {})
            && (r.manager.currentLock.None? ==> r.manager.locks == [])
            && (r.manager.waited <==> r.manager.waitLocks != [])
            && r.manager.locked == Locked(Abs(r.manager).holders)
            && Refines(r, FreshStep(Abs(m), cmd, now, st))
  {
    hide Valid, Shape, RefsExact, Abs, GetOrNewLock, GrantHold, AddTimeOut, AddWaitLock, FreeLock, DoLock, MayGrant,
      AddHold, HoldFor, WaiterFor;
    ValidFacts(m, cmd.count);
    AddTally(Abs(m), HoldFor(cmd, now), 0);
    HoldForOne(cmd, now);
    GrantFresh(m, cmd, now, place);
    QueueFresh(m, cmd, now, place);
    ReturnFresh(m, cmd, now);
  }

  // ---------- changing a live hold

  /** Only the record of one live hold changed; it keeps its identity, its flags and its reference count. */
  ghost predicate Touched(m: Manager, m': Manager, l: Lock) {
    && m' == m.(records := m.records[l := m'.Get(l)], locked := m'.locked)
    && l in m.attached && m.IsHold(l) && m.Get(l).locked > 0 && m'.Get(l).locked > 0
    && m'.Get(l).command.commandId == m.Get(l).command.commandId
    && m'.Get(l).command.lockId == m.Get(l).command.lockId
    && m'.Get(l).timeouted == m.Get(l).timeouted && m'.Get(l).expired == m.Get(l).expired
    && m'.Get(l).refCount == m.Get(l).refCount
  }

  lemma TouchedHoldsOk(m: Manager, m': Manager, l: Lock)
    requires Shape(m, None) && Touched(m, m', l)
    ensures HoldsOk(m', None) && l in m.inExpiry && !m.Get(l).expired
  {
    hide WaitsOk, LongOk, IndexOk;
    assert forall x :: m'.IsHold(x) <==> m.IsHold(x);
  }

  lemma TouchedShape(m: Manager, m': Manager, l: Lock)
    requires Shape(m, None) && Touched(m, m', l)
    ensures Shape(m', None)
  {
    hide HoldsOk;
    TouchedHoldsOk(m, m', l);
    assert forall x :: m'.IsHold(x) <==> m.IsHold(x);
    assert Members(m');
    assert WaitsOk(m');
  }

  lemma TouchedExact(m: Manager, m': Manager, l: Lock)
    requires RefsExact(m, {}, {}) && Touched(m, m', l)
    ensures RefsExact(m', {}, {})
  {
    assert forall x :: m'.IsHold(x) <==> m.IsHold(x);
    assert forall x :: Uses(m', x) == Uses(m, x);
    assert forall x :: m'.Get(x).refCount == m.Get(x).refCount;
  }

  lemma TouchedHolders(m: Manager, m': Manager, l: Lock)
    requires Members(m) && Touched(m, m', l) && l in AllHolds(m)
    ensures Place(m, l) < |Abs(m).holders| && Abs(m).holders[Place(m, l)] == HoldOf(ViewOf(m.Get(l)))
    ensures Abs(m').holders == Abs(m).holders[Place(m, l) := HoldOf(ViewOf(m'.Get(l)))]
  {
    var i := IndexOf(AllHolds(m), l);
    AllHoldsDistinct(m);
    assert AllHolds(m') == AllHolds(m);
    assert Views(m', AllHolds(m)) == Views(m, AllHolds(m))[i := ViewOf(m'.Get(l))];
    HoldAtRank(Views(m, AllHolds(m)), i, ViewOf(m'.Get(l)));
  }

  lemma TouchedRest(m: Manager, m': Manager, l: Lock)
    requires WaitsOk(m) && Touched(m, m', l)
    ensures Abs(m').index == Abs(m).index && Abs(m').waiters == Abs(m).waiters && Abs(m').waited == Abs(m).waited
  {
    SameIndex(m, m');
    WaitersFrame(m, m', m.waitLocks);
  }

  lemma TouchedAbs(m: Manager, m': Manager, l: Lock)
    requires Shape(m, None) && Touched(m, m', l) && l in AllHolds(m)
    ensures Place(m, l) < |Abs(m).holders| && Abs(m).holders[Place(m, l)] == HoldOf(ViewOf(m.Get(l)))
    ensures Abs(m') == Abs(m).(holders := Abs(m).holders[Place(m, l) := HoldOf(ViewOf(m'.Get(l)))])
  {
    hide HoldsOk, LongOk, IndexOk, Members, Abs;
    TouchedHolders(m, m', l);
    TouchedRest(m, m', l);
  }

  /** What new terms do to the record of a hold. */
  ghost predicate Renewed(r: Record, r': Record, cmd: LockCommand, now: int) {
    && r'.command.commandId == r.command.commandId && r'.command.lockId == r.command.lockId
    && r'.command.count == cmd.count && r'.command.rcount == cmd.rcount
    && r'.expireTime == ExpireTime(now, cmd.expried, cmd.expriedFlag)
    && r'.locked == r.locked && r'.timeouted == r.timeouted && r'.expired == r.expired && r'.refCount == r.refCount
  }

  lemma UpdateRecord(m: Manager, l: Lock, timeout: Uint16, timeoutFlag: bv16, cmd: LockCommand, now: int)
    ensures var m' := UpdateLockedLock(m, l, timeout, timeoutFlag, cmd, now);
            && m' == m.(records := m.records[l := m'.Get(l)])
            && Renewed(m.Get(l), m'.Get(l), cmd, now)
  {
    hide ExpireTime, TimeoutTime;
  }

  lemma RetimeRecord(m: Manager, l: Lock, timeout: Uint16, timeoutFlag: bv16, cmd: LockCommand, now: int, place: nat)
    requires l in m.inExpiry && !m.Get(l).expired
    ensures var m' := AddExpired(UpdateLockedLock(RemoveLongExpired(m, l), l, timeout, timeoutFlag, cmd, now), l,
            place);
            && m' == m.(records := m.records[l := m'.Get(l)])
            && Renewed(m.Get(l), m'.Get(l), cmd, now)
  {
    hide ExpireTime, TimeoutTime, UpdateLockedLock;
    var m1 := RemoveLongExpired(m, l);
    UpdateRecord(m1, l, timeout, timeoutFlag, cmd, now);
    var m2 := UpdateLockedLock(m1, l, timeout, timeoutFlag, cmd, now);
    var m' := AddExpired(m2, l, place);
    assert m.inExpiry - {l} + {l} == m.inExpiry;
    assert m'.records == m.records[l := m'.Get(l)];
  }

  lemma RenewRecords(m: Manager, l: Lock, cmd: LockCommand, now: int, place: nat, swap: bool)
    requires l in m.inExpiry && !m.Get(l).expired
    ensures var m' := Renew(m, l, cmd, now, place, swap);
            && m' == m.(records := m.records[l := m'.Get(l)])
            && Renewed(m.Get(l), m'.Get(l), cmd, now)
  {
    hide Renewed, UpdateLockedLock, AddExpired, RemoveLongExpired, TimeoutTerms;
    UpdateRecord(m, l, TimeoutTerms(cmd, swap).0, TimeoutTerms(cmd, swap).1, cmd, now);
    RetimeRecord(m, l, cmd.timeout, cmd.timeoutFlag, cmd, now, place);
  }

  /** A live hold of a manager. */
  ghost predicate LiveHold(m: Manager, l: Lock) {
    l in m.attached && m.IsHold(l) && l in AllHolds(m) && m.Get(l).locked > 0 && l in m.inExpiry && !m.Get(l).expired
  }

  lemma LiveHoldOk(m: Manager, l: Lock)
    requires Members(m) && HoldsOk(m, None) && m.IsHold(l) && m.Get(l).locked > 0
    ensures LiveHold(m, l)
  {
    HoldInList(m, l);
  }

  /** The manager after the depth of a live hold, and the total, were set. */
  ghost predicate Deepened(m: Manager, m1: Manager, l: Lock, depth: nat) {
    || (m1 == m && depth == m.Get(l).locked)
    || m1 == m.(records := m.records[l := m.Get(l).(locked := depth)], locked := m1.locked)
  }

  lemma RenewTouches(m: Manager, m1: Manager, l: Lock, cmd: LockCommand, now: int, place: nat, swap: bool, depth: nat)
    requires LiveHold(m, l) && depth > 0 && Deepened(m, m1, l, depth)
    ensures var m' := Renew(m1, l, cmd, now, place, swap);
            && Touched(m, m', l) && m'.locked == m1.locked
            && m'.Get(l).locked == depth
            && m'.Get(l).command.count == cmd.count && m'.Get(l).command.rcount == cmd.rcount
            && m'.Get(l).expireTime == ExpireTime(now, cmd.expried, cmd.expriedFlag)
  {
    hide Renew, ExpireTime, TimeoutTerms;
    RenewRecords(m1, l, cmd, now, place, swap);
    var m' := Renew(m1, l, cmd, now, place, swap);
    assert m'.records == m.records[l := m'.Get(l)];
  }

  /** New terms, and possibly one more level, for a live hold. */
  lemma RenewKeeps(m: Manager, m1: Manager, l: Lock, cmd: LockCommand, now: int, place: nat, swap: bool, depth: nat)
    requires Shape(m, None) && RefsExact(m, {}, {}) && LiveHold(m, l) && depth > 0 && Deepened(m, m1, l, depth)
    ensures var m' := Renew(m1, l, cmd, now, place, swap);
            && Shape(m', None) && RefsExact(m', {}, {})
            && m' == m.(records := m'.records, locked := m1.locked)
            && Place(m, l) < |Abs(m).holders| && Abs(m).holders[Place(m, l)] == HoldOf(ViewOf(m.Get(l)))
            && Abs(m') == Abs(m).(holders :=
                 Abs(m).holders[Place(m, l) := Updated(Abs(m).holders[Place(m, l)], cmd, now).(depth := depth)])
  {
    hide Shape, RefsExact, Abs, Renew, ExpireTime, Deepened;
    RenewTouches(m, m1, l, cmd, now, place, swap, depth);
    var m' := Renew(m1, l, cmd, now, place, swap);
    TouchedShape(m, m', l);
    TouchedExact(m, m', l);
    TouchedAbs(m, m', l);
  }

  // ---------- looking up a lock id

  lemma PlaceOfCurrent(m: Manager)
    requires m.currentLock.Some?
    ensures m.currentLock.value in AllHolds(m) && Place(m, m.currentLock.value) == 0
  {
    assert AllHolds(m)[0] == m.currentLock.value;
    assert Views(m, AllHolds(m))[..0] == [];
  }

  lemma PlaceOfLive(m: Manager, l: Lock)
    requires Members(m) && LiveHold(m, l)
    ensures Place(m, l) < |Abs(m).holders| && Abs(m).holders[Place(m, l)] == HoldOf(ViewOf(m.Get(l)))
  {
    TouchedHolders(m, m, l);
  }

  /** The manager finds a hold exactly when the reference machine does, and the same one. */
  lemma LookupAgrees(m: Manager, id: LockId)
    requires Valid(m) && m.currentLock.Some?
    ensures var f := GetLockedLock(m, id);
            if f.None? then Find(Abs(m), id).None?
            else LiveHold(m, f.value) && Find(Abs(m), id) == Some(Place(m, f.value))
                 && m.Get(f.value).command.lockId == id
  {
    CurrentIffHolds(m);
    PlaceOfCurrent(m);
    var f := GetLockedLock(m, id);
    if f.Some? {
      LiveHoldOk(m, f.value);
      if f != m.currentLock || m.Get(m.currentLock.value).command.lockId != id {
        hide Shape, HoldsOk, WellFormed;
        PlaceOfLive(m, f.value);
        LookupIndexed(m, id);
      }
    }
  }

  /** The lock found for an id is the hold that the reference machine finds. */
  lemma FoundHold(m: Manager, id: LockId)
    requires Valid(m) && m.currentLock.Some?
    ensures var l := GetLockedLock(m, id); var i := Find(Abs(m), id);
            && (l.None? <==> i.None?)
            && (l.Some? ==> Abs(m).holders[i.value] == HoldOf(ViewOf(m.Get(l.value))))
  {
    hide Valid, Abs, Find, GetLockedLock, Shape;
    LookupAgrees(m, id);
    var l := GetLockedLock(m, id);
    if l.Some? {
      ValidShape(m);
      PlaceOfLive(m, l.value);
    }
  }

  lemma ValidShape(m: Manager)
    requires Valid(m)
    ensures Shape(m, None)
  {
  }

  lemma LookupIndexed(m: Manager, id: LockId)
    requires WellFormed(Abs(m)) && id in m.lockMaps
    requires m.lockMaps[id] in AllHolds(m)
    requires Place(m, m.lockMaps[id]) < |Abs(m).holders|
    requires Abs(m).holders[Place(m, m.lockMaps[id])] == HoldOf(ViewOf(m.Get(m.lockMaps[id])))
    ensures Position(Abs(m).holders, Abs(m).index[id]) == Some(Place(m, m.lockMaps[id]))
  {
    PositionAt(Abs(m), Place(m, m.lockMaps[id]));
  }

  // ---------- a request by a lock id that holds the key

  /** The manager is as it should be between critical sections, up to what the reference machine keeps. */
  ghost predicate Sound(m: Manager) {
    && Shape(m, None) && (m.currentLock.None? ==> m.locks == []) && (m.waited <==> m.waitLocks != [])
    && m.locked == Locked(Abs(m).holders)
  }

  lemma HeldFacts(m: Manager, l: Lock)
    requires Valid(m) && LiveHold(m, l)
    ensures m.locked == Locked(Abs(m).holders) && Sound(m) && Shape(m, None) && m.Get(l).locked > 0
    ensures Place(m, l) < |Abs(m).holders| && Abs(m).holders[Place(m, l)] == HoldOf(ViewOf(m.Get(l)))
  {
    PlaceOfLive(m, l);
  }

  lemma SoundTouched(m: Manager, m': Manager, l: Lock, i: nat, h: Hold)
    requires Sound(m) && Shape(m', None) && i < |Abs(m).holders| && h.request == Abs(m).holders[i].request
    requires m' == m.(records := m'.records, locked := m'.locked)
    requires m'.locked == m.locked - Abs(m).holders[i].depth + h.depth
    requires Abs(m') == Abs(m).(holders := Abs(m).holders[i := h])
    ensures Sound(m')
  {
    hide Shape, Abs;
    HoldsUpdate(Abs(m).holders, i, h, 0);
  }

  lemma UpdateRefines(m: Manager, l: Lock, cmd: LockCommand, now: int, st: Stats, place: nat)
    requires Valid(m) && RefsExact(m, {}, {}) && LiveHold(m, l) && cmd.flag == 0x02
    ensures var r := HeldOp(m, l, cmd, now, st, place);
            && Sound(r.manager) && RefsExact(r.manager, {}, {}) && Place(m, l) < |Abs(m).holders|
            && Refines(r, HeldStep(Abs(m), Place(m, l), cmd, now, st))
  {
    hide Valid, Sound, Shape, RefsExact, Abs, Renew, ExpireTime, LiveHold;
    HeldFacts(m, l);
    var h := Abs(m).holders[Place(m, l)];
    RenewKeeps(m, m, l, cmd, now, place, true, m.Get(l).locked);
    SoundTouched(m, Renew(m, l, cmd, now, place, true), l, Place(m, l), Updated(h, cmd, now));
  }

  lemma ReentryRefines(m: Manager, l: Lock, cmd: LockCommand, now: int, st: Stats, place: nat)
    requires Valid(m) && RefsExact(m, {}, {}) && LiveHold(m, l) && cmd.flag != 0x02
    requires m.Get(l).command.lockId == cmd.lockId
    ensures var r := HeldOp(m, l, cmd, now, st, place);
            && Sound(r.manager) && RefsExact(r.manager, {}, {}) && Place(m, l) < |Abs(m).holders|
            && Refines(r, HeldStep(Abs(m), Place(m, l), cmd, now, st))
  {
    hide Valid, Sound, Shape, RefsExact, Abs, Renew, ExpireTime, LiveHold;
    HeldFacts(m, l);
    var h := Abs(m).holders[Place(m, l)];
    var r := m.Get(l);
    var m1 := m.Set(l, r.(locked := r.locked + 1)).(locked := m.locked + 1);
    RenewKeeps(m, m1, l, cmd, now, place, false, r.locked + 1);
    SoundTouched(m, Renew(m1, l, cmd, now, place, false), l, Place(m, l), Updated(h, cmd, now).(depth := r.locked + 1));
  }

  // ---------- the lock request

  lemma ShowRefines(m: Manager, cmd: LockCommand, now: int, st: Stats, news: seq<Lock>, place: nat)
    requires Valid(m) && Shows(m, cmd)
    ensures Refines(LockOp(m, cmd, now, st, news, place), LockStep(Abs(m), cmd, now, st))
    ensures Sound(m)
  {
    CurrentIffHolds(m);
    hide Shape, Abs, WellFormed, Find, HeldStep, FreshStep, HeldOp, FreshOp;
  }

  lemma LockedIffCurrent(m: Manager)
    requires Valid(m)
    ensures m.locked > 0 <==> m.currentLock.Some?
    ensures m.currentLock.None? <==> Abs(m).holders == []
  {
    CurrentIffHolds(m);
    LockedBounds(Abs(m).holders);
  }

  lemma StockedValid(m: Manager, news: seq<Lock>)
    requires Valid(m) && (m.freeLocks == [] ==> NewLocks(m, news))
    ensures Valid(Stocked(m, news)) && Abs(Stocked(m, news)) == Abs(m) && Stocked(m, news).freeLocks != []
  {
    StockedKeeps(m, news);
    StockedRecords(m, news);
  }

  /** Every lock request: same state, same reply, same returned records and same statistics as the reference machine,
      whatever is in the queues, and reference counts stay exact. */
  lemma LockRefines(m: Manager, cmd: LockCommand, now: int, st: Stats, news: seq<Lock>, place: nat)
    requires Valid(m) && RefsExact(m, {}, {}) && (NeedsNewLocks(m, cmd) ==> NewLocks(m, news))
    requires Owned(Abs(m), cmd.commandId) == 0
    ensures var r := LockOp(m, cmd, now, st, news, place);
            && Valid(r.manager) && RefsExact(r.manager, {}, {})
            && Refines(r, LockStep(Abs(m), cmd, now, st))
  {
    hide Valid, Sound, Shape, RefsExact, Abs, HeldStep, FreshStep, HeldOp, FreshOp, Find, Stocked, LiveHold,
         GetLockedLock;
    LockedIffCurrent(m);
    var r := LockOp(m, cmd, now, st, news, place);
    if Shows(m, cmd) {
      ShowRefines(m, cmd, now, st, news, place);
    } else {
      var found := HeldBy(m, cmd.lockId);
      if m.locked > 0 {
        LookupAgrees(m, cmd.lockId);
      } else {
        FindInNothing(Abs(m), cmd.lockId);
      }
      if found.Some? {
        if cmd.flag == 0x02 {
          UpdateRefines(m, found.value, cmd, now, st, place);
        } else {
          ReentryRefines(m, found.value, cmd, now, st, place);
        }
      } else {
        StockedValid(m, news);
        StockedExact(m, news);
        FreshRefines(Stocked(m, news), cmd, now, st, place);
        SoundOf(FreshOp(Stocked(m, news), cmd, now, st, place).manager);
      }
    }
    SoundValid(r.manager, Abs(m), LockRequest(cmd, now), st, m);
  }

  lemma FindInNothing(s: KeyState, id: LockId)
    requires s.holders == []
    ensures Find(s, id).None?
  {
  }

  lemma SoundOf(m: Manager)
    requires Shape(m, None) && (m.currentLock.None? ==> m.locks == []) && (m.waited <==> m.waitLocks != [])
    requires m.locked == Locked(Abs(m).holders)
    ensures Sound(m)
  {
  }

  lemma SoundValid(m: Manager, s: KeyState, e: KeyEvent, st: Stats, before: Manager)
    requires Sound(m) && Valid(before) && s == Abs(before) && Admissible(s, e) && Abs(m) == KeyStep(s, e, st).state
    ensures Valid(m)
  {
    hide Shape, Abs, KeyStep;
    StepKeeps(s, e, st);
  }

  // ---------- ending a hold

  /** The hold marked as ended, and out of the long expiry queue if it was there. */
  function Marked(m: Manager, l: Lock): Manager {
    var m1 := m.Set(l, m.Get(l).(expired := true));
    if m.Get(l).longWaitIndex > 0 then RemoveLongExpired(m1, l) else m1
  }

  lemma MarkedRecords(m: Manager, l: Lock)
    ensures var m' := Marked(m, l); var r := m.Get(l); var r' := m'.Get(l);
            && r' == r.(expired := true, longWaitIndex := 0,
                        refCount := if r.longWaitIndex > 0 then r.refCount - 1 else r.refCount)
            && (forall x :: x != l ==> m'.Get(x) == m.Get(x))
            && m' == m.(records := m'.records,
                        inExpiry := if r.longWaitIndex > 0 then m.inExpiry - {l} else m.inExpiry)
  {
  }

  lemma MarkedHolds(m: Manager, l: Lock)
    requires Shape(m, None) && LiveHold(m, l)
    ensures HoldsOk(Marked(m, l), Some(l))
  {
    hide Marked, WaitsOk, LongOk, IndexOk;
    MarkedRecords(m, l);
    assert forall x :: Marked(m, l).IsHold(x) <==> m.IsHold(x);
  }

  lemma MarkedWaits(m: Manager, l: Lock)
    requires Shape(m, None) && LiveHold(m, l)
    ensures Members(Marked(m, l)) && WaitsOk(Marked(m, l)) && LongOk(Marked(m, l)) && IndexOk(Marked(m, l))
  {
    hide Marked, HoldsOk;
    MarkedRecords(m, l);
    assert forall x :: Marked(m, l).IsHold(x) <==> m.IsHold(x);
  }

  lemma MarkedShape(m: Manager, l: Lock)
    requires Shape(m, None) && LiveHold(m, l)
    ensures Shape(Marked(m, l), Some(l))
  {
    hide Marked, Members, HoldsOk, WaitsOk, LongOk, IndexOk;
    MarkedHolds(m, l);
    MarkedWaits(m, l);
  }

  lemma MarkedExact(m: Manager, l: Lock)
    requires RefsExact(m, {}, {}) && LiveHold(m, l)
    ensures RefsExact(Marked(m, l), {}, {})
  {
    MarkedRecords(m, l);
    hide Marked;
    var m' := Marked(m, l);
    assert forall x :: m'.IsHold(x) <==> m.IsHold(x);
    assert forall x :: Uses(m', x) == Uses(m, x) - Bit(x == l && m.Get(l).longWaitIndex > 0);
  }

  lemma MarkedAbs(m: Manager, l: Lock)
    ensures Abs(Marked(m, l)) == Abs(m) && AllHolds(Marked(m, l)) == AllHolds(m)
    ensures Views(Marked(m, l), AllHolds(m)) == Views(m, AllHolds(m))
  {
    MarkedRecords(m, l);
    hide Marked;
    var m' := Marked(m, l);
    SameViews(m, m', AllHolds(m));
    SameViews(m, m', m.waitLocks);
    SameIndex(m, m');
  }

  lemma MarkedEnding(m: Manager, l: Lock)
    requires Shape(m, None) && RefsExact(m, {}, {}) && LiveHold(m, l)
    ensures Ending(Marked(m, l), l)
    ensures Abs(Marked(m, l)) == Abs(m) && l in AllHolds(Marked(m, l)) && Place(Marked(m, l), l) == Place(m, l)
  {
    hide Shape, RefsExact, Abs, Marked;
    MarkedShape(m, l);
    MarkedExact(m, l);
    MarkedAbs(m, l);
    MarkedRecords(m, l);
    HoldInList(Marked(m, l), l);
  }

  /** The lock has reached the front of the queue of holds: everything before it is gone. */
  ghost predicate AtFront(m: Manager, l: Lock) {
    exists i :: 0 <= i < |m.locks| && m.locks[i] == l && forall j :: 0 <= j < i ==> m.Get(m.locks[j]).locked == 0
  }

  /** The one case in which a lock is recycled twice: a hold in the long expiry queue that is not the current lock,
      at the front of the queue, and in no other structure. */
  ghost predicate DoubleFree(m: Manager, l: Lock) {
    && m.Get(l).longWaitIndex > 0 && m.currentLock != Some(l) && AtFront(m, l)
    && l !in m.waitLocks && l !in m.inTimeout
  }

  /** Which locks are recycled when dead holds are dropped. */
  lemma DroppedIff(m: Manager, l: Lock)
    requires Droppable(m, {}) && l in m.locks && l in m.attached && m.Get(l).locked == 0 && m.currentLock != Some(l)
    ensures l !in DropDeadHolds(m).attached
            <==> AtFront(m, l) && l !in m.waitLocks && l !in m.inTimeout && l !in m.inExpiry
  {
    var h := DropHolds(m, {});
    var m' := DropDeadHolds(m);
    var i := IndexOf(m.locks, l);
    assert l !in m'.attached <==> Uses(m', l) == 0 by {
      DropAccounts(m, l);
    }
    if i < h {
      assert AtFront(m, l);
      assert l !in m'.locks;
    } else {
      assert m'.locks[i - h] == l;
      assert m'.locks[0] == m.locks[h] && m.Get(m.locks[h]).locked > 0;
    }
  }

  /** The manager with another total. */
  lemma TotalKeeps(m: Manager, total: nat, idle: set<Lock>)
    ensures Abs(m.(locked := total)) == Abs(m)
    ensures Shape(m, None) ==> Shape(m.(locked := total), None)
    ensures RefsExact(m, {}, idle) <==> RefsExact(m.(locked := total), {}, idle)
  {
    var m' := m.(locked := total);
    SameViews(m, m', AllHolds(m));
    SameViews(m, m', m.waitLocks);
    SameIndex(m, m');
    assert forall x :: Uses(m', x) == Uses(m, x);
    TotalShape(m, total);
  }

  lemma TotalShape(m: Manager, total: nat)
    ensures Shape(m, None) ==> Shape(m.(locked := total), None)
  {
  }

  /** The hold is out of the lists; its lock may still be in timer structures. */
  function Ended(m: Manager, l: Lock): Manager {
    RemoveLock(Marked(m, l), l)
  }

  lemma EndedCurrent(m: Manager, l: Lock)
    requires Shape(m, None) && RefsExact(m, {}, {}) && LiveHold(m, l) && m.currentLock == Some(l)
    ensures var m' := Ended(m, l);
            && Shape(m', None) && (m'.currentLock.None? ==> m'.locks == []) && OnlyHoldsChanged(Marked(m, l), m')
            && RefsExact(m', {}, {l}) && l in m'.attached && !m'.IsHold(l) && m'.Get(l).locked == 0
            && m'.Get(l).longWaitIndex == 0 && m'.Get(l).expired
            && Place(m, l) < |Abs(m).holders| && Abs(m') == RemoveHold(Abs(m), Place(m, l))
  {
    hide Shape, RefsExact, Abs, Marked, RemoveLock;
    MarkedEnding(m, l);
    MarkedRecords(m, l);
    RemoveCurrentKeeps(Marked(m, l), l);
    PlaceOfCurrent(m);
  }

  lemma EndedQueued(m: Manager, l: Lock)
    requires Shape(m, None) && RefsExact(m, {}, {}) && LiveHold(m, l) && m.currentLock.Some? && m.currentLock != Some(l)
    ensures var m' := Ended(m, l);
            && Shape(m', None) && m'.currentLock == m.currentLock && OnlyHoldsChanged(Marked(m, l), m')
            && RefsExact(m', {}, {}) && (l in m'.attached || l in m'.freeLocks)
            && Place(m, l) < |Abs(m).holders| && Abs(m') == RemoveHold(Abs(m), Place(m, l))
  {
    hide Shape, RefsExact, Abs, Marked, RemoveLock;
    MarkedEnding(m, l);
    MarkedRecords(m, l);
    RemoveQueuedKeeps(Marked(m, l), l);
  }

  /** A lock of the queue is recycled with its hold exactly in the case that `DoubleFree` names. */
  lemma EndedQueuedIff(m: Manager, l: Lock)
    requires Shape(m, None) && RefsExact(m, {}, {}) && LiveHold(m, l) && m.currentLock.Some? && m.currentLock != Some(l)
    ensures l !in Ended(m, l).attached <==> DoubleFree(m, l)
  {
    var m1 := Marked(m, l);
    var d := Dimmed(m1, l);
    MarkedRecords(m, l);
    assert l in d.locks && d.Get(l).locked == 0 && d.currentLock != Some(l) && l in d.attached;
    assert AtFront(d, l) <==> AtFront(m, l) by {
      assert forall j :: 0 <= j < |m.locks| && m.locks[j] != l ==> d.Get(m.locks[j]) == m.Get(m.locks[j]);
      AtFrontFrame(m, d, l);
    }
    hide Shape, RefsExact, Abs, Marked, AtFront, Droppable;
    MarkedEnding(m, l);
    DimmedDroppable(m1, l);
    DroppedIff(d, l);
  }

  lemma AtFrontFrame(m: Manager, m': Manager, l: Lock)
    requires m'.locks == m.locks && NoDuplicates(m.locks)
    requires forall j :: 0 <= j < |m.locks| && m.locks[j] != l ==> m'.Get(m.locks[j]) == m.Get(m.locks[j])
    ensures AtFront(m', l) <==> AtFront(m, l)
  {
  }

  lemma IdleUsed(m: Manager, l: Lock)
    requires RefsExact(m, {}, {l}) && (l in m.attached ==> m.Get(l).refCount > 0)
    ensures RefsExact(m, {}, {})
  {
  }

  lemma ExactUses(m: Manager, l: Lock, idle: set<Lock>)
    requires RefsExact(m, {}, idle) && l in m.attached
    ensures m.Get(l).refCount == Uses(m, l)
    ensures m.Get(l).refCount == 0 ==> Unused(m, l)
    ensures !Unused(m, l) ==> m.Get(l).refCount > 0
  {
  }

  lemma ExactAccounts(m: Manager, l: Lock)
    requires RefsExact(m, {}, {}) && (l in m.attached || l in m.freeLocks)
    ensures m.Get(l).refCount == 0 <==> l !in m.attached
  {
  }

  /** Recycling a lock that is no longer attached changes no list but breaks the count of locks in use. */
  lemma Refreed(m: Manager, l: Lock)
    requires Shape(m, None) && RefsExact(m, {}, {}) && l !in m.attached
    ensures var m' := FreeLock(m, l); Shape(m', None) && Abs(m') == Abs(m) && !RefsExact(m', {}, {})
  {
    var m' := FreeLock(m, l);
    assert m'.attached == m.attached;
    SameViews(m, m', AllHolds(m));
    SameViews(m, m', m.waitLocks);
    SameIndex(m, m');
    RefreedShape(m, l);
  }

  lemma RefreedShape(m: Manager, l: Lock)
    requires Shape(m, None) && l !in m.attached
    ensures Shape(FreeLock(m, l), None)
  {
    assert FreeLock(m, l).attached == m.attached;
  }

  /** The manager just before the last test of an ended hold. */
  function Settled(m: Manager, l: Lock): Manager {
    var e := Ended(m, l);
    e.(locked := if m.Get(l).locked <= e.locked then e.locked - m.Get(l).locked else 0)
  }

  lemma EndHoldIs(m: Manager, l: Lock)
    ensures EndHold(m, l)
            == if m.Get(l).longWaitIndex > 0 && Settled(m, l).Get(l).refCount == 0 then FreeLock(Settled(m, l), l)
               else Settled(m, l)
  {
    hide RemoveLock, RemoveLongExpired;
  }

  lemma EndCurrentKeeps(m: Manager, l: Lock)
    requires Shape(m, None) && RefsExact(m, {}, {}) && LiveHold(m, l) && m.currentLock == Some(l)
    ensures var m' := EndHold(m, l);
            && Shape(m', None) && (m'.currentLock.None? ==> m'.locks == []) && RefsExact(m', {}, {})
            && m'.waitLocks == m.waitLocks && m'.waited == m.waited && m'.locked == Settled(m, l).locked
            && Place(m, l) < |Abs(m).holders| && Abs(m') == RemoveHold(Abs(m), Place(m, l))
  {
    hide Shape, RefsExact, Abs, Marked, Ended, EndHold;
    EndedCurrent(m, l);
    EndHoldIs(m, l);
    MarkedRecords(m, l);
    var e, t := Ended(m, l), Settled(m, l);
    TotalKeeps(e, t.locked, {l});
    assert forall x :: t.Get(x) == e.Get(x);
    ExactUses(t, l, {l});
    if m.Get(l).longWaitIndex > 0 && t.Get(l).refCount == 0 {
      ReturnKeeps(t, l);
    } else {
      IdleUsed(t, l);
    }
  }

  lemma EndQueuedKeeps(m: Manager, l: Lock)
    requires Shape(m, None) && RefsExact(m, {}, {}) && LiveHold(m, l) && m.currentLock.Some? && m.currentLock != Some(l)
    ensures var m' := EndHold(m, l);
            && Shape(m', None) && m'.currentLock == m.currentLock && (RefsExact(m', {}, {}) <==> !DoubleFree(m, l))
            && m'.waitLocks == m.waitLocks && m'.waited == m.waited && m'.locked == Settled(m, l).locked
            && Place(m, l) < |Abs(m).holders| && Abs(m') == RemoveHold(Abs(m), Place(m, l))
  {
    hide Shape, RefsExact, Abs, Marked, Ended, EndHold, AtFront;
    EndedQueued(m, l);
    EndedQueuedIff(m, l);
    EndHoldIs(m, l);
    MarkedRecords(m, l);
    var e, t := Ended(m, l), Settled(m, l);
    TotalKeeps(e, t.locked, {});
    ExactAccounts(t, l);
    if m.Get(l).longWaitIndex > 0 && t.Get(l).refCount == 0 {
      Refreed(t, l);
    }
  }

  lemma SettledTotal(m: Manager, l: Lock)
    requires Sound(m) && RefsExact(m, {}, {}) && LiveHold(m, l)
    ensures Place(m, l) < |Abs(m).holders| && Ended(m, l).locked == m.locked
    ensures Settled(m, l).locked == Locked(RemoveHold(Abs(m), Place(m, l)).holders)
  {
    PlaceOfLive(m, l);
    HoldsWithout(Abs(m).holders, Place(m, l), 0);
    assert Ended(m, l).locked == m.locked by {
      hide Shape, RefsExact, Abs, Marked, Ended;
      MarkedRecords(m, l);
      if m.currentLock == Some(l) {
        EndedCurrent(m, l);
      } else {
        EndedQueued(m, l);
      }
    }
  }

  /** A hold ends: the lists are right in every case, and the reference counts in every case but one. */
  lemma EndHoldKeeps(m: Manager, l: Lock)
    requires Sound(m) && RefsExact(m, {}, {}) && LiveHold(m, l)
    ensures var m' := EndHold(m, l);
            && Sound(m') && (RefsExact(m', {}, {}) <==> !DoubleFree(m, l))
            && Place(m, l) < |Abs(m).holders| && Abs(m') == RemoveHold(Abs(m), Place(m, l))
  {
    hide Shape, RefsExact, Abs, Settled, EndHold, AtFront;
    SettledTotal(m, l);
    if m.currentLock == Some(l) {
      EndCurrentKeeps(m, l);
    } else {
      EndQueuedKeeps(m, l);
    }
  }

  // ---------- the unlock request

  lemma LowerKeeps(m: Manager, l: Lock)
    requires Sound(m) && RefsExact(m, {}, {}) && LiveHold(m, l) && m.Get(l).locked > 1 && m.locked > 0
    ensures var m' := m.Set(l, m.Get(l).(locked := m.Get(l).locked - 1)).(locked := m.locked - 1);
            && Sound(m') && RefsExact(m', {}, {}) && Place(m, l) < |Abs(m).holders|
            && Abs(m).holders[Place(m, l)] == HoldOf(ViewOf(m.Get(l)))
            && Abs(m') == Abs(m).(holders := Abs(m).holders[Place(m, l) :=
                 Abs(m).holders[Place(m, l)].(depth := m.Get(l).locked - 1)])
  {
    hide Shape, RefsExact, Abs;
    var m' := m.Set(l, m.Get(l).(locked := m.Get(l).locked - 1)).(locked := m.locked - 1);
    assert Touched(m, m', l);
    TouchedShape(m, m', l);
    TouchedExact(m, m', l);
    TouchedAbs(m, m', l);
    HoldsUpdate(Abs(m).holders, Place(m, l), HoldOf(ViewOf(m'.Get(l))), 0);
  }

  /** Does the request end the hold? */
  predicate Finishes(r: Record, cmd: LockCommand) {
    !(r.locked > 1 && cmd.rcount != 0)
  }

  lemma ReleaseRefines(m: Manager, l: Lock, cmd: LockCommand, st: Stats)
    requires Valid(m) && RefsExact(m, {}, {}) && LiveHold(m, l) && m.locked > 0
    ensures var r := ReleaseOp(m, l, cmd, st);
            && Sound(r.manager) && Place(m, l) < |Abs(m).holders|
            && Refines(r, ReleaseStep(Abs(m), Place(m, l), cmd, st))
            && (RefsExact(r.manager, {}, {}) <==> !(Finishes(m.Get(l), cmd) && DoubleFree(m, l)))
  {
    hide Valid, Sound, Shape, RefsExact, Abs, EndHold, LiveHold, DoubleFree, RemoveHold;
    HeldFacts(m, l);
    if Finishes(m.Get(l), cmd) {
      EndHoldKeeps(m, l);
      SoundTotal(EndHold(m, l));
    } else {
      LowerKeeps(m, l);
      SoundTotal(m.Set(l, m.Get(l).(locked := m.Get(l).locked - 1)).(locked := m.locked - 1));
    }
  }

  lemma SoundTotal(m: Manager)
    requires Sound(m)
    ensures m.locked == Locked(Abs(m).holders)
  {
  }

  /** The hold that an unlock request is about. */
  function UnlockTarget(m: Manager, cmd: LockCommand): Option<Lock> {
    if m.locked == 0 || m.currentLock.None? then None
    else if GetLockedLock(m, cmd.lockId).Some? then GetLockedLock(m, cmd.lockId)
    else if cmd.flag == 0x01 then m.currentLock
    else None
  }

  /** The command as it decides between one level and all of them. */
  function UnlockTerms(m: Manager, cmd: LockCommand): LockCommand {
    if m.currentLock.Some? && GetLockedLock(m, cmd.lockId).None? then ShownLock(cmd, m.Get(m.currentLock.value))
      else cmd
  }

  /** An unlock request that makes the engine recycle a lock twice. */
  ghost predicate FreesTwice(m: Manager, cmd: LockCommand) {
    var t := UnlockTarget(m, cmd);
    t.Some? && Finishes(m.Get(t.value), UnlockTerms(m, cmd)) && DoubleFree(m, t.value)
  }

  lemma CurrentIsLive(m: Manager)
    requires Valid(m) && m.currentLock.Some?
    ensures LiveHold(m, m.currentLock.value) && Place(m, m.currentLock.value) == 0
    ensures Abs(m).holders != [] && Abs(m).holders[0] == HoldOf(ViewOf(m.Get(m.currentLock.value)))
  {
    LiveHoldOk(m, m.currentLock.value);
    PlaceOfCurrent(m);
    CurrentIffHolds(m);
  }

  lemma UnlockSound(m: Manager, cmd: LockCommand, st: Stats)
    requires Valid(m) && RefsExact(m, {}, {})
    ensures var r := UnLockOp(m, cmd, st);
            && Sound(r.manager) && Refines(r, UnlockStep(Abs(m), cmd, st))
            && (RefsExact(r.manager, {}, {}) <==> !FreesTwice(m, cmd))
  {
    hide Valid, Sound, Shape, RefsExact, Abs, ReleaseOp, ReleaseStep, LiveHold, DoubleFree, GetLockedLock, Find;
    LockedIffCurrent(m);
    ValidSound(m);
    if m.locked > 0 {
      LookupAgrees(m, cmd.lockId);
      CurrentIsLive(m);
      var t := UnlockTarget(m, cmd);
      if t.Some? {
        ReleaseRefines(m, t.value, UnlockTerms(m, cmd), st);
      }
    } else {
      FindInNothing(Abs(m), cmd.lockId);
    }
  }

  lemma ValidSound(m: Manager)
    requires Valid(m)
    ensures Sound(m) && m.locked == Locked(Abs(m).holders) && (Abs(m).holders == [] ==> Locked(Abs(m).holders) == 0)
  {
  }

  /** Every unlock request: same state, reply, returned records and statistics as the reference machine. Reference
      counts stay exact if and only if the request does not end a hold in the one bad position. */
  lemma UnlockRefines(m: Manager, cmd: LockCommand, st: Stats)
    requires Valid(m) && RefsExact(m, {}, {}) && Owned(Abs(m), cmd.commandId) == 0
    ensures var r := UnLockOp(m, cmd, st);
            && Valid(r.manager) && Refines(r, UnlockStep(Abs(m), cmd, st))
            && (RefsExact(r.manager, {}, {}) <==> !FreesTwice(m, cmd))
  {
    hide Valid, Sound, Shape, RefsExact, Abs, UnLockOp, UnlockStep, FreesTwice;
    UnlockSound(m, cmd, st);
    SoundValid(UnLockOp(m, cmd, st).manager, Abs(m), UnlockRequest(cmd), st, m);
  }

  // ---------- consuming timer entries

  lemma ReleaseTrims(m: Manager, l: Lock)
    requires Members(m) && l in m.attached && RefsExact(m, {l}, {})
    requires Uses(m, l) == 0 ==> m.Get(l).locked == 0
    ensures Trimmed(m, Release(m, l), 0, 0) && RefsExact(Release(m, l), {}, {})
  {
    hide NoDuplicates, CountsExact, FreeOk;
    ReleaseExact(m, l, {});
    var m' := Release(m, l);
    assert m'.locks == m.locks[0..] && m'.waitLocks == m.waitLocks[0..];
  }

  lemma ExpiryEntryExact(m: Manager, l: Lock)
    requires RefsExact(m, {}, {}) && l in m.inExpiry
    ensures RefsExact(m.(inExpiry := m.inExpiry - {l}), {l}, {})
  {
    var m1 := m.(inExpiry := m.inExpiry - {l});
    assert forall x :: m1.IsHold(x) <==> m.IsHold(x);
    assert forall x :: Uses(m1, x) == Uses(m, x) - Bit(x == l);
  }

  lemma ExpiryEntryAbs(m: Manager, l: Lock)
    ensures Abs(m.(inExpiry := m.inExpiry - {l})) == Abs(m)
  {
    var m1 := m.(inExpiry := m.inExpiry - {l});
    SameViews(m, m1, AllHolds(m));
    SameViews(m, m1, m.waitLocks);
    SameIndex(m, m1);
  }

  lemma ExpiryEntryOut(m: Manager, l: Lock)
    requires Shape(m, None) && RefsExact(m, {}, {}) && l in m.inExpiry && m.Get(l).expired
             && m.Get(l).longWaitIndex == 0
    ensures var m1 := m.(inExpiry := m.inExpiry - {l});
            && Shape(m1, None) && RefsExact(m1, {l}, {}) && Abs(m1) == Abs(m) && l in m1.attached
            && (Uses(m1, l) == 0 ==> m1.Get(l).locked == 0)
  {
    hide RefsExact, Abs, LongOk, WaitsOk, IndexOk;
    ExpiryEntryExact(m, l);
    ExpiryEntryAbs(m, l);
    ExpiryEntryShape(m, l);
  }

  lemma ExpiryEntryShape(m: Manager, l: Lock)
    requires Shape(m, None) && l in m.inExpiry && m.Get(l).expired && m.Get(l).longWaitIndex == 0
    ensures Shape(m.(inExpiry := m.inExpiry - {l}), None)
  {
  }

  /** An expiry entry of an ended hold is consumed. */
  lemma DropExpiredKeeps(m: Manager, l: Lock)
    requires Shape(m, None) && RefsExact(m, {}, {}) && l in m.inExpiry && m.Get(l).expired
             && m.Get(l).longWaitIndex == 0
    ensures var m' := DropExpired(m, l);
            && Shape(m', None) && RefsExact(m', {}, {}) && Abs(m') == Abs(m)
            && m'.currentLock == m.currentLock && m'.locks == m.locks && m'.waitLocks == m.waitLocks
            && m'.waited == m.waited && m'.locked == m.locked
  {
    hide HoldsOk, WaitsOk, LongOk, IndexOk, RefsExact, Abs, Members, Uses;
    var m1 := m.(inExpiry := m.inExpiry - {l});
    ExpiryEntryOut(m, l);
    ReleaseTrims(m1, l);
    TrimmedKeeps(m1, Release(m1, l), 0, 0, None);
  }

  lemma TimeoutEntryExact(m: Manager, l: Lock)
    requires RefsExact(m, {}, {}) && l in m.inTimeout
    ensures RefsExact(m.(inTimeout := m.inTimeout - {l}), {l}, {})
  {
    var m1 := m.(inTimeout := m.inTimeout - {l});
    assert forall x :: m1.IsHold(x) <==> m.IsHold(x);
    assert forall x :: Uses(m1, x) == Uses(m, x) - Bit(x == l);
  }

  lemma TimeoutEntryAbs(m: Manager, l: Lock)
    ensures Abs(m.(inTimeout := m.inTimeout - {l})) == Abs(m)
  {
    var m1 := m.(inTimeout := m.inTimeout - {l});
    SameViews(m, m1, AllHolds(m));
    SameViews(m, m1, m.waitLocks);
    SameIndex(m, m1);
  }

  lemma TimeoutEntryOut(m: Manager, l: Lock)
    requires Shape(m, None) && RefsExact(m, {}, {}) && l in m.inTimeout && m.Get(l).timeouted
    requires m.Get(l).longWaitIndex > 0 ==> l in m.inExpiry && !m.Get(l).expired
    ensures var m1 := m.(inTimeout := m.inTimeout - {l});
            && Shape(m1, None) && RefsExact(m1, {l}, {}) && Abs(m1) == Abs(m) && l in m1.attached
            && (Uses(m1, l) == 0 ==> m1.Get(l).locked == 0)
  {
    hide RefsExact, Abs, LongOk, WaitsOk, IndexOk;
    TimeoutEntryExact(m, l);
    TimeoutEntryAbs(m, l);
    TimeoutEntryShape(m, l);
  }

  lemma TimeoutEntryShape(m: Manager, l: Lock)
    requires Shape(m, None) && l in m.inTimeout && m.Get(l).timeouted
    requires m.Get(l).longWaitIndex > 0 ==> l in m.inExpiry && !m.Get(l).expired
    ensures Shape(m.(inTimeout := m.inTimeout - {l}), None)
  {
  }

  /** A timeout entry of a request that no longer waits is consumed. */
  lemma DropTimeOutKeeps(m: Manager, l: Lock)
    requires Shape(m, None) && RefsExact(m, {}, {}) && l in m.inTimeout && m.Get(l).timeouted
    ensures var m' := DropTimeOut(m, l);
            && Shape(m', None) && RefsExact(m', {}, {}) && Abs(m') == Abs(m)
            && m'.currentLock == m.currentLock && m'.locks == m.locks && m'.waitLocks == m.waitLocks
            && m'.waited == m.waited && m'.locked == m.locked
  {
    assert m.Get(l).longWaitIndex > 0 ==> l in m.inExpiry && !m.Get(l).expired by {
      LongHolder(m, l);
    }
    hide HoldsOk, WaitsOk, LongOk, IndexOk, RefsExact, Abs, Members, Uses;
    var m1 := m.(inTimeout := m.inTimeout - {l});
    TimeoutEntryOut(m, l);
    ReleaseTrims(m1, l);
    TrimmedKeeps(m1, Release(m1, l), 0, 0, None);
  }

  lemma LongHolder(m: Manager, l: Lock)
    requires Members(m) && LongOk(m) && l in m.inTimeout && m.Get(l).timeouted
    ensures m.Get(l).longWaitIndex > 0 ==> l in m.inExpiry && !m.Get(l).expired
  {
  }

  // ---------- expiry

  lemma {:induction false} DropTotal(m: Manager, total: nat)
    ensures DropDeadHolds(m.(locked := total)) == DropDeadHolds(m).(locked := total)
    decreases |m.locks|
  {
    if m.locks != [] && m.Get(m.locks[0]).locked == 0 {
      DropTotal(PoppedHold(m), total);
      assert PoppedHold(m.(locked := total)) == PoppedHold(m).(locked := total);
    }
  }

  lemma RemoveTotal(m: Manager, l: Lock, total: nat)
    ensures RemoveLock(m.(locked := total), l) == RemoveLock(m, l).(locked := total)
  {
    hide DropDeadHolds;
    var r := m.Get(l);
    if m.currentLock == Some(l) {
      var m1 := m.Set(l, r.(locked := 0, refCount := r.refCount - 1)).(currentLock := None);
      DropTotal(m1, total);
      assert Promote(DropDeadHolds(m1).(locked := total)) == Promote(DropDeadHolds(m1)).(locked := total);
    } else {
      DropTotal(m.Set(l, r.(locked := 0)).(lockMaps := m.lockMaps - {r.command.lockId}), total);
    }
  }

  /** The hold that expires is out of the lists and still has its expiry entry. */
  lemma ExpiredEnds(m: Manager, l: Lock)
    requires Sound(m) && RefsExact(m, {}, {}) && LiveHold(m, l) && m.Get(l).longWaitIndex == 0
    ensures var m' := Settled(m, l);
            && Shape(m', None) && (m'.currentLock.None? ==> m'.locks == []) && RefsExact(m', {}, {})
            && m'.waitLocks == m.waitLocks && m'.waited == m.waited
            && l in m'.inExpiry && m'.Get(l).expired && m'.Get(l).longWaitIndex == 0
            && m'.locked == Locked(Abs(m').holders)
            && Place(m, l) < |Abs(m).holders| && Abs(m').holders == RemoveHold(Abs(m), Place(m, l)).holders
            && Abs(m') == RemoveHold(Abs(m), Place(m, l))
  {
    hide Shape, RefsExact, Abs, Marked, Ended, EndHold;
    SettledTotal(m, l);
    MarkedRecords(m, l);
    EndHoldIs(m, l);
    if m.currentLock == Some(l) {
      EndCurrentKeeps(m, l);
      EndedCurrent(m, l);
    } else {
      EndQueuedKeeps(m, l);
      EndedQueued(m, l);
      EndedRecord(m, l);
    }
  }

  /** Ending a queued hold changes no other flag of its lock. */
  lemma EndedRecord(m: Manager, l: Lock)
    requires Shape(m, None) && RefsExact(m, {}, {}) && LiveHold(m, l) && m.currentLock.Some? && m.currentLock != Some(l)
    requires l in Ended(m, l).inExpiry
    ensures Ended(m, l).Get(l).expired && Ended(m, l).Get(l).longWaitIndex == 0
  {
    hide Shape, RefsExact, Abs, Marked;
    MarkedEnding(m, l);
    MarkedRecords(m, l);
    var d := Dimmed(Marked(m, l), l);
    DimmedDroppable(Marked(m, l), l);
    var h := DropHolds(d, {});
    assert Ended(m, l) == DropDeadHolds(d);
  }

  /** The timer of a hold fires, possibly long after the hold has ended. */
  lemma ExpireRefines(m: Manager, l: Lock, st: Stats)
    requires Valid(m) && RefsExact(m, {}, {}) && l in m.inExpiry && m.Get(l).longWaitIndex == 0
    ensures var r := DoExpiredOp(m, l, st);
            && Valid(r.manager) && RefsExact(r.manager, {}, {})
            && (if m.Get(l).expired then Abs(r.manager) == Abs(m) && r.reply.None? && r.freed == [] && r.stats == st
                else Refines(r, ExpireStep(Abs(m), m.Get(l).command.commandId, st)))
  {
    if m.Get(l).expired {
      DropExpiredKeeps(m, l);
    } else {
      LiveByExpiry(m, l);
      ExpireLive(m, l, st);
    }
  }

  lemma LiveByExpiry(m: Manager, l: Lock)
    requires Shape(m, None) && l in m.inExpiry && !m.Get(l).expired
    ensures LiveHold(m, l)
  {
    LiveHoldOk(m, l);
  }

  lemma ExpireLive(m: Manager, l: Lock, st: Stats)
    requires Valid(m) && RefsExact(m, {}, {}) && LiveHold(m, l) && m.Get(l).longWaitIndex == 0
    ensures var r := DoExpiredOp(m, l, st);
            && Valid(r.manager) && RefsExact(r.manager, {}, {})
            && Refines(r, ExpireStep(Abs(m), m.Get(l).command.commandId, st))
  {
    hide Valid, Sound, Shape, RefsExact, Abs, Ended, RemoveLock, DropExpired, RemoveHold, Position;
    HeldFacts(m, l);
    SettledTotal(m, l);
    ExpiredEnds(m, l);
    var t := Settled(m, l);
    ExpireIs(m, l, st);
    DropExpiredKeeps(t, l);
    var m' := DropExpired(t, l);
    SoundOf(m');
    PlaceIsPosition(m, l);
    SoundValid(m', Abs(m), Expire(m.Get(l).command.commandId), st, m);
  }

  lemma PlaceIsPosition(m: Manager, l: Lock)
    requires Valid(m) && LiveHold(m, l)
    ensures Position(Abs(m).holders, m.Get(l).command.commandId) == Some(Place(m, l))
  {
    PlaceOfLive(m, l);
    PositionAt(Abs(m), Place(m, l));
  }

  /** The total is lowered before the hold is removed; the result is the same. */
  lemma ExpireIs(m: Manager, l: Lock, st: Stats)
    requires LiveHold(m, l) && m.Get(l).longWaitIndex == 0 && Ended(m, l).locked == m.locked
    ensures DoExpiredOp(m, l, st).manager == DropExpired(Settled(m, l), l)
  {
    hide RemoveLock, DropExpired;
    var r := m.Get(l);
    var m1 := m.Set(l, r.(expired := true));
    RemoveTotal(m1, l, if r.locked <= m.locked then m.locked - r.locked else 0);
  }

  // ---------- timeout

  /** A request that waits. */
  ghost predicate LiveWaiter(m: Manager, l: Lock) {
    l in m.attached && l in m.waitLocks && !m.Get(l).timeouted && l in m.inTimeout && !m.IsHold(l) && l !in m.inExpiry
  }

  /** The place of a waiting request in the abstract queue. */
  function WaitPlace(m: Manager, l: Lock): nat
    requires l in m.waitLocks
  {
    WaitRank(Views(m, m.waitLocks), IndexOf(m.waitLocks, l))
  }

  /** The request no longer waits; if it was in the long timeout queue it is taken out at once. */
  function Stopped(m: Manager, l: Lock): Manager {
    var m1 := m.Set(l, m.Get(l).(timeouted := true));
    if m.Get(l).longWaitIndex > 0 then RemoveLongTimeOut(m1, l) else m1
  }

  lemma StoppedRecords(m: Manager, l: Lock)
    ensures var m' := Stopped(m, l); var r := m.Get(l); var r' := m'.Get(l);
            && r' == r.(timeouted := true, longWaitIndex := 0,
                        refCount := if r.longWaitIndex > 0 then r.refCount - 1 else r.refCount)
            && (forall x :: x != l ==> m'.Get(x) == m.Get(x))
            && m' == m.(records := m'.records,
                        inTimeout := if r.longWaitIndex > 0 then m.inTimeout - {l} else m.inTimeout)
  {
  }

  lemma StoppedShape(m: Manager, l: Lock)
    requires Shape(m, None) && LiveWaiter(m, l)
    ensures Shape(Stopped(m, l), None)
  {
    StoppedRecords(m, l);
    hide Stopped;
    var m' := Stopped(m, l);
    assert forall x :: m'.IsHold(x) <==> m.IsHold(x);
    assert Members(m');
    assert HoldsOk(m', None);
    assert WaitsOk(m');
  }

  lemma StoppedExact(m: Manager, l: Lock)
    requires RefsExact(m, {}, {}) && LiveWaiter(m, l)
    ensures RefsExact(Stopped(m, l), {}, {})
  {
    StoppedRecords(m, l);
    hide Stopped;
    var m' := Stopped(m, l);
    assert forall x :: m'.IsHold(x) <==> m.IsHold(x);
    assert forall x :: Uses(m', x) == Uses(m, x) - Bit(x == l && m.Get(l).longWaitIndex > 0);
  }

  lemma StoppedWaiters(m: Manager, l: Lock)
    requires Members(m) && LiveWaiter(m, l)
    ensures WaitPlace(m, l) < |Abs(m).waiters| && Abs(m).waiters[WaitPlace(m, l)] == WaiterOf(ViewOf(m.Get(l)))
    ensures Abs(Stopped(m, l)).waiters == Without(Abs(m).waiters, WaitPlace(m, l))
  {
    StoppedRecords(m, l);
    hide Stopped;
    var m' := Stopped(m, l);
    var i := IndexOf(m.waitLocks, l);
    assert Views(m', m.waitLocks) == Views(m, m.waitLocks)[i := ViewOf(m'.Get(l))];
    WaiterAtRank(Views(m, m.waitLocks), i, ViewOf(m'.Get(l)));
  }

  lemma StoppedAbs(m: Manager, l: Lock)
    requires Members(m) && LiveWaiter(m, l)
    ensures WaitPlace(m, l) < |Abs(m).waiters| && Abs(m).waiters[WaitPlace(m, l)] == WaiterOf(ViewOf(m.Get(l)))
    ensures Abs(Stopped(m, l)) == Abs(m).(waiters := Without(Abs(m).waiters, WaitPlace(m, l)))
  {
    StoppedWaiters(m, l);
    StoppedRecords(m, l);
    hide Stopped;
    SameViews(m, Stopped(m, l), AllHolds(m));
    SameIndex(m, Stopped(m, l));
  }

  /** Cleaning the queue of waiters leaves it empty exactly when nobody waits. */
  lemma CleanedWaiters(m: Manager)
    requires Shape(m, None) && RefsExact(m, {}, {})
    ensures var m' := DropDeadWaiters(m);
            && Shape(m', None) && RefsExact(m', {}, {}) && Abs(m') == Abs(m)
            && m'.currentLock == m.currentLock && m'.locks == m.locks && m'.locked == m.locked && m'.waited == m.waited
            && m'.inTimeout == m.inTimeout
            && (m'.waitLocks == [] <==> Abs(m).waiters == [])
            && (m'.waitLocks != [] ==>
                  LiveWaiter(m', m'.waitLocks[0]) && m'.waitLocks[0] in m.waitLocks
                  && Abs(m).waiters[0] == WaiterOf(ViewOf(m'.Get(m'.waitLocks[0]))))
            && (m.waitLocks == [] ==> m'.waitLocks == [])
            && (forall l :: l in m'.attached ==> m'.Get(l) == m.Get(l).(refCount := m'.Get(l).refCount))
  {
    DroppableOf(m);
    var w := DropWaiters(m);
    var m' := DropDeadWaiters(m);
    assert Trimmed(m, m', 0, w);
    TrimmedKeeps(m, m', 0, w, None);
    hide DropDeadWaiters;
    FirstWaiter(m');
  }

  lemma DroppableOf(m: Manager)
    requires Shape(m, None) && RefsExact(m, {}, {})
    ensures Droppable(m, {})
  {
  }

  lemma FirstWaiter(m: Manager)
    requires m.waitLocks != [] ==> !m.Get(m.waitLocks[0]).timeouted
    ensures m.waitLocks == [] <==> Abs(m).waiters == []
    ensures m.waitLocks != [] ==> Abs(m).waiters[0] == WaiterOf(ViewOf(m.Get(m.waitLocks[0])))
  {
    var vs := Views(m, m.waitLocks);
    if m.waitLocks != [] {
      assert vs[0] == ViewOf(m.Get(m.waitLocks[0]));
    } else {
      assert vs == [];
    }
  }

  lemma WaitedKeeps(m: Manager, b: bool)
    ensures Abs(m.(waited := b)) == Abs(m).(waited := b)
    ensures Shape(m, None) ==> Shape(m.(waited := b), None)
    ensures RefsExact(m, {}, {}) ==> RefsExact(m.(waited := b), {}, {})
  {
    var m' := m.(waited := b);
    SameViews(m, m', AllHolds(m));
    SameViews(m, m', m.waitLocks);
    SameIndex(m, m');
    assert forall x :: Uses(m', x) == Uses(m, x);
    WaitedShape(m, b);
  }

  lemma WaitedShape(m: Manager, b: bool)
    ensures Shape(m, None) ==> Shape(m.(waited := b), None)
  {
  }

  lemma LiveWaiterOk(m: Manager, l: Lock)
    requires Shape(m, None) && l in m.inTimeout && !m.Get(l).timeouted
    ensures LiveWaiter(m, l) && m.Get(l).locked == 0 && m.Get(l).expireTime == 0
  {
  }

  lemma WaitPlaceIsPosition(m: Manager, l: Lock)
    requires Valid(m) && LiveWaiter(m, l)
    ensures WaitPosition(Abs(m).waiters, m.Get(l).command.commandId) == Some(WaitPlace(m, l))
    ensures Abs(m).waiters[WaitPlace(m, l)] == WaiterOf(ViewOf(m.Get(l)))
  {
    StoppedWaiters(m, l);
    WaitPositionAt(Abs(m), WaitPlace(m, l));
  }

  /** The manager after a waiting request timed out. */
  lemma TimeOutSound(m: Manager, l: Lock, st: Stats)
    requires Sound(m) && RefsExact(m, {}, {}) && LiveWaiter(m, l) && m.Get(l).longWaitIndex == 0
    ensures var m' := DoTimeOutOp(m, l, st).manager;
            && Sound(m') && RefsExact(m', {}, {}) && m'.locked == m.locked
    ensures WaitPlace(m, l) < |Abs(m).waiters|
    ensures var rest := Without(Abs(m).waiters, WaitPlace(m, l));
            Abs(DoTimeOutOp(m, l, st).manager) == Abs(m).(waiters := rest, waited := Abs(m).waited && rest != [])
  {
    hide Shape, RefsExact, Abs, Stopped, DropDeadWaiters, DropTimeOut, WaitPlace;
    var m0 := Stopped(m, l);
    StoppedIs(m, l);
    StoppedRecords(m, l);
    StoppedShape(m, l);
    StoppedExact(m, l);
    StoppedFull(m, l);
    CleanedWaiters(m0);
    var m1 := DropDeadWaiters(m0);
    var b := m1.waited && m1.waitLocks != [];
    WaitedKeeps(m1, b);
    var m2 := m1.(waited := b);
    InTimeoutAttached(m1, l);
    DropTimeOutKeeps(m2, l);
    AbsWaited(m);
  }

  lemma AbsWaited(m: Manager)
    ensures Abs(m).waited == m.waited
  {
  }

  lemma InTimeoutAttached(m: Manager, l: Lock)
    requires Shape(m, None) && l in m.inTimeout
    ensures l in m.attached
  {
  }

  lemma StoppedIs(m: Manager, l: Lock)
    ensures m.Get(l).longWaitIndex == 0 ==> Stopped(m, l) == m.Set(l, m.Get(l).(timeouted := true))
  {
  }

  lemma StoppedFull(m: Manager, l: Lock)
    requires Shape(m, None) && LiveWaiter(m, l)
    ensures WaitPlace(m, l) < |Abs(m).waiters| && Abs(m).waiters[WaitPlace(m, l)] == WaiterOf(ViewOf(m.Get(l)))
    ensures Abs(Stopped(m, l)) == Abs(m).(waiters := Without(Abs(m).waiters, WaitPlace(m, l)))
  {
    StoppedAbs(m, l);
  }

  /** The timer of a request fires, possibly long after the request stopped waiting. */
  lemma TimeOutRefines(m: Manager, l: Lock, st: Stats)
    requires Valid(m) && RefsExact(m, {}, {}) && l in m.inTimeout
    requires !m.Get(l).timeouted ==> m.Get(l).longWaitIndex == 0
    ensures var r := DoTimeOutOp(m, l, st);
            && Valid(r.manager) && RefsExact(r.manager, {}, {})
            && (if m.Get(l).timeouted then Abs(r.manager) == Abs(m) && r.reply.None? && r.freed == [] && r.stats == st
                else Refines(r, TimeOutStep(Abs(m), m.Get(l).command.commandId, st)))
  {
    if m.Get(l).timeouted {
      DropTimeOutKeeps(m, l);
    } else {
      LiveWaiterOk(m, l);
      TimeOutLive(m, l, st);
    }
  }

  lemma TimeOutLive(m: Manager, l: Lock, st: Stats)
    requires Valid(m) && RefsExact(m, {}, {}) && LiveWaiter(m, l) && m.Get(l).longWaitIndex == 0 && m.Get(l).locked == 0
    ensures var r := DoTimeOutOp(m, l, st);
            && Valid(r.manager) && RefsExact(r.manager, {}, {})
            && Refines(r, TimeOutStep(Abs(m), m.Get(l).command.commandId, st))
  {
    hide Valid, Sound, Shape, RefsExact, Abs, DropDeadWaiters, DropTimeOut, WaitPlace;
    ValidSound(m);
    TimeOutSound(m, l, st);
    WaitPlaceIsPosition(m, l);
    var m' := DoTimeOutOp(m, l, st).manager;
    SoundValid(m', Abs(m), TimeOut(m.Get(l).command.commandId), st, m);
  }

  // ---------- waking

  lemma MoreIdle(m: Manager, l: Lock)
    requires RefsExact(m, {}, {})
    ensures RefsExact(m, {}, {l})
  {
  }

  lemma StoppedGrantable(m: Manager, l: Lock)
    requires Shape(m, None) && LiveWaiter(m, l) && (m.currentLock.None? ==> m.locks == [])
    ensures Grantable(Stopped(m, l), l)
  {
    StoppedShape(m, l);
    StoppedRecords(m, l);
    LiveWaiterOk(m, l);
  }

  lemma FirstWaitPlace(m: Manager, l: Lock)
    requires m.waitLocks != [] && m.waitLocks[0] == l
    ensures WaitPlace(m, l) == 0
  {
    assert Views(m, m.waitLocks)[..0] == [];
  }

  /** The oldest waiter is granted: with a hold, or with nothing to hold. */
  lemma WakeUpSound(m: Manager, now: int, st: Stats, place: nat)
    requires Sound(m) && RefsExact(m, {}, {}) && m.waitLocks != [] && LiveWaiter(m, m.waitLocks[0])
    ensures var l := m.waitLocks[0]; var w := WaiterOf(ViewOf(m.Get(l)));
            var m' := WakeUpWaitLock(m, l, now, st, place).manager;
            && Sound(m') && RefsExact(m', {}, {}) && Abs(m).waiters != [] && Abs(m).waiters[0] == w
            && (if w.expried > 0
                then Abs(m') == AddHold(Abs(m).(waiters := Abs(m).waiters[1..]), HoldOfWaiter(w, now))
                else Abs(m') == Abs(m).(waiters := Abs(m).waiters[1..]))
  {
    hide Shape, RefsExact, Abs, Stopped, GrantHold, ExpireTime, WaitPlace;
    var l := m.waitLocks[0];
    var m2 := Stopped(m, l);
    StoppedRecords(m, l);
    StoppedShape(m, l);
    StoppedExact(m, l);
    StoppedFull(m, l);
    FirstWaitPlace(m, l);
    assert Without(Abs(m).waiters, 0) == Abs(m).waiters[1..];
    StoppedGrantable(m, l);
    MoreIdle(m2, l);
    GrantedSound(m, m2, l, now, place);
    WakeUpIs(m, l, now, st, place);
  }

  lemma GrantedSound(m: Manager, m2: Manager, l: Lock, now: int, place: nat)
    requires Grantable(m2, l) && RefsExact(m2, {}, {l}) && (m2.waited <==> m2.waitLocks != [])
    requires m2.locked == Locked(Abs(m2).holders)
    ensures var m' := GrantHold(m2, l, now, place); var c := m2.Get(l).command;
            && Sound(m') && RefsExact(m', {}, {})
            && Abs(m') == AddHold(Abs(m2), Hold(c.commandId, c.lockId, 1, c.count, c.rcount,
                                                ExpireTime(now, c.expried, c.expriedFlag)))
  {
    hide Shape, RefsExact, Abs, GrantHold, ExpireTime;
    var c := m2.Get(l).command;
    GrantRecords(m2, l, now, place);
    GrantShape(m2, l, now, place);
    GrantExact(m2, l, now, place);
    GrantAbs(m2, l, now, place);
    GrantMembers(m2, l, now, place);
    AddTally(Abs(m2), Hold(c.commandId, c.lockId, 1, c.count, c.rcount, ExpireTime(now, c.expried, c.expriedFlag)), 0);
  }

  lemma WakeUpIs(m: Manager, l: Lock, now: int, st: Stats, place: nat)
    ensures WakeUpWaitLock(m, l, now, st, place).manager
            == if m.Get(l).command.expried > 0 then GrantHold(Stopped(m, l), l, now, place) else Stopped(m, l)
  {
    hide GrantHold;
  }

  /** One turn of the wake-up loop. */
  lemma WakeRefines(m: Manager, now: int, st: Stats, place: nat)
    requires Valid(m) && RefsExact(m, {}, {})
    ensures var r := WakeOp(m, now, st, place);
            && Valid(r.manager) && RefsExact(r.manager, {}, {})
            && Refines(r, WakeStep(Abs(m), now, st))
  {
    hide Valid, Sound, Shape, RefsExact, Abs, DropDeadWaiters, WakeUpWaitLock, DoLock, MayGrant, LiveWaiter;
    ValidSound(m);
    WakeSound(m, now, st, place);
    SoundValid(WakeOp(m, now, st, place).manager, Abs(m), Wake(now), st, m);
  }

  lemma WakeSound(m: Manager, now: int, st: Stats, place: nat)
    requires Valid(m) && RefsExact(m, {}, {})
    ensures var r := WakeOp(m, now, st, place);
            Sound(r.manager) && RefsExact(r.manager, {}, {}) && Refines(r, WakeStep(Abs(m), now, st))
  {
    hide Valid, Sound, Shape, RefsExact, Abs, DropDeadWaiters, WakeUpWaitLock, DoLock, MayGrant, LiveWaiter, AddHold;
    WakeStart(m);
    if m.waited {
      var m1 := DropDeadWaiters(m);
      if m1.waitLocks == [] {
        WaitedKeeps(m1, false);
        SoundEmpty(m1);
      } else {
        var l := m1.waitLocks[0];
        ValidFacts(m1, m1.Get(l).command.count);
        if DoLock(m1, m1.Get(l).command.count) {
          WakeUpSound(m1, now, st, place);
          WakeUpReply(m1, l, now, st, place);
        }
      }
    }
  }

  lemma SoundEmpty(m: Manager)
    requires Valid(m) || (Shape(m, None) && (m.currentLock.None? ==> m.locks == [])
             && m.locked == Locked(Abs(m).holders))
    requires m.waitLocks == []
    ensures Sound(m.(waited := false))
  {
    WaitedKeeps(m, false);
  }

  lemma WakeStart(m: Manager)
    requires Valid(m) && RefsExact(m, {}, {})
    ensures Sound(m) && (!m.waited ==> Abs(m).waiters == [] && Abs(m).(waited := false) == Abs(m))
    ensures var m1 := DropDeadWaiters(m);
            && RefsExact(m1, {}, {}) && Abs(m1) == Abs(m)
            && (m1.waitLocks == [] <==> Abs(m).waiters == [])
            && (m1.waitLocks == [] ==> Shape(m1, None) && (m1.currentLock.None? ==> m1.locks == [])
                                       && m1.locked == Locked(Abs(m1).holders))
            && (m.waited && m1.waitLocks != [] ==>
                  Valid(m1) && Sound(m1) && LiveWaiter(m1, m1.waitLocks[0]) && m1.Get(m1.waitLocks[0]).locked == 0
                  && Abs(m).waiters[0] == WaiterOf(ViewOf(m1.Get(m1.waitLocks[0]))))
  {
    CleanedWaiters(m);
    var m1 := DropDeadWaiters(m);
    hide DropDeadWaiters, RefsExact, WellFormed;
    assert WellFormed(Abs(m));
    WaitersImplyWaited(Abs(m));
  }

  lemma WaitersImplyWaited(s: KeyState)
    requires WellFormed(s)
    ensures s.waiters != [] ==> s.waited
  {
  }

  lemma WakeUpReply(m: Manager, l: Lock, now: int, st: Stats, place: nat)
    requires m.Get(l).locked == 0
    ensures var r := WakeUpWaitLock(m, l, now, st, place); var w := WaiterOf(ViewOf(m.Get(l)));
            var granted := st.(lockCount := st.lockCount + 1, waitCount := st.waitCount - 1);
            if w.expried > 0 then
              && r.reply == Some(Reply(w.request, Succed, (m.locked + 1) % 0x10000, 1, w.lockId, w.count, w.rcount))
              && r.freed == [] && r.stats == granted.(lockedCount := granted.lockedCount + 1)
            else
              && r.reply == Some(Reply(w.request, Succed, m.locked % 0x10000, 0, w.lockId, w.count, w.rcount))
              && r.freed == [w.request] && r.stats == granted
  {
    hide GrantHold;
  }

  // ---------- timer structures moving locks around

  /** Moving a live lock between timer structures changes nothing that clients can see. */
  lemma RetimedAbs(m: Manager, l: Lock, place: nat)
    ensures Abs(Retimed(m, l, place)) == Abs(m)
  {
    hide LiveHolds, LiveWaiters;
    var m' := Retimed(m, l, place);
    SameViews(m, m', AllHolds(m));
    SameViews(m, m', m.waitLocks);
    SameIndex(m, m');
  }

  lemma RetimedKeeps(m: Manager, l: Lock, place: nat)
    requires Valid(m) && RefsExact(m, {}, {})
    requires (l in m.inExpiry && !m.Get(l).expired) || (l in m.inTimeout && !m.Get(l).timeouted)
    ensures var m' := Retimed(m, l, place); Valid(m') && RefsExact(m', {}, {}) && Abs(m') == Abs(m)
  {
    hide Shape, RefsExact, Abs, WellFormed;
    RetimedAbs(m, l, place);
    RetimedShape(m, l, place);
    RetimedExact(m, l, place);
  }

  lemma RetimedShape(m: Manager, l: Lock, place: nat)
    requires Shape(m, None)
    requires (l in m.inExpiry && !m.Get(l).expired) || (l in m.inTimeout && !m.Get(l).timeouted)
    ensures Shape(Retimed(m, l, place), None)
  {
    var m' := Retimed(m, l, place);
    assert forall x :: m'.Get(x) == m.Get(x).(longWaitIndex := m'.Get(x).longWaitIndex);
  }

  lemma RetimedExact(m: Manager, l: Lock, place: nat)
    requires RefsExact(m, {}, {})
    ensures RefsExact(Retimed(m, l, place), {}, {})
  {
    var m' := Retimed(m, l, place);
    assert forall x :: Uses(m', x) == Uses(m, x);
    assert forall x :: m'.Get(x) == m.Get(x).(longWaitIndex := m'.Get(x).longWaitIndex);
  }

  // ---------- the manager of an unused key

  /** The wake-up loop, turn by turn. */
  lemma WakeAllTurn(s: KeyState, now: int, st: Stats)
    ensures var o := WakeStep(s, now, st); var r := WakeAll(s, now, st);
            if o.reply.Some? then
              var rest := WakeAll(o.state, now, o.stats);
              r == (rest.0, [o.reply.value] + rest.1, o.freed + rest.2, rest.3) && |o.state.waiters| < |s.waiters|
            else r == (o.state, [], [], o.stats)
  {
  }

  const NEW_MANAGER := Manager(map[], None, [], map[], [], [], 0, 0, false, {}, {}, {})

  lemma NewManager()
    ensures Valid(NEW_MANAGER) && RefsExact(NEW_MANAGER, {}, {}) && Abs(NEW_MANAGER) == EMPTY
  {
    assert Views(NEW_MANAGER, AllHolds(NEW_MANAGER)) == [];
    assert Views(NEW_MANAGER, NEW_MANAGER.waitLocks) == [];
  }

  // ---------- a run that recycles a lock twice

  const FIRST := LockCommand(1, 0, 10, 5, 0, 600, 0, 1, 0)
  const SECOND := LockCommand(2, 0, 20, 5, 0, 600, 0, 1, 0)
  const THIRD := LockCommand(3, 0, 20, 5, 0, 0, 0, 0, 0)
  const NO_STATS := Stats(0, 0, 0, 0, 0, 0, 0)

  /** The manager after the first request: lock `a` is the current lock, `b` is spare. */
  function OneHold(a: Lock, b: Lock): Manager {
    LockOp(NEW_MANAGER, FIRST, 0, NO_STATS, [b, a], 0).manager
  }

  /** After the second request: `b` is queued behind `a`. */
  function TwoHolds(a: Lock, b: Lock): Manager
    requires a != b
  {
    OneHoldIs(a, b);
    LockOp(OneHold(a, b), SECOND, 0, NO_STATS, [], 0).manager
  }

  function Depth1(cmd: LockCommand): Record {
    Record(cmd, 0, 601, 6, 0, 1, 1, 2, 1, false, false)
  }

  lemma OneHoldIs(a: Lock, b: Lock)
    requires a != b
    ensures var m := OneHold(a, b);
            && m.currentLock == Some(a) && m.locks == [] && m.lockMaps == map[] && m.freeLocks == [b]
            && m.locked == 1 && !m.waited && m.Get(a) == Depth1(FIRST) && m.Get(b) == BLANK
            && m.waitLocks == [] && m.inTimeout == {}
  {
    var m0 := Stocked(NEW_MANAGER, [b, a]);
    assert m0.Get(a) == BLANK && m0.Get(b) == BLANK;
    var m1 := GetOrNewLock(m0, FIRST, 0);
    assert m1.Get(b) == BLANK && m1.freeLocks == [b];
  }

  lemma TwoHoldsIs(a: Lock, b: Lock)
    requires a != b
    ensures var m := TwoHolds(a, b);
            && m.currentLock == Some(a) && m.locks == [b] && m.lockMaps == map[20 := b] && m.locked == 2
            && m.Get(a) == Depth1(FIRST) && m.Get(b) == Depth1(SECOND)
            && m.waitLocks == [] && m.inTimeout == {} && b in m.inExpiry && !m.Get(b).expired
  {
    OneHoldIs(a, b);
    hide OneHold;
  }

  /** A request brings at most its own record. */
  lemma RequestOwns(s: KeyState, cmd: LockCommand, now: int, st: Stats, c: nat)
    requires WellFormed(s) && Owned(s, cmd.commandId) == 0 && Owned(s, c) == 0 && c != cmd.commandId
    ensures Owned(LockStep(s, cmd, now, st).state, c) == 0
  {
    hide LockStep, Owned;
    StepConserves(s, LockRequest(cmd, now), st, c);
    assert Taken(LockRequest(cmd, now)) == [cmd.commandId];
    assert Tally([cmd.commandId], c) == 0;
  }

  lemma ValidWellFormed(m: Manager)
    requires Valid(m)
    ensures WellFormed(Abs(m))
  {
  }

  /** A request with a record nobody owns, and another record that stays unowned. */
  lemma LockReaches(m: Manager, cmd: LockCommand, news: seq<Lock>, c: nat)
    requires Valid(m) && RefsExact(m, {}, {}) && (NeedsNewLocks(m, cmd) ==> NewLocks(m, news))
    requires Owned(Abs(m), cmd.commandId) == 0 && Owned(Abs(m), c) == 0 && c != cmd.commandId
    ensures var m' := LockOp(m, cmd, 0, NO_STATS, news, 0).manager;
            Valid(m') && RefsExact(m', {}, {}) && Owned(Abs(m'), c) == 0
  {
    ValidWellFormed(m);
    hide Valid, RefsExact, LockOp, Abs, LockStep, WellFormed, Owned, NeedsNewLocks, NewLocks;
    LockRefines(m, cmd, 0, NO_STATS, news, 0);
    RequestOwns(Abs(m), cmd, 0, NO_STATS, c);
  }

  lemma NothingOwned(c: nat)
    ensures Owned(EMPTY, c) == 0
  {
  }

  lemma TwoNewLocks(a: Lock, b: Lock)
    requires a != b
    ensures NewLocks(NEW_MANAGER, [b, a])
  {
  }

  lemma OneHoldExact(a: Lock, b: Lock, c: nat)
    requires a != b && c != 1
    ensures var m := OneHold(a, b); Valid(m) && RefsExact(m, {}, {}) && Owned(Abs(m), c) == 0
  {
    hide Valid, RefsExact, LockOp, Abs, NeedsNewLocks, NewLocks, Owned;
    NewManager();
    NothingOwned(1);
    NothingOwned(c);
    TwoNewLocks(a, b);
    LockReaches(NEW_MANAGER, FIRST, [b, a], c);
  }

  lemma ReachedExact(a: Lock, b: Lock)
    requires a != b
    ensures var m := Retimed(TwoHolds(a, b), b, 1); Valid(m) && RefsExact(m, {}, {}) && Owned(Abs(m), 3) == 0
  {
    OneHoldIs(a, b);
    TwoHoldsIs(a, b);
    hide Valid, RefsExact, LockOp, Abs, Owned, OneHold, Retimed, Depth1;
    OneHoldExact(a, b, 2);
    OneHoldExact(a, b, 3);
    LockReaches(OneHold(a, b), SECOND, [], 3);
    RetimedKeeps(TwoHolds(a, b), b, 1);
  }

  /** Two requests are granted and the timer moves the second to the long queue: a state in which everything is exact,
      and in which the unlock of the second request recycles its lock twice. */
  lemma DoubleFreeReached(a: Lock, b: Lock)
    requires a != b
    ensures var m := Retimed(TwoHolds(a, b), b, 1);
            && Valid(m) && RefsExact(m, {}, {}) && FreesTwice(m, THIRD)
            && !RefsExact(UnLockOp(m, THIRD, NO_STATS).manager, {}, {})
  {
    hide Valid, RefsExact, LockOp, UnLockOp, Abs, LockStep, UnlockStep, Owned, OneHold, TwoHolds;
    ReachedExact(a, b);
    TwoHoldsIs(a, b);
    var m := Retimed(TwoHolds(a, b), b, 1);
    assert m.locks[0] == b && AtFront(m, b);
    UnlockRefines(m, THIRD, NO_STATS);
  }
}
