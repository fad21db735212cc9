/** Whole runs of the engine on one key, in any interleaving of its critical sections with the timers: what clients
    observe is what the reference machine does, reference counts are exact and no lock object is lost. */
module EngineRuns {
  import opened Protocol
  import opened KeySpec
  import opened KeyProofs
  import opened Locks
  import opened ManagerModel
  import opened EngineModel
  import opened EngineProofs

  datatype Event =
    | LockRequested(cmd: LockCommand, now: int, news: seq<Lock>, place: nat)
    | UnlockRequested(cmd: LockCommand)
    | TimeoutDue(lock: Lock)
    | ExpiryDue(lock: Lock)
    | Woken(now: int, place: nat)
    | TimerMoved(lock: Lock, place: nat)

  ghost predicate Running(m: Manager, l: Lock) {
    (l in m.inExpiry && !m.Get(l).expired) || (l in m.inTimeout && !m.Get(l).timeouted)
  }

  /** What may happen in a state. A request comes with a command record that no hold and no waiter of the key owns, new
      lock objects are new, and timers deal with the locks they contain: a batch holds no lock that is still in a long
      queue. An unlock must not recycle a lock twice. */
  ghost predicate Possible(m: Manager, e: Event) {
    match e
    case LockRequested(cmd, now, news, place) =>
      Owned(Abs(m), cmd.commandId) == 0 && (NeedsNewLocks(m, cmd) ==> NewLocks(m, news))
    case UnlockRequested(cmd) => Owned(Abs(m), cmd.commandId) == 0 && !FreesTwice(m, cmd)
    case TimeoutDue(l) => l in m.inTimeout && (!m.Get(l).timeouted ==> m.Get(l).longWaitIndex == 0)
    case ExpiryDue(l) => l in m.inExpiry && m.Get(l).longWaitIndex == 0
    case Woken(now, place) => true
    case TimerMoved(l, place) => Running(m, l)
  }

  ghost function Step(m: Manager, e: Event, st: Stats): Result
    requires Possible(m, e)
  {
    match e
    case LockRequested(cmd, now, news, place) => LockOp(m, cmd, now, st, news, place)
    case UnlockRequested(cmd) => UnLockOp(m, cmd, st)
    case TimeoutDue(l) => DoTimeOutOp(m, l, st)
    case ExpiryDue(l) => DoExpiredOp(m, l, st)
    case Woken(now, place) => WakeOp(m, now, st, place)
    case TimerMoved(l, place) => Result(Retimed(m, l, place), None, [], st)
  }

  /** The event of the reference machine, if the step is one: entries of locks that are already granted, released or
      timed out only disappear, and timers move locks unseen. */
  ghost function Meaning(m: Manager, e: Event): Option<KeyEvent> {
    match e
    case LockRequested(cmd, now, news, place) => Some(LockRequest(cmd, now))
    case UnlockRequested(cmd) => Some(UnlockRequest(cmd))
    case TimeoutDue(l) => if m.Get(l).timeouted then None else Some(TimeOut(m.Get(l).command.commandId))
    case ExpiryDue(l) => if m.Get(l).expired then None else Some(Expire(m.Get(l).command.commandId))
    case Woken(now, place) => Some(Wake(now))
    case TimerMoved(l, place) => None
  }

  // ---------- one step

  /** The invariant of every reachable state. */
  ghost predicate Good(m: Manager) {
    Valid(m) && RefsExact(m, {}, {})
  }

  lemma StepRefines(m: Manager, e: Event, st: Stats)
    requires Good(m) && Possible(m, e)
    ensures var r := Step(m, e, st);
            && Good(r.manager)
            && (match Meaning(m, e)
                case Some(k) => Refines(r, KeyStep(Abs(m), k, st))
                case None => Abs(r.manager) == Abs(m) && r.reply.None? && r.freed == [] && r.stats == st)
  {
    hide Valid, RefsExact, Abs, LockOp, UnLockOp, DoTimeOutOp, DoExpiredOp, WakeOp, LockStep, UnlockStep, TimeOutStep,
         ExpireStep, WakeStep, FreesTwice, NeedsNewLocks, NewLocks, Owned, Retimed;
    match e {
      case LockRequested(cmd, now, news, place) => LockRefines(m, cmd, now, st, news, place);
      case UnlockRequested(cmd) => UnlockRefines(m, cmd, st);
      case TimeoutDue(l) => TimeOutRefines(m, l, st);
      case ExpiryDue(l) => ExpireRefines(m, l, st);
      case Woken(now, place) => WakeRefines(m, now, st, place);
      case TimerMoved(l, place) => RetimedKeeps(m, l, place);
    }
  }

  // ---------- whole runs

  ghost predicate Run(m: Manager, es: seq<Event>, st: Stats)
    decreases |es|
  {
    es == [] || (Possible(m, es[0]) && var r := Step(m, es[0], st); Run(r.manager, es[1..], r.stats))
  }

  /** What a run leads to and what clients see of it. */
  datatype Seen<S> = Seen(state: S, replies: seq<Reply>, freed: seq<nat>, stats: Stats)

  function Replies(reply: Option<Reply>): seq<Reply> { if reply.Some? then [reply.value] else [] }

  ghost function After(m: Manager, es: seq<Event>, st: Stats): Seen<Manager>
    requires Run(m, es, st)
    decreases |es|
  {
    if es == [] then Seen(m, [], [], st)
    else
      var r := Step(m, es[0], st);
      var s := After(r.manager, es[1..], r.stats);
      s.(replies := Replies(r.reply) + s.replies, freed := r.freed + s.freed)
  }

  function KeyAfter(s: KeyState, ks: seq<KeyEvent>, st: Stats): Seen<KeyState>
    decreases |ks|
  {
    if ks == [] then Seen(s, [], [], st)
    else
      var o := KeyStep(s, ks[0], st);
      var t := KeyAfter(o.state, ks[1..], o.stats);
      t.(replies := Replies(o.reply) + t.replies, freed := o.freed + t.freed)
  }

  /** The run of the reference machine that a run of the engine stands for. */
  ghost function Trace(m: Manager, es: seq<Event>, st: Stats): seq<KeyEvent>
    requires Run(m, es, st)
    decreases |es|
  {
    if es == [] then []
    else
      var r := Step(m, es[0], st);
      var k := Meaning(m, es[0]);
      (if k.Some? then [k.value] else []) + Trace(r.manager, es[1..], r.stats)
  }

  /** Every run of the engine, whatever is in the lazily cleaned queues and whatever the timers do, gives the replies,
      the returned records, the statistics and the key of the run of the reference machine that it stands for. */
  lemma {:induction false} RunRefines(m: Manager, es: seq<Event>, st: Stats)
    requires Good(m) && Run(m, es, st)
    ensures var s := After(m, es, st); var t := KeyAfter(Abs(m), Trace(m, es, st), st);
            Good(s.state) && Seen(Abs(s.state), s.replies, s.freed, s.stats) == t
    decreases |es|
  {
    hide Valid, RefsExact, Abs, KeyStep, Meaning, Possible, Step, Good;
    if es != [] {
      StepRefines(m, es[0], st);
      var r := Step(m, es[0], st);
      RunRefines(r.manager, es[1..], r.stats);
      var rest := Trace(r.manager, es[1..], r.stats);
      var k := Meaning(m, es[0]);
      if k.Some? {
        assert ([k.value] + rest)[1..] == rest;
      } else {
        assert [] + rest == rest;
      }
    }
  }

  /** Reference counts in every reachable state: a lock in use is counted once for each of the structures it is in, at
      most four; a lock is out of use exactly when it is in none; and recycled locks are listed once and are in none. */
  lemma ReferenceCounts(es: seq<Event>, st: Stats)
    requires Run(NEW_MANAGER, es, st)
    ensures var m := After(NEW_MANAGER, es, st).state;
            && (forall l :: l in m.attached ==> 1 <= m.Get(l).refCount == Uses(m, l) <= 4)
            && (forall l :: l in m.attached <==> Uses(m, l) > 0)
            && (forall l :: l in m.freeLocks ==> m.Get(l).refCount == Uses(m, l) == 0)
            && NoDuplicates(m.freeLocks)
            && m.refCount == |m.attached|
  {
    NewManager();
    RunRefines(NEW_MANAGER, es, st);
    UsesExact(After(NEW_MANAGER, es, st).state);
  }

  lemma UsesExact(m: Manager)
    requires Good(m)
    ensures forall l :: l in m.attached ==> 1 <= m.Get(l).refCount == Uses(m, l) <= 4
    ensures forall l :: l in m.attached <==> Uses(m, l) > 0
    ensures forall l :: l in m.freeLocks ==> m.Get(l).refCount == Uses(m, l) == 0
    ensures NoDuplicates(m.freeLocks) && m.refCount == |m.attached|
  {
    assert InUse(m);
  }

  // ---------- no lock object is lost

  /** Every lock object that was ever made is in use or on the free list, and the structures mention no other. */
  ghost predicate Kept(m: Manager) {
    && (m.currentLock.Some? ==> m.currentLock.value in m.records)
    && (forall l :: l in m.locks ==> l in m.records)
    && (forall l :: l in m.waitLocks ==> l in m.records)
    && (forall l :: l in m.freeLocks ==> l in m.records)
    && (forall id :: id in m.lockMaps ==> m.lockMaps[id] in m.records)
    && m.inTimeout <= m.records.Keys && m.inExpiry <= m.records.Keys && m.attached <= m.records.Keys
    && (forall l :: l in m.records ==> l in m.attached || l in m.freeLocks)
  }

  lemma ReleaseKept(m: Manager, l: Lock)
    requires Kept(m) && l in m.records
    ensures Kept(Release(m, l)) && l in Release(m, l).records
    ensures Release(m, l).locks == m.locks && Release(m, l).waitLocks == m.waitLocks
  {
  }

  lemma {:induction false} DropHoldsKept(m: Manager)
    requires Kept(m)
    ensures Kept(DropDeadHolds(m)) && m.records.Keys <= DropDeadHolds(m).records.Keys
    decreases |m.locks|
  {
    hide Release;
    if m.locks != [] && m.Get(m.locks[0]).locked == 0 {
      var m1 := m.(locks := m.locks[1..]);
      ReleaseKept(m1, m.locks[0]);
      ReleaseKeys(m1, m.locks[0]);
      DropHoldsKept(Release(m1, m.locks[0]));
    }
  }

  lemma {:induction false} DropWaitersKept(m: Manager)
    requires Kept(m)
    ensures Kept(DropDeadWaiters(m)) && m.records.Keys <= DropDeadWaiters(m).records.Keys
    decreases |m.waitLocks|
  {
    hide Release;
    if m.waitLocks != [] && m.Get(m.waitLocks[0]).timeouted {
      var m1 := m.(waitLocks := m.waitLocks[1..]);
      ReleaseKept(m1, m.waitLocks[0]);
      ReleaseKeys(m1, m.waitLocks[0]);
      DropWaitersKept(Release(m1, m.waitLocks[0]));
    }
  }

  lemma ReleaseKeys(m: Manager, l: Lock)
    ensures m.records.Keys <= Release(m, l).records.Keys
  {
  }

  lemma RemoveKept(m: Manager, l: Lock)
    requires Kept(m) && l in m.records
    ensures Kept(RemoveLock(m, l)) && l in RemoveLock(m, l).records
  {
    hide DropDeadHolds;
    var r := m.Get(l);
    if m.currentLock == Some(l) {
      DropHoldsKept(m.Set(l, r.(locked := 0, refCount := r.refCount - 1)).(currentLock := None));
    } else {
      DropHoldsKept(m.Set(l, r.(locked := 0)).(lockMaps := m.lockMaps - {r.command.lockId}));
    }
  }

  lemma FreeKept(m: Manager, l: Lock)
    requires Kept(m) && l in m.records
    ensures Kept(FreeLock(m, l))
  {
  }

  lemma GrantKept(m: Manager, l: Lock, now: int, place: nat)
    requires Kept(m) && l in m.records
    ensures Kept(GrantHold(m, l, now, place))
  {
    hide Granted;
  }

  lemma RenewKept(m: Manager, l: Lock, cmd: LockCommand, now: int, place: nat, swap: bool)
    requires Kept(m) && l in m.records
    ensures Kept(Renew(m, l, cmd, now, place, swap))
  {
    hide TimeoutTerms, ExpireTime, TimeoutTime;
  }

  lemma TakeKept(m: Manager, cmd: LockCommand, now: int)
    requires Kept(m) && m.freeLocks != []
    ensures var l := m.freeLocks[|m.freeLocks| - 1];
            Kept(GetOrNewLock(m, cmd, now)) && l in GetOrNewLock(m, cmd, now).records
  {
    hide Filled;
  }

  lemma StockKept(m: Manager, news: seq<Lock>)
    requires Kept(m)
    ensures Kept(Stocked(m, news))
  {
  }

  lemma QueueKept(m: Manager, l: Lock, place: nat)
    requires Kept(m) && l in m.records
    ensures Kept(AddTimeOut(AddWaitLock(m, l), l, place))
  {
  }

  lemma FreshKept(m: Manager, cmd: LockCommand, now: int, st: Stats, place: nat)
    requires Kept(m) && m.freeLocks != []
    ensures Kept(FreshOp(m, cmd, now, st, place).manager)
  {
    hide Kept, GetOrNewLock, GrantHold, FreeLock, AddTimeOut, AddWaitLock, DoLock;
    var l := m.freeLocks[|m.freeLocks| - 1];
    TakeKept(m, cmd, now);
    var m1 := GetOrNewLock(m, cmd, now);
    GrantKept(m1, l, now, place);
    FreeKept(m1, l);
    QueueKept(m1, l, place);
  }

  lemma DeepenedKept(m: Manager, l: Lock, r: Record, locked: nat)
    requires Kept(m) && l in m.records
    ensures Kept(m.Set(l, r).(locked := locked)) && Kept(m.Set(l, r))
  {
  }

  lemma HeldKept(m: Manager, l: Lock, cmd: LockCommand, now: int, st: Stats, place: nat)
    requires Kept(m) && l in m.records
    ensures Kept(HeldOp(m, l, cmd, now, st, place).manager)
  {
    hide Kept, Renew;
    var r := m.Get(l);
    RenewKept(m, l, cmd, now, place, true);
    DeepenedKept(m, l, r.(locked := r.locked + 1), m.locked + 1);
    RenewKept(m.Set(l, r.(locked := r.locked + 1)).(locked := m.locked + 1), l, cmd, now, place, false);
  }

  lemma FoundKept(m: Manager, id: LockId)
    requires Kept(m) && GetLockedLock(m, id).Some?
    ensures GetLockedLock(m, id).value in m.records
  {
  }

  lemma LockKept(m: Manager, cmd: LockCommand, now: int, st: Stats, news: seq<Lock>, place: nat)
    requires Kept(m) && (NeedsNewLocks(m, cmd) ==> news != [])
    ensures Kept(LockOp(m, cmd, now, st, news, place).manager)
  {
    hide Kept, FreshOp, HeldOp, GetLockedLock, Stocked;
    if !Shows(m, cmd) {
      var found := HeldBy(m, cmd.lockId);
      if found.Some? {
        FoundKept(m, cmd.lockId);
        HeldKept(m, found.value, cmd, now, st, place);
      } else {
        StockKept(m, news);
        StockedSome(m, news);
        FreshKept(Stocked(m, news), cmd, now, st, place);
      }
    }
  }

  lemma StockedSome(m: Manager, news: seq<Lock>)
    requires m.freeLocks == [] ==> news != []
    ensures Stocked(m, news).freeLocks != []
  {
  }

  lemma MarkKept(m: Manager, l: Lock)
    requires Kept(m) && l in m.records
    ensures Kept(RemoveLongExpired(m, l)) && l in RemoveLongExpired(m, l).records
    ensures Kept(RemoveLongTimeOut(m, l)) && l in RemoveLongTimeOut(m, l).records
  {
  }

  lemma TotalKept(m: Manager, locked: nat, waited: bool)
    requires Kept(m)
    ensures Kept(m.(locked := locked)) && Kept(m.(waited := waited))
  {
  }

  lemma EndKept(m: Manager, l: Lock)
    requires Kept(m) && l in m.records
    ensures Kept(EndHold(m, l))
  {
    hide Kept, RemoveLongExpired, RemoveLock, FreeLock;
    var r := m.Get(l);
    var m1 := m.Set(l, r.(expired := true));
    DeepenedKept(m, l, r.(expired := true), 0);
    MarkKept(m1, l);
    var m2 := RemoveLock(if r.longWaitIndex > 0 then RemoveLongExpired(m1, l) else m1, l);
    RemoveKept(if r.longWaitIndex > 0 then RemoveLongExpired(m1, l) else m1, l);
    var n := if r.locked <= m2.locked then m2.locked - r.locked else 0;
    TotalKept(m2, n, false);
    FreeKept(m2.(locked := n), l);
  }

  lemma FinishKept(m: Manager, l: Lock, cmd: LockCommand, st: Stats)
    requires Kept(m) && l in m.records
    ensures Kept(ReleaseOp(m, l, cmd, st).manager)
  {
    hide Kept, EndHold;
    EndKept(m, l);
    var r := m.Get(l);
    if r.locked > 1 && m.locked > 0 {
      DeepenedKept(m, l, r.(locked := r.locked - 1), m.locked - 1);
    }
  }

  lemma CurrentKept(m: Manager)
    requires Kept(m) && m.currentLock.Some?
    ensures m.currentLock.value in m.records
  {
  }

  lemma UnlockKept(m: Manager, cmd: LockCommand, st: Stats)
    requires Kept(m)
    ensures Kept(UnLockOp(m, cmd, st).manager)
  {
    hide Kept, ReleaseOp, GetLockedLock;
    if m.locked > 0 && m.currentLock.Some? {
      var found := GetLockedLock(m, cmd.lockId);
      if found.Some? {
        FoundKept(m, cmd.lockId);
        FinishKept(m, found.value, cmd, st);
      } else {
        CurrentKept(m);
        FinishKept(m, m.currentLock.value, ShownLock(cmd, m.Get(m.currentLock.value)), st);
      }
    }
  }

  lemma EntryKept(m: Manager, l: Lock)
    requires Kept(m) && l in m.records
    ensures Kept(DropTimeOut(m, l)) && Kept(DropExpired(m, l))
  {
    hide Release;
    ReleaseKept(m.(inTimeout := m.inTimeout - {l}), l);
    ReleaseKept(m.(inExpiry := m.inExpiry - {l}), l);
  }

  lemma TimeOutKept(m: Manager, l: Lock, st: Stats)
    requires Kept(m) && l in m.records
    ensures Kept(DoTimeOutOp(m, l, st).manager)
  {
    hide Kept, DropTimeOut, DropDeadWaiters;
    EntryKept(m, l);
    var r := m.Get(l).(timeouted := true);
    DeepenedKept(m, l, r, 0);
    DropWaitersKept(m.Set(l, r));
    var m1 := DropDeadWaiters(m.Set(l, r));
    TotalKept(m1, 0, m1.waited && m1.waitLocks != []);
    EntryKept(m1.(waited := m1.waited && m1.waitLocks != []), l);
  }

  lemma ExpireKept(m: Manager, l: Lock, st: Stats)
    requires Kept(m) && l in m.records
    ensures Kept(DoExpiredOp(m, l, st).manager)
  {
    hide Kept, DropExpired, RemoveLock;
    EntryKept(m, l);
    var r := m.Get(l);
    var n := if r.locked <= m.locked then m.locked - r.locked else 0;
    DeepenedKept(m, l, r.(expired := true), n);
    RemoveKept(m.Set(l, r.(expired := true)).(locked := n), l);
    EntryKept(RemoveLock(m.Set(l, r.(expired := true)).(locked := n), l), l);
  }

  lemma WakeUpKept(m: Manager, l: Lock, now: int, st: Stats, place: nat)
    requires Kept(m) && l in m.records
    ensures Kept(WakeUpWaitLock(m, l, now, st, place).manager)
  {
    hide Kept, RemoveLongTimeOut, GrantHold;
    var r := m.Get(l);
    var m1 := m.Set(l, r.(timeouted := true));
    DeepenedKept(m, l, r.(timeouted := true), 0);
    MarkKept(m1, l);
    GrantKept(if r.longWaitIndex > 0 then RemoveLongTimeOut(m1, l) else m1, l, now, place);
  }

  lemma WakeKept(m: Manager, now: int, st: Stats, place: nat)
    requires Kept(m)
    ensures Kept(WakeOp(m, now, st, place).manager)
  {
    hide DropDeadWaiters, WakeUpWaitLock, DoLock;
    DropWaitersKept(m);
    var m1 := DropDeadWaiters(m);
    if m1.waitLocks != [] {
      WakeUpKept(m1, m1.waitLocks[0], now, st, place);
    }
  }

  lemma StepKept(m: Manager, e: Event, st: Stats)
    requires Kept(m) && Possible(m, e)
    ensures Kept(Step(m, e, st).manager)
  {
    match e {
      case LockRequested(cmd, now, news, place) =>
        hide Kept, LockOp, NeedsNewLocks;
        LockKept(m, cmd, now, st, news, place);
      case UnlockRequested(cmd) =>
        hide Kept, UnLockOp;
        UnlockKept(m, cmd, st);
      case TimeoutDue(l) =>
        hide DoTimeOutOp;
        TimeOutKept(m, l, st);
      case ExpiryDue(l) =>
        hide DoExpiredOp;
        ExpireKept(m, l, st);
      case Woken(now, place) =>
        hide Kept, WakeOp;
        WakeKept(m, now, st, place);
      case TimerMoved(l, place) =>
    }
  }

  lemma {:induction false} RunKept(m: Manager, es: seq<Event>, st: Stats)
    requires Good(m) && Kept(m) && Run(m, es, st)
    ensures Kept(After(m, es, st).state) && Good(After(m, es, st).state)
    decreases |es|
  {
    hide Good, Kept, Possible, Step;
    if es != [] {
      StepRefines(m, es[0], st);
      StepKept(m, es[0], st);
      var r := Step(m, es[0], st);
      RunKept(r.manager, es[1..], r.stats);
    }
  }

  lemma NewKept()
    ensures Kept(NEW_MANAGER) && Good(NEW_MANAGER)
  {
    NewManager();
  }

  /** No lock object is lost: in every reachable state one is recycled exactly when it is in no structure. */
  lemma RecycledIffUnused(es: seq<Event>, st: Stats)
    requires Run(NEW_MANAGER, es, st)
    ensures var m := After(NEW_MANAGER, es, st).state;
            forall l :: l in m.records ==> (l in m.freeLocks <==> Uses(m, l) == 0)
  {
    NewKept();
    RunKept(NEW_MANAGER, es, st);
    UsesExact(After(NEW_MANAGER, es, st).state);
  }
}
