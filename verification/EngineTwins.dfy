/** A run of the manager in which two requests with one lock id wait, after which it no longer answers as plain
    lists. */
module EngineTwins {
  import opened Protocol
  import opened KeySpec
  import opened KeyProofs
  import opened Locks
  import opened ManagerModel
  import opened EngineModel
  import opened EngineProofs
  import opened EngineRuns
  import opened PlainLevels
  import opened PlainSpec
  import P = PlainMachine
  import opened EngineLaws

  // ---------- spare lock objects

  /** A request uses at most one lock object. */
  lemma FreshSpare(m: Manager, cmd: LockCommand, now: int, st: Stats, place: nat)
    requires m.freeLocks != []
    ensures |FreshOp(m, cmd, now, st, place).manager.freeLocks| >= |m.freeLocks| - 1
  {
    hide Filled, Granted, ReplyTo, DoLock;
  }

  lemma HeldSpare(m: Manager, l: Lock, cmd: LockCommand, now: int, st: Stats, place: nat)
    ensures HeldOp(m, l, cmd, now, st, place).manager.freeLocks == m.freeLocks
  {
    hide ReplyTo, TimeoutTerms, ExpireTime, TimeoutTime;
  }

  lemma LockSpare(m: Manager, cmd: LockCommand, now: int, st: Stats, news: seq<Lock>, place: nat)
    requires NeedsNewLocks(m, cmd) ==> news != []
    ensures var spare := LockOp(m, cmd, now, st, news, place).manager.freeLocks;
            |spare| >= |m.freeLocks| - 1 && (NeedsNewLocks(m, cmd) ==> |spare| >= |news| - 1)
  {
    hide FreshOp, HeldOp, GetLockedLock;
    if !Shows(m, cmd) {
      var found := HeldBy(m, cmd.lockId);
      if found.Some? {
        HeldSpare(m, found.value, cmd, now, st, place);
      } else {
        FreshSpare(Stocked(m, news), cmd, now, st, place);
      }
    }
  }

  // ---------- runs of the reference machine that the manager can follow

  /** Requests that find a spare lock object, unlocks of the first hold by its id, and wake-ups. */
  ghost predicate Runnable(s: KeyState, ks: seq<KeyEvent>, st: Stats, spare: nat)
    decreases |ks|
  {
    ks == [] ||
    (var k := ks[0];
     && Admissible(s, k) && !k.TimeOut? && !k.Expire? && (k.LockRequest? ==> spare > 0)
     && (k.UnlockRequest? ==> s.holders != [] && s.holders[0].lockId == k.cmd.lockId)
     && Runnable(KeyStep(s, k, st).state, ks[1..], KeyStep(s, k, st).stats, if k.LockRequest? then spare - 1 else 0))
  }

  function EventOf(k: KeyEvent, news: seq<Lock>): Event {
    match k
    case LockRequest(cmd, now) => LockRequested(cmd, now, news, 0)
    case UnlockRequest(cmd) => UnlockRequested(cmd)
    case Wake(now) => Woken(now, 0)
    case TimeOut(request) => Woken(0, 0)
    case Expire(request) => Woken(0, 0)
  }

  /** An unlock of the current lock never recycles it twice. */
  lemma FirstNotTwice(m: Manager, cmd: LockCommand)
    requires Valid(m) && Abs(m).holders != [] && Abs(m).holders[0].lockId == cmd.lockId
    ensures !FreesTwice(m, cmd)
  {
    CurrentIffHolds(m);
    PlaceOfCurrent(m);
    hide Shape, Abs, AtFront;
  }

  lemma FollowStep(m: Manager, k: KeyEvent, st: Stats, news: seq<Lock>)
    requires Good(m) && Admissible(Abs(m), k) && !k.TimeOut? && !k.Expire?
    requires k.LockRequest? && NeedsNewLocks(m, k.cmd) ==> NewLocks(m, news)
    requires k.UnlockRequest? ==> Abs(m).holders != [] && Abs(m).holders[0].lockId == k.cmd.lockId
    ensures Possible(m, EventOf(k, news)) && Meaning(m, EventOf(k, news)) == Some(k)
    ensures var r, o := Step(m, EventOf(k, news), st), KeyStep(Abs(m), k, st);
            Good(r.manager) && Abs(r.manager) == o.state && r.stats == o.stats
  {
    hide Valid, RefsExact, Abs, WellFormed, FreesTwice, Owned, Step, KeyStep;
    GoodFacts(m);
    if k.UnlockRequest? {
      FirstNotTwice(m, k.cmd);
    }
    StepRefines(m, EventOf(k, news), st);
  }

  lemma {:induction false} Follow(m: Manager, ks: seq<KeyEvent>, st: Stats, spare: nat) returns (es: seq<Event>)
    requires Good(m) && spare <= |m.freeLocks| && Runnable(Abs(m), ks, st, spare)
    ensures Run(m, es, st) && Trace(m, es, st) == ks
    decreases |ks|
  {
    hide Good, Abs, Step, KeyStep, Possible, Meaning, Admissible, NeedsNewLocks, LockOp;
    if ks == [] {
      es := [];
    } else {
      var k := ks[0];
      var e := EventOf(k, []);
      if k.LockRequest? {
        SpareEnough(m, k.cmd, k.now, st);
      }
      FollowStep(m, k, st, []);
      var r := Step(m, e, st);
      var rest := Follow(r.manager, ks[1..], r.stats, if k.LockRequest? then spare - 1 else 0);
      es := [e] + rest;
      assert es[1..] == rest && ks == [k] + ks[1..];
    }
  }

  lemma SpareEnough(m: Manager, cmd: LockCommand, now: int, st: Stats)
    requires m.freeLocks != []
    ensures !NeedsNewLocks(m, cmd)
    ensures Possible(m, LockRequested(cmd, now, [], 0)) ==>
              |Step(m, LockRequested(cmd, now, [], 0), st).manager.freeLocks| >= |m.freeLocks| - 1
  {
    hide LockOp;
    LockSpare(m, cmd, now, st, [], 0);
  }

  // ---------- the twins

  lemma TwinFresh(i: nat)
    requires i < 8
    ensures Admissible(TwinState(i), TWINS[i]) && !TWINS[i].TimeOut? && !TWINS[i].Expire?
    ensures TWINS[i].LockRequest? <==> i < 4
    ensures TWINS[i].UnlockRequest? ==>
              TwinState(i).holders != [] && TwinState(i).holders[0].lockId == TWINS[i].cmd.lockId
  {
    if i < 5 {
      var s := TwinState(i);
      HeldTally(s.holders, i + 1);
      WaitingTally(s.waiters, i + 1);
    }
  }

  lemma {:induction false} TwinsRunnable(i: nat, st: Stats)
    requires i <= 8
    ensures Runnable(TwinState(i), TWINS[i..], st, if i < 4 then 4 - i else 0)
    decreases 8 - i
  {
    hide KeyStep, TwinState, Admissible;
    if i < 8 {
      TwinFresh(i);
      TwinNext(i, st);
      TwinsRunnable(i + 1, KeyStep(TwinState(i), TWINS[i], st).stats);
      assert TWINS[i..][0] == TWINS[i] && TWINS[i..][1..] == TWINS[i + 1..];
    }
  }

  lemma {:induction false} StateAfter(s: KeyState, ks: seq<KeyEvent>, st: Stats)
    ensures KeyAfter(s, ks, st).state == RunState(s, ks, st)
    decreases |ks|
  {
    hide KeyStep;
    if ks != [] {
      StateAfter(KeyStep(s, ks[0], st).state, ks[1..], KeyStep(s, ks[0], st).stats);
    }
  }

  lemma {:induction false} FirstAtEnd(m: Manager, es: seq<Event>, st: Stats)
    requires Run(m, es, st) && FirstThroughout(m, es, st)
    ensures FirstIndexed(Abs(After(m, es, st).state))
    decreases |es|
  {
    hide Possible, Step, Abs, FirstIndexed;
    if es != [] {
      FirstAtEnd(Step(m, es[0], st).manager, es[1..], Step(m, es[0], st).stats);
    }
  }

  /** The first request of a new manager makes the lock objects. */
  lemma FirstStocks(news: seq<Lock>, st: Stats)
    requires |news| >= 4 && NoDuplicates(news)
    ensures var e := EventOf(TWINS[0], news);
            && Possible(NEW_MANAGER, e) && Meaning(NEW_MANAGER, e) == Some(TWINS[0])
            && var r := Step(NEW_MANAGER, e, st);
               && Good(r.manager) && Abs(r.manager) == TwinState(1) && r.stats == KeyStep(EMPTY, TWINS[0], st).stats
               && |r.manager.freeLocks| >= 3
  {
    hide Abs, RefsExact, Valid, KeyStep, LockOp, TwinState, TWINS, Possible, Meaning, Step, Admissible, NeedsNewLocks,
         NewLocks, EventOf, NEW_MANAGER;
    NewManager();
    NewNeedsLocks(news, st);
    EmptyTwin();
    TwinFresh(0);
    TwinNext(0, st);
    FollowStep(NEW_MANAGER, TWINS[0], st, news);
    LockSpare(NEW_MANAGER, TWINS[0].cmd, 0, st, news, 0);
  }

  lemma NewNeedsLocks(news: seq<Lock>, st: Stats)
    requires news != [] && NoDuplicates(news)
    ensures Good(NEW_MANAGER) <==> Valid(NEW_MANAGER) && RefsExact(NEW_MANAGER, {}, {})
    ensures |TWINS| == 8 && TWINS[0].LockRequest? && NeedsNewLocks(NEW_MANAGER, TWINS[0].cmd)
            && NewLocks(NEW_MANAGER, news)
    ensures var e := EventOf(TWINS[0], news);
            Possible(NEW_MANAGER, e) ==>
              Step(NEW_MANAGER, e, st) == LockOp(NEW_MANAGER, TWINS[0].cmd, 0, st, news, 0)
  {
    hide LockOp, Valid, RefsExact, Abs;
  }

  lemma EmptyTwin()
    ensures TwinState(0) == EMPTY
  {
  }

  /** Eight new lock objects, as the program makes them, or four, are enough for the run of the twins. */
  lemma TwinsFollowed(news: seq<Lock>, st: Stats) returns (es: seq<Event>)
    requires |news| >= 4 && NoDuplicates(news)
    ensures Run(NEW_MANAGER, es, st) && Trace(NEW_MANAGER, es, st) == TWINS
  {
    hide Abs, Good, Step, KeyStep, Possible, Meaning, TwinState, Runnable;
    FirstStocks(news, st);
    EmptyTwin();
    var e := EventOf(TWINS[0], news);
    var r := Step(NEW_MANAGER, e, st);
    TwinsRunnable(1, r.stats);
    var rest := Follow(r.manager, TWINS[1..], r.stats, 3);
    es := [e] + rest;
    assert es[1..] == rest && TWINS == [TWINS[0]] + TWINS[1..];
  }

  /** A run of the manager from a new key that ends with two holds of one lock id, the first of which its index does not
      name: there the manager no longer answers as the plain machine. */
  lemma ManagerTwins(news: seq<Lock>, st: Stats) returns (es: seq<Event>)
    requires |news| >= 4 && NoDuplicates(news)
    ensures Run(NEW_MANAGER, es, st) && Abs(After(NEW_MANAGER, es, st).state) == TWIN_STATE
    ensures !FirstThroughout(NEW_MANAGER, es, st) && !AgreesWithPlain(NEW_MANAGER, P.FREE, es, st)
  {
    hide Abs, Run, After, KeyAfter, Trace, FirstThroughout, AgreesWithPlain, Missed, TWINS, TWIN_STATE;
    NewManager();
    es := TwinsFollowed(news, st);
    RunRefines(NEW_MANAGER, es, st);
    StateAfter(EMPTY, TWINS, st);
    TwinsReached(st);
    MissedNotFirst(TWIN_STATE, 1);
    if FirstThroughout(NEW_MANAGER, es, st) {
      FirstAtEnd(NEW_MANAGER, es, st);
    }
    ManagerPlainIff(NEW_MANAGER, es, st);
    assert Plain(EMPTY) == P.FREE;
  }

  lemma MissedNotFirst(s: KeyState, i: nat)
    requires Missed(s, i)
    ensures !FirstIndexed(s)
  {
  }
}
