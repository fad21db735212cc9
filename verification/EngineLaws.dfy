/** The laws of whole runs, carried over to the manager as the program has it: with its lazily cleaned queues, recycled
    lock objects, and stale entries in timers and in collected batches. */
module EngineLaws {
  import opened Protocol
  import opened KeySpec
  import opened KeyProofs
  import opened ManagerModel
  import opened EngineModel
  import opened EngineProofs
  import opened EngineRuns
  import opened PlainLevels
  import opened PlainSpec
  import P = PlainMachine
  import R = Runs
  import Policies

  // ---------- the plain machine

  ghost predicate AnswersAs(r: Result, o: P.Answer) {
    r.reply == o.reply && r.freed == o.freed && r.stats == o.stats
  }

  /** In every state of the run the index of the manager names the first hold of every lock id. */
  ghost predicate FirstThroughout(m: Manager, es: seq<Event>, st: Stats)
    requires Run(m, es, st)
    decreases |es|
  {
    FirstIndexed(Abs(m))
    && (es == [] || var r := Step(m, es[0], st); FirstThroughout(r.manager, es[1..], r.stats))
  }

  /** The plain machine after an event of the engine. */
  ghost function PlainNext(m: Manager, k: P.Key, e: Event, st: Stats): P.Answer {
    match Meaning(m, e)
    case Some(event) => P.Step(k, event, st)
    case None => P.Answer(k, None, [], st)
  }

  /** All along the run the answers of the manager are those of the plain machine, and in every state of it the answer
      to any unlock request would be, too. */
  ghost predicate AgreesWithPlain(m: Manager, k: P.Key, es: seq<Event>, st: Stats)
    requires Run(m, es, st)
    decreases |es|
  {
    && (forall u: LockCommand :: Owned(Abs(m), u.commandId) == 0 ==>
          AnswersAs(UnLockOp(m, u, st), P.Unlock(k, u, st)))
    && (es == [] ||
        var r, q := Step(m, es[0], st), PlainNext(m, k, es[0], st);
        AnswersAs(r, q) && AgreesWithPlain(r.manager, q.key, es[1..], r.stats))
  }

  /** A record that the key does not own. */
  lemma {:induction false} UnownedHold(hs: seq<Hold>) returns (c: nat)
    ensures forall d :: d >= c ==> HoldTally(hs, d) == 0
  {
    if hs == [] {
      c := 0;
    } else {
      c := UnownedHold(hs[1..]);
      if c <= hs[0].request {
        c := hs[0].request + 1;
      }
    }
  }

  lemma {:induction false} UnownedWaiter(ws: seq<Waiter>) returns (c: nat)
    ensures forall d :: d >= c ==> WaitTally(ws, d) == 0
  {
    if ws == [] {
      c := 0;
    } else {
      c := UnownedWaiter(ws[1..]);
      if c <= ws[0].request {
        c := ws[0].request + 1;
      }
    }
  }

  lemma UnownedRecord(s: KeyState) returns (c: nat)
    ensures Owned(s, c) == 0
  {
    var a := UnownedHold(s.holders);
    var b := UnownedWaiter(s.waiters);
    c := if a < b then b else a;
  }

  lemma GoodFacts(m: Manager)
    requires Good(m)
    ensures Valid(m) && RefsExact(m, {}, {}) && WellFormed(Abs(m))
  {
    ValidWellFormed(m);
  }

  /** One state: any unlock request is answered as by the plain machine if and only if the index names first holds. */
  lemma UnlockPlainIff(m: Manager, st: Stats)
    requires Good(m)
    ensures FirstIndexed(Abs(m)) <==>
            forall u: LockCommand :: Owned(Abs(m), u.commandId) == 0 ==>
              AnswersAs(UnLockOp(m, u, st), P.Unlock(Plain(Abs(m)), u, st))
  {
    hide Good, Valid, RefsExact, WellFormed, Abs, FirstIndexed, UnLockOp, UnlockStep, P.Unlock, Owned, FreesTwice,
         Plain;
    GoodFacts(m);
    if FirstIndexed(Abs(m)) {
      forall u: LockCommand | Owned(Abs(m), u.commandId) == 0
        ensures AnswersAs(UnLockOp(m, u, st), P.Unlock(Plain(Abs(m)), u, st))
      {
        UnlockRefines(m, u, st);
        SameUnlock(Abs(m), u, st);
      }
    } else {
      var i := NotFirst(Abs(m));
      MissedInside(Abs(m), i);
      var c := UnownedRecord(Abs(m));
      UnlockTells(Abs(m), i, c, st);
      var u := PlainSpec.Release(c, Abs(m).holders[i].lockId).cmd;
      UnlockRefines(m, u, st);
    }
  }

  lemma StepIsPlain(m: Manager, e: Event, st: Stats)
    requires Good(m) && Possible(m, e) && FirstIndexed(Abs(m))
    ensures var r, q := Step(m, e, st), PlainNext(m, Plain(Abs(m)), e, st);
            Good(r.manager) && AnswersAs(r, q) && q.key == Plain(Abs(r.manager))
  {
    hide Good, WellFormed, Abs, FirstIndexed, KeyStep, P.Step, Step, Owned, FreesTwice, NeedsNewLocks, NewLocks, Plain;
    GoodFacts(m);
    StepRefines(m, e, st);
    var k := Meaning(m, e);
    if k.Some? {
      SameStep(Abs(m), k.value, st);
    }
  }

  /** The manager, whatever is in its lazily cleaned queues, answers as the plain machine, all
      along a run and to any unlock request in any state of it, if and only if in every state of the run the index
      names the first hold of every lock id. */
  lemma {:induction false} ManagerPlainIff(m: Manager, es: seq<Event>, st: Stats)
    requires Good(m) && Run(m, es, st)
    ensures FirstThroughout(m, es, st) <==> AgreesWithPlain(m, Plain(Abs(m)), es, st)
    decreases |es|
  {
    hide Good, Abs, FirstIndexed, UnLockOp, P.Unlock, Owned, Possible, Step, PlainNext, Plain;
    UnlockPlainIff(m, st);
    if FirstIndexed(Abs(m)) && es != [] {
      StepIsPlain(m, es[0], st);
      var r := Step(m, es[0], st);
      ManagerPlainIff(r.manager, es[1..], r.stats);
    }
  }

  /** No lock request of the run asks for a lock id that is already waiting. */
  ghost predicate DistinctIds(m: Manager, es: seq<Event>, st: Stats)
    requires Run(m, es, st)
    decreases |es|
  {
    es == [] ||
    (&& (es[0].LockRequested? ==>
           forall i :: 0 <= i < |Abs(m).waiters| ==> Abs(m).waiters[i].lockId != es[0].cmd.lockId)
     && var r := Step(m, es[0], st); DistinctIds(r.manager, es[1..], r.stats))
  }

  lemma FaithfulNext(m: Manager, e: Event, st: Stats)
    requires Good(m) && Possible(m, e) && Faithful(Abs(m))
    requires e.LockRequested? ==> forall i :: 0 <= i < |Abs(m).waiters| ==> Abs(m).waiters[i].lockId != e.cmd.lockId
    ensures Good(Step(m, e, st).manager) && Faithful(Abs(Step(m, e, st).manager))
  {
    hide Good, Abs, Faithful, Step, Possible, KeyStep, WellFormed;
    GoodFacts(m);
    StepRefines(m, e, st);
    var k := Meaning(m, e);
    if k.Some? {
      assert NewId(Abs(m), k.value);
      StepFaithful(Abs(m), k.value, st);
    }
  }

  lemma {:induction false} DistinctFirst(m: Manager, es: seq<Event>, st: Stats)
    requires Good(m) && Run(m, es, st) && Faithful(Abs(m)) && DistinctIds(m, es, st)
    ensures FirstThroughout(m, es, st)
    decreases |es|
  {
    hide Good, Abs, FirstIndexed, Faithful, Step, Possible, Meaning;
    FaithfulFirst(Abs(m));
    if es != [] {
      FaithfulNext(m, es[0], st);
      var r := Step(m, es[0], st);
      DistinctFirst(r.manager, es[1..], r.stats);
    }
  }

  /** From a new manager, in every run in which waiting lock ids stay distinct, every lock, unlock, timeout, expiry and
      wake-up is answered as by the plain machine. */
  lemma ManagerIsPlain(es: seq<Event>, st: Stats)
    requires Run(NEW_MANAGER, es, st) && DistinctIds(NEW_MANAGER, es, st)
    ensures AgreesWithPlain(NEW_MANAGER, P.FREE, es, st)
  {
    hide Run, DistinctIds, AgreesWithPlain, Abs, Good;
    NewKept();
    NewManager();
    assert Faithful(EMPTY) && Plain(EMPTY) == P.FREE;
    DistinctFirst(NEW_MANAGER, es, st);
    ManagerPlainIff(NEW_MANAGER, es, st);
  }

  // ---------- exactly once

  predicate Submits(e: Event, c: nat) { (e.LockRequested? || e.UnlockRequested?) && e.cmd.commandId == c }

  /** The step answers the request of a record: any reply but the notice of an expiry. */
  predicate Answers(e: Event, r: Result, c: nat) {
    !e.ExpiryDue? && r.reply.Some? && r.reply.value.commandId == c
  }

  /** The request of a record is not answered: it waits. */
  predicate Queues(e: Event, r: Result, c: nat) { e.LockRequested? && e.cmd.commandId == c && r.reply.None? }

  /** A wake-up answers SUCCED. */
  predicate WokenUp(e: Event, r: Result, c: nat) {
    e.Woken? && r.reply.Some? && r.reply.value.commandId == c && r.reply.value.code == Succed
  }

  /** A timeout entry answers TIMEOUT. */
  predicate GivenUp(e: Event, r: Result, c: nat) {
    e.TimeoutDue? && r.reply.Some? && r.reply.value.commandId == c && r.reply.value.code == TimedOut
  }

  /** The step gives the request of a record its hold. */
  predicate Grants(e: Event, r: Result, c: nat) {
    && (e.LockRequested? || e.Woken?) && r.reply.Some? && r.reply.value.commandId == c
    && r.reply.value.code == Succed && r.reply.value.lrcount == 1
  }

  /** An unlock that is answered SUCCED, with no level left, ends the hold of a record. */
  predicate Releases(e: Event, r: Result, c: nat) {
    && e.UnlockRequested? && |r.freed| == 2 && r.freed[1] == c
    && r.reply.Some? && r.reply.value.code == Succed && r.reply.value.lrcount == 0
  }

  /** An expiry entry ends the hold of a record and tells its owner EXPRIED. */
  predicate Expires(e: Event, r: Result, c: nat) {
    && e.ExpiryDue? && r.reply.Some? && r.reply.value.commandId == c
    && r.reply.value.code == Expried && r.reply.value.lrcount == 0
  }

  /** How often things happen to a record in a run. */
  datatype Counts = Counts(
    submitted: nat,
    answered: nat,
    queued: nat,
    wokenUp: nat,
    givenUp: nat,
    granted: nat,
    released: nat,
    expired: nat)

  ghost function Count(m: Manager, es: seq<Event>, st: Stats, c: nat): Counts
    requires Run(m, es, st)
    decreases |es|
  {
    if es == [] then Counts(0, 0, 0, 0, 0, 0, 0, 0)
    else
      var e, r := es[0], Step(m, es[0], st);
      var n := Count(r.manager, es[1..], r.stats, c);
      Counts(n.submitted + Bit(Submits(e, c)), n.answered + Bit(Answers(e, r, c)),
             n.queued + Bit(Queues(e, r, c)), n.wokenUp + Bit(WokenUp(e, r, c)), n.givenUp + Bit(GivenUp(e, r, c)),
             n.granted + Bit(Grants(e, r, c)),
             n.released + Bit(Releases(e, r, c)), n.expired + Bit(Expires(e, r, c)))
  }

  /** What one step does to the waiters and holds of a record. */
  lemma StepOnce(m: Manager, e: Event, st: Stats, c: nat)
    requires Good(m) && Possible(m, e)
    ensures var r := Step(m, e, st); var s, t := Abs(m), Abs(r.manager);
            && WaitTally(t.waiters, c) - WaitTally(s.waiters, c) == Bit(Submits(e, c)) - Bit(Answers(e, r, c))
            && WaitTally(t.waiters, c) - WaitTally(s.waiters, c)
               == Bit(Queues(e, r, c)) - Bit(WokenUp(e, r, c)) - Bit(GivenUp(e, r, c))
            && HoldTally(t.holders, c) - HoldTally(s.holders, c)
               == Bit(Grants(e, r, c)) - Bit(Releases(e, r, c)) - Bit(Expires(e, r, c))
  {
    hide Good, WellFormed, Abs, KeyStep, Possible, Step;
    GoodFacts(m);
    StepRefines(m, e, st);
    var k := Meaning(m, e);
    if k.Some? {
      R.AnswerStep(Abs(m), k.value, st, c);
      R.WaiterStep(Abs(m), k.value, st, c);
      R.HoldStep(Abs(m), k.value, st, c);
      TakenOnce(k.value, c);
    }
  }

  /** The step in which a record stops waiting answers it: SUCCED from a wake-up or TIMEOUT from its timer; and no other
      step but the one that submits it answers it. */
  lemma WaiterAnswer(m: Manager, e: Event, st: Stats, c: nat)
    requires Good(m) && Possible(m, e) && !Submits(e, c)
    ensures var r := Step(m, e, st);
            && (Answers(e, r, c) <==> WaitTally(Abs(r.manager).waiters, c) < WaitTally(Abs(m).waiters, c))
            && (Answers(e, r, c) <==> WokenUp(e, r, c) || GivenUp(e, r, c))
  {
    hide Good, Abs, Possible, Step;
    StepOnce(m, e, st, c);
  }

  lemma TakenOnce(k: KeyEvent, c: nat)
    ensures Tally(Taken(k), c) == Bit((k.LockRequest? || k.UnlockRequest?) && k.cmd.commandId == c)
  {
    if Taken(k) != [] {
      assert Taken(k)[1..] == [];
    }
  }

  lemma {:induction false} RunOnce(m: Manager, es: seq<Event>, st: Stats, c: nat)
    requires Good(m) && Run(m, es, st)
    ensures var n := Count(m, es, st, c); var s, t := Abs(m), Abs(After(m, es, st).state);
            && n.submitted + WaitTally(s.waiters, c) == n.answered + WaitTally(t.waiters, c)
            && n.queued + WaitTally(s.waiters, c) == n.wokenUp + n.givenUp + WaitTally(t.waiters, c)
            && n.granted + HoldTally(s.holders, c) == n.released + n.expired + HoldTally(t.holders, c)
            && WellFormed(t)
    decreases |es|
  {
    hide Good, WellFormed, Abs, Possible, Step, Submits, Answers, Queues, WokenUp, GivenUp, Grants, Releases, Expires;
    GoodFacts(m);
    if es != [] {
      StepOnce(m, es[0], st, c);
      StepRefines(m, es[0], st);
      var r := Step(m, es[0], st);
      RunOnce(r.manager, es[1..], r.stats, c);
    }
  }

  /** Exactly once: in every run of the engine, with stale lock objects in timers and batches, a request has been
      answered as often as it was submitted, unless it waits right now; a request that was queued has got SUCCED from
      a wake-up or TIMEOUT from its timer, unless it waits right now; and a hold has been ended as often as it was
      granted, by an unlock answered SUCCED or by a notice EXPRIED, unless it is held right now; and a record waits or
      holds at most once. */
  lemma ExactlyOnce(es: seq<Event>, st: Stats, c: nat)
    requires Run(NEW_MANAGER, es, st)
    ensures var n := Count(NEW_MANAGER, es, st, c); var s := Abs(After(NEW_MANAGER, es, st).state);
            && n.submitted == n.answered + WaitTally(s.waiters, c)
            && n.queued == n.wokenUp + n.givenUp + WaitTally(s.waiters, c)
            && n.granted == n.released + n.expired + HoldTally(s.holders, c)
            && WaitTally(s.waiters, c) + HoldTally(s.holders, c) <= 1
  {
    NewKept();
    NewManager();
    RunOnce(NEW_MANAGER, es, st, c);
    assert Owned(Abs(After(NEW_MANAGER, es, st).state), c) <= 1;
  }

  // ---------- every run of the engine is a run of the database

  /** The events of a database with one key: a request takes its record out of the pool first. */
  function DbEvents(ks: seq<KeyEvent>): seq<R.Event> {
    if ks == [] then []
    else (if Taken(ks[0]) == [] then [] else [R.Checkout(Taken(ks[0])[0])]) + [R.At(0, ks[0])] + DbEvents(ks[1..])
  }

  /** The database is between requests and its only key is `s`. */
  ghost predicate Follows(fs: seq<R.Event>, s: KeyState, st: Stats) {
    R.Legal(1, fs) && var db := R.After(1, fs); db.keys == [s] && db.inHand == [] && db.stats == st
  }

  lemma Extends(fs: seq<R.Event>, e: R.Event)
    requires R.Legal(1, fs) && R.Enabled(R.After(1, fs), e)
    ensures R.Legal(1, fs + [e]) && R.After(1, fs + [e]) == R.Next(R.After(1, fs), e)
  {
    assert (fs + [e])[..|fs|] == fs;
  }

  lemma RecordFree(db: R.Db, s: KeyState, c: nat)
    requires db.keys == [s] && db.inHand == [] && Owned(s, c) == 0
    ensures R.Enabled(db, R.Checkout(c))
  {
    assert [s][1..] == [];
    assert R.Sum(R.OwnedOf(c), [s]) == R.OwnedOf(c)(s) + R.Sum(R.OwnedOf(c), []);
  }

  /** A connection has taken a record out. */
  lemma TakenOut(fs: seq<R.Event>, s: KeyState, st: Stats, c: nat)
    requires Follows(fs, s, st) && Owned(s, c) == 0
    ensures var gs := fs + [R.Checkout(c)]; var db := R.After(1, gs);
            R.Legal(1, gs) && db.keys == [s] && db.inHand == [c] && db.stats == st
  {
    hide Owned, R.Legal, R.After;
    RecordFree(R.After(1, fs), s, c);
    Extends(fs, R.Checkout(c));
  }

  /** A step of the key, with its record in hand. */
  lemma AtKey(fs: seq<R.Event>, s: KeyState, st: Stats, k: KeyEvent)
    requires R.Legal(1, fs) && var db := R.After(1, fs); db.keys == [s] && db.inHand == Taken(k) && db.stats == st
    ensures var o := KeyStep(s, k, st); Follows(fs + [R.At(0, k)], o.state, o.stats)
  {
    hide KeyStep, R.Legal, R.After;
    if Taken(k) != [] {
      HandEmpty(Taken(k)[0]);
    }
    Extends(fs, R.At(0, k));
  }

  lemma FollowsStep(fs: seq<R.Event>, s: KeyState, st: Stats, k: KeyEvent)
    requires Follows(fs, s, st) && Admissible(s, k)
    ensures var o := KeyStep(s, k, st); Follows(fs + DbEvents([k]), o.state, o.stats)
  {
    hide KeyStep, Owned, R.Legal, R.After;
    var ks := [k];
    assert ks[1..] == [];
    if Taken(k) == [] {
      assert DbEvents(ks) == [R.At(0, k)];
      AtKey(fs, s, st, k);
    } else {
      var c := Taken(k)[0];
      TakenOut(fs, s, st, c);
      AtKey(fs + [R.Checkout(c)], s, st, k);
      assert fs + DbEvents(ks) == fs + [R.Checkout(c)] + [R.At(0, k)];
    }
  }

  lemma HandEmpty(c: nat)
    ensures R.Drop([c], c) == [] && Tally([c], c) == 1
  {
    var cs := [c];
    assert cs[..0] == [] && cs[1..] == [];
  }

  lemma {:induction false} FollowsRun(fs: seq<R.Event>, s: KeyState, st: Stats, ks: seq<KeyEvent>)
    requires Follows(fs, s, st) && AdmissibleRun(s, ks, st)
    ensures var t := KeyAfter(s, ks, st); Follows(fs + DbEvents(ks), t.state, t.stats)
    decreases |ks|
  {
    hide KeyStep, Follows, Admissible;
    if ks == [] {
      assert fs + [] == fs;
    } else {
      FollowsStep(fs, s, st, ks[0]);
      var o := KeyStep(s, ks[0], st);
      FollowsRun(fs + DbEvents([ks[0]]), o.state, o.stats, ks[1..]);
      DbEventsFirst(ks);
      assert fs + DbEvents([ks[0]]) + DbEvents(ks[1..]) == fs + DbEvents(ks);
    }
  }

  lemma DbEventsFirst(ks: seq<KeyEvent>)
    requires ks != []
    ensures DbEvents(ks) == DbEvents([ks[0]]) + DbEvents(ks[1..])
  {
    var first := [ks[0]];
    assert first[1..] == [];
  }

  lemma {:induction false} TraceAdmissible(m: Manager, es: seq<Event>, st: Stats)
    requires Good(m) && Run(m, es, st)
    ensures AdmissibleRun(Abs(m), Trace(m, es, st), st)
    decreases |es|
  {
    hide Good, Abs, Step, KeyStep, Owned, FreesTwice;
    if es != [] {
      StepRefines(m, es[0], st);
      var r := Step(m, es[0], st);
      TraceAdmissible(r.manager, es[1..], r.stats);
      var k, rest := Meaning(m, es[0]), Trace(r.manager, es[1..], r.stats);
      if k.Some? {
        assert ([k.value] + rest)[1..] == rest;
      } else {
        assert [] + rest == rest;
      }
    }
  }

  const ZERO := Stats(0, 0, 0, 0, 0, 0, 0)

  lemma NothingYet()
    ensures Follows([], EMPTY, ZERO)
  {
  }

  /** Every run of the engine on a new manager is a legal run of a database with this key, and leads to the same key and
      the same statistics: all laws of legal runs hold of the engine. */
  lemma EngineIsLegal(es: seq<Event>)
    requires Run(NEW_MANAGER, es, ZERO)
    ensures var fs := DbEvents(Trace(NEW_MANAGER, es, ZERO)); var a := After(NEW_MANAGER, es, ZERO);
            R.Legal(1, fs) && R.After(1, fs).keys == [Abs(a.state)] && R.After(1, fs).stats == a.stats
  {
    hide Abs, Good, Run, Trace, After, KeyAfter, AdmissibleRun, R.Legal, R.After;
    NewKept();
    NewManager();
    var ks := Trace(NEW_MANAGER, es, ZERO);
    RunRefines(NEW_MANAGER, es, ZERO);
    TraceAdmissible(NEW_MANAGER, es, ZERO);
    NothingYet();
    FollowsRun([], EMPTY, ZERO, ks);
    assert [] + DbEvents(ks) == DbEvents(ks);
  }

  // ---------- capacity

  lemma {:induction false} RunCapacity(m: Manager, es: seq<Event>, st: Stats, n: Uint16)
    requires Good(m) && Run(m, es, st) && Policies.WithinCapacity(Abs(m), n)
    requires forall i :: 0 <= i < |es| && es[i].LockRequested? ==> es[i].cmd.count == n
    ensures Policies.WithinCapacity(Abs(After(m, es, st).state), n)
    decreases |es|
  {
    hide Good, WellFormed, Abs, Possible, Step, KeyStep, Policies.WithinCapacity;
    if es != [] {
      GoodFacts(m);
      StepRefines(m, es[0], st);
      var k := Meaning(m, es[0]);
      if k.Some? {
        Policies.CapacityStep(Abs(m), k.value, st, n);
      }
      var r := Step(m, es[0], st);
      RunCapacity(r.manager, es[1..], r.stats, n);
    }
  }

  /** If all requests carry Count = n, the manager never has more than min(n + 1, 0xffff) live holds. */
  lemma EngineCapacity(es: seq<Event>, st: Stats, n: Uint16)
    requires Run(NEW_MANAGER, es, st)
    requires forall i :: 0 <= i < |es| && es[i].LockRequested? ==> es[i].cmd.count == n
    ensures var hs := Abs(After(NEW_MANAGER, es, st).state).holders; |hs| <= n + 1 && |hs| <= MAX_LOCKED
  {
    hide Run, After, Good, Abs;
    NewKept();
    NewManager();
    assert Policies.WithinCapacity(EMPTY, n);
    RunCapacity(NEW_MANAGER, es, st, n);
  }
}
