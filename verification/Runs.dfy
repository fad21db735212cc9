/** Whole runs of a database: any number of keys, any interleaving of critical sections, and the pools that
    command records are taken from and returned to. */
module Runs {
  import opened Protocol
  import opened KeySpec
  import opened KeyProofs

  /** `pool` joins the free lists of all connections with the shared one; `inHand` are the records that
      connections have taken out and not yet submitted. */
  datatype Db = Db(keys: seq<KeyState>, stats: Stats, pool: seq<nat>, inHand: seq<nat>)

  datatype Event =
    | Stock(record: nat)
    | Checkout(record: nat)
    | At(key: nat, step: KeyEvent)

  function Start(n: nat): Db {
    Db(seq(n, _ => EMPTY), Stats(0, 0, 0, 0, 0, 0, 0), [], [])
  }

  /** Removes the last occurrence, if there is one. */
  function Drop(cs: seq<nat>, c: nat): seq<nat> {
    if cs == [] then []
    else if cs[|cs| - 1] == c then cs[..|cs| - 1]
    else Drop(cs[..|cs| - 1], c) + [cs[|cs| - 1]]
  }

  function Sum(f: KeyState -> int, ks: seq<KeyState>): int {
    if ks == [] then 0 else f(ks[0]) + Sum(f, ks[1..])
  }

  const LockedOf := (s: KeyState) => Locked(s.holders)
  const WaitersOf := (s: KeyState) => |s.waiters|

  function OwnedOf(c: nat): KeyState -> int { (s: KeyState) => Owned(s, c) }
  function WaitingOf(c: nat): KeyState -> int { (s: KeyState) => WaitTally(s.waiters, c) }
  function HoldingOf(c: nat): KeyState -> int { (s: KeyState) => HoldTally(s.holders, c) }

  /** How often a record is owned, pooled or in hand. */
  function Total(db: Db, c: nat): int {
    Sum(OwnedOf(c), db.keys) + Tally(db.pool, c) + Tally(db.inHand, c)
  }

  /** A connection that starts puts new records into the pool; later it takes a pooled record or makes a new one, and
      submits only records it has in hand. */
  ghost predicate Enabled(db: Db, e: Event) {
    match e
    case Stock(c) => Total(db, c) == 0
    case Checkout(c) => Tally(db.pool, c) > 0 || Total(db, c) == 0
    case At(k, step) =>
      && k < |db.keys|
      && (step.LockRequest? || step.UnlockRequest? ==> Tally(db.inHand, step.cmd.commandId) > 0)
  }

  function OutcomeAt(db: Db, k: nat, step: KeyEvent): Outcome
    requires k < |db.keys|
  {
    KeyStep(db.keys[k], step, db.stats)
  }

  function Next(db: Db, e: Event): Db {
    match e
    case Stock(c) => db.(pool := db.pool + [c])
    case Checkout(c) => db.(pool := Drop(db.pool, c), inHand := db.inHand + [c])
    case At(k, step) =>
      if k >= |db.keys| then db
      else
        var o := OutcomeAt(db, k, step);
        Db(db.keys[k := o.state], o.stats, db.pool + o.freed,
           if Taken(step) == [] then db.inHand else Drop(db.inHand, Taken(step)[0]))
  }

  function After(n: nat, es: seq<Event>): Db {
    if es == [] then Start(n) else Next(After(n, es[..|es| - 1]), es[|es| - 1])
  }

  ghost predicate Legal(n: nat, es: seq<Event>) {
    es == [] || (Legal(n, es[..|es| - 1]) && Enabled(After(n, es[..|es| - 1]), es[|es| - 1]))
  }

  ghost predicate Invariant(db: Db) {
    && (forall k :: 0 <= k < |db.keys| ==> WellFormed(db.keys[k]))
    && (forall c :: Total(db, c) <= 1)
    && db.stats.lockedCount == Sum(LockedOf, db.keys)
    && db.stats.waitCount == Sum(WaitersOf, db.keys)
  }

  // ---------- sums and tallies

  lemma {:induction false} SumUpdate(f: KeyState -> int, ks: seq<KeyState>, k: nat, s: KeyState)
    requires k < |ks|
    ensures Sum(f, ks[k := s]) == Sum(f, ks) - f(ks[k]) + f(s)
  {
    if k == 0 {
      assert ks[k := s][1..] == ks[1..];
    } else {
      SumUpdate(f, ks[1..], k - 1, s);
      assert ks[k := s][1..] == ks[1..][k - 1 := s];
    }
  }

  lemma {:induction false} SumAtLeast(f: KeyState -> int, ks: seq<KeyState>, k: nat)
    requires k < |ks| && (forall s :: f(s) >= 0)
    ensures Sum(f, ks) >= f(ks[k])
    decreases |ks|
  {
    SumNonNegative(f, ks[1..]);
    if k > 0 {
      SumAtLeast(f, ks[1..], k - 1);
    }
  }

  lemma {:induction false} SumNonNegative(f: KeyState -> int, ks: seq<KeyState>)
    requires forall s :: f(s) >= 0
    ensures Sum(f, ks) >= 0
  {
    if ks != [] {
      SumNonNegative(f, ks[1..]);
    }
  }

  lemma {:induction false} SumEmpty(f: KeyState -> int, n: nat)
    requires f(EMPTY) == 0
    ensures Sum(f, seq(n, _ => EMPTY)) == 0
  {
    if n > 0 {
      assert seq(n, _ => EMPTY)[1..] == seq(n - 1, _ => EMPTY);
      SumEmpty(f, n - 1);
    }
  }

  lemma {:induction false} DropTally(cs: seq<nat>, c: nat, d: nat)
    ensures Tally(Drop(cs, c), d) == Tally(cs, d) - (if c == d && Tally(cs, c) > 0 then 1 else 0)
  {
    if cs != [] {
      var front := cs[..|cs| - 1];
      var last := cs[|cs| - 1];
      assert cs == front + [last];
      TallySplit(front, [last], d);
      TallySplit(front, [last], c);
      if last != c {
        DropTally(front, c, d);
        TallySplit(Drop(front, c), [last], d);
      }
    }
  }

  // ---------- the invariant of every reachable state

  /** A record changes hands but is never duplicated: only making a new record changes the total. */
  lemma NextTotal(db: Db, e: Event, c: nat)
    requires Enabled(db, e)
    ensures var made := (e.Stock? && e.record == c) || (e.Checkout? && e.record == c && Tally(db.pool, c) == 0);
            Total(Next(db, e), c) == Total(db, c) + (if made then 1 else 0)
  {
    match e {
      case Stock(d) => TallySplit(db.pool, [d], c);
      case Checkout(d) =>
        DropTally(db.pool, d, c);
        TallySplit(db.inHand, [d], c);
      case At(k, step) =>
        var o := OutcomeAt(db, k, step);
        SumUpdate(OwnedOf(c), db.keys, k, o.state);
        StepConserves(db.keys[k], step, db.stats, c);
        TallySplit(db.pool, o.freed, c);
        if Taken(step) != [] {
          DropTally(db.inHand, Taken(step)[0], c);
          assert Tally(Taken(step)[1..], c) == 0;
        }
    }
  }

  lemma SubmittedIsUnowned(db: Db, k: nat, step: KeyEvent)
    requires Invariant(db) && Enabled(db, At(k, step))
    ensures Admissible(db.keys[k], step)
  {
    if step.LockRequest? || step.UnlockRequest? {
      var c := step.cmd.commandId;
      assert Total(db, c) <= 1;
      SumAtLeast(OwnedOf(c), db.keys, k);
    }
  }

  lemma NextKeeps(db: Db, e: Event)
    requires Invariant(db) && Enabled(db, e)
    ensures Invariant(Next(db, e)) && |Next(db, e).keys| == |db.keys|
  {
    var db' := Next(db, e);
    forall c ensures Total(db', c) <= 1 {
      assert Total(db, c) <= 1;
      NextTotal(db, e, c);
    }
    if e.At? {
      var o := OutcomeAt(db, e.key, e.step);
      SubmittedIsUnowned(db, e.key, e.step);
      StepKeeps(db.keys[e.key], e.step, db.stats);
      StepCounts(db.keys[e.key], e.step, db.stats);
      SumUpdate(LockedOf, db.keys, e.key, o.state);
      SumUpdate(WaitersOf, db.keys, e.key, o.state);
    }
  }

  lemma StartInvariant(n: nat)
    ensures Invariant(Start(n)) && |Start(n).keys| == n
  {
    SumEmpty(LockedOf, n);
    SumEmpty(WaitersOf, n);
    forall c ensures Total(Start(n), c) <= 1 {
      SumEmpty(OwnedOf(c), n);
    }
  }

  lemma {:induction false} Reachable(n: nat, es: seq<Event>)
    requires Legal(n, es)
    ensures Invariant(After(n, es)) && |After(n, es).keys| == n
  {
    hide Invariant, Next;
    if es == [] {
      StartInvariant(n);
    } else {
      Reachable(n, es[..|es| - 1]);
      NextKeeps(After(n, es[..|es| - 1]), es[|es| - 1]);
    }
  }

  // ---------- command ownership

  /** In every run, a record owned by a hold or a waiter is in no pool, and no record is pooled twice. */
  lemma CommandOwnership(n: nat, es: seq<Event>, c: nat)
    requires Legal(n, es)
    ensures var db := After(n, es);
            && Tally(db.pool, c) <= 1
            && forall k :: 0 <= k < |db.keys| && Owned(db.keys[k], c) > 0 ==>
                 && Tally(db.pool, c) == 0 && Tally(db.inHand, c) == 0
                 && forall j :: 0 <= j < |db.keys| && Owned(db.keys[j], c) > 0 ==> j == k
  {
    Reachable(n, es);
    var db := After(n, es);
    var f := OwnedOf(c);
    assert Total(db, c) <= 1;
    SumNonNegative(f, db.keys);
    forall k | 0 <= k < n && Owned(db.keys[k], c) > 0
      ensures Tally(db.pool, c) == 0 && Tally(db.inHand, c) == 0
      ensures forall j :: 0 <= j < n && Owned(db.keys[j], c) > 0 ==> j == k
    {
      SumAtLeast(f, db.keys, k);
      forall j | 0 <= j < n && Owned(db.keys[j], c) > 0 ensures j == k {
        if j != k {
          SumUpdate(f, db.keys, j, EMPTY);
          SumAtLeast(f, db.keys[j := EMPTY], k);
        }
      }
    }
  }

  // ---------- conservation of locks

  /** Grants in the run that left no hold behind. */
  function ZeroGrants(n: nat, es: seq<Event>): int {
    if es == [] then 0
    else
      var db, e := After(n, es[..|es| - 1]), es[|es| - 1];
      ZeroGrants(n, es[..|es| - 1])
        + (if e.At? && e.key < |db.keys| then ZeroGrant(e.step, OutcomeAt(db, e.key, e.step)) else 0)
  }

  /** In every run the counters are exact: locks held, waiters, and grants against releases and expiries. */
  lemma {:induction false} Conservation(n: nat, es: seq<Event>)
    requires Legal(n, es)
    ensures var db := After(n, es);
            && db.stats.lockedCount == Sum(LockedOf, db.keys)
            && db.stats.waitCount == Sum(WaitersOf, db.keys)
            && db.stats.lockCount
               == db.stats.unLockCount + db.stats.expriedCount + db.stats.lockedCount + ZeroGrants(n, es)
  {
    Reachable(n, es);
    if es != [] {
      Conservation(n, es[..|es| - 1]);
      var db, e := After(n, es[..|es| - 1]), es[|es| - 1];
      Reachable(n, es[..|es| - 1]);
      if e.At? {
        StepCounts(db.keys[e.key], e.step, db.stats);
      }
    }
  }

  // ---------- exactly once

  predicate Answers(step: KeyEvent, o: Outcome, c: nat) {
    !step.Expire? && o.reply.Some? && o.reply.value.commandId == c
  }

  /** A lock request is not answered: it waits. */
  predicate Queues(step: KeyEvent, o: Outcome, c: nat) {
    step.LockRequest? && step.cmd.commandId == c && o.reply.None?
  }

  /** A wake-up answers SUCCED. */
  predicate WokenUp(step: KeyEvent, o: Outcome, c: nat) {
    step.Wake? && o.reply.Some? && o.reply.value.commandId == c && o.reply.value.code == Succed
  }

  /** The timer answers TIMEOUT. */
  predicate GivenUp(step: KeyEvent, o: Outcome, c: nat) {
    step.TimeOut? && o.reply.Some? && o.reply.value.commandId == c && o.reply.value.code == TimedOut
  }

  /** A lock request is told that it now holds the key for the first time. */
  predicate Grants(step: KeyEvent, o: Outcome, c: nat) {
    (step.LockRequest? || step.Wake?) && o.reply.Some? && o.reply.value.commandId == c
    && o.reply.value.code == Succed && o.reply.value.lrcount == 1
  }

  /** An unlock that is answered SUCCED, with no level left, ends a hold and returns its record. */
  predicate Releases(step: KeyEvent, o: Outcome, c: nat) {
    && step.UnlockRequest? && |o.freed| == 2 && o.freed[1] == c
    && o.reply.Some? && o.reply.value.code == Succed && o.reply.value.lrcount == 0
  }

  /** The timer ends a hold and tells its owner EXPRIED. */
  predicate Expires(step: KeyEvent, o: Outcome, c: nat) {
    && step.Expire? && o.reply.Some? && o.reply.value.commandId == c
    && o.reply.value.code == Expried && o.reply.value.lrcount == 0
  }

  function SubmitsOf(c: nat): (KeyEvent, Outcome) -> bool { (step: KeyEvent, o: Outcome) => Taken(step) == [c] }
  function AnswersOf(c: nat): (KeyEvent, Outcome) -> bool { (step, o) => Answers(step, o, c) }
  function QueuesOf(c: nat): (KeyEvent, Outcome) -> bool { (step, o) => Queues(step, o, c) }
  function WokenOf(c: nat): (KeyEvent, Outcome) -> bool { (step, o) => WokenUp(step, o, c) }
  function GivenUpOf(c: nat): (KeyEvent, Outcome) -> bool { (step, o) => GivenUp(step, o, c) }
  function GrantsOf(c: nat): (KeyEvent, Outcome) -> bool { (step, o) => Grants(step, o, c) }
  function ReleasesOf(c: nat): (KeyEvent, Outcome) -> bool { (step, o) => Releases(step, o, c) }
  function ExpiresOf(c: nat): (KeyEvent, Outcome) -> bool { (step, o) => Expires(step, o, c) }

  /** A submitted request is answered at once or waits; a waiter that stops waiting is answered by that very step. */
  ghost predicate AnswerBalanced(s: KeyState, step: KeyEvent, o: Outcome, c: nat) {
    WaitTally(o.state.waiters, c) - WaitTally(s.waiters, c) == Tally(Taken(step), c) - Bit(Answers(step, o, c))
  }

  lemma LockAnswers(s: KeyState, cmd: LockCommand, now: int, st: Stats, c: nat)
    ensures AnswerBalanced(s, LockRequest(cmd, now), LockStep(s, cmd, now, st), c)
  {
    WaitersSplit(s.waiters, [WaiterFor(cmd, now)], c);
    assert Tally([cmd.commandId], c) == Bit(cmd.commandId == c);
  }

  lemma UnlockAnswers(s: KeyState, cmd: LockCommand, st: Stats, c: nat)
    ensures AnswerBalanced(s, UnlockRequest(cmd), UnlockStep(s, cmd, st), c)
  {
    assert Tally([cmd.commandId], c) == Bit(cmd.commandId == c);
  }

  lemma WakeAnswers(s: KeyState, now: int, st: Stats, c: nat)
    ensures AnswerBalanced(s, Wake(now), WakeStep(s, now, st), c)
  {
    if WakeGrants(s) {
      WaitersWithout(s.waiters, 0, c);
      assert Without(s.waiters, 0) == s.waiters[1..];
    }
  }

  lemma AnswerStep(s: KeyState, step: KeyEvent, st: Stats, c: nat)
    ensures AnswerBalanced(s, step, KeyStep(s, step, st), c)
  {
    match step {
      case LockRequest(cmd, now) =>
        LockAnswers(s, cmd, now, st, c);
      case UnlockRequest(cmd) =>
        UnlockAnswers(s, cmd, st, c);
      case TimeOut(request) =>
        var i := WaitPosition(s.waiters, request);
        if i.Some? {
          WaitersWithout(s.waiters, i.value, c);
        }
      case Expire(request) =>
      case Wake(now) =>
        WakeAnswers(s, now, st, c);
    }
  }

  /** A record joins the waiters by a lock request without an answer, and leaves them by a wake-up that answers SUCCED
      or by the timer that answers TIMEOUT. */
  ghost predicate WaiterBalanced(s: KeyState, step: KeyEvent, o: Outcome, c: nat) {
    WaitTally(o.state.waiters, c) - WaitTally(s.waiters, c)
    == Bit(Queues(step, o, c)) - Bit(WokenUp(step, o, c)) - Bit(GivenUp(step, o, c))
  }

  lemma LockWaiters(s: KeyState, cmd: LockCommand, now: int, st: Stats, c: nat)
    ensures WaiterBalanced(s, LockRequest(cmd, now), LockStep(s, cmd, now, st), c)
  {
    hide ExpireTime, TimeoutTime, ReplyTo, MayGrant;
    WaitersSplit(s.waiters, [WaiterFor(cmd, now)], c);
  }

  lemma TimeOutWaiters(s: KeyState, request: nat, st: Stats, c: nat)
    ensures WaiterBalanced(s, TimeOut(request), TimeOutStep(s, request, st), c)
  {
    var i := WaitPosition(s.waiters, request);
    if i.Some? {
      WaitersWithout(s.waiters, i.value, c);
    }
  }

  lemma WakeWaiters(s: KeyState, now: int, st: Stats, c: nat)
    ensures WaiterBalanced(s, Wake(now), WakeStep(s, now, st), c)
  {
    hide ExpireTime, MayGrant;
    if s.waiters != [] {
      WaitersWithout(s.waiters, 0, c);
      assert Without(s.waiters, 0) == s.waiters[1..];
    }
  }

  lemma WaiterStep(s: KeyState, step: KeyEvent, st: Stats, c: nat)
    ensures WaiterBalanced(s, step, KeyStep(s, step, st), c)
  {
    hide LockStep, TimeOutStep, WakeStep;
    match step {
      case LockRequest(cmd, now) => LockWaiters(s, cmd, now, st, c);
      case UnlockRequest(cmd) =>
      case TimeOut(request) => TimeOutWaiters(s, request, st, c);
      case Expire(request) =>
      case Wake(now) => WakeWaiters(s, now, st, c);
    }
  }

  /** A request that is not submitted in the step is answered by it exactly if it stops waiting, and then with SUCCED
      by a wake-up or with TIMEOUT by its timer, and by no other kind of step. */
  lemma WaiterAnswer(s: KeyState, step: KeyEvent, st: Stats, c: nat)
    requires Tally(Taken(step), c) == 0
    ensures var o := KeyStep(s, step, st);
            && (Answers(step, o, c) <==> WaitTally(o.state.waiters, c) < WaitTally(s.waiters, c))
            && (Answers(step, o, c) <==> WokenUp(step, o, c) || GivenUp(step, o, c))
  {
    hide KeyStep;
    AnswerStep(s, step, st, c);
    WaiterStep(s, step, st, c);
    assert Queues(step, KeyStep(s, step, st), c) ==> Tally([c], c) > 0;
  }

  /** A hold appears by a first grant only, and disappears by an unlock answered SUCCED or by an expiry notice. */
  ghost predicate HoldBalanced(s: KeyState, step: KeyEvent, o: Outcome, c: nat) {
    HoldTally(o.state.holders, c) - HoldTally(s.holders, c)
    == Bit(Grants(step, o, c)) - Bit(Releases(step, o, c)) - Bit(Expires(step, o, c))
  }

  lemma HeldHolds(s: KeyState, i: nat, cmd: LockCommand, now: int, st: Stats, c: nat)
    requires WellFormed(s) && i < |s.holders|
    ensures HoldBalanced(s, LockRequest(cmd, now), HeldStep(s, i, cmd, now, st), c)
  {
    var h := s.holders[i];
    HoldsUpdate(s.holders, i, Updated(h, cmd, now), c);
    HoldsUpdate(s.holders, i, Updated(h, cmd, now).(depth := h.depth + 1), c);
  }

  lemma FreshHolds(s: KeyState, cmd: LockCommand, now: int, st: Stats, c: nat)
    ensures HoldBalanced(s, LockRequest(cmd, now), FreshStep(s, cmd, now, st), c)
  {
    AddTally(s, HoldFor(cmd, now), c);
  }

  lemma ReleaseHolds(s: KeyState, i: nat, cmd: LockCommand, st: Stats, c: nat)
    requires i < |s.holders|
    ensures HoldBalanced(s, UnlockRequest(cmd), ReleaseStep(s, i, cmd, st), c)
  {
    var h := s.holders[i];
    HoldsWithout(s.holders, i, c);
    if h.depth > 1 {
      HoldsUpdate(s.holders, i, h.(depth := h.depth - 1), c);
    }
  }

  lemma WakeHolds(s: KeyState, now: int, st: Stats, c: nat)
    ensures HoldBalanced(s, Wake(now), WakeStep(s, now, st), c)
  {
    if WakeGrants(s) {
      AddTally(s.(waiters := s.waiters[1..]), HoldOfWaiter(s.waiters[0], now), c);
    }
  }

  lemma LockHolds(s: KeyState, cmd: LockCommand, now: int, st: Stats, c: nat)
    requires WellFormed(s)
    ensures HoldBalanced(s, LockRequest(cmd, now), LockStep(s, cmd, now, st), c)
  {
    hide HeldStep, FreshStep, WellFormed;
    var f := Find(s, cmd.lockId);
    if f.Some? {
      HeldHolds(s, f.value, cmd, now, st, c);
    } else {
      FreshHolds(s, cmd, now, st, c);
    }
  }

  lemma UnlockHolds(s: KeyState, cmd: LockCommand, st: Stats, c: nat)
    ensures HoldBalanced(s, UnlockRequest(cmd), UnlockStep(s, cmd, st), c)
  {
    hide ReleaseStep;
    var f := Find(s, cmd.lockId);
    if f.Some? {
      ReleaseHolds(s, f.value, cmd, st, c);
    } else if s.holders != [] {
      ReleaseHolds(s, 0, Shown(cmd, s.holders[0]), st, c);
    }
  }

  lemma ExpireHolds(s: KeyState, request: nat, st: Stats, c: nat)
    ensures HoldBalanced(s, Expire(request), ExpireStep(s, request, st), c)
  {
    var i := Position(s.holders, request);
    if i.Some? {
      HoldsWithout(s.holders, i.value, c);
    }
  }

  lemma HoldStep(s: KeyState, step: KeyEvent, st: Stats, c: nat)
    requires WellFormed(s)
    ensures HoldBalanced(s, step, KeyStep(s, step, st), c)
  {
    hide LockStep, UnlockStep, ExpireStep, WakeStep, WellFormed;
    match step {
      case LockRequest(cmd, now) => LockHolds(s, cmd, now, st, c);
      case UnlockRequest(cmd) => UnlockHolds(s, cmd, st, c);
      case TimeOut(request) =>
      case Expire(request) => ExpireHolds(s, request, st, c);
      case Wake(now) => WakeHolds(s, now, st, c);
    }
  }

  /** The number of steps of a run in which something happens to a record. */
  ghost function Happened(n: nat, es: seq<Event>, p: (KeyEvent, Outcome) -> bool): int {
    if es == [] then 0
    else
      var db, e := After(n, es[..|es| - 1]), es[|es| - 1];
      Happened(n, es[..|es| - 1], p)
        + Bit(e.At? && e.key < |db.keys| && p(e.step, OutcomeAt(db, e.key, e.step)))
  }

  /** Under every interleaving, each submitted request is answered exactly once: it has been answered as often as
      it was submitted, unless it is waiting right now. */
  lemma {:induction false} AnsweredOnce(n: nat, es: seq<Event>, c: nat)
    requires Legal(n, es)
    ensures Happened(n, es, SubmitsOf(c))
            == Happened(n, es, AnswersOf(c))
               + Sum(WaitingOf(c), After(n, es).keys)
  {
    var waiting := WaitingOf(c);
    if es == [] {
      SumEmpty(waiting, n);
    } else {
      var db, e := After(n, es[..|es| - 1]), es[|es| - 1];
      AnsweredOnce(n, es[..|es| - 1], c);
      Reachable(n, es[..|es| - 1]);
      if e.At? {
        AnswerStep(db.keys[e.key], e.step, db.stats, c);
        SumUpdate(waiting, db.keys, e.key, OutcomeAt(db, e.key, e.step).state);
        assert Taken(e.step) == [] || Tally(Taken(e.step)[1..], c) == 0;
      }
    }
  }

  /** Under every interleaving, each request that was queued has got exactly one of SUCCED, by a wake-up, and TIMEOUT,
      by its timer, unless it is waiting right now. */
  lemma {:induction false} WaitersSettled(n: nat, es: seq<Event>, c: nat)
    requires Legal(n, es)
    ensures Happened(n, es, QueuesOf(c))
            == Happened(n, es, WokenOf(c)) + Happened(n, es, GivenUpOf(c)) + Sum(WaitingOf(c), After(n, es).keys)
  {
    var waiting := WaitingOf(c);
    if es == [] {
      SumEmpty(waiting, n);
    } else {
      var db, e := After(n, es[..|es| - 1]), es[|es| - 1];
      WaitersSettled(n, es[..|es| - 1], c);
      Reachable(n, es[..|es| - 1]);
      if e.At? {
        hide KeyStep, Queues, WokenUp, GivenUp;
        WaiterStep(db.keys[e.key], e.step, db.stats, c);
        SumUpdate(waiting, db.keys, e.key, OutcomeAt(db, e.key, e.step).state);
      }
    }
  }

  /** Under every interleaving, each granted hold is ended exactly once, by an unlock that is answered SUCCED or by a
      notice EXPRIED and never both, unless it is held right now. */
  lemma {:induction false} EndedOnce(n: nat, es: seq<Event>, c: nat)
    requires Legal(n, es)
    ensures Happened(n, es, GrantsOf(c))
            == Happened(n, es, ReleasesOf(c)) + Happened(n, es, ExpiresOf(c)) + Sum(HoldingOf(c), After(n, es).keys)
  {
    var holding := HoldingOf(c);
    if es == [] {
      SumEmpty(holding, n);
    } else {
      var db, e := After(n, es[..|es| - 1]), es[|es| - 1];
      EndedOnce(n, es[..|es| - 1], c);
      Reachable(n, es[..|es| - 1]);
      if e.At? {
        HoldStep(db.keys[e.key], e.step, db.stats, c);
        SumUpdate(holding, db.keys, e.key, OutcomeAt(db, e.key, e.step).state);
      }
    }
  }
}
