/** A key together with the timers that watch it. A hold or a waiter gets a lock object, and that is put into the timers
    with its deadline; a batch that hands it over ends the hold or the wait. The timers serve other keys as well. */
module TimedKey {
  import opened Protocol
  import opened KeySpec
  import opened KeyProofs
  import opened HoldLaws
  import A = Accounts
  import Q = Runs
  import T = TimerModel
  import P = TimerProofs
  import R = TimerRuns

  /** `holds` and `waits` are the timers of expiries and of timeouts, `lockOf` the lock object of each record that holds
      or waits. */
  datatype World = World(key: KeyState, st: Stats, holds: T.Timers, waits: T.Timers, lockOf: map<nat, T.Id>)

  /** A batch hands over the lock of a record of this key, or of none. What else the timers do is a step of theirs. */
  datatype Event =
    | Request(cmd: LockCommand, now: int, lock: T.Id)
    | Unlock(cmd: LockCommand)
    | WakeUp(now: int)
    | HoldDue(record: Option<nat>)
    | WaitDue(record: Option<nat>)
    | HoldTimer(step: R.Event)
    | WaitTimer(step: R.Event)

  // ---------- what an event does to the key

  function KeyEventOf(w: World, ev: Event): Option<KeyEvent> {
    match ev
    case Request(cmd, now, lock) => Some(LockRequest(cmd, now))
    case Unlock(cmd) => Some(UnlockRequest(cmd))
    case WakeUp(now) => Some(Wake(now))
    case HoldDue(c) =>
      if c.Some? && w.holds.batch != [] && !w.holds.Get(w.holds.batch[0]).done then Some(Expire(c.value)) else None
    case WaitDue(c) =>
      if c.Some? && w.waits.batch != [] && !w.waits.Get(w.waits.batch[0]).done then Some(TimeOut(c.value)) else None
    case HoldTimer(_) => None
    case WaitTimer(_) => None
  }

  function OutcomeOf(w: World, ev: Event): Outcome {
    var k := KeyEventOf(w, ev);
    if k.Some? then KeyStep(w.key, k.value, w.st) else Outcome(w.key, None, [], w.st)
  }

  // ---------- what it does to the timers

  /** A lock leaves the queue of its deadline; elsewhere it is only marked. */
  function Drop(t: T.Timers, lockOf: map<nat, T.Id>, c: nat): seq<R.Event> {
    if c !in lockOf || lockOf[c] !in t.due then []
    else if t.Get(lockOf[c]).inLong then [R.Leave(lockOf[c])]
    else [R.Settled(lockOf[c])]
  }

  /** A hold gets new terms: out of the queue of its deadline and in again, or a new deadline where it is. A time in
      milliseconds belongs to other timers; one flag lets the looks at the lock go on counting. */
  function Renewal(t: T.Timers, e: T.Id, deadline: int, flag: bv16): seq<R.Event> {
    var count := if flag & 0x2000 == 0 then 1 else t.Get(e).checkedCount;
    if e !in t.due then []
    else if t.Get(e).inLong then
      [R.Leave(e)] + (if InSeconds(flag) then [R.Arrive(e, deadline, count)] else [])
    else [R.Renewed(e, deadline, count)]
  }

  predicate Renews(s: KeyState, cmd: LockCommand, o: Outcome) {
    && Find(s, cmd.lockId).Some? && !(s.holders != [] && cmd.flag == 1)
    && (cmd.flag == 2 || (o.reply.Some? && o.reply.value.code == Succed))
  }

  /** A request gets a hold at once. */
  predicate Grants(s: KeyState, cmd: LockCommand, o: Outcome) {
    && Find(s, cmd.lockId).None? && !(s.holders != [] && cmd.flag == 1)
    && o.reply.Some? && o.reply.value.code == Succed && cmd.expried > 0
  }

  function HoldEvents(w: World, ev: Event): seq<R.Event> {
    var o := OutcomeOf(w, ev);
    match ev
    case Request(cmd, now, lock) =>
      var f := Find(w.key, cmd.lockId);
      if Renews(w.key, cmd, o) && |o.state.holders| == |w.key.holders|
        && w.key.holders[f.value].request in w.lockOf then
        Renewal(w.holds, w.lockOf[w.key.holders[f.value].request], o.state.holders[f.value].expireTime, cmd.expriedFlag)
      else if Grants(w.key, cmd, o) && o.state.holders != [] && InSeconds(cmd.expriedFlag) then
        [R.Arrive(lock, o.state.holders[|o.state.holders| - 1].expireTime, 1)]
      else []
    case Unlock(cmd) => if |o.freed| == 2 then Drop(w.holds, w.lockOf, o.freed[1]) else []
    case WakeUp(now) =>
      if o.reply.Some? && w.key.waiters != [] && w.key.waiters[0].request in w.lockOf && o.state.holders != []
         && w.key.waiters[0].expried > 0 && InSeconds(w.key.waiters[0].expriedFlag) then
        [R.Arrive(w.lockOf[w.key.waiters[0].request], o.state.holders[|o.state.holders| - 1].expireTime, 1)]
      else []
    case HoldDue(_) => [R.HandOver]
    case HoldTimer(step) => [step]
    case WaitDue(_) => []
    case WaitTimer(_) => []
  }

  function WaitEvents(w: World, ev: Event): seq<R.Event> {
    var o := OutcomeOf(w, ev);
    match ev
    case Request(cmd, now, lock) =>
      if o.reply.None? && o.state.waiters != [] && cmd.timeoutFlag & 0x0400 == 0 then
        [R.Arrive(lock, o.state.waiters[|o.state.waiters| - 1].timeoutTime, 1)]
      else []
    case WakeUp(now) =>
      if o.reply.Some? && w.key.waiters != [] then Drop(w.waits, w.lockOf, w.key.waiters[0].request) else []
    case WaitDue(_) => [R.HandOver]
    case WaitTimer(step) => [step]
    case Unlock(_) => []
    case HoldDue(_) => []
    case HoldTimer(_) => []
  }

  function LocksAfter(w: World, ev: Event): map<nat, T.Id> {
    var s := OutcomeOf(w, ev).state;
    var kept := map c | c in w.lockOf && Owned(s, c) > 0 :: w.lockOf[c];
    if ev.Request? && Owned(s, ev.cmd.commandId) > 0 then kept[ev.cmd.commandId := ev.lock] else kept
  }

  // ---------- what may happen

  /** Another key's lock. */
  predicate Foreign(w: World, step: R.Event) {
    && !step.HandOver?
    && (step.Arrive? || step.Settled? || step.Renewed? || step.Leave? ==> step.e !in w.lockOf.Values)
  }

  predicate HandsOver(t: T.Timers, lockOf: map<nat, T.Id>, c: Option<nat>) {
    && t.batch != []
    && (if c.Some? then c.value in lockOf && lockOf[c.value] == t.batch[0] else t.batch[0] !in lockOf.Values)
  }

  /** A request comes with a record that is not in use, and with a lock object that is in no timer. */
  ghost predicate Possible(w: World, ev: Event) {
    match ev
    case Request(cmd, now, lock) =>
      && Owned(w.key, cmd.commandId) == 0
      && lock !in w.lockOf.Values && lock !in w.holds.due && lock !in w.waits.due
    case Unlock(cmd) => Owned(w.key, cmd.commandId) == 0
    case WakeUp(_) => true
    case HoldDue(c) => HandsOver(w.holds, w.lockOf, c)
    case WaitDue(c) => HandsOver(w.waits, w.lockOf, c)
    case HoldTimer(step) => Foreign(w, step) && R.Possible(w.holds, step)
    case WaitTimer(step) => Foreign(w, step) && R.Possible(w.waits, step)
  }

  /** Every record that holds or waits has a lock object of its own, and one that waits is not in the timers of
      holds. */
  ghost predicate Valid(w: World) {
    && WellFormed(w.key) && T.Valid(w.holds) && T.Valid(w.waits)
    && (forall c: nat :: c in w.lockOf <==> Owned(w.key, c) > 0)
    && (forall c, d :: c in w.lockOf && d in w.lockOf && c != d ==> w.lockOf[c] != w.lockOf[d])
    && (forall c :: c in w.lockOf && WaitTally(w.key.waiters, c) > 0 ==> w.lockOf[c] !in w.holds.due)
  }

  lemma NewWorld(st: Stats, holds: T.Timers, waits: T.Timers)
    requires T.Valid(holds) && T.Valid(waits)
    ensures Valid(World(EMPTY, st, holds, waits, map[]))
  {
  }

  // ---------- one event

  lemma DropRun(t: T.Timers, lockOf: map<nat, T.Id>, c: nat)
    requires T.Valid(t)
    ensures R.Run(t, Drop(t, lockOf, c))
  {
    hide T.Valid, R.Step;
    One(t, Drop(t, lockOf, c));
  }

  /** A run of at most one event. */
  lemma One(t: T.Timers, es: seq<R.Event>)
    requires T.Valid(t) && |es| <= 1
    ensures R.Run(t, es) <==> es == [] || R.Possible(t, es[0])
    ensures es == [] ==> R.Run(t, es) && R.After(t, es) == t
    ensures es != [] && R.Possible(t, es[0]) ==> T.Valid(R.Step(t, es[0])) && R.After(t, es) == R.Step(t, es[0])
  {
    hide T.Valid, R.Possible, R.Step;
    if es != [] {
      assert es[1..] == [];
      if R.Possible(t, es[0]) {
        R.StepValid(t, es[0]);
      }
    }
  }

  /** A lock leaves the queue of its deadline and comes back. */
  lemma Two(t: T.Timers, e: T.Id, deadline: int, count: nat)
    requires T.Valid(t) && e in t.due && t.Get(e).inLong && count >= 1
    ensures var es := [R.Leave(e), R.Arrive(e, deadline, count)]; var t1 := T.RemoveLong(t, e);
            && R.Run(t, es) && T.Valid(t1) && R.Possible(t1, es[1])
            && t1 == R.Step(t, es[0]) && t1.due == t.due - {e} && R.After(t, es) == R.Step(t1, es[1])
  {
    P.RemoveLongValid(t, e);
    hide T.Valid, T.Add, T.RemoveLong;
    var es := [R.Leave(e), R.Arrive(e, deadline, count)];
    assert es[1..] == [es[1]];
    One(T.RemoveLong(t, e), [es[1]]);
  }

  lemma RenewalRun(t: T.Timers, e: T.Id, deadline: int, flag: bv16)
    requires T.Valid(t)
    ensures R.Run(t, Renewal(t, e, deadline, flag))
  {
    if e in t.due {
      assert T.Timely(t, e);
      var count := if flag & 0x2000 == 0 then 1 else t.Get(e).checkedCount;
      hide T.Valid, R.Step;
      if t.Get(e).inLong && InSeconds(flag) {
        Two(t, e, deadline, count);
        assert Renewal(t, e, deadline, flag) == [R.Leave(e), R.Arrive(e, deadline, count)];
      } else {
        One(t, Renewal(t, e, deadline, flag));
      }
    } else {
      One(t, []);
    }
  }

  lemma EventsRun(w: World, ev: Event)
    requires Valid(w) && Possible(w, ev)
    ensures R.Run(w.holds, HoldEvents(w, ev)) && R.Run(w.waits, WaitEvents(w, ev))
  {
    if ev.WakeUp? && w.key.waiters != [] {
      WaitingTally(w.key.waiters, w.key.waiters[0].request);
    }
    hide T.Valid, WellFormed, Owned, KeyStep, Renewal, Drop, R.Run, R.Step, R.After;
    var o := OutcomeOf(w, ev);
    match ev {
      case Request(cmd, now, lock) =>
        var f := Find(w.key, cmd.lockId);
        if Renews(w.key, cmd, o) && |o.state.holders| == |w.key.holders| && w.key.holders[f.value].request in w.lockOf {
          RenewalRun(w.holds, w.lockOf[w.key.holders[f.value].request], o.state.holders[f.value].expireTime,
                     cmd.expriedFlag);
        } else {
          One(w.holds, HoldEvents(w, ev));
        }
        One(w.waits, WaitEvents(w, ev));
      case Unlock(cmd) =>
        One(w.holds, []);
        One(w.waits, []);
        if |o.freed| == 2 {
          DropRun(w.holds, w.lockOf, o.freed[1]);
        }
      case WakeUp(now) =>
        One(w.holds, HoldEvents(w, ev));
        One(w.waits, []);
        if w.key.waiters != [] {
          DropRun(w.waits, w.lockOf, w.key.waiters[0].request);
        }
      case _ =>
        One(w.holds, HoldEvents(w, ev));
        One(w.waits, WaitEvents(w, ev));
    }
  }

  ghost function Moved(w: World, ev: Event): World
    requires Valid(w) && Possible(w, ev)
  {
    EventsRun(w, ev);
    var o := OutcomeOf(w, ev);
    World(o.state, o.stats, R.After(w.holds, HoldEvents(w, ev)), R.After(w.waits, WaitEvents(w, ev)), LocksAfter(w, ev))
  }

  /** Only a lock that arrives is new in the timers. */
  lemma {:induction false} OnlyArrivals(t: T.Timers, es: seq<R.Event>, e: T.Id)
    requires T.Valid(t) && R.Run(t, es) && e !in t.due
    requires forall i :: 0 <= i < |es| && es[i].Arrive? ==> es[i].e != e
    ensures e !in R.After(t, es).due
    decreases |es|
  {
    hide T.Valid, R.Possible, R.Step;
    if es != [] {
      R.StepValid(t, es[0]);
      R.StepGone(t, es[0], e);
      OnlyArrivals(R.Step(t, es[0]), es[1..], e);
    }
  }

  lemma KeyAdmits(w: World, ev: Event)
    requires Possible(w, ev) && KeyEventOf(w, ev).Some?
    ensures Admissible(w.key, KeyEventOf(w, ev).value)
  {
  }

  /** The records with lock objects are those that hold or wait. */
  lemma LocksValid(w: World, ev: Event)
    requires Valid(w) && Possible(w, ev)
    ensures var m, s := LocksAfter(w, ev), OutcomeOf(w, ev).state;
            && WellFormed(s)
            && (forall c: nat :: c in m <==> Owned(s, c) > 0)
            && (forall c, d :: c in m && d in m && c != d ==> m[c] != m[d])
            && (forall c :: c in m ==>
                  || (c in w.lockOf && m[c] == w.lockOf[c])
                  || (ev.Request? && c == ev.cmd.commandId && m[c] == ev.lock))
  {
    var k, s := KeyEventOf(w, ev), OutcomeOf(w, ev).state;
    hide WellFormed, KeyStep, Owned, T.Valid;
    if k.Some? {
      KeyAdmits(w, ev);
      StepKeeps(w.key, k.value, w.st);
      forall c: nat | Owned(s, c) > 0
        ensures Owned(w.key, c) > 0 || (ev.Request? && c == ev.cmd.commandId)
      {
        OwnedBefore(w.key, k.value, w.st, c);
      }
    }
  }

  /** A record that holds or waits after a step did so before, or came in with a lock request. */
  lemma OwnedBefore(s: KeyState, k: KeyEvent, st: Stats, c: nat)
    requires Owned(KeyStep(s, k, st).state, c) > 0
    ensures Owned(s, c) > 0 || (k.LockRequest? && k.cmd.commandId == c)
  {
    StepConserves(s, k, st, c);
    assert Taken(k) == [] || Tally(Taken(k)[1..], c) == 0;
    if k.UnlockRequest? {
      UnlockReturns(s, k.cmd, st);
    }
  }

  /** The record of an unlock request is given back at once. */
  lemma UnlockReturns(s: KeyState, cmd: LockCommand, st: Stats)
    ensures Tally(UnlockStep(s, cmd, st).freed, cmd.commandId) > 0
  {
  }

  /** A record that waits after an event waited before and is not let in, or is the request just made. */
  lemma WaitedBefore(s: KeyState, k: KeyEvent, st: Stats, c: nat)
    requires WellFormed(s) && Admissible(s, k) && WaitTally(KeyStep(s, k, st).state.waiters, c) > 0
    ensures var o := KeyStep(s, k, st);
            || (WaitTally(s.waiters, c) > 0
              && (k.Wake? && o.reply.Some? ==> s.waiters != [] && s.waiters[0].request != c))
            || (k.LockRequest? && k.cmd.commandId == c && o.reply.None?)
  {
    Q.WaiterStep(s, k, st, c);
    var o := KeyStep(s, k, st);
    hide KeyStep;
    if k.Wake? && o.reply.Some? {
      WakeLets(s, k.now, st);
      assert Owned(s, c) <= 1 && Owned(o.state, c) <= 1 by {
        StepKeeps(s, k, st);
      }
    }
  }

  lemma WakeLets(s: KeyState, now: int, st: Stats)
    ensures var o := KeyStep(s, Wake(now), st);
            o.reply.Some? ==>
              && s.waiters != [] && o.reply.value.commandId == s.waiters[0].request && o.reply.value.code == Succed
              && (s.waiters[0].expried > 0 ==>
                    o.state.holders != []
                    && o.state.holders[|o.state.holders| - 1].request == s.waiters[0].request)
  {
  }

  /** What arrives in the timers of holds is a lock that is new, one that was in them, one whose record is let in, or
      one of another key. */
  lemma HoldArrivals(w: World, ev: Event, i: nat)
    requires i < |HoldEvents(w, ev)| && HoldEvents(w, ev)[i].Arrive?
    ensures var e, o := HoldEvents(w, ev)[i].e, OutcomeOf(w, ev);
            || (ev.Request? && e == ev.lock && o.reply.Some?)
            || (e in w.holds.due)
            || (ev.WakeUp? && o.reply.Some? && w.key.waiters != [] && w.key.waiters[0].request in w.lockOf
                && e == w.lockOf[w.key.waiters[0].request])
            || (ev.HoldTimer? && e == ev.step.e && ev.step.Arrive?)
  {
    hide KeyStep;
  }

  lemma NextValid(w: World, ev: Event)
    requires Valid(w) && Possible(w, ev)
    ensures Valid(Moved(w, ev))
  {
    EventsRun(w, ev);
    LocksValid(w, ev);
    var w' := Moved(w, ev);
    forall c | c in w'.lockOf && WaitTally(w'.key.waiters, c) > 0 ensures w'.lockOf[c] !in w'.holds.due {
      WaitsOutside(w, ev, c);
    }
  }

  lemma WaitsOutside(w: World, ev: Event, c: nat)
    requires Valid(w) && Possible(w, ev) && c in LocksAfter(w, ev)
    requires WaitTally(OutcomeOf(w, ev).state.waiters, c) > 0
    ensures R.Run(w.holds, HoldEvents(w, ev)) && LocksAfter(w, ev)[c] !in R.After(w.holds, HoldEvents(w, ev)).due
  {
    EventsRun(w, ev);
    LocksValid(w, ev);
    var e, k := LocksAfter(w, ev)[c], KeyEventOf(w, ev);
    hide KeyStep, HoldEvents, T.Valid, LocksAfter, R.Run, R.After, R.Possible;
    if k.Some? {
      KeyAdmits(w, ev);
      WaitedBefore(w.key, k.value, w.st, c);
    }
    assert e !in w.holds.due;
    forall i | 0 <= i < |HoldEvents(w, ev)| && HoldEvents(w, ev)[i].Arrive? ensures HoldEvents(w, ev)[i].e != e {
      HoldArrivals(w, ev, i);
    }
    OnlyArrivals(w.holds, HoldEvents(w, ev), e);
  }

  ghost function Next(w: World, ev: Event): (w': World)
    requires Valid(w) && Possible(w, ev)
    ensures Valid(w')
  {
    NextValid(w, ev);
    Moved(w, ev)
  }

  // ---------- a hold that is left alone

  ghost predicate HoldsUntil(s: KeyState, c: nat, until: int) {
    exists i :: 0 <= i < |s.holders| && s.holders[i].request == c && s.holders[i].expireTime == until
  }

  /** The event renews or re-enters the hold, or releases it. */
  predicate Touches(w: World, ev: Event, c: nat) {
    var o := OutcomeOf(w, ev);
    || (ev.Request? && Renews(w.key, ev.cmd, o) && w.key.holders[Find(w.key, ev.cmd.lockId).value].request == c)
    || (ev.Unlock? && |o.freed| == 2 && o.freed[1] == c)
  }

  /** The batch ends the hold. */
  predicate Expires(w: World, ev: Event, c: nat) {
    ev == HoldDue(Some(c)) && w.holds.batch != [] && !w.holds.Get(w.holds.batch[0]).done
  }

  lemma UnlockBooked(s: KeyState, cmd: LockCommand, st: Stats, c: nat, a: A.Account)
    requires WellFormed(s) && a.Holds? && A.Right(s, c, a)
    ensures var o := UnlockStep(s, cmd, st); var b := A.Booked(s, UnlockRequest(cmd), o.reply, c, a);
            !(|o.freed| == 2 && o.freed[1] == c) ==> b.Holds? && b.until == a.until
  {
    UnlockTakes(s, cmd, st);
    var at := Addressed(s, cmd);
    hide WellFormed, UnlockStep, Find;
    if at.Some? && s.holders[at.value].request == c {
      A.OnlyHold(s, at.value, Hold(c, a.lockId, a.depth, a.count, a.rcount, a.until));
    }
  }

  /** The key keeps the hold and its deadline. */
  lemma StaysHeld(s: KeyState, k: KeyEvent, st: Stats, c: nat, until: int)
    requires WellFormed(s) && Admissible(s, k) && HoldsUntil(s, c, until)
    requires k.LockRequest? && Renews(s, k.cmd, KeyStep(s, k, st)) ==>
             s.holders[Find(s, k.cmd.lockId).value].request != c
    requires k.UnlockRequest? ==> var o := KeyStep(s, k, st); !(|o.freed| == 2 && o.freed[1] == c)
    requires k != Expire(c)
    ensures HoldsUntil(KeyStep(s, k, st).state, c, until)
  {
    var i :| 0 <= i < |s.holders| && s.holders[i].request == c && s.holders[i].expireTime == until;
    var h := s.holders[i];
    var a := A.Holds(h.lockId, h.depth, h.count, h.rcount, h.expireTime);
    assert A.Right(s, c, a);
    A.OwnedOnce(s, c);
    A.StepBooked(s, k, st, c, a);
    hide WellFormed;
    var o := KeyStep(s, k, st);
    var b := A.Booked(s, k, o.reply, c, a);
    match k {
      case LockRequest(cmd, now) =>
        hide KeyStep;
        ShownRefused(s, cmd, now, st);
      case UnlockRequest(cmd) => UnlockBooked(s, cmd, st, c, a);
      case TimeOut(request) => TimeoutNotice(s, request, st);
      case Expire(request) =>
      case Wake(now) => WakeLets(s, now, st);
    }
    var g :| g in o.state.holders && g == Hold(c, b.lockId, b.depth, b.count, b.rcount, b.until);
  }

  lemma ShownRefused(s: KeyState, cmd: LockCommand, now: int, st: Stats)
    ensures var o := KeyStep(s, LockRequest(cmd, now), st);
            s.holders != [] && cmd.flag == 1 ==> o.reply.Some? && o.reply.value.code == UnownError
  {
  }

  lemma HoldRecord(s: KeyState, c: nat, until: int)
    requires WellFormed(s) && HoldsUntil(s, c, until)
    ensures HoldTally(s.holders, c) == 1 && WaitTally(s.waiters, c) == 0
    ensures s.waiters != [] ==> s.waiters[0].request != c
  {
    A.OwnedOnce(s, c);
  }

  /** The timers do nothing to its lock. */
  lemma Elsewhere(w: World, ev: Event, c: nat, until: int)
    requires Valid(w) && Possible(w, ev) && HoldsUntil(w.key, c, until) && c in w.lockOf
    requires !Touches(w, ev, c) && !Expires(w, ev, c)
    ensures R.Untouched(HoldEvents(w, ev), w.lockOf[c])
  {
    HoldRecord(w.key, c, until);
    hide WellFormed, KeyStep, T.Valid, Owned;
    var o, es, e := OutcomeOf(w, ev), HoldEvents(w, ev), w.lockOf[c];
    forall i | 0 <= i < |es| && (es[i].Arrive? || es[i].Settled? || es[i].Renewed? || es[i].Leave?)
      ensures es[i].e != e
    {
    }
  }

  /** Nothing fires but by a hand-over. */
  lemma {:induction false} NoFirings(t: T.Timers, es: seq<R.Event>, e: T.Id)
    requires T.Valid(t) && R.Run(t, es) && forall i :: 0 <= i < |es| ==> !es[i].HandOver?
    ensures R.Firings(t, es, e) == []
    decreases |es|
  {
    hide T.Valid, R.Possible, R.Step;
    if es != [] {
      R.StepValid(t, es[0]);
      NoFirings(R.Step(t, es[0]), es[1..], e);
    }
  }

  lemma HandOverOnly(w: World, ev: Event, i: nat)
    requires Possible(w, ev) && i < |HoldEvents(w, ev)| && HoldEvents(w, ev)[i].HandOver?
    ensures ev.HoldDue? && HoldEvents(w, ev) == [R.HandOver]
  {
    hide KeyStep;
  }

  /** Its lock does not fire unless the batch ends the hold. */
  lemma NotFired(w: World, ev: Event, c: nat)
    requires Valid(w) && Possible(w, ev) && c in w.lockOf && R.Run(w.holds, HoldEvents(w, ev))
    requires !Expires(w, ev, c)
    ensures R.Firings(w.holds, HoldEvents(w, ev), w.lockOf[c]) == []
  {
    var es, e := HoldEvents(w, ev), w.lockOf[c];
    if i :| 0 <= i < |es| && es[i].HandOver? {
      HandOverOnly(w, ev, i);
      assert es[1..] == [];
      R.StepValid(w.holds, es[0]);
      hide T.Valid, WellFormed, R.Step;
      assert R.Firings(R.Step(w.holds, es[0]), [], e) == [];
    } else {
      NoFirings(w.holds, es, e);
    }
  }

  /** One event that leaves the hold alone. */
  lemma HoldStays(w: World, ev: Event, c: nat, until: int, d: int, x: int)
    requires Valid(w) && Possible(w, ev) && HoldsUntil(w.key, c, until) && c in w.lockOf
    requires R.Waits(w.holds, w.lockOf[c], d, x) && !Touches(w, ev, c) && !Expires(w, ev, c)
    ensures var w' := Next(w, ev);
            && Valid(w') && HoldsUntil(w'.key, c, until) && c in w'.lockOf && w'.lockOf[c] == w.lockOf[c]
            && R.Waits(w'.holds, w'.lockOf[c], d, x)
  {
    EventsRun(w, ev);
    LocksValid(w, ev);
    Elsewhere(w, ev, c, until);
    NotFired(w, ev, c);
    R.TimerExactness(w.holds, HoldEvents(w, ev), w.lockOf[c], d, x);
    KeptHold(w, ev, c, until);
    hide WellFormed, T.Valid, KeyStep, HoldEvents, WaitEvents, R.Run, R.After, R.Waits, R.Firings;
    var w' := Next(w, ev);
    HoldRecord(w'.key, c, until);
    HoldRecord(w.key, c, until);
  }

  lemma KeptHold(w: World, ev: Event, c: nat, until: int)
    requires Valid(w) && Possible(w, ev) && HoldsUntil(w.key, c, until) && c in w.lockOf
    requires !Touches(w, ev, c) && !Expires(w, ev, c)
    ensures HoldsUntil(OutcomeOf(w, ev).state, c, until)
  {
    var k := KeyEventOf(w, ev);
    hide WellFormed, T.Valid, KeyStep, HoldsUntil;
    if k.Some? {
      KeyAdmits(w, ev);
      StaysHeld(w.key, k.value, w.st, c, until);
    }
  }

  // ---------- whole runs

  ghost predicate Run(w: World, es: seq<Event>)
    requires Valid(w)
    decreases |es|
  {
    es == [] || (Possible(w, es[0]) && Run(Next(w, es[0]), es[1..]))
  }

  ghost function After(w: World, es: seq<Event>): (r: World)
    requires Valid(w) && Run(w, es)
    ensures Valid(r)
    decreases |es|
  {
    if es == [] then w else After(Next(w, es[0]), es[1..])
  }

  /** Until its expiry the hold is neither renewed nor released. */
  ghost predicate LeftAlone(w: World, es: seq<Event>, c: nat)
    requires Valid(w) && Run(w, es)
    decreases |es|
  {
    es == [] || Expires(w, es[0], c)
    || (!Touches(w, es[0], c) && LeftAlone(Next(w, es[0]), es[1..], c))
  }

  /** The first time that a batch ends a hold of the record. */
  ghost function ExpiryOf(w: World, es: seq<Event>, c: nat): Option<R.Firing>
    requires Valid(w) && Run(w, es)
    decreases |es|
  {
    if es == [] then None
    else if Expires(w, es[0], c) then Some(R.Firing(w.holds.before, w.holds.now))
    else ExpiryOf(Next(w, es[0]), es[1..], c)
  }

  /** A batch that ends the hold has a clock at or after `until`, and the batch before it had one below `due`; and if
      none has ended it, it goes on, and no batch with a clock at or after `due` is over. */
  ghost predicate EndsInTime(w: World, es: seq<Event>, c: nat, until: int, due: int)
    requires Valid(w) && Run(w, es)
  {
    match ExpiryOf(w, es, c)
    case Some(f) => until <= f.now && f.before < due
    case None =>
      HoldsUntil(After(w, es).key, c, until) && (T.Idle(After(w, es).holds) ==> After(w, es).holds.now < due)
  }

  /** A hold that is left alone goes on until a batch ends it. The clock of that batch has reached its deadline, and
      that of the batch before had not reached the time by which its lock is due; and once a batch with a clock at or
      after that time is over, the hold is over. */
  lemma {:induction false} HoldExpires(w: World, es: seq<Event>, c: nat, until: int, d: int, x: int)
    requires Valid(w) && Run(w, es) && HoldsUntil(w.key, c, until) && c in w.lockOf
    requires R.Waits(w.holds, w.lockOf[c], d, x) && until <= x && LeftAlone(w, es, c)
    ensures EndsInTime(w, es, c, until, d)
    decreases |es|
  {
    hide WellFormed, T.Valid, Next, Possible, HoldsUntil, R.Waits, T.Idle, Touches;
    if es == [] {
      if T.Idle(w.holds) {
        R.LeftBehind(w.holds, w.lockOf[c], d, x);
      }
    } else if Expires(w, es[0], c) {
      ExpiresInTime(w, es[0], c, d, x);
    } else {
      HoldStays(w, es[0], c, until, d, x);
      HoldExpires(Next(w, es[0]), es[1..], c, until, d, x);
    }
  }

  lemma ExpiresInTime(w: World, ev: Event, c: nat, d: int, x: int)
    requires Valid(w) && Possible(w, ev) && c in w.lockOf && R.Waits(w.holds, w.lockOf[c], d, x) && Expires(w, ev, c)
    ensures w.holds.before < d && x <= w.holds.now
  {
    P.FireValid(w.holds);
  }

  // ---------- grants and renewals

  /** The later of a deadline and the next second that the timers check. */
  function NotBefore(until: int, next: int): int { if until < next then next else until }

  lemma Arrives(t: T.Timers, e: T.Id, deadline: int)
    requires T.Valid(t) && e !in t.due
    ensures var es := [R.Arrive(e, deadline, 1)];
            R.Run(t, es) && R.Waits(R.After(t, es), e, NotBefore(deadline, t.checkTime), deadline)
  {
    var es := [R.Arrive(e, deadline, 1)];
    P.AddValid(t, e, T.Entry(deadline, 1, false, false));
    One(t, es);
  }

  /** The hold that a request gets at once. */
  lemma GrantedNow(w: World, cmd: LockCommand, now: int, lock: T.Id)
    requires Valid(w) && Possible(w, Request(cmd, now, lock)) && InSeconds(cmd.expriedFlag)
    requires Grants(w.key, cmd, OutcomeOf(w, Request(cmd, now, lock)))
    ensures var w' := Next(w, Request(cmd, now, lock)); var c := cmd.commandId; var until := now + cmd.expried + 1;
            && Valid(w') && HoldsUntil(w'.key, c, until) && c in w'.lockOf && w'.lockOf[c] == lock
            && R.Waits(w'.holds, lock, NotBefore(until, w.holds.checkTime), until)
  {
    var ev := Request(cmd, now, lock);
    NextValid(w, ev);
    NewHold(w.key, cmd, now, w.st);
    var until := now + cmd.expried + 1;
    hide WellFormed, T.Valid, KeyStep, R.Waits, R.Run, R.After;
    var hs := OutcomeOf(w, ev).state.holders;
    assert HoldsUntil(OutcomeOf(w, ev).state, cmd.commandId, until) by {
      assert hs[|hs| - 1].request == cmd.commandId;
    }
    assert HoldEvents(w, ev) == [R.Arrive(lock, until, 1)];
    Arrives(w.holds, lock, until);
    HoldRecord(OutcomeOf(w, ev).state, cmd.commandId, until);
  }

  lemma NewHold(s: KeyState, cmd: LockCommand, now: int, st: Stats)
    requires InSeconds(cmd.expriedFlag) && Grants(s, cmd, KeyStep(s, LockRequest(cmd, now), st))
    ensures var hs := KeyStep(s, LockRequest(cmd, now), st).state.holders;
            hs != [] && hs[|hs| - 1].request == cmd.commandId && hs[|hs| - 1].expireTime == now + cmd.expried + 1
  {
    hide Find, MayGrant;
  }

  /** The lock of the record stays its own. */
  lemma KeepsLock(w: World, ev: Event, c: nat, until: int)
    requires Valid(w) && Possible(w, ev) && c in w.lockOf && HoldsUntil(OutcomeOf(w, ev).state, c, until)
    requires ev.Request? ==> ev.cmd.commandId != c
    ensures var w' := Next(w, ev); HoldsUntil(w'.key, c, until) && c in w'.lockOf && w'.lockOf[c] == w.lockOf[c]
  {
    LocksValid(w, ev);
    hide WellFormed, T.Valid, KeyStep, R.Run, R.After, HoldEvents, WaitEvents, Owned, LocksAfter;
    HoldRecord(OutcomeOf(w, ev).state, c, until);
  }

  lemma PlaysHolds(w: World, ev: Event)
    requires Valid(w) && Possible(w, ev)
    ensures T.Valid(w.holds) && R.Run(w.holds, HoldEvents(w, ev))
    ensures Next(w, ev).holds == R.After(w.holds, HoldEvents(w, ev))
  {
    EventsRun(w, ev);
    hide WellFormed, T.Valid, KeyStep, OutcomeOf, R.Run, R.After, HoldEvents, WaitEvents, LocksAfter, Possible;
  }

  lemma LetInKey(w: World, now: int)
    requires Valid(w) && OutcomeOf(w, WakeUp(now)).reply.Some? && w.key.waiters != []
    requires w.key.waiters[0].expried > 0 && InSeconds(w.key.waiters[0].expriedFlag)
    ensures var c, until := w.key.waiters[0].request, now + w.key.waiters[0].expried + 1;
            && HoldsUntil(OutcomeOf(w, WakeUp(now)).state, c, until)
            && c in w.lockOf && w.lockOf[c] !in w.holds.due && T.Valid(w.holds)
            && HoldEvents(w, WakeUp(now)) == [R.Arrive(w.lockOf[c], until, 1)] && Possible(w, WakeUp(now))
  {
    var c := w.key.waiters[0].request;
    WakeDeadline(w.key, now, w.st);
    A.OwnedOnce(w.key, c);
    WakeIsStep(w.key, now, w.st);
    hide WellFormed, T.Valid, KeyStep, WakeStep;
    var hs := OutcomeOf(w, WakeUp(now)).state.holders;
    assert hs[|hs| - 1].request == c && w.key.waiters[0].request == c;
  }

  /** The hold of a waiter that is let in. */
  lemma LetInNow(w: World, now: int)
    requires Valid(w) && OutcomeOf(w, WakeUp(now)).reply.Some? && w.key.waiters != []
    requires w.key.waiters[0].expried > 0 && InSeconds(w.key.waiters[0].expriedFlag)
    ensures var w' := Next(w, WakeUp(now)); var c := w.key.waiters[0].request;
            var until := now + w.key.waiters[0].expried + 1;
            && Valid(w') && HoldsUntil(w'.key, c, until) && c in w'.lockOf
            && R.Waits(w'.holds, w'.lockOf[c], NotBefore(until, w.holds.checkTime), until)
  {
    hide Valid, Possible, Next, KeyStep, WakeStep, HoldEvents, KeyEventOf, OutcomeOf, HoldsUntil, T.Valid, R.Waits,
         R.Run,
         R.After, R.Possible, R.Step, NotBefore, WellFormed, Owned, InSeconds;
    LetInKey(w, now);
    var c, until := w.key.waiters[0].request, now + w.key.waiters[0].expried + 1;
    KeepsLock(w, WakeUp(now), c, until);
    PlaysHolds(w, WakeUp(now));
    Arrives(w.holds, w.lockOf[c], until);
  }

  lemma WakeIsStep(s: KeyState, now: int, st: Stats)
    ensures KeyStep(s, Wake(now), st) == WakeStep(s, now, st)
  {
  }

  /** By when the lock of a hold is due that gets new terms, unless it is in a batch: at the deadline, or at the
      next look at it; for a lock that comes out of the queue of its old deadline, that is the next second that
      is checked. */
  function DueAfter(t: T.Timers, e: T.Id, until: int): int {
    match t.PlaceOf(e)
    case Visit(v) => NotBefore(until, v)
    case _ => NotBefore(until, t.checkTime)
  }

  predicate InBatch(t: T.Timers, e: T.Id) { t.PlaceOf(e).Batch? || t.PlaceOf(e).Doomed? }

  /** What the timers have after a renewal. */
  ghost predicate Retimed(t: T.Timers, t': T.Timers, e: T.Id, until: int) {
    if InBatch(t, e) then e in t'.due && t'.PlaceOf(e).Doomed? && !t'.Get(e).done && t'.now == t.now
    else exists x :: x >= until && R.Waits(t', e, DueAfter(t, e, until), x)
  }

  lemma RenewedTimer(t: T.Timers, e: T.Id, deadline: int, flag: bv16)
    requires T.Valid(t) && e in t.due && !t.Get(e).done && InSeconds(flag)
    ensures R.Run(t, Renewal(t, e, deadline, flag))
    ensures Retimed(t, R.After(t, Renewal(t, e, deadline, flag)), e, deadline)
  {
    RenewalRun(t, e, deadline, flag);
    assert T.Timely(t, e);
    var count := if flag & 0x2000 == 0 then 1 else t.Get(e).checkedCount;
    var t' := R.After(t, Renewal(t, e, deadline, flag));
    if t.Get(e).inLong {
      Two(t, e, deadline, count);
      assert Renewal(t, e, deadline, flag) == [R.Leave(e), R.Arrive(e, deadline, count)];
      var x := if count > T.MAX_WAIT then NotBefore(deadline, t.checkTime) else deadline;
      assert R.Waits(t', e, DueAfter(t, e, deadline), x);
    } else {
      P.RenewValid(t, e, deadline, count);
      P.ClockOf(t);
      One(t, Renewal(t, e, deadline, flag));
      hide T.Valid;
      if !InBatch(t, e) {
        assert R.Waits(t', e, DueAfter(t, e, deadline), deadline);
      }
    }
  }

  /** The request renews or re-enters the hold of record `c`, with a time in seconds. */
  predicate Renewing(s: KeyState, cmd: LockCommand, o: Outcome, c: nat) {
    && InSeconds(cmd.expriedFlag) && Renews(s, cmd, o) && s.holders[Find(s, cmd.lockId).value].request == c
  }

  lemma RenewedKey(s: KeyState, cmd: LockCommand, now: int, st: Stats, c: nat)
    requires Renewing(s, cmd, KeyStep(s, LockRequest(cmd, now), st), c)
    ensures HoldsUntil(KeyStep(s, LockRequest(cmd, now), st).state, c, now + cmd.expried + 1)
  {
    NewTerms(s, cmd, now, st);
    hide KeyStep, Find;
    assert KeyStep(s, LockRequest(cmd, now), st).state.holders[Find(s, cmd.lockId).value].request == c;
  }

  lemma RenewedEvents(w: World, cmd: LockCommand, now: int, lock: T.Id, c: nat)
    requires Renewing(w.key, cmd, KeyStep(w.key, LockRequest(cmd, now), w.st), c) && c in w.lockOf
    ensures HoldEvents(w, Request(cmd, now, lock))
            == Renewal(w.holds, w.lockOf[c], now + cmd.expried + 1, cmd.expriedFlag)
  {
    NewTerms(w.key, cmd, now, w.st);
    hide KeyStep, Find;
  }

  lemma RequestKey(w: World, cmd: LockCommand, now: int, lock: T.Id, c: nat)
    requires Valid(w) && Possible(w, Request(cmd, now, lock)) && c in w.lockOf
    ensures OutcomeOf(w, Request(cmd, now, lock)) == KeyStep(w.key, LockRequest(cmd, now), w.st)
    ensures cmd.commandId != c
  {
    hide KeyStep;
  }

  /** The hold that a request renews or re-enters. */
  lemma RenewedNow(w: World, cmd: LockCommand, now: int, lock: T.Id, c: nat)
    requires Valid(w) && Possible(w, Request(cmd, now, lock)) && c in w.lockOf
    requires Renewing(w.key, cmd, KeyStep(w.key, LockRequest(cmd, now), w.st), c)
    requires w.lockOf[c] in w.holds.due && !w.holds.Get(w.lockOf[c]).done
    ensures var w' := Next(w, Request(cmd, now, lock)); var until := now + cmd.expried + 1;
            && HoldsUntil(w'.key, c, until) && c in w'.lockOf && w'.lockOf[c] == w.lockOf[c]
            && Retimed(w.holds, w'.holds, w.lockOf[c], until)
  {
    hide Valid, Possible, Next, KeyStep, OutcomeOf, Renewing, Renewal, HoldEvents, HoldsUntil, T.Valid, R.Waits, R.Run,
         R.After;
    RenewedKey(w.key, cmd, now, w.st, c);
    RequestKey(w, cmd, now, lock, c);
    KeepsLock(w, Request(cmd, now, lock), c, now + cmd.expried + 1);
    RenewedEvents(w, cmd, now, lock, c);
    PlaysHolds(w, Request(cmd, now, lock));
    RenewingSeconds(w.key, cmd, KeyStep(w.key, LockRequest(cmd, now), w.st), c);
    RenewedTimer(w.holds, w.lockOf[c], now + cmd.expried + 1, cmd.expriedFlag);
  }

  lemma RenewingSeconds(s: KeyState, cmd: LockCommand, o: Outcome, c: nat)
    requires Renewing(s, cmd, o, c)
    ensures InSeconds(cmd.expriedFlag)
  {
  }

  lemma NewTerms(s: KeyState, cmd: LockCommand, now: int, st: Stats)
    requires InSeconds(cmd.expriedFlag) && Renews(s, cmd, KeyStep(s, LockRequest(cmd, now), st))
    ensures var hs, f := KeyStep(s, LockRequest(cmd, now), st).state.holders, Find(s, cmd.lockId).value;
            |hs| == |s.holders| && hs[f].request == s.holders[f].request && hs[f].expireTime == now + cmd.expried + 1
  {
    hide Find;
  }

  /** A hold granted at `now` for some seconds, and left alone since, is not ended by a batch whose clock is below `now`
      plus these seconds plus one, and is ended by the first batch at or after that time, or after the next second that
      the timers check when they get the lock. */
  lemma GrantedExpires(w: World, cmd: LockCommand, now: int, lock: T.Id, es: seq<Event>)
    requires Valid(w) && Possible(w, Request(cmd, now, lock)) && InSeconds(cmd.expriedFlag)
    requires Grants(w.key, cmd, OutcomeOf(w, Request(cmd, now, lock)))
    requires Run(Next(w, Request(cmd, now, lock)), es)
    requires LeftAlone(Next(w, Request(cmd, now, lock)), es, cmd.commandId)
    ensures var until := now + cmd.expried + 1;
            EndsInTime(Next(w, Request(cmd, now, lock)), es, cmd.commandId, until, NotBefore(until, w.holds.checkTime))
  {
    hide Valid, Next, Run, LeftAlone, Possible, Grants, HoldsUntil, R.Waits, EndsInTime;
    GrantedNow(w, cmd, now, lock);
    var until := now + cmd.expried + 1;
    HoldExpires(Next(w, Request(cmd, now, lock)), es, cmd.commandId, until, NotBefore(until, w.holds.checkTime), until);
  }

  /** The same for a waiter that is let in at `now`. */
  lemma LetInExpires(w: World, now: int, es: seq<Event>)
    requires Valid(w) && OutcomeOf(w, WakeUp(now)).reply.Some? && w.key.waiters != []
    requires w.key.waiters[0].expried > 0 && InSeconds(w.key.waiters[0].expriedFlag)
    requires Run(Next(w, WakeUp(now)), es)
    requires LeftAlone(Next(w, WakeUp(now)), es, w.key.waiters[0].request)
    ensures var until := now + w.key.waiters[0].expried + 1;
            EndsInTime(Next(w, WakeUp(now)), es, w.key.waiters[0].request, until,
                       NotBefore(until, w.holds.checkTime))
  {
    hide Valid, Next, Run, LeftAlone, HoldsUntil, R.Waits, EndsInTime, OutcomeOf;
    LetInNow(w, now);
    var until := now + w.key.waiters[0].expried + 1;
    HoldExpires(Next(w, WakeUp(now)), es, w.key.waiters[0].request, until, NotBefore(until, w.holds.checkTime), until);
  }

  /** The same for a hold renewed or re-entered at `now`, unless its lock is in a batch; but a lock in a slot is
      looked at no earlier than it would have been: a hold whose time is cut may go on until then. */
  lemma RenewedExpires(w: World, cmd: LockCommand, now: int, lock: T.Id, c: nat, es: seq<Event>)
    requires Valid(w) && Possible(w, Request(cmd, now, lock)) && c in w.lockOf
    requires Renewing(w.key, cmd, KeyStep(w.key, LockRequest(cmd, now), w.st), c)
    requires w.lockOf[c] in w.holds.due && !w.holds.Get(w.lockOf[c]).done && !InBatch(w.holds, w.lockOf[c])
    requires Run(Next(w, Request(cmd, now, lock)), es) && LeftAlone(Next(w, Request(cmd, now, lock)), es, c)
    ensures var until := now + cmd.expried + 1;
            EndsInTime(Next(w, Request(cmd, now, lock)), es, c, until, DueAfter(w.holds, w.lockOf[c], until))
  {
    hide Renewing, KeyStep, Possible, Valid, Next, Run, LeftAlone, HoldsUntil, R.Waits, EndsInTime, DueAfter, InBatch;
    RenewedNow(w, cmd, now, lock, c);
    var w1, until := Next(w, Request(cmd, now, lock)), now + cmd.expried + 1;
    var x :| x >= until && R.Waits(w1.holds, w.lockOf[c], DueAfter(w.holds, w.lockOf[c], until), x);
    HoldExpires(w1, es, c, until, DueAfter(w.holds, w.lockOf[c], until), x);
  }

  lemma DoomedStays(w: World, ev: Event, c: nat, until: int)
    requires Valid(w) && Possible(w, ev) && HoldsUntil(w.key, c, until) && c in w.lockOf
    requires w.lockOf[c] in w.holds.due && w.holds.PlaceOf(w.lockOf[c]).Doomed? && !w.holds.Get(w.lockOf[c]).done
    requires !Touches(w, ev, c) && !Expires(w, ev, c)
    ensures var w' := Next(w, ev); var e := w.lockOf[c];
            && Valid(w') && HoldsUntil(w'.key, c, until) && c in w'.lockOf && w'.lockOf[c] == e
            && e in w'.holds.due && w'.holds.PlaceOf(e).Doomed? && !w'.holds.Get(e).done && w'.holds.now == w.holds.now
  {
    EventsRun(w, ev);
    LocksValid(w, ev);
    Elsewhere(w, ev, c, until);
    NotFired(w, ev, c);
    R.DoomedComesUp(w.holds, HoldEvents(w, ev), w.lockOf[c]);
    KeptHold(w, ev, c, until);
    hide WellFormed, T.Valid, KeyStep, HoldEvents, WaitEvents, R.Run, R.After, R.Firings;
    HoldRecord(Next(w, ev).key, c, until);
    HoldRecord(w.key, c, until);
  }

  /** A hold that gets new terms while its lock is in a batch is ended by that very batch, whatever the terms. */
  lemma {:induction false} RenewedTooLate(w: World, es: seq<Event>, c: nat, until: int)
    requires Valid(w) && Run(w, es) && HoldsUntil(w.key, c, until) && c in w.lockOf && LeftAlone(w, es, c)
    requires w.lockOf[c] in w.holds.due && w.holds.PlaceOf(w.lockOf[c]).Doomed? && !w.holds.Get(w.lockOf[c]).done
    ensures match ExpiryOf(w, es, c)
            case Some(f) => f.now == w.holds.now
            case None => !T.Idle(After(w, es).holds) && After(w, es).holds.now == w.holds.now
    decreases |es|
  {
    hide WellFormed, T.Valid, Next, Possible, HoldsUntil, T.Idle, Touches;
    if es == [] {
      R.DoomedInBatch(w.holds, w.lockOf[c]);
    } else if !Expires(w, es[0], c) {
      DoomedStays(w, es[0], c, until);
      RenewedTooLate(Next(w, es[0]), es[1..], c, until);
    }
  }

  // ---------- waiters

  ghost predicate WaitsUntil(s: KeyState, c: nat, until: int) {
    exists i :: 0 <= i < |s.waiters| && s.waiters[i].request == c && s.waiters[i].timeoutTime == until
  }

  predicate LetsIn(w: World, ev: Event, c: nat) {
    ev.WakeUp? && OutcomeOf(w, ev).reply.Some? && OutcomeOf(w, ev).reply.value.commandId == c
  }

  /** The batch ends the wait. */
  predicate GivesUp(w: World, ev: Event, c: nat) {
    ev == WaitDue(Some(c)) && w.waits.batch != [] && !w.waits.Get(w.waits.batch[0]).done
  }

  lemma WaitRecord(s: KeyState, c: nat, until: int)
    requires WellFormed(s) && WaitsUntil(s, c, until)
    ensures HoldTally(s.holders, c) == 0 && WaitTally(s.waiters, c) == 1
  {
    A.OwnedOnce(s, c);
  }

  /** The key keeps the waiter and its deadline. */
  lemma StaysWaiting(s: KeyState, k: KeyEvent, st: Stats, c: nat, until: int)
    requires WellFormed(s) && Admissible(s, k) && WaitsUntil(s, c, until) && k != TimeOut(c)
    requires k.Wake? ==> var o := KeyStep(s, k, st); !(o.reply.Some? && o.reply.value.commandId == c)
    ensures WaitsUntil(KeyStep(s, k, st).state, c, until)
  {
    var i :| 0 <= i < |s.waiters| && s.waiters[i].request == c && s.waiters[i].timeoutTime == until;
    var o := KeyStep(s, k, st);
    match k {
      case LockRequest(cmd, now) => LockKeepsWaiter(s, cmd, now, st, i);
      case UnlockRequest(cmd) => UnlockTakes(s, cmd, st); assert o.state.waiters[i] == s.waiters[i];
      case TimeOut(request) =>
        var r := WaitPosition(s.waiters, request);
        assert o.state.waiters[if r.Some? && r.value < i then i - 1 else i] == s.waiters[i];
      case Expire(request) => assert o.state.waiters[i] == s.waiters[i];
      case Wake(now) => assert o.state.waiters[if o.reply.Some? then i - 1 else i] == s.waiters[i];
    }
  }

  lemma LockKeepsWaiter(s: KeyState, cmd: LockCommand, now: int, st: Stats, i: nat)
    requires i < |s.waiters|
    ensures var ws := LockStep(s, cmd, now, st).state.waiters; i < |ws| && ws[i] == s.waiters[i]
  {
  }

  lemma WaitElsewhere(w: World, ev: Event, c: nat)
    requires Valid(w) && Possible(w, ev) && c in w.lockOf && !LetsIn(w, ev, c)
    ensures R.Untouched(WaitEvents(w, ev), w.lockOf[c])
  {
    if ev.WakeUp? {
      WakeLets(w.key, ev.now, w.st);
    }
    hide WellFormed, KeyStep, T.Valid, Owned;
  }

  lemma WaitHandOver(w: World, ev: Event, i: nat)
    requires Possible(w, ev) && i < |WaitEvents(w, ev)| && WaitEvents(w, ev)[i].HandOver?
    ensures ev.WaitDue? && WaitEvents(w, ev) == [R.HandOver]
  {
    hide KeyStep;
  }

  lemma WaitNotFired(w: World, ev: Event, c: nat)
    requires Valid(w) && Possible(w, ev) && c in w.lockOf && R.Run(w.waits, WaitEvents(w, ev))
    requires !GivesUp(w, ev, c)
    ensures R.Firings(w.waits, WaitEvents(w, ev), w.lockOf[c]) == []
  {
    var es, e := WaitEvents(w, ev), w.lockOf[c];
    if i :| 0 <= i < |es| && es[i].HandOver? {
      WaitHandOver(w, ev, i);
      assert es[1..] == [];
      R.StepValid(w.waits, es[0]);
      hide T.Valid, WellFormed, R.Step;
      assert R.Firings(R.Step(w.waits, es[0]), [], e) == [];
    } else {
      NoFirings(w.waits, es, e);
    }
  }

  lemma KeptWaiter(w: World, ev: Event, c: nat, until: int)
    requires Valid(w) && Possible(w, ev) && WaitsUntil(w.key, c, until) && c in w.lockOf
    requires !LetsIn(w, ev, c) && !GivesUp(w, ev, c)
    ensures WaitsUntil(OutcomeOf(w, ev).state, c, until)
  {
    var k := KeyEventOf(w, ev);
    hide WellFormed, T.Valid, KeyStep, WaitsUntil;
    if k.Some? {
      KeyAdmits(w, ev);
      StaysWaiting(w.key, k.value, w.st, c, until);
    }
  }

  lemma WaiterStays(w: World, ev: Event, c: nat, until: int, d: int, x: int)
    requires Valid(w) && Possible(w, ev) && WaitsUntil(w.key, c, until) && c in w.lockOf
    requires R.Waits(w.waits, w.lockOf[c], d, x) && !LetsIn(w, ev, c) && !GivesUp(w, ev, c)
    ensures var w' := Next(w, ev);
            && WaitsUntil(w'.key, c, until) && c in w'.lockOf && w'.lockOf[c] == w.lockOf[c]
            && R.Waits(w'.waits, w'.lockOf[c], d, x)
  {
    EventsRun(w, ev);
    LocksValid(w, ev);
    WaitElsewhere(w, ev, c);
    WaitNotFired(w, ev, c);
    R.TimerExactness(w.waits, WaitEvents(w, ev), w.lockOf[c], d, x);
    KeptWaiter(w, ev, c, until);
    hide WellFormed, T.Valid, KeyStep, HoldEvents, WaitEvents, R.Run, R.After, R.Waits, R.Firings;
    WaitRecord(Next(w, ev).key, c, until);
    WaitRecord(w.key, c, until);
  }

  /** Until it is given up the waiter is not let in. */
  ghost predicate NotLetIn(w: World, es: seq<Event>, c: nat)
    requires Valid(w) && Run(w, es)
    decreases |es|
  {
    es == [] || GivesUp(w, es[0], c) || (!LetsIn(w, es[0], c) && NotLetIn(Next(w, es[0]), es[1..], c))
  }

  /** The first time that a batch ends a wait of the record. */
  ghost function TimeoutOf(w: World, es: seq<Event>, c: nat): Option<R.Firing>
    requires Valid(w) && Run(w, es)
    decreases |es|
  {
    if es == [] then None
    else if GivesUp(w, es[0], c) then Some(R.Firing(w.waits.before, w.waits.now))
    else TimeoutOf(Next(w, es[0]), es[1..], c)
  }

  lemma GivenUpInTime(w: World, ev: Event, c: nat, d: int, x: int)
    requires Valid(w) && Possible(w, ev) && c in w.lockOf && R.Waits(w.waits, w.lockOf[c], d, x) && GivesUp(w, ev, c)
    ensures w.waits.before < d && x <= w.waits.now
  {
    P.FireValid(w.waits);
  }

  /** A waiter that is not let in waits until a batch gives it up, in time. */
  lemma {:induction false} WaiterTimesOut(w: World, es: seq<Event>, c: nat, until: int, d: int)
    requires Valid(w) && Run(w, es) && WaitsUntil(w.key, c, until) && c in w.lockOf
    requires R.Waits(w.waits, w.lockOf[c], d, until) && NotLetIn(w, es, c)
    ensures match TimeoutOf(w, es, c)
            case Some(f) => until <= f.now && f.before < d
            case None =>
              WaitsUntil(After(w, es).key, c, until) && (T.Idle(After(w, es).waits) ==> After(w, es).waits.now < d)
    decreases |es|
  {
    hide WellFormed, T.Valid, Next, Possible, WaitsUntil, R.Waits, T.Idle, LetsIn;
    if es == [] {
      if T.Idle(w.waits) {
        R.LeftBehind(w.waits, w.lockOf[c], d, until);
      }
    } else if GivesUp(w, es[0], c) {
      GivenUpInTime(w, es[0], c, d, until);
    } else {
      WaiterStays(w, es[0], c, until, d, until);
      WaiterTimesOut(Next(w, es[0]), es[1..], c, until, d);
    }
  }

  /** A request that is queued at `now` with a timeout in seconds. */
  lemma QueuedNow(w: World, cmd: LockCommand, now: int, lock: T.Id)
    requires Valid(w) && Possible(w, Request(cmd, now, lock)) && InSeconds(cmd.timeoutFlag)
    requires OutcomeOf(w, Request(cmd, now, lock)).reply.None?
    ensures var w' := Next(w, Request(cmd, now, lock)); var c := cmd.commandId; var until := now + cmd.timeout + 1;
            && WaitsUntil(w'.key, c, until) && c in w'.lockOf && w'.lockOf[c] == lock
            && R.Waits(w'.waits, lock, NotBefore(until, w.waits.checkTime), until)
  {
    var ev, until := Request(cmd, now, lock), now + cmd.timeout + 1;
    EventsRun(w, ev);
    LocksValid(w, ev);
    NewWaiter(w.key, cmd, now, w.st);
    hide WellFormed, T.Valid, KeyStep, R.Waits, R.Run, R.After;
    var ws := OutcomeOf(w, ev).state.waiters;
    assert WaitsUntil(OutcomeOf(w, ev).state, cmd.commandId, until) by {
      assert ws[|ws| - 1].request == cmd.commandId;
    }
    assert WaitEvents(w, ev) == [R.Arrive(lock, until, 1)];
    Arrives(w.waits, lock, until);
    WaitRecord(OutcomeOf(w, ev).state, cmd.commandId, until);
  }

  lemma NewWaiter(s: KeyState, cmd: LockCommand, now: int, st: Stats)
    requires InSeconds(cmd.timeoutFlag) && KeyStep(s, LockRequest(cmd, now), st).reply.None?
    ensures var ws := KeyStep(s, LockRequest(cmd, now), st).state.waiters;
            ws != [] && ws[|ws| - 1].request == cmd.commandId && ws[|ws| - 1].timeoutTime == now + cmd.timeout + 1
  {
    hide Find, MayGrant;
  }

  /** A request queued at `now` for some seconds, and not let in since, is not given up by a batch whose clock is below
      `now` plus these seconds plus one, and is given up by the first batch at or after that time, or after the next
      second that the timers check when they get the lock. */
  lemma QueuedTimesOut(w: World, cmd: LockCommand, now: int, lock: T.Id, es: seq<Event>)
    requires Valid(w) && Possible(w, Request(cmd, now, lock)) && InSeconds(cmd.timeoutFlag)
    requires OutcomeOf(w, Request(cmd, now, lock)).reply.None?
    requires Run(Next(w, Request(cmd, now, lock)), es)
    requires NotLetIn(Next(w, Request(cmd, now, lock)), es, cmd.commandId)
    ensures var w1 := Next(w, Request(cmd, now, lock)); var w' := After(w1, es);
            var until := now + cmd.timeout + 1; var due := NotBefore(until, w.waits.checkTime);
            match TimeoutOf(w1, es, cmd.commandId)
            case Some(f) => until <= f.now && f.before < due
            case None => WaitsUntil(w'.key, cmd.commandId, until) && (T.Idle(w'.waits) ==> w'.waits.now < due)
  {
    hide Valid, Next, Run, After, NotLetIn, Possible, OutcomeOf, WaitsUntil, R.Waits, T.Idle, TimeoutOf;
    QueuedNow(w, cmd, now, lock);
    var until := now + cmd.timeout + 1;
    WaiterTimesOut(Next(w, Request(cmd, now, lock)), es, cmd.commandId, until, NotBefore(until, w.waits.checkTime));
  }
}
