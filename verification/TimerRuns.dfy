/** Whole runs of the timers: batches for any non-decreasing clock, with arrivals, grants and removals in between and in
    the middle of a batch. */
module TimerRuns {
  import opened TimerModel
  import opened TimerProofs

  datatype Event =
    | Arrive(e: Id, deadline: int, checkedCount: nat)
    | Settled(e: Id)
    | Renewed(e: Id, deadline: int, checkedCount: nat)
    | Leave(e: Id)
    | Tick(n: int)
    | EmptySlot
    | EmptyQueue
    | HandOver

  ghost predicate Possible(t: Timers, ev: Event) {
    match ev
    case Arrive(e, deadline, count) => e !in t.due && count >= 1
    case Settled(e) => true
    case Renewed(e, deadline, count) =>
      e in t.due && !t.Get(e).inLong && (t.PlaceOf(e).Visit? ==> 1 <= count <= MAX_WAIT)
    case Leave(e) => e in t.due && t.Get(e).inLong
    case Tick(n) => Idle(t) && t.now <= n
    case EmptySlot => t.scan <= t.now && !t.slotDone
    case EmptyQueue => t.scan <= t.now && t.slotDone
    case HandOver => t.batch != []
  }

  ghost function Step(t: Timers, ev: Event): Timers
    requires Valid(t) && Possible(t, ev)
  {
    match ev
    case Arrive(e, deadline, count) => Add(t, e, Entry(deadline, count, false, false))
    case Settled(e) => Settle(t, e)
    case Renewed(e, deadline, count) => Renew(t, e, deadline, count)
    case Leave(e) => RemoveLong(t, e)
    case Tick(n) => Begin(t, n)
    case EmptySlot => DrainSlot(t)
    case EmptyQueue => DrainLong(t)
    case HandOver => Fire(t)
  }

  /** Every critical section keeps the invariant. */
  lemma StepValid(t: Timers, ev: Event)
    requires Valid(t) && Possible(t, ev)
    ensures Valid(Step(t, ev))
  {
    ClockOf(t);
    hide Valid, Add, Settle, Renew, RemoveLong, Begin, DrainSlot, DrainLong, Fire;
    match ev {
      case Arrive(e, deadline, count) => AddValid(t, e, Entry(deadline, count, false, false));
      case Settled(e) => SettleValid(t, e);
      case Renewed(e, deadline, count) => RenewValid(t, e, deadline, count);
      case Leave(e) => RemoveLongValid(t, e);
      case Tick(n) => BeginValid(t, n);
      case EmptySlot => DrainSlotValid(t);
      case EmptyQueue => DrainLongValid(t);
      case HandOver => FireValid(t);
    }
  }

  ghost predicate Run(t: Timers, es: seq<Event>)
    requires Valid(t)
    decreases |es|
  {
    es == [] || (Possible(t, es[0]) && (StepValid(t, es[0]); Run(Step(t, es[0]), es[1..])))
  }

  ghost function After(t: Timers, es: seq<Event>): (r: Timers)
    requires Valid(t) && Run(t, es)
    ensures Valid(r)
    decreases |es|
  {
    if es == [] then t else StepValid(t, es[0]); After(Step(t, es[0]), es[1..])
  }

  /** A lock that comes up: the clock of the batch in which it does, and that of the batch before. */
  datatype Firing = Firing(before: int, now: int)

  ghost predicate Fires(t: Timers, ev: Event, e: Id) {
    ev.HandOver? && t.batch != [] && t.batch[0] == e && !t.Get(e).done
  }

  ghost function Firings(t: Timers, es: seq<Event>, e: Id): seq<Firing>
    requires Valid(t) && Run(t, es)
    decreases |es|
  {
    if es == [] then []
    else
      StepValid(t, es[0]);
      (if Fires(t, es[0], e) then [Firing(t.before, t.now)] else []) + Firings(Step(t, es[0]), es[1..], e)
  }

  /** The lock is neither granted, removed, renewed nor added again. */
  ghost predicate Untouched(es: seq<Event>, e: Id) {
    forall i :: 0 <= i < |es| && (es[i].Arrive? || es[i].Settled? || es[i].Renewed? || es[i].Leave?) ==> es[i].e != e
  }

  /** The lock has this deadline, has to come up by `d`, and is not doomed. */
  ghost predicate Waits(t: Timers, e: Id, d: int, deadline: int) {
    e in t.due && t.due[e] <= d && t.Get(e).deadline == deadline && !t.Get(e).done && !t.PlaceOf(e).Doomed?
  }

  lemma ScanWaits(t: Timers, t': Timers, e: Id, d: int, deadline: int)
    requires Keeps(t, t') && Waits(t, e, d, deadline)
    ensures Waits(t', e, d, deadline)
  {
  }

  lemma AddWaits(t: Timers, x: Id, r: Entry, e: Id, d: int, deadline: int)
    requires |t.slots| == LENGTH && Waits(t, e, d, deadline) && x != e
    ensures Waits(Add(t, x, r), e, d, deadline)
  {
  }

  /** A lock goes on waiting in every step but the one in which it comes up. */
  lemma StepWaits(t: Timers, ev: Event, e: Id, d: int, deadline: int)
    requires Valid(t) && Possible(t, ev) && Waits(t, e, d, deadline) && Untouched([ev], e)
    ensures if Fires(t, ev, e) then e !in Step(t, ev).due && t.before < d && deadline <= t.now
            else Waits(Step(t, ev), e, d, deadline)
  {
    ClockOf(t);
    assert Valid(t);
    hide Valid, Add, DrainSlot, DrainLong;
    match ev {
      case Arrive(x, at, count) =>
        assert [ev][0].e != e;
        AddWaits(t, x, Entry(at, count, false, false), e, d, deadline);
      case Settled(x) => assert [ev][0].e != e;
      case Renewed(x, at, count) =>
        assert [ev][0].e != e;
        RenewValid(t, x, at, count);
      case Leave(x) => assert [ev][0].e != e;
      case Tick(n) =>
      case EmptySlot =>
        DrainSlotValid(t);
        ScanWaits(t, DrainSlot(t), e, d, deadline);
      case EmptyQueue =>
        DrainLongValid(t);
        ScanWaits(t, DrainLong(t), e, d, deadline);
      case HandOver => FireValid(t);
    }
  }

  /** No batch ends with a lock left behind that was due in it. */
  lemma NoneLeftBehind(t: Timers, e: Id)
    requires Valid(t) && Idle(t) && e in t.due
    ensures t.now < t.due[e]
  {
    assert Timely(t, e) && Located(t, e);
  }

  lemma {:induction false} GoneStaysGone(t: Timers, es: seq<Event>, e: Id)
    requires Valid(t) && Run(t, es) && e !in t.due && Untouched(es, e)
    ensures Firings(t, es, e) == [] && e !in After(t, es).due
    decreases |es|
  {
    if es != [] {
      StepGone(t, es[0], e);
      StepValid(t, es[0]);
      GoneStaysGone(Step(t, es[0]), es[1..], e);
    }
  }

  lemma StepGone(t: Timers, ev: Event, e: Id)
    requires Valid(t) && Possible(t, ev) && e !in t.due && (ev.Arrive? ==> ev.e != e)
    ensures !Fires(t, ev, e) && e !in Step(t, ev).due
  {
    ClockOf(t);
    hide Valid, DrainSlot, DrainLong;
    match ev {
      case Arrive(x, at, count) => AddValid(t, x, Entry(at, count, false, false));
      case Settled(x) =>
      case Renewed(x, at, count) => RenewValid(t, x, at, count);
      case Leave(x) =>
      case Tick(n) =>
      case EmptySlot => DrainSlotValid(t);
      case EmptyQueue => DrainLongValid(t);
      case HandOver => FireValid(t);
    }
  }

  /** Timer exactness. Whatever the clock jumps, whatever else arrives, is granted or removed, and however often the
      lock is moved between slots and to the queue of its deadline: a waiting lock comes up at most once, in a batch
      whose clock has reached its deadline while that of the batch before had not reached the time by which it is due;
      and once a batch with a clock at or after that time is over, it has come up. (That is the deadline, unless the
      deadline had passed already when the lock was added, or was moved to before the next look at the lock.) */
  lemma {:induction false} TimerExactness(t: Timers, es: seq<Event>, e: Id, d: int, deadline: int)
    requires Valid(t) && Run(t, es) && Waits(t, e, d, deadline) && Untouched(es, e)
    ensures var fs := Firings(t, es, e); var t' := After(t, es);
            && Valid(t')
            && (if fs == [] then Waits(t', e, d, deadline)
                else |fs| == 1 && fs[0].before < d && deadline <= fs[0].now && e !in t'.due)
            && (Idle(t') && d <= t'.now ==> |fs| == 1)
    decreases |es|
  {
    hide Valid, Waits, Step, Possible;
    if es == [] {
      if Idle(t) {
        LeftBehind(t, e, d, deadline);
      }
    } else {
      var ev := es[0];
      assert Untouched([ev], e) && Untouched(es[1..], e);
      StepValid(t, ev);
      StepWaits(t, ev, e, d, deadline);
      if Fires(t, ev, e) {
        GoneStaysGone(Step(t, ev), es[1..], e);
      } else {
        TimerExactness(Step(t, ev), es[1..], e, d, deadline);
      }
    }
  }

  lemma LeftBehind(t: Timers, e: Id, d: int, deadline: int)
    requires Valid(t) && Waits(t, e, d, deadline) && Idle(t)
    ensures t.now < d
  {
    NoneLeftBehind(t, e);
  }

  // ---------- deadlines that change

  /** A lock that gets a new deadline while it is in the batch comes up in this very batch, however late its new
      deadline is. */
  lemma {:induction false} DoomedComesUp(t: Timers, es: seq<Event>, e: Id)
    requires Valid(t) && Run(t, es) && Untouched(es, e)
    requires e in t.due && t.PlaceOf(e).Doomed? && !t.Get(e).done
    ensures var fs := Firings(t, es, e); var t' := After(t, es);
            && (fs == [] ==>
                  e in t'.due && t'.PlaceOf(e).Doomed? && !t'.Get(e).done && t'.now == t.now && !Idle(t'))
            && (fs != [] ==> |fs| == 1 && fs[0].now == t.now && e !in t'.due)
    decreases |es|
  {
    hide Valid, Step, Possible, Idle;
    DoomedInBatch(t, e);
    if es != [] {
      assert Untouched([es[0]], e) && Untouched(es[1..], e);
      StepValid(t, es[0]);
      StepDoomed(t, es[0], e);
      if Fires(t, es[0], e) {
        GoneStaysGone(Step(t, es[0]), es[1..], e);
      } else {
        DoomedComesUp(Step(t, es[0]), es[1..], e);
      }
    }
  }

  lemma DoomedInBatch(t: Timers, e: Id)
    requires Valid(t) && t.PlaceOf(e).Doomed?
    ensures !Idle(t)
  {
    assert Located(t, e);
  }

  lemma StepDoomed(t: Timers, ev: Event, e: Id)
    requires Valid(t) && Possible(t, ev) && Untouched([ev], e)
    requires e in t.due && t.PlaceOf(e).Doomed? && !t.Get(e).done
    ensures var t' := Step(t, ev);
            if Fires(t, ev, e) then e !in t'.due
            else e in t'.due && t'.PlaceOf(e).Doomed? && !t'.Get(e).done && t'.now == t.now
  {
    ClockOf(t);
    DoomedInBatch(t, e);
    assert [ev][0] == ev;
    hide Valid, DrainSlot, DrainLong;
    match ev {
      case Arrive(x, at, count) =>
      case Settled(x) =>
      case Renewed(x, at, count) =>
      case Leave(x) =>
      case Tick(n) =>
      case EmptySlot => DrainSlotValid(t);
      case EmptyQueue => DrainLongValid(t);
      case HandOver => FireValid(t);
    }
  }
}
