/** Two runs in which a hold with a new deadline does not end at that deadline. */
module TimerLimits {
  import opened Protocol
  import opened TimerModel
  import opened TimerProofs
  import opened TimerRuns

  const EMPTY_SLOTS: seq<seq<Id>> := [[], [], [], [], [], [], [], [], [], [], [], [], [], [], [], []]

  /** Timers at clock `n`, with one lock in a slot. */
  function With(n: int, scan: int, slots: seq<seq<Id>>, batch: seq<Id>, e: Id, r: Entry, d: int, p: Place): Timers {
    Timers(map[e := r], slots, map[], n + 1, 0, n, scan, false, batch, map[e := d], map[e := p])
  }

  /** Nothing but one lock, which will be looked at in second `v`. */
  function Quiet(n: int, scan: int, v: int, e: Id, r: Entry, d: int): Timers {
    With(n, scan, EMPTY_SLOTS[v % 16 := [e]], [], e, r, d, Visit(v))
  }

  ghost predicate Fits(n: int, scan: int, v: int, r: Entry, d: int) {
    && 0 < scan <= n + 1 && n >= 0 && scan <= v <= d && 1 <= r.checkedCount <= 8 && !r.inLong && !r.done
    && (r.deadline == d || (r.deadline < d == v))
  }

  lemma QuietValid(n: int, scan: int, v: int, e: Id, r: Entry, d: int)
    requires Fits(n, scan, v, r, d)
    ensures Valid(Quiet(n, scan, v, e, r, d))
  {
    var t := Quiet(n, scan, v, e, r, d);
    assert [e][1..] == [];
    forall x ensures Located(t, x) {
      assert forall i :: 0 <= i < 16 ==> t.Slot(i) == if i == v % 16 then [e] else [];
      assert forall k: int :: t.Queue(k) == [];
    }
  }

  /** A second in which there is nothing to do. */
  lemma QuietSecond(n: int, scan: int, v: int, e: Id, r: Entry, d: int)
    requires Fits(n, scan, v, r, d) && scan <= n && scan < v < scan + 16
    ensures var t := Quiet(n, scan, v, e, r, d); var es := [EmptySlot, EmptyQueue];
            && Valid(t) && Run(t, es) && After(t, es) == Quiet(n, scan + 1, v, e, r, d) && Firings(t, es, e) == []
            && Untouched(es, e)
  {
    var t := Quiet(n, scan, v, e, r, d);
    QuietValid(n, scan, v, e, r, d);
    assert t.slots[scan % 16] == [];
    var t1 := t.(slotDone := true);
    assert DrainSlot(t) == t1;
    StepValid(t, EmptySlot);
    assert Step(t, EmptySlot) == t1;
    hide DrainSlot, Valid;
    StepValid(t1, EmptyQueue);
    assert t1.Queue(scan) == [] && t1.long - {scan} == map[];
    assert Step(t1, EmptyQueue) == Quiet(n, scan + 1, v, e, r, d);
    var es := [EmptySlot, EmptyQueue];
    assert es[1..] == [EmptyQueue] && [EmptyQueue][1..] == [];
  }

  /** A whole batch in which the lock is not looked at. */
  lemma {:induction false} QuietBatch(n: int, scan: int, v: int, e: Id, r: Entry, d: int) returns (es: seq<Event>)
    requires Fits(n, scan, v, r, d) && n < v < scan + 16
    ensures var t := Quiet(n, scan, v, e, r, d);
            && Valid(t) && Run(t, es) && After(t, es) == Quiet(n, n + 1, v, e, r, d) && Firings(t, es, e) == []
            && Untouched(es, e)
    decreases n + 1 - scan
  {
    hide Quiet, Valid, Step, Possible;
    QuietValid(n, scan, v, e, r, d);
    if scan == n + 1 {
      es := [];
    } else {
      QuietSecond(n, scan, v, e, r, d);
      var rest := QuietBatch(n, scan + 1, v, e, r, d);
      RunPlus(Quiet(n, scan, v, e, r, d), [EmptySlot, EmptyQueue], rest, e);
      es := [EmptySlot, EmptyQueue] + rest;
    }
  }

  lemma {:induction false} RunPlus(t: Timers, a: seq<Event>, b: seq<Event>, e: Id)
    requires Valid(t) && Run(t, a) && Run(After(t, a), b)
    ensures Run(t, a + b) && After(t, a + b) == After(After(t, a), b)
    ensures Firings(t, a + b, e) == Firings(t, a, e) + Firings(After(t, a), b, e)
    decreases |a|
  {
    hide Valid, Step, Possible, Fires;
    if a == [] {
      assert a + b == b;
    } else {
      assert (a + b)[0] == a[0] && (a + b)[1..] == a[1..] + b;
      StepValid(t, a[0]);
      RunPlus(Step(t, a[0]), a[1..], b, e);
    }
  }

  lemma RunNext(t: Timers, ev: Event, rest: seq<Event>, e: Id)
    requires Valid(t) && Possible(t, ev) && !Fires(t, ev, e) && Valid(Step(t, ev)) && Run(Step(t, ev), rest)
    ensures var es := [ev] + rest;
            Run(t, es) && After(t, es) == After(Step(t, ev), rest) && Firings(t, es, e) == Firings(Step(t, ev), rest, e)
  {
    hide Valid, Step, Possible, Fires;
    var es := [ev] + rest;
    assert es[0] == ev && es[1..] == rest;
    assert [] + Firings(Step(t, ev), rest, e) == Firings(Step(t, ev), rest, e);
  }

  // ---------- a deadline that is cut

  const FAR := Entry(100, 5, false, false)
  const CUT := Entry(3, 1, false, false)

  lemma CutSteps()
    ensures var t := Quiet(0, 1, 6, 7, FAR, 100); var t1, t2 := Quiet(0, 1, 6, 7, CUT, 6), Quiet(4, 1, 6, 7, CUT, 6);
            && Valid(t) && Possible(t, Renewed(7, 3, 1)) && Step(t, Renewed(7, 3, 1)) == t1
            && Valid(t1) && Possible(t1, Tick(4)) && Step(t1, Tick(4)) == t2
  {
    QuietValid(0, 1, 6, 7, FAR, 100);
    QuietValid(0, 1, 6, 7, CUT, 6);
    hide Valid;
  }

  lemma QuietEnd()
    ensures var t := Quiet(4, 5, 6, 7, CUT, 6); Idle(t) && t.now == 4 && t.Get(7) == CUT
  {
  }

  /** A lock that will be looked at in second 6 gets the deadline 3, and is not looked at earlier: a whole batch with
      clock 4 is over, and the lock waits on. */
  lemma CutTooLate() returns (es: seq<Event>)
    ensures var t := Quiet(0, 1, 6, 7, FAR, 100);
            && Valid(t) && es != [] && es[0] == Renewed(7, 3, 1) && Untouched(es[1..], 7) && Run(t, es)
            && Firings(t, es, 7) == []
            && var t' := After(t, es); Idle(t') && t'.now == 4 && t'.Get(7).deadline == 3 && !t'.Get(7).done
  {
    CutSteps();
    hide Quiet, Valid, Step, Possible, Idle, Run, After, Firings;
    var rest := QuietBatch(4, 1, 6, 7, CUT, 6);
    RunNext(Quiet(0, 1, 6, 7, CUT, 6), Tick(4), rest, 7);
    RunNext(Quiet(0, 1, 6, 7, FAR, 100), Renewed(7, 3, 1), [Tick(4)] + rest, 7);
    QuietEnd();
    es := [Renewed(7, 3, 1)] + ([Tick(4)] + rest);
    assert es[1..] == [Tick(4)] + rest;
  }

  // ---------- a deadline that comes too late

  const DUE := Entry(1, 1, false, false)
  const LONGER := Entry(50, 1, false, false)

  function Collected(r: Entry, p: Place): Timers {
    With(1, 1, EMPTY_SLOTS, [7], 7, r, 1, p).(slotDone := true)
  }

  lemma CollectStep()
    ensures var t := Quiet(1, 1, 1, 7, DUE, 1);
            Valid(t) && Possible(t, EmptySlot) && Step(t, EmptySlot) == Collected(DUE, Batch)
  {
    QuietValid(1, 1, 1, 7, DUE, 1);
    var t := Quiet(1, 1, 1, 7, DUE, 1);
    var t0 := With(1, 1, EMPTY_SLOTS, [7], 7, DUE, 1, Batch);
    assert EMPTY_SLOTS[1 := [7]][1 := []] == EMPTY_SLOTS && [7][1..] == [];
    hide Valid;
    assert Look(t) == t0;
    hide Look;
    assert DrainSlot(t0) == Collected(DUE, Batch);
    LookProgress(t);
  }

  lemma DoomSteps()
    requires Valid(Collected(DUE, Batch))
    ensures var t := Collected(DUE, Batch);
            Possible(t, Renewed(7, 50, 1)) && Step(t, Renewed(7, 50, 1)) == Collected(LONGER, Doomed)
    ensures var t := Collected(LONGER, Doomed);
            Possible(t, HandOver) && Fires(t, HandOver, 7) && t.before == 0 && t.now == 1
  {
  }

  /** A lock with the deadline 1 is collected by the batch with clock 1, then gets the deadline 50, and comes up in this
      batch all the same. */
  lemma DoomedReached() returns (es: seq<Event>)
    ensures var t := Quiet(1, 1, 1, 7, DUE, 1);
            && es == [EmptySlot, Renewed(7, 50, 1), HandOver]
            && Valid(t) && Run(t, es) && Firings(t, es, 7) == [Firing(0, 1)]
  {
    CollectStep();
    var t, t1, t2 := Quiet(1, 1, 1, 7, DUE, 1), Collected(DUE, Batch), Collected(LONGER, Doomed);
    StepValid(t, EmptySlot);
    DoomSteps();
    StepValid(t1, Renewed(7, 50, 1));
    hide Quiet, Collected, Valid, Step, Possible, Fires;
    es := [EmptySlot, Renewed(7, 50, 1), HandOver];
    var last := [HandOver];
    StepValid(t2, HandOver);
    assert last[1..] == [];
    NoOtherFires(t, t1);
    RunNext(t1, Renewed(7, 50, 1), last, 7);
    RunNext(t, EmptySlot, [Renewed(7, 50, 1)] + last, 7);
    assert es == [EmptySlot] + ([Renewed(7, 50, 1)] + last);
  }

  lemma NoOtherFires(t: Timers, t1: Timers)
    ensures !Fires(t, EmptySlot, 7) && !Fires(t1, Renewed(7, 50, 1), 7)
  {
  }
}
