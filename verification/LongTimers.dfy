/** Whole runs of the timers on their long-wait queues: what the timers do to their queues of locks is done by cells,
    indices and holes, with compactions in between, as long as nothing is indexed out of range. */
module LongTimers {
  import opened Protocol
  import opened QueueModel
  import opened LongWaitModel
  import opened LongLocks
  import opened LongRuns
  import T = TimerModel
  import P = TimerProofs
  import R = TimerRuns

  /** An event of the timers, or the compaction of a queue at any time. */
  datatype ShardEvent = Timer(step: R.Event) | Compacting(deadline: int)

  // ---------- what the timers ask of the queues

  /** A lock joins a queue if it has been looked at too often. */
  function AddEvents(e: Id, r: T.Entry, checkTime: int): seq<Event> {
    if r.checkedCount > T.MAX_WAIT then [SetDeadline(e, r.deadline), Join(e, checkTime)] else []
  }

  function LookEvents(t: T.Timers): seq<Event>
    requires |t.slots| == T.LENGTH && t.slots[t.scan % T.LENGTH] != []
  {
    var e := t.slots[t.scan % T.LENGTH][0];
    var r := t.Get(e);
    if r.done || r.deadline <= t.now then [] else AddEvents(e, r.(checkedCount := r.checkedCount + 1), t.checkTime)
  }

  function SlotEvents(t: T.Timers): seq<Event>
    requires |t.slots| == T.LENGTH
    decreases T.SlotWork(t)
  {
    if t.slots[t.scan % T.LENGTH] == [] then []
    else T.LookProgress(t); LookEvents(t) + SlotEvents(T.Look(t))
  }

  function StepEvents(t: T.Timers, step: R.Event): seq<Event>
    requires |t.slots| == T.LENGTH
  {
    match step
    case Arrive(e, deadline, count) => AddEvents(e, T.Entry(deadline, count, false, false), t.checkTime)
    case Leave(e) => [Leave(e)]
    case EmptySlot => SlotEvents(t)
    case EmptyQueue => [Due(t.scan)]
    case Settled(_) => []
    case Renewed(_, _, _) => []
    case Tick(_) => []
    case HandOver => []
  }

  function Steps(es: seq<ShardEvent>): seq<R.Event> {
    if es == [] then [] else (if es[0].Timer? then [es[0].step] else []) + Steps(es[1..])
  }

  ghost predicate ShardRun(t: T.Timers, es: seq<ShardEvent>)
    requires T.Valid(t)
    decreases |es|
  {
    es == [] ||
    (match es[0]
     case Timer(step) => R.Possible(t, step) && (R.StepValid(t, step); ShardRun(R.Step(t, step), es[1..]))
     case Compacting(d) => ShardRun(t, es[1..]))
  }

  /** What a run of the timers, with compactions in between, does to the queues. */
  ghost function QueueEvents(t: T.Timers, es: seq<ShardEvent>): seq<Event>
    requires T.Valid(t) && ShardRun(t, es)
    decreases |es|
  {
    if es == [] then []
    else
      match es[0]
      case Timer(step) =>
        R.StepValid(t, step);
        StepEvents(t, step) + QueueEvents(R.Step(t, step), es[1..])
      case Compacting(d) => [Compaction(d)] + QueueEvents(t, es[1..])
  }

  /** Every compaction is one of a queue that is there, and no compaction and no drain indexes out of range. Nothing is
      said about locks that join or leave. */
  ghost predicate InRange(l: Locks, es: seq<Event>)
    requires Good(l)
    decreases |es|
  {
    es == [] ||
    (&& (es[0].Compaction? ==> es[0].deadline in l.queues)
     && (Possible(l, es[0]) ==> Step(l, es[0]).Some? && (StepGood(l, es[0]); InRange(Step(l, es[0]).value, es[1..]))))
  }

  // ---------- a lock is stored exactly if the timers have it in a queue

  lemma {:induction false} TimesIn(es: seq<Id>, e: Id)
    ensures T.Times(es, e) > 0 <==> e in es
  {
    if es != [] { TimesIn(es[1..], e); }
  }

  lemma Waiting(l: Locks, id: Id, d: int)
    requires Good(l)
    ensures id in WaitingAt(l, d) <==> id in Indices(l, d)
  {
    if d in l.queues {
      assert QueueOk(l.queues[d], Indices(l, d));
      IdsIn(Content(l.queues[d].cells), id);
      EmptyNoLocks(l.queues[d], Indices(l, d));
    } else {
      NoIndices(l, d);
    }
  }

  lemma Placed(t: T.Timers, e: Id)
    requires T.Valid(t)
    ensures forall k :: e in t.Queue(k) ==> e in t.due && t.Get(e).inLong && t.Get(e).deadline == k
    ensures e in t.due && t.Get(e).inLong ==> e in t.Queue(t.Get(e).deadline)
  {
    assert T.Located(t, e);
    forall k | e in t.Queue(k) ensures e in t.due && t.Get(e).inLong && t.Get(e).deadline == k {
      TimesIn(t.Queue(k), e);
      assert T.Timely(t, e);
    }
    if e in t.due && t.Get(e).inLong {
      assert T.Timely(t, e);
      TimesIn(t.Queue(t.Get(e).deadline), e);
    }
  }

  /** Both sides know the same locks, under the same deadlines. */
  lemma StoredIffLong(l: Locks, t: T.Timers, id: Id)
    requires Good(l) && T.Valid(t) && Implements(l, t)
    ensures (id in l.locks && l.locks[id].index > 0) <==> (id in t.due && t.Get(id).inLong)
    ensures id in t.due && t.Get(id).inLong ==> l.locks[id].deadline == t.Get(id).deadline
  {
    Placed(t, id);
    hide Good, T.Valid, WaitingAt;
    if id in l.locks && l.locks[id].index > 0 {
      var d := l.locks[id].deadline;
      Waiting(l, id, d);
      assert WaitingAt(l, d) == t.Queue(d);
    }
    if id in t.due && t.Get(id).inLong {
      var d := t.Get(id).deadline;
      Waiting(l, id, d);
      assert WaitingAt(l, d) == t.Queue(d);
    }
  }

  // ---------- one step

  lemma SameQueues(l: Locks, t: T.Timers, t': T.Timers)
    requires Good(l) && Implements(l, t) && t'.long == t.long
    ensures Implements(l, t')
  {
    hide WaitingAt, Good;
    forall d ensures WaitingAt(l, d) == t'.Queue(d) {
      assert WaitingAt(l, d) == t.Queue(d);
    }
  }

  lemma SetRun(l: Locks, t: T.Timers, e: Id, d: int)
    requires Good(l) && Implements(l, t) && (e in l.locks ==> l.locks[e].index == 0)
    ensures Run(l, [SetDeadline(e, d)])
    ensures var l' := After(l, [SetDeadline(e, d)]);
            Implements(l', t) && e in l'.locks && l'.locks[e] == LongLock(d, 0)
  {
    hide Good, WaitingAt, Implements;
    SetDeadlineGood(l, e, d);
    var l' := Step(l, SetDeadline(e, d)).value;
    StillImplements(l, l', t);
    RunOne(l, SetDeadline(e, d));
  }

  lemma EnterRun(l: Locks, t: T.Timers, e: Id, r: T.Entry)
    requires Good(l) && Implements(l, t) && e in l.locks && l.locks[e] == LongLock(r.deadline, 0)
    ensures Run(l, [Join(e, t.checkTime)]) && Implements(After(l, [Join(e, t.checkTime)]), T.InLong(t, e, r))
  {
    hide Good, WaitingAt, Implements, T.InLong, Enqueue;
    JoinImplements(l, t, e, r);
    RunOne(l, Join(e, t.checkTime));
  }

  lemma JoinRun(l: Locks, t: T.Timers, e: Id, r: T.Entry)
    requires Good(l) && Implements(l, t) && (e in l.locks ==> l.locks[e].index == 0)
    ensures var es := [SetDeadline(e, r.deadline), Join(e, t.checkTime)];
            Run(l, es) && Implements(After(l, es), T.InLong(t, e, r))
  {
    hide Good, Implements, T.InLong, Run, After;
    var a, b := SetDeadline(e, r.deadline), Join(e, t.checkTime);
    SetRun(l, t, e, r.deadline);
    EnterRun(After(l, [a]), t, e, r);
    RunPlus(l, [a], [b]);
    assert [a] + [b] == [a, b];
  }

  lemma StillImplements(l: Locks, l': Locks, t: T.Timers)
    requires Good(l) && Good(l') && l'.queues == l.queues && Implements(l, t)
    ensures Implements(l', t)
  {
    hide Good;
    forall d ensures WaitingAt(l', d) == t.Queue(d) {
      assert WaitingAt(l, d) == t.Queue(d);
    }
  }

  lemma AddRun(l: Locks, t: T.Timers, e: Id, r: T.Entry)
    requires Good(l) && Implements(l, t) && |t.slots| == T.LENGTH && (e in l.locks ==> l.locks[e].index == 0)
    ensures var es := AddEvents(e, r, t.checkTime); Run(l, es) && Implements(After(l, es), T.Add(t, e, r))
  {
    hide Good, T.InLong, WaitingAt;
    if r.checkedCount > T.MAX_WAIT {
      JoinRun(l, t, e, r);
    } else {
      SameQueues(l, t, T.Add(t, e, r));
    }
  }

  lemma LookRun(l: Locks, t: T.Timers)
    requires Good(l) && T.Valid(t) && Implements(l, t) && |t.slots| == T.LENGTH && t.slots[t.scan % T.LENGTH] != []
    ensures var es := LookEvents(t); Run(l, es) && Implements(After(l, es), T.Look(t))
  {
    hide Good, T.Valid, T.Add, Implements, WaitingAt, Run, After, AddEvents;
    var w := t.scan % T.LENGTH;
    var e := t.slots[w][0];
    var r := t.Get(e);
    FirstNotStored(l, t, w);
    SameQueues(l, t, T.PopSlot(t, w));
    RunNone(l);
    if r.done || r.deadline <= t.now {
      SameQueues(l, t, T.Look(t));
    } else {
      AddRun(l, T.PopSlot(t, w), e, r.(checkedCount := r.checkedCount + 1));
    }
  }

  lemma FirstNotStored(l: Locks, t: T.Timers, w: int)
    requires Good(l) && T.Valid(t) && Implements(l, t) && 0 <= w < |t.slots| == T.LENGTH && t.slots[w] != []
    ensures var e := t.slots[w][0]; e in l.locks ==> l.locks[e].index == 0
  {
    P.FirstOfSlot(t, w);
    hide Good, Implements;
    StoredIffLong(l, t, t.slots[w][0]);
  }

  lemma {:induction false} SlotRun(l: Locks, t: T.Timers)
    requires Good(l) && T.Valid(t) && Implements(l, t) && |t.slots| == T.LENGTH && t.scan <= t.now
    ensures var es := SlotEvents(t); Run(l, es) && Implements(After(l, es), T.DrainSlot(t))
    decreases T.SlotWork(t)
  {
    hide Good, T.Valid, T.Look, LookEvents, WaitingAt, T.SlotWork;
    if t.slots[t.scan % T.LENGTH] == [] {
      SameQueues(l, t, T.DrainSlot(t));
    } else {
      T.LookProgress(t);
      P.LookValid(t);
      LookRun(l, t);
      SlotRun(After(l, LookEvents(t)), T.Look(t));
      RunPlus(l, LookEvents(t), SlotEvents(T.Look(t)));
    }
  }

  lemma LeaveRun(l: Locks, t: T.Timers, e: Id)
    requires Good(l) && T.Valid(t) && Implements(l, t) && e in t.due && t.Get(e).inLong
    ensures Run(l, [Leave(e)]) && Implements(After(l, [Leave(e)]), T.RemoveLong(t, e))
  {
    StoredIffLong(l, t, e);
    Placed(t, e);
    hide Good, T.Valid, WaitingAt, T.RemoveLong, Dequeue;
    LeaveImplements(l, t, e);
    RunOne(l, Leave(e));
  }

  lemma QueueRun(l: Locks, t: T.Timers)
    requires Good(l) && Implements(l, t) && Step(l, Due(t.scan)).Some?
    ensures Run(l, [Due(t.scan)]) && Implements(After(l, [Due(t.scan)]), T.DrainLong(t))
  {
    hide Good, WaitingAt, T.DrainLong, Drain;
    DueImplements(l, t);
    RunOne(l, Due(t.scan));
  }

  /** One event of the timers: only a drain can fail. */
  lemma StepRun(l: Locks, t: T.Timers, step: R.Event)
    requires Good(l) && T.Valid(t) && Implements(l, t) && R.Possible(t, step) && |t.slots| == T.LENGTH
    requires step.EmptyQueue? ==> Step(l, Due(t.scan)).Some?
    ensures var es := StepEvents(t, step); Run(l, es) && Implements(After(l, es), R.Step(t, step))
  {
    hide Good, T.Valid, WaitingAt, Run, After, T.Add, T.DrainSlot, T.DrainLong, T.RemoveLong, Step, SlotEvents,
         AddEvents;
    match step {
      case Arrive(e, deadline, count) =>
        StoredIffLong(l, t, e);
        AddRun(l, t, e, T.Entry(deadline, count, false, false));
      case Leave(e) => LeaveRun(l, t, e);
      case EmptySlot => SlotRun(l, t);
      case EmptyQueue => QueueRun(l, t);
      case _ =>
        RunNone(l);
        SameQueues(l, t, R.Step(t, step));
    }
  }

  lemma RunNone(l: Locks)
    requires Good(l)
    ensures Run(l, []) && After(l, []) == l
  {
  }

  // ---------- whole runs

  lemma {:induction false} RangeAfter(l: Locks, a: seq<Event>, b: seq<Event>)
    requires Good(l) && Run(l, a) && InRange(l, a + b)
    ensures InRange(After(l, a), b)
    decreases |a|
  {
    hide Good, Step, Possible;
    if a == [] {
      assert a + b == b;
    } else {
      assert (a + b)[0] == a[0] && (a + b)[1..] == a[1..] + b;
      StepGood(l, a[0]);
      RangeAfter(Step(l, a[0]).value, a[1..], b);
    }
  }

  lemma {:induction false} RunRange(l: Locks, es: seq<Event>)
    requires Good(l) && Run(l, es)
    ensures InRange(l, es)
    decreases |es|
  {
    hide Good, Step;
    if es != [] {
      StepGood(l, es[0]);
      RunRange(Step(l, es[0]).value, es[1..]);
    }
  }

  lemma {:induction false} StepsRun(t: T.Timers, es: seq<ShardEvent>)
    requires T.Valid(t) && ShardRun(t, es)
    ensures R.Run(t, Steps(es))
    decreases |es|
  {
    hide T.Valid, R.Possible, R.Step;
    if es != [] {
      match es[0] {
        case Timer(step) =>
          R.StepValid(t, step);
          StepsRun(R.Step(t, step), es[1..]);
          assert ([step] + Steps(es[1..]))[1..] == Steps(es[1..]);
        case Compacting(d) =>
          StepsRun(t, es[1..]);
          assert [] + Steps(es[1..]) == Steps(es[1..]);
      }
    }
  }

  lemma TimerInRange(l: Locks, t: T.Timers, step: R.Event, rest: seq<Event>)
    requires Good(l) && T.Valid(t) && Implements(l, t) && R.Possible(t, step) && |t.slots| == T.LENGTH
    requires InRange(l, StepEvents(t, step) + rest)
    ensures var es := StepEvents(t, step);
            Run(l, es) && InRange(After(l, es), rest) && Implements(After(l, es), R.Step(t, step))
  {
    hide Good, T.Valid, WaitingAt, Implements, R.Possible, R.Step, Run, After;
    var es := StepEvents(t, step);
    if step.EmptyQueue? {
      assert (es + rest)[0] == Due(t.scan);
    }
    StepRun(l, t, step);
    RangeAfter(l, es, rest);
  }

  lemma CompactionInRange(l: Locks, t: T.Timers, d: int, rest: seq<Event>)
    requires Good(l) && Implements(l, t) && InRange(l, [Compaction(d)] + rest)
    ensures var es := [Compaction(d)];
            Run(l, es) && InRange(After(l, es), rest) && Implements(After(l, es), t)
  {
    hide Good, WaitingAt, Compact;
    var es := [Compaction(d)];
    assert (es + rest)[0] == Compaction(d);
    CompactionImplements(l, t, d);
    RunOne(l, Compaction(d));
    RangeAfter(l, es, rest);
  }

  lemma {:induction false} RunFollows(l: Locks, t: T.Timers, es: seq<ShardEvent>)
    requires Good(l) && T.Valid(t) && Implements(l, t) && ShardRun(t, es) && InRange(l, QueueEvents(t, es))
    ensures Run(l, QueueEvents(t, es)) && R.Run(t, Steps(es))
    ensures Implements(After(l, QueueEvents(t, es)), R.After(t, Steps(es)))
    decreases |es|
  {
    hide Good, T.Valid, Implements, R.Possible, R.Step, Run, After, InRange, StepEvents;
    P.ClockOf(t);
    StepsRun(t, es);
    if es == [] {
      RunNone(l);
    } else {
      match es[0] {
        case Timer(step) =>
          R.StepValid(t, step);
          var t' := R.Step(t, step);
          var first, rest := StepEvents(t, step), QueueEvents(t', es[1..]);
          TimerInRange(l, t, step, rest);
          RunFollows(After(l, first), t', es[1..]);
          RunPlus(l, first, rest);
          assert ([step] + Steps(es[1..]))[1..] == Steps(es[1..]);
        case Compacting(d) =>
          var first, rest := [Compaction(d)], QueueEvents(t, es[1..]);
          CompactionInRange(l, t, d, rest);
          RunFollows(After(l, first), t, es[1..]);
          RunPlus(l, first, rest);
          assert [] + Steps(es[1..]) == Steps(es[1..]);
      }
    }
  }

  /** Every run of the timers, with compactions at any time, is carried out by the queues of cells if and only if no
      compaction and no drain on the way indexes out of range; and then it leaves the locks that the timers have in
      their queues, in their order. Locks that join, leave, or are looked at never index out of range. */
  lemma TimersImplemented(l: Locks, t: T.Timers, es: seq<ShardEvent>)
    requires Good(l) && T.Valid(t) && Implements(l, t) && ShardRun(t, es)
    ensures R.Run(t, Steps(es))
    ensures InRange(l, QueueEvents(t, es)) <==> Run(l, QueueEvents(t, es))
    ensures InRange(l, QueueEvents(t, es)) ==>
              Implements(After(l, QueueEvents(t, es)), R.After(t, Steps(es)))
  {
    var les := QueueEvents(t, es);
    if InRange(l, les) {
      RunFollows(l, t, es);
    } else if Run(l, les) {
      RunRange(l, les);
    }
    StepsRun(t, es);
  }

  /** From an empty shard: after every run of the timers, with compactions at any time and nothing out of range, a
      lock has an index exactly if the timers have it in a queue; and then its cell, in the queue of the same
      deadline, is the one that the index encodes. */
  lemma ShardAgreement(t: T.Timers, es: seq<ShardEvent>, id: Id)
    requires T.Valid(t) && t.long == map[] && ShardRun(t, es)
    requires InRange(EMPTY_LOCKS, QueueEvents(t, es))
    ensures Run(EMPTY_LOCKS, QueueEvents(t, es)) && R.Run(t, Steps(es))
    ensures var l, t' := After(EMPTY_LOCKS, QueueEvents(t, es)), R.After(t, Steps(es));
            && ((id in l.locks && l.locks[id].index > 0) <==> (id in t'.due && t'.Get(id).inLong))
            && (id in t'.due && t'.Get(id).inLong ==>
                  var d, i := t'.Get(id).deadline, l.locks[id].index; StoredAt(l, d, NodeOf(i), SlotOf(i), id))
  {
    hide T.Valid, Run, R.Run, After, R.After, StoredAt;
    EmptyImplements(t);
    TimersImplemented(EMPTY_LOCKS, t, es);
    var l, t' := After(EMPTY_LOCKS, QueueEvents(t, es)), R.After(t, Steps(es));
    StoredIffLong(l, t', id);
    IndexAgreement(l);
  }

  lemma EmptyImplements(t: T.Timers)
    requires t.long == map[]
    ensures Good(EMPTY_LOCKS) && Implements(EMPTY_LOCKS, t)
  {
  }
}
