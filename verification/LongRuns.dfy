/** Whole runs of the long-wait queues, and what they mean for the timers. */
module LongRuns {
  import opened Protocol
  import opened QueueModel
  import opened QueueProofs
  import opened LongWaitModel
  import opened LongLocks
  import T = TimerModel

  datatype Event =
    | SetDeadline(id: Id, deadline: int)
    | Join(id: Id, checkTime: int)
    | Leave(id: Id)
    | Compaction(deadline: int)
    | Due(deadline: int)

  /** A deadline changes only while the lock is in no long-wait queue; a lock joins when it is in none and leaves when
      it is in one. */
  ghost predicate Possible(l: Locks, e: Event) {
    match e
    case SetDeadline(id, d) => id in l.locks ==> l.locks[id].index == 0
    case Join(id, t) => id in l.locks && l.locks[id].index == 0
    case Leave(id) => id in l.locks && l.locks[id].index > 0
    case Compaction(d) => d in l.queues
    case Due(d) => true
  }

  ghost function Step(l: Locks, e: Event): Option<Locks>
    requires Good(l) && Possible(l, e)
  {
    match e
    case SetDeadline(id, d) => Some(l.(locks := l.locks[id := LongLock(d, 0)]))
    case Join(id, t) => EnqueueGood(l, id, t); Some(Enqueue(l, id, t))
    case Leave(id) => DequeueGood(l, id); Some(Dequeue(l, id))
    case Compaction(d) => CompactGood(l, d); Compact(l, d)
    case Due(d) => DrainGood(l, d); Drain(l, d)
  }

  lemma SetDeadlineGood(l: Locks, id: Id, d: int)
    requires Good(l) && (id in l.locks ==> l.locks[id].index == 0)
    ensures Good(l.(locks := l.locks[id := LongLock(d, 0)]))
  {
    hide QueueOk;
    var l' := l.(locks := l.locks[id := LongLock(d, 0)]);
    assert forall e :: Indices(l', e) == Indices(l, e);
  }

  /** Every event keeps the agreement of indices, deadlines, cells and free counts. */
  lemma StepGood(l: Locks, e: Event)
    requires Good(l) && Possible(l, e)
    ensures Step(l, e).Some? ==> Good(Step(l, e).value)
  {
    hide Good, Enqueue, Dequeue, Compact, Drain;
    match e {
      case SetDeadline(id, d) => SetDeadlineGood(l, id, d);
      case Join(id, t) => EnqueueGood(l, id, t);
      case Leave(id) => DequeueGood(l, id);
      case Compaction(d) => CompactGood(l, d);
      case Due(d) => DrainGood(l, d);
    }
  }

  const EMPTY_LOCKS := Locks(map[], map[], [])

  lemma EmptyGood()
    ensures Good(EMPTY_LOCKS)
  {
  }

  /** The events of a run are possible one after another and none indexes out of range; that every state on the way
      satisfies the invariant is what `StepGood` proves. */
  ghost predicate Run(l: Locks, es: seq<Event>)
    requires Good(l)
    decreases |es|
  {
    es == [] ||
    (Possible(l, es[0]) && Step(l, es[0]).Some? && (StepGood(l, es[0]); Run(Step(l, es[0]).value, es[1..])))
  }

  /** Where a run leads: the invariant holds there because every step keeps it. */
  ghost function After(l: Locks, es: seq<Event>): (r: Locks)
    requires Good(l) && Run(l, es)
    ensures Good(r)
    decreases |es|
  {
    if es == [] then l else StepGood(l, es[0]); After(Step(l, es[0]).value, es[1..])
  }

  /** Long-wait index agreement: after any insertions, removals, compactions and drains, in any number of queues, a lock
      has an index exactly if it is stored, and then it is stored at the node and slot that its index encodes in the
      queue of its own deadline, and nowhere else; and every free count is the number of holes. */
  lemma LongWaitAgreement(es: seq<Event>)
    requires Run(EMPTY_LOCKS, es)
    ensures var l := After(EMPTY_LOCKS, es);
            && (forall id :: id in l.locks && l.locks[id].index > 0 ==>
                  StoredAt(l, l.locks[id].deadline, NodeOf(l.locks[id].index), SlotOf(l.locks[id].index), id))
            && (forall d, n, k, id :: StoredAt(l, d, n, k, id) ==>
                  id in l.locks && l.locks[id].deadline == d && n >= 0 && k >= 0 && l.locks[id].index == Pack(n, k))
            && (forall d :: d in l.queues ==>
                  Valid(l.queues[d].cells) && l.queues[d].freeCount == Holes(Content(l.queues[d].cells)))
  {
    EmptyGood();
    IndexAgreement(After(EMPTY_LOCKS, es));
  }

  // ---------- the queues of the timer model

  /** The locks in a list of cells. */
  function Ids(cells: seq<Option<Id>>): seq<Id> {
    if cells == [] then [] else (if cells[0].Some? then [cells[0].value] else []) + Ids(cells[1..])
  }

  /** The locks that wait for a deadline, in the order of their cells. */
  ghost function WaitingAt(l: Locks, d: int): seq<Id>
    requires Good(l)
  {
    if d in l.queues then assert QueueOk(l.queues[d], Indices(l, d)); Ids(Content(l.queues[d].cells)) else []
  }

  /** The queues hold what the timers have in theirs. */
  ghost predicate Implements(l: Locks, t: T.Timers)
    requires Good(l)
  {
    forall d :: WaitingAt(l, d) == t.Queue(d)
  }

  lemma {:induction false} IdsPlus(a: seq<Option<Id>>, b: seq<Option<Id>>)
    ensures Ids(a + b) == Ids(a) + Ids(b)
  {
    if a == [] {
      assert a + b == b;
    } else {
      IdsPlus(a[1..], b);
      assert (a + b)[1..] == a[1..] + b;
    }
  }

  lemma {:induction false} IdsNonNil(cells: seq<Option<Id>>)
    ensures Ids(NonNil(cells)) == Ids(cells)
  {
    if cells != [] {
      IdsNonNil(cells[1..]);
      var first: seq<Option<Id>> := if cells[0].Some? then [cells[0]] else [];
      IdsPlus(first, NonNil(cells[1..]));
      if cells[0].Some? {
        assert first[1..] == [];
      }
    }
  }

  lemma {:induction false} IdsIn(cells: seq<Option<Id>>, id: Id)
    ensures id in Ids(cells) <==> Some(id) in cells
  {
    if cells != [] {
      IdsIn(cells[1..], id);
      assert cells == [cells[0]] + cells[1..];
    }
  }

  lemma {:induction false} MinusFirst(a: seq<Id>, id: Id, b: seq<Id>)
    requires id !in a
    ensures T.Minus(a + ([id] + b), id) == a + b
  {
    var s := a + ([id] + b);
    if a == [] {
      assert s == [id] + b && s[1..] == b && a + b == b;
    } else {
      assert a[0] in a && s[0] == a[0] && s[1..] == a[1..] + ([id] + b);
      MinusFirst(a[1..], id, b);
      assert [a[0]] + (a[1..] + b) == a + b;
    }
  }

  /** A lock that joins comes last in the queue of its deadline. */
  lemma JoinImplements(l: Locks, t: T.Timers, id: Id, r: T.Entry)
    requires Good(l) && Implements(l, t) && id in l.locks && l.locks[id] == LongLock(r.deadline, 0)
    ensures Valid(QueueFor(l, Later(r.deadline, t.checkTime)).cells) && Good(Enqueue(l, id, t.checkTime))
    ensures Implements(Enqueue(l, id, t.checkTime), T.InLong(t, id, r))
  {
    EnqueueGood(l, id, t.checkTime);
    var l', t' := Enqueue(l, id, t.checkTime), T.InLong(t, id, r);
    var k := Later(r.deadline, t.checkTime);
    JoinWaiting(l, id, t.checkTime);
    forall d ensures WaitingAt(l', d) == t'.Queue(d) {
      assert t.Queue(d) == WaitingAt(l, d);
    }
  }

  lemma JoinWaiting(l: Locks, id: Id, checkTime: int)
    requires Good(l) && id in l.locks && l.locks[id].index == 0
    ensures Valid(QueueFor(l, Later(l.locks[id].deadline, checkTime)).cells) && Good(Enqueue(l, id, checkTime))
    ensures var k := Later(l.locks[id].deadline, checkTime); var l' := Enqueue(l, id, checkTime);
            forall d :: WaitingAt(l', d) == if d == k then WaitingAt(l, d) + [id] else WaitingAt(l, d)
  {
    EnqueueGood(l, id, checkTime);
    var k := Later(l.locks[id].deadline, checkTime);
    var q := QueueFor(l, k);
    QueueForOk(l, k);
    hide Push, Good, QueueOk;
    PushIsAppend(q.cells, Some(id));
    IdsPlus(Content(q.cells), [Some(id)]);
    NewWaiting(l, k);
  }

  /** A spare or new queue is empty. */
  lemma NewWaiting(l: Locks, k: int)
    requires Good(l)
    ensures Valid(QueueFor(l, k).cells) && Ids(Content(QueueFor(l, k).cells)) == WaitingAt(l, k)
  {
    if k in l.queues {
      assert QueueOk(l.queues[k], Indices(l, k));
    } else if l.spare != [] {
      assert SpareOk(l.spare[|l.spare| - 1]);
    } else {
      NewQueueEmpty<Id>(2, NODES, INIT_SIZE);
    }
  }

  /** A lock that leaves is taken out of the queue of its deadline, as a search would. */
  lemma LeaveWaiting(l: Locks, id: Id)
    requires Good(l) && id in l.locks && l.locks[id].index > 0
    ensures var r := l.locks[id];
            r.deadline in l.queues && Has(l.queues[r.deadline].cells.nodes, NodeOf(r.index), SlotOf(r.index))
    ensures Good(Dequeue(l, id))
    ensures forall d :: WaitingAt(Dequeue(l, id), d)
                        == if d == l.locks[id].deadline then T.Minus(WaitingAt(l, d), id) else WaitingAt(l, d)
  {
    DequeueGood(l, id);
    WaitsInQueue(l, id);
    var d := l.locks[id].deadline;
    LeaveCell(l.queues[d], Indices(l, d), id);
  }

  lemma LeaveCell(q: LongQueue, index: map<Id, nat>, id: Id)
    requires QueueOk(q, index) && id in index
    ensures Has(q.cells.nodes, NodeOf(index[id]), SlotOf(index[id]))
    ensures var q' := Write(q.cells, NodeOf(index[id]), SlotOf(index[id]), None);
            Valid(q') && Ids(Content(q')) == T.Minus(Ids(Content(q.cells)), id)
  {
    hide Segment, Agrees, Clean, Narrow, Counted;
    RemoveAgrees(q.cells, index, id);
    var c := q.cells;
    var n, k := NodeOf(index[id]), SlotOf(index[id]);
    HoleSplit(c, n, k);
    var left := Segment(c.nodes, c.headNode, c.headIndex, n, k);
    var right := Segment(Write(c, n, k, None).nodes, n, k + 1, c.tailNode, c.tailIndex);
    NotBefore(q, index, id);
    IdsAround(left, Some(id), right);
    IdsAround(left, None, right);
    MinusFirst(Ids(left), id, Ids(right));
    assert [] + Ids(right) == Ids(right);
  }

  lemma IdsAround(left: seq<Option<Id>>, x: Option<Id>, right: seq<Option<Id>>)
    ensures Ids(left + ([x] + right)) == Ids(left) + ((if x.Some? then [x.value] else []) + Ids(right))
  {
    IdsPlus(left, [x] + right);
    IdsPlus([x], right);
    var one := [x];
    assert one[1..] == [];
    var mid: seq<Id> := if x.Some? then [x.value] else [];
    assert Ids(one) == mid;
  }

  /** A lock is in no cell before its own. */
  lemma NotBefore(q: LongQueue, index: map<Id, nat>, id: Id)
    requires QueueOk(q, index) && id in index && Has(q.cells.nodes, NodeOf(index[id]), SlotOf(index[id]))
    requires Between(q.cells, NodeOf(index[id]), SlotOf(index[id]))
    ensures id !in Ids(Segment(q.cells.nodes, q.cells.headNode, q.cells.headIndex, NodeOf(index[id]),
            SlotOf(index[id])))
  {
    var c := q.cells;
    var n, k := NodeOf(index[id]), SlotOf(index[id]);
    var left := Segment(c.nodes, c.headNode, c.headIndex, n, k);
    IdsIn(left, id);
    if Some(id) in left {
      var i, j := SegmentCell(c.nodes, c.headNode, c.headIndex, n, k, Some(id));
      assert index[id] == Pack(i, j);
      PackInverse(i, j);
      assert false;
    }
  }

  lemma LeaveImplements(l: Locks, t: T.Timers, id: Id)
    requires Good(l) && Implements(l, t) && id in l.locks && l.locks[id].index > 0
    requires t.Get(id).deadline == l.locks[id].deadline && l.locks[id].deadline in t.long
    ensures var r := l.locks[id];
            r.deadline in l.queues && Has(l.queues[r.deadline].cells.nodes, NodeOf(r.index), SlotOf(r.index))
    ensures Good(Dequeue(l, id)) && Implements(Dequeue(l, id), T.RemoveLong(t, id))
  {
    LeaveWaiting(l, id);
    var l', t' := Dequeue(l, id), T.RemoveLong(t, id);
    forall d ensures WaitingAt(l', d) == t'.Queue(d) {
      assert t.Queue(d) == WaitingAt(l, d);
    }
  }

  /** A compaction is not seen by the timers. */
  lemma CompactionImplements(l: Locks, t: T.Timers, d: int)
    requires Good(l) && Implements(l, t) && d in l.queues && Step(l, Compaction(d)).Some?
    ensures Good(Step(l, Compaction(d)).value) && Implements(Step(l, Compaction(d)).value, t)
  {
    CompactGood(l, d);
    var l' := Step(l, Compaction(d)).value;
    IdsNonNil(Content(l.queues[d].cells));
    var s := Compacted(l.queues[d].cells, Indices(l, d));
    EmptyIff(s.q);
    hide Good, Compacted, Content, QueueOk;
    forall e ensures WaitingAt(l', e) == t.Queue(e) {
      assert WaitingAt(l, e) == t.Queue(e);
      assert WaitingAt(l', e) == WaitingAt(l, e);
    }
  }

  lemma {:induction false} DrainLongQueues(t: T.Timers)
    ensures forall e :: T.DrainLong(t).Queue(e) == if e == t.scan then [] else t.Queue(e)
    decreases |t.Queue(t.scan)|
  {
    if t.Queue(t.scan) != [] {
      var t' := T.LookLong(t);
      assert forall e :: t'.Queue(e) == if e == t.scan then t.Queue(e)[1..] else t.Queue(e);
      DrainLongQueues(t');
    }
  }

  lemma DueWaiting(l: Locks, d: int)
    requires Good(l) && Step(l, Due(d)).Some?
    ensures Good(Step(l, Due(d)).value)
    ensures forall e :: WaitingAt(Step(l, Due(d)).value, e) == if e == d then [] else WaitingAt(l, e)
  {
    hide Good, Content, QueueOk, PopAll;
    DrainGood(l, d);
  }

  /** When a deadline has come its queue is empty, and no other has changed. */
  lemma DueImplements(l: Locks, t: T.Timers)
    requires Good(l) && Implements(l, t) && Step(l, Due(t.scan)).Some?
    ensures var l' := Step(l, Due(t.scan)).value; Good(l') && Implements(l', T.DrainLong(t))
  {
    hide Good, T.DrainLong, Step, WaitingAt;
    DrainLongQueues(t);
    DueWaiting(l, t.scan);
    forall e ensures WaitingAt(Step(l, Due(t.scan)).value, e) == T.DrainLong(t).Queue(e) {
      assert WaitingAt(l, e) == t.Queue(e);
    }
  }

  lemma {:induction false} RunPlus(l: Locks, a: seq<Event>, b: seq<Event>)
    requires Good(l) && Run(l, a) && Run(After(l, a), b)
    ensures Run(l, a + b) && After(l, a + b) == After(After(l, a), b)
    decreases |a|
  {
    hide Good, Step, Possible;
    if a == [] {
      assert a + b == b;
    } else {
      assert (a + b)[0] == a[0] && (a + b)[1..] == a[1..] + b;
      StepGood(l, a[0]);
      RunPlus(Step(l, a[0]).value, a[1..], b);
    }
  }

  lemma RunOne(l: Locks, e: Event)
    requires Good(l) && Possible(l, e) && Step(l, e).Some?
    ensures Run(l, [e]) && After(l, [e]) == Step(l, e).value
  {
    StepGood(l, e);
    var es := [e];
    assert es[1..] == [];
  }

  lemma StepSpare(l: Locks, e: Event)
    requires Good(l) && Possible(l, e) && Step(l, e).Some? && |l.spare| <= 8096
    ensures |Step(l, e).value.spare| <= 8096
  {
    hide Good;
  }

  /** At most 8096 spare queues are kept. */
  lemma {:induction false} SpareBound(l: Locks, es: seq<Event>)
    requires Good(l) && Run(l, es) && |l.spare| <= 8096
    ensures |After(l, es).spare| <= 8096
    decreases |es|
  {
    hide Good, Possible, Step;
    if es != [] {
      StepGood(l, es[0]);
      StepSpare(l, es[0]);
      SpareBound(Step(l, es[0]).value, es[1..]);
    }
  }
}
