/** All long-wait queues of one shard: one queue for every deadline, locks that carry their deadline and the packed
    index of their cell, and spare queues. Each function is what the program does in one critical section; `None`
    stands for an index out of range. */
module LongLocks {
  import opened Protocol
  import opened QueueModel
  import opened QueueProofs
  import opened QueueCompaction
  import opened LongWaitModel

  const INIT_SIZE: nat := 256
  const NODES: nat := 64
  const SPARE_QUEUES: nat := 8096

  /** The part of a lock object that matters here; index 0 means that the lock is in no long-wait queue. */
  datatype LongLock = LongLock(deadline: int, index: nat)

  datatype LongQueue = LongQueue(cells: Chunks<Id>, freeCount: nat)

  datatype Locks = Locks(locks: map<Id, LongLock>, queues: map<int, LongQueue>, spare: seq<LongQueue>)

  // ---------- the operations

  /** The queue for a deadline: the one that is there, a spare one, or a new one. */
  function QueueFor(l: Locks, d: int): LongQueue {
    if d in l.queues then l.queues[d]
    else if l.spare != [] then l.spare[|l.spare| - 1]
    else LongQueue(NewQueue<Id>(2, NODES, INIT_SIZE), 0)
  }

  function SpareAfter(l: Locks, d: int): seq<LongQueue> {
    if d in l.queues || l.spare == [] then l.spare else l.spare[..|l.spare| - 1]
  }

  /** A lock joins the queue of its deadline, or of the next second that is checked if that has passed, and gets the
      index of its cell. */
  function Enqueue(l: Locks, id: Id, checkTime: int): Locks
    requires id in l.locks && Valid(QueueFor(l, Later(l.locks[id].deadline, checkTime)).cells)
  {
    var d := Later(l.locks[id].deadline, checkTime);
    var q := QueueFor(l, d);
    Locks(l.locks[id := LongLock(d, Pack(q.cells.tailNode, q.cells.tailIndex))],
          l.queues[d := LongQueue(Push(q.cells, Some(id)), q.freeCount)],
          SpareAfter(l, d))
  }

  /** A lock leaves the queue of its own deadline, through its own index. */
  function Dequeue(l: Locks, id: Id): Locks
    requires id in l.locks && l.locks[id].deadline in l.queues
    requires Has(l.queues[l.locks[id].deadline].cells.nodes, NodeOf(l.locks[id].index), SlotOf(l.locks[id].index))
  {
    var r := l.locks[id];
    var q := l.queues[r.deadline];
    Locks(l.locks[id := r.(index := 0)],
          l.queues[r.deadline := LongQueue(Write(q.cells, NodeOf(r.index), SlotOf(r.index), None), q.freeCount + 1)],
          l.spare)
  }

  /** The indices of the locks that wait for a deadline. */
  function Indices(l: Locks, d: int): map<Id, nat> {
    map id | id in l.locks && l.locks[id].index > 0 && l.locks[id].deadline == d :: l.locks[id].index
  }

  function Reindexed(locks: map<Id, LongLock>, index: map<Id, nat>): map<Id, LongLock> {
    map id | id in locks :: if id in index then locks[id].(index := index[id]) else locks[id]
  }

  function Unindexed(locks: map<Id, LongLock>, ids: set<Id>): map<Id, LongLock> {
    map id | id in locks :: if id in ids then locks[id].(index := 0) else locks[id]
  }

  /** An empty queue becomes a spare one, if there is room for it. */
  function Recycle(l: Locks, q: Chunks<Id>): Option<Locks>
    requires 0 <= q.nodeIndex && q.baseNodeSize > 0
  {
    if |l.spare| >= SPARE_QUEUES then Some(l)
    else if q.nodeIndex >= |q.nodes| then None
    else Some(l.(spare := l.spare + [LongQueue(Reset(q), 0)]))
  }

  /** The queue of a deadline is compacted, and given up if nothing is left in it. */
  function Compact(l: Locks, d: int): Option<Locks>
    requires d in l.queues && Valid(l.queues[d].cells) && Valid(Compacted(l.queues[d].cells, Indices(l, d)).q)
    requires 0 <= Compacted(l.queues[d].cells, Indices(l, d)).q.nodeIndex
  {
    var s := Compacted(l.queues[d].cells, Indices(l, d));
    var l' := l.(locks := Reindexed(l.locks, s.index));
    if IsEmpty(s.q) then Recycle(l'.(queues := l.queues - {d}), s.q)
    else Some(l'.(queues := l.queues[d := LongQueue(s.q, 0)]))
  }

  /** All values are taken out at the front. */
  function PopAll(q: Chunks<Id>): (r: Chunks<Id>)
    requires Valid(q)
    ensures Valid(r)
    decreases |Content(q)|
  {
    if IsEmpty(q) then q else PopIsFirst(q); PopAll(Pop(q))
  }

  /** The locks in a list of cells. */
  function Values(cells: seq<Option<Id>>): set<Id> { set x | x in cells && x.Some? :: x.value }

  /** The deadline has come: all locks of its queue lose their index, and the queue is given up. */
  function Drain(l: Locks, d: int): Option<Locks>
    requires d in l.queues ==> Valid(l.queues[d].cells) && 0 <= PopAll(l.queues[d].cells).nodeIndex
  {
    if d !in l.queues then Some(l)
    else
      var q := l.queues[d].cells;
      var ids := Values(Content(q));
      Recycle(l.(locks := Unindexed(l.locks, ids), queues := l.queues - {d}), PopAll(q))
  }

  // ---------- the invariant

  /** A queue agrees with the indices of the locks that are in it, and its free count is the number of its holes. */
  ghost predicate QueueOk(q: LongQueue, index: map<Id, nat>) {
    && Valid(q.cells) && Clean(q.cells) && Narrow(q.cells.nodes) && Agrees(q.cells.nodes, index)
    && q.freeCount == Holes(Content(q.cells))
    && q.cells.headNode == 0 && q.cells.headIndex == 0 && q.cells.baseNodeSize == 2 && Counted(q.cells, 2)
  }

  ghost predicate SpareOk(q: LongQueue) {
    QueueOk(q, map[]) && Content(q.cells) == [] && q.cells.nodeIndex < |q.cells.nodes|
  }

  ghost predicate Good(l: Locks) {
    && (forall d :: d in l.queues ==> QueueOk(l.queues[d], Indices(l, d)))
    && (forall id :: id in l.locks && l.locks[id].index > 0 ==> l.locks[id].deadline in l.queues)
    && (forall i :: 0 <= i < |l.spare| ==> SpareOk(l.spare[i]))
  }

  /** A lock is stored in a cell of the queue of a deadline. */
  predicate StoredAt(l: Locks, d: int, n: int, k: int, id: Id) {
    d in l.queues && Has(l.queues[d].cells.nodes, n, k) && l.queues[d].cells.nodes[n][k] == Some(id)
  }

  /** What the invariant says of the program: a lock with an index is stored exactly where its index says in the queue
      of its own deadline; whatever is stored anywhere is there by its deadline and index, so no lock is stored twice,
      neither in one queue nor in two; and every free count is the number of holes. */
  lemma IndexAgreement(l: Locks)
    requires Good(l)
    ensures forall id :: id in l.locks && l.locks[id].index > 0 ==>
              StoredAt(l, l.locks[id].deadline, NodeOf(l.locks[id].index), SlotOf(l.locks[id].index), id)
    ensures forall d, n, k, id :: StoredAt(l, d, n, k, id) ==>
              id in l.locks && l.locks[id].deadline == d && n >= 0 && k >= 0 && l.locks[id].index == Pack(n, k)
    ensures forall d :: d in l.queues ==>
              Valid(l.queues[d].cells) && l.queues[d].freeCount == Holes(Content(l.queues[d].cells))
  {
    forall id | id in l.locks && l.locks[id].index > 0
      ensures StoredAt(l, l.locks[id].deadline, NodeOf(l.locks[id].index), SlotOf(l.locks[id].index), id)
    {
      var d := l.locks[id].deadline;
      assert QueueOk(l.queues[d], Indices(l, d)) && id in Indices(l, d);
      assert LeadsTo(l.queues[d].cells.nodes, l.locks[id].index, id);
    }
    forall d, n, k, id | StoredAt(l, d, n, k, id)
      ensures id in l.locks && l.locks[id].deadline == d && n >= 0 && k >= 0 && l.locks[id].index == Pack(n, k)
    {
      assert QueueOk(l.queues[d], Indices(l, d));
      assert Has(l.queues[d].cells.nodes, n, k);
    }
  }

  // ---------- the node count of one queue

  lemma PushCounted(q: Chunks<Id>, x: Option<Id>)
    requires Valid(q) && Counted(q, 2)
    ensures Counted(Push(q, x), 2)
  {
    hide Enter;
    EnterCounted(Write(q, q.tailNode, q.tailIndex, x));
  }

  lemma EnterCounted(q: Chunks<Id>)
    requires Valid(q) && Counted(q, 2)
    ensures Counted(Enter(q), 2)
  {
    assert |q.nodes[q.tailNode]| > 0;
  }

  lemma PushFields(q: Chunks<Id>, x: Option<Id>)
    requires Valid(q)
    ensures var q' := Push(q, x);
            q'.headNode == q.headNode && q'.headIndex == q.headIndex && q'.baseNodeSize == q.baseNodeSize
  {
  }

  lemma CompactedCounted(q: Chunks<Id>, index: map<Id, nat>)
    requires Valid(q) && Clean(q) && Narrow(q.nodes) && Agrees(q.nodes, index) && Counted(q, 2)
    ensures var s := Compacted(q, index);
            Counted(s.q, 2) && s.q.baseNodeSize == q.baseNodeSize && |s.q.nodes| == |q.nodes|
  {
    hide Agrees, Narrow, Clean, SweepFrom, Segment, NonNil;
    SweptOk(q, index);
    SweptCounted(q, SweptQueue(q, index).q);
  }

  lemma SweptCounted(q0: Chunks<Id>, q: Chunks<Id>)
    requires Valid(q0) && Counted(q0, 2) && Progress(q0, q, q0.tailNode, q0.tailIndex)
    ensures var t := Trimmed(q, q0.tailNode);
            Counted(t, 2) && t.baseNodeSize == q0.baseNodeSize && |t.nodes| == |q0.nodes|
  {
    hide Segment, NonNil, Content;
  }

  // ---------- how the indices change

  lemma IndicesSet(l: Locks, l': Locks, id: Id, d: int, i: nat)
    requires id in l.locks && l.locks[id].index == 0 && i > 0 && l'.locks == l.locks[id := LongLock(d, i)]
    ensures Indices(l', d) == Indices(l, d)[id := i]
    ensures forall e :: e != d ==> Indices(l', e) == Indices(l, e)
  {
  }

  lemma IndicesCleared(l: Locks, l': Locks, id: Id)
    requires id in l.locks && l'.locks == l.locks[id := l.locks[id].(index := 0)]
    ensures var d := l.locks[id].deadline;
            Indices(l', d) == Indices(l, d) - {id} && forall e :: e != d ==> Indices(l', e) == Indices(l, e)
  {
  }

  lemma IndicesMoved(l: Locks, l': Locks, d: int, index: map<Id, nat>)
    requires index.Keys == Indices(l, d).Keys && (forall id :: id in index ==> index[id] > 0)
    requires l'.locks == Reindexed(l.locks, index)
    ensures Indices(l', d) == index && forall e :: e != d ==> Indices(l', e) == Indices(l, e)
  {
  }

  lemma IndicesDrained(l: Locks, l': Locks, d: int, ids: set<Id>)
    requires ids == Indices(l, d).Keys && l'.locks == Unindexed(l.locks, ids)
    ensures Indices(l', d) == map[] && forall e :: e != d ==> Indices(l', e) == Indices(l, e)
  {
  }

  lemma NoIndices(l: Locks, d: int)
    requires Good(l) && d !in l.queues
    ensures Indices(l, d) == map[]
  {
  }

  // ---------- every operation keeps the invariant

  lemma NewQueueOk()
    ensures QueueOk(LongQueue(NewQueue<Id>(2, NODES, INIT_SIZE), 0), map[])
  {
    NewQueueEmpty<Id>(2, NODES, INIT_SIZE);
    var q := NewQueue<Id>(2, NODES, INIT_SIZE);
    assert forall n, k :: Has(q.nodes, n, k) ==> q.nodes[n][k] == None;
  }

  lemma QueueForOk(l: Locks, d: int)
    requires Good(l)
    ensures QueueOk(QueueFor(l, d), Indices(l, d))
    ensures forall i :: 0 <= i < |SpareAfter(l, d)| ==> SpareOk(SpareAfter(l, d)[i])
  {
    hide QueueOk, Indices;
    if d !in l.queues {
      NoIndices(l, d);
      NewQueueOk();
      if l.spare != [] {
        assert SpareOk(l.spare[|l.spare| - 1]);
      }
    }
  }

  lemma EnqueueQueue(q: LongQueue, index: map<Id, nat>, id: Id)
    requires QueueOk(q, index) && id !in index
    ensures QueueOk(LongQueue(Push(q.cells, Some(id)), q.freeCount),
            index[id := Pack(q.cells.tailNode, q.cells.tailIndex)])
  {
    hide Agrees, Narrow, Clean, Push, Content, Counted;
    InsertAgrees(q.cells, index, id);
    PushIsAppend(q.cells, Some(id));
    PushClean(q.cells, Some(id));
    PushCounted(q.cells, Some(id));
    PushFields(q.cells, Some(id));
  }

  lemma EnqueueGood(l: Locks, id: Id, checkTime: int)
    requires Good(l) && id in l.locks && l.locks[id].index == 0
    ensures Valid(QueueFor(l, Later(l.locks[id].deadline, checkTime)).cells)
    ensures Good(Enqueue(l, id, checkTime))
  {
    var d := Later(l.locks[id].deadline, checkTime);
    var q := QueueFor(l, d);
    QueueForOk(l, d);
    var l' := Enqueue(l, id, checkTime);
    var i := Pack(q.cells.tailNode, q.cells.tailIndex);
    assert id !in Indices(l, d);
    IndicesSet(l, l', id, d, i);
    EnqueueQueue(q, Indices(l, d), id);
    hide QueueOk, Indices, Push;
    assert l'.queues == l.queues[d := LongQueue(Push(q.cells, Some(id)), q.freeCount)];
  }

  lemma DequeueQueue(q: LongQueue, index: map<Id, nat>, id: Id)
    requires QueueOk(q, index) && id in index
    ensures Has(q.cells.nodes, NodeOf(index[id]), SlotOf(index[id]))
    ensures QueueOk(LongQueue(Write(q.cells, NodeOf(index[id]), SlotOf(index[id]), None), q.freeCount + 1),
            index - {id})
  {
    hide Agrees, Narrow, Clean, Content;
    RemoveAgrees(q.cells, index, id);
  }

  lemma WaitsInQueue(l: Locks, id: Id)
    requires Good(l) && id in l.locks && l.locks[id].index > 0
    ensures var r := l.locks[id];
            && r.deadline in l.queues && id in Indices(l, r.deadline) && Indices(l, r.deadline)[id] == r.index
            && QueueOk(l.queues[r.deadline], Indices(l, r.deadline))
  {
    hide QueueOk;
  }

  /** Only one queue and the locks of its deadline changed. */
  lemma OneQueueGood(l: Locks, l': Locks, d: int, q: LongQueue)
    requires Good(l) && l'.queues == l.queues[d := q] && l'.spare == l.spare && QueueOk(q, Indices(l', d))
    requires forall e :: e != d ==> Indices(l', e) == Indices(l, e)
    requires forall id :: id in l'.locks && l'.locks[id].index > 0 ==>
               l'.locks[id].deadline == d || (id in l.locks && l.locks[id].index > 0
                 && l.locks[id].deadline == l'.locks[id].deadline)
    ensures Good(l')
  {
    hide QueueOk, Indices;
  }

  lemma DequeueGood(l: Locks, id: Id)
    requires Good(l) && id in l.locks && l.locks[id].index > 0
    ensures var r := l.locks[id];
            r.deadline in l.queues && Has(l.queues[r.deadline].cells.nodes, NodeOf(r.index), SlotOf(r.index))
    ensures Good(Dequeue(l, id))
  {
    hide QueueOk, Indices, Write, Good;
    var d := l.locks[id].deadline;
    WaitsInQueue(l, id);
    DequeueQueue(l.queues[d], Indices(l, d), id);
    var l' := Dequeue(l, id);
    IndicesCleared(l, l', id);
    OneQueueGood(l, l', d, l'.queues[d]);
  }

  /** An empty queue of the shard becomes a usable spare one, unless its node count is no longer the number of a
      node. */
  lemma RecycleGood(l: Locks, q: Chunks<Id>)
    requires Good(l) && Valid(q) && Clean(q) && Narrow(q.nodes) && IsEmpty(q) && q.baseNodeSize == 2 && Counted(q, 2)
    ensures var r := Recycle(l, q);
            && (r.None? <==> |l.spare| < SPARE_QUEUES && q.nodeIndex >= |q.nodes|)
            && (r.Some? ==> Good(r.value) && r.value.locks == l.locks && r.value.queues == l.queues)
  {
    if |l.spare| < SPARE_QUEUES && q.nodeIndex < |q.nodes| {
      ResetOk(q);
      hide SpareOk, QueueOk, Reset;
      var l' := Recycle(l, q).value;
      assert forall d :: Indices(l', d) == Indices(l, d);
    }
  }

  lemma ResetOk(q: Chunks<Id>)
    requires Valid(q) && Clean(q) && Narrow(q.nodes) && IsEmpty(q) && q.baseNodeSize == 2 && Counted(q, 2)
    requires q.nodeIndex < |q.nodes|
    ensures SpareOk(LongQueue(Reset(q), 0))
  {
    ResetUsable(q);
    var q' := Reset(q);
    ExactCounted(q', 2);
    assert forall n, k :: Has(q'.nodes, n, k) ==> !Between(q', n, k);
  }

  lemma PositiveIndices(nodes: Nodes, index: map<Id, nat>)
    requires Agrees(nodes, index)
    ensures forall id :: id in index ==> index[id] > 0
  {
  }

  lemma CompactQueue(q: LongQueue, index: map<Id, nat>)
    requires QueueOk(q, index)
    ensures var s := Compacted(q.cells, index);
            && QueueOk(LongQueue(s.q, 0), s.index) && s.index.Keys == index.Keys
            && Content(s.q) == NonNil(Content(q.cells)) && s.q.nodeIndex == q.cells.nodeIndex
            && |s.q.nodes| == |q.cells.nodes|
  {
    hide Agrees, Narrow, Clean, Content, Counted, Compacted;
    CompactedAgrees(q.cells, index);
    CompactedCounted(q.cells, index);
  }

  /** With a lock in the index the queue is not empty. */
  lemma EmptyNoLocks(q: LongQueue, index: map<Id, nat>)
    requires QueueOk(q, index)
    ensures index.Keys == Values(Content(q.cells))
    ensures IsEmpty(q.cells) ==> index == map[]
  {
    forall id | id in index ensures Some(id) in Content(q.cells) {
      RemoveAgrees(q.cells, index, id);
      CellInContent(q.cells, NodeOf(index[id]), SlotOf(index[id]));
    }
    forall x | x in Content(q.cells) && x.Some? ensures x.value in index {
      var c := q.cells;
      var n, k := SegmentCell(c.nodes, c.headNode, c.headIndex, c.tailNode, c.tailIndex, x);
    }
    EmptyIff(q.cells);
  }

  lemma CellInContent(q: Chunks<Id>, n: nat, k: nat)
    requires Valid(q) && Has(q.nodes, n, k) && Between(q, n, k)
    ensures q.nodes[n][k] in Content(q)
  {
    hide Segment;
    SegmentSplit(q.nodes, q.headNode, q.headIndex, n, k, q.tailNode, q.tailIndex);
    TakeFirst(q.nodes, n, k, q.tailNode, q.tailIndex, q.nodes[n][k]);
  }

  lemma InParts<X>(a: seq<X>, b: seq<X>, c: seq<X>, x: X)
    requires x in a + b + c
    ensures x in a || x in b || x in c
  {
  }

  /** A value of a segment is in one of its cells. */
  lemma SegmentCell(nodes: Nodes, a: nat, b: nat, c: nat, d: nat, x: Option<Id>) returns (n: nat, k: nat)
    requires Cell(nodes, a, b) && Cell(nodes, c, d) && Upto(a, b, c, d) && x in Segment(nodes, a, b, c, d)
    ensures Has(nodes, n, k) && nodes[n][k] == x && Upto(n, k + 1, c, d)
  {
    hide Flat;
    if a == c {
      var i :| 0 <= i < |nodes[a][b..d]| && nodes[a][b..d][i] == x;
      n, k := a, b + i;
    } else {
      InParts(nodes[a][b..], Flat(nodes[a + 1..c]), nodes[c][..d], x);
      if x in nodes[a][b..] {
        var i :| 0 <= i < |nodes[a][b..]| && nodes[a][b..][i] == x;
        n, k := a, b + i;
      } else if x in nodes[c][..d] {
        var i :| 0 <= i < |nodes[c][..d]| && nodes[c][..d][i] == x;
        n, k := c, i;
      } else {
        n, k := FlatCell(nodes[a + 1..c], x);
        n := n + a + 1;
      }
    }
  }

  lemma {:induction false} FlatCell(nodes: Nodes, x: Option<Id>) returns (n: nat, k: nat)
    requires x in Flat(nodes)
    ensures Has(nodes, n, k) && nodes[n][k] == x
  {
    if x in nodes[0] {
      n := 0;
      k :| 0 <= k < |nodes[0]| && nodes[0][k] == x;
    } else {
      n, k := FlatCell(nodes[1..], x);
      n := n + 1;
    }
  }

  /** A queue is given up. */
  lemma QueueGivenUp(l: Locks, l': Locks, d: int)
    requires Good(l) && l'.queues == l.queues - {d} && l'.spare == l.spare && Indices(l', d) == map[]
    requires forall e :: e != d ==> Indices(l', e) == Indices(l, e)
    requires forall id :: id in l'.locks && l'.locks[id].index > 0 ==>
               id in l.locks && l.locks[id].index > 0 && l.locks[id].deadline == l'.locks[id].deadline
    ensures Good(l')
  {
    hide QueueOk;
    forall id | id in l'.locks && l'.locks[id].index > 0 ensures l'.locks[id].deadline in l'.queues {
      assert id in Indices(l', l'.locks[id].deadline);
    }
  }

  lemma ReindexedSame(l: Locks, d: int, index: map<Id, nat>)
    requires index.Keys == Indices(l, d).Keys && (forall id :: id in index ==> index[id] > 0)
    ensures forall id :: id in Reindexed(l.locks, index) && Reindexed(l.locks, index)[id].index > 0 ==>
              && id in l.locks && l.locks[id].index > 0
              && l.locks[id].deadline == Reindexed(l.locks, index)[id].deadline
  {
  }

  lemma QueueAt(l: Locks, d: int)
    requires Good(l) && d in l.queues
    ensures QueueOk(l.queues[d], Indices(l, d)) && Valid(l.queues[d].cells)
  {
  }

  lemma CompactFacts(q: LongQueue, index: map<Id, nat>)
    requires QueueOk(q, index)
    ensures var s := Compacted(q.cells, index);
            && Valid(s.q) && Clean(s.q) && Narrow(s.q.nodes) && Counted(s.q, 2) && s.q.baseNodeSize == 2
            && s.q.nodeIndex == q.cells.nodeIndex >= 0 && |s.q.nodes| == |q.cells.nodes|
            && Content(s.q) == NonNil(Content(q.cells)) && (IsEmpty(s.q) <==> NonNil(Content(q.cells)) == [])
            && QueueOk(LongQueue(s.q, 0), s.index) && s.index.Keys == index.Keys
            && forall id :: id in s.index ==> s.index[id] > 0
  {
    hide Compacted, Agrees, Narrow, Clean, Content;
    CompactQueue(q, index);
    var s := Compacted(q.cells, index);
    PositiveIndices(s.q.nodes, s.index);
    EmptyIff(s.q);
  }

  /** Compaction of the queue of a deadline: every lock keeps its deadline and gets the index of its new cell. It fails
      only if it leaves an empty queue whose node count is not the number of a node. */
  lemma CompactGood(l: Locks, d: int)
    requires Good(l) && d in l.queues
    ensures var s := Compacted(l.queues[d].cells, Indices(l, d));
            && Valid(s.q) && 0 <= s.q.nodeIndex && s.q.nodeIndex == l.queues[d].cells.nodeIndex
            && Content(s.q) == NonNil(Content(l.queues[d].cells))
    ensures var r := Compact(l, d);
            && (r.Some? ==> Good(r.value) && r.value.locks.Keys == l.locks.Keys)
            && (r.None? <==> NonNil(Content(l.queues[d].cells)) == [] && |l.spare| < SPARE_QUEUES
                             && l.queues[d].cells.nodeIndex >= |l.queues[d].cells.nodes|)
  {
    hide Compacted, QueueOk, Good, Indices, Narrow, Clean, Content, Counted, Recycle, Valid, NonNil, IsEmpty;
    QueueAt(l, d);
    var q, index := l.queues[d], Indices(l, d);
    CompactFacts(q, index);
    var s := Compacted(q.cells, index);
    var l' := l.(locks := Reindexed(l.locks, s.index), queues := l.queues - {d});
    IndicesMoved(l, l', d, s.index);
    ReindexedSame(l, d, s.index);
    if IsEmpty(s.q) {
      EmptyNoLocks(LongQueue(s.q, 0), s.index);
      QueueGivenUp(l, l', d);
      RecycleGood(l', s.q);
    } else {
      var l'' := l'.(queues := l.queues[d := LongQueue(s.q, 0)]);
      SameLocks(l', l'');
      OneQueueGood(l, l'', d, LongQueue(s.q, 0));
    }
  }

  lemma SameLocks(l: Locks, l': Locks)
    requires l'.locks == l.locks
    ensures forall d :: Indices(l', d) == Indices(l, d)
  {
  }

  lemma {:induction false} PopAllFacts(q: Chunks<Id>)
    requires Valid(q) && Clean(q)
    ensures var r := PopAll(q);
            && IsEmpty(r) && Clean(r) && r.nodeIndex == q.nodeIndex && |r.nodes| == |q.nodes|
            && r.baseNodeSize == q.baseNodeSize && (forall i :: 0 <= i < |q.nodes| ==> |r.nodes[i]| == |q.nodes[i]|)
    decreases |Content(q)|
  {
    hide Content, Clean;
    if !IsEmpty(q) {
      PopIsFirst(q);
      PopClean(q);
      PopAllFacts(Pop(q));
    }
  }

  /** The deadline has come: every lock of its queue is out of the long-wait queues. It fails only if the node count
      of the queue is not the number of a node. */
  lemma DrainGood(l: Locks, d: int)
    requires Good(l)
    ensures d in l.queues ==> Valid(l.queues[d].cells) && 0 <= PopAll(l.queues[d].cells).nodeIndex
    ensures var r := Drain(l, d);
            && (r.Some? ==> Good(r.value) && d !in r.value.queues && r.value.locks.Keys == l.locks.Keys)
            && (r.None? <==> d in l.queues && |l.spare| < SPARE_QUEUES
                             && l.queues[d].cells.nodeIndex >= |l.queues[d].cells.nodes|)
  {
    if d in l.queues {
      var q, index := l.queues[d], Indices(l, d);
      assert QueueOk(q, index);
      EmptyNoLocks(q, index);
      PopAllFacts(q.cells);
      var ids := Values(Content(q.cells));
      var l' := l.(locks := Unindexed(l.locks, ids), queues := l.queues - {d});
      var r := PopAll(q.cells);
      assert Narrow(r.nodes) && Counted(r, 2);
      hide QueueOk, Good, Indices, Agrees, Narrow, Clean, Content, Counted, Recycle;
      IndicesDrained(l, l', d, ids);
      QueueGivenUp(l, l', d);
      RecycleGood(l', r);
    }
  }
}
