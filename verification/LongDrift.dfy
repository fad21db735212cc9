/** A run of the long-wait queues after which the program indexes a node that does not exist: filling and compacting one
    queue over and over raises its node count, and the count is only used when the queue is given up. */
module LongDrift {
  import opened Protocol
  import opened QueueModel
  import opened QueueProofs
  import opened QueueCompaction
  import opened LongWaitModel
  import opened LongLocks
  import opened LongRuns

  const DAY: int := 86400
  const FULL: nat := 768

  // ---------- one queue with `c` cells in use; `drift` is what its node count is too high by

  ghost predicate Layout(q: Chunks<Id>, c: nat, drift: nat) {
    && |q.nodes| == NODES && q.baseQueueSize == INIT_SIZE && q.headNode == 0 && q.headIndex == 0 && c <= FULL
    && |q.nodes[0]| == 256 && (|q.nodes[1]| == 0 || |q.nodes[1]| == 512) && (c >= 256 ==> |q.nodes[1]| == 512)
    && |q.nodes[2]| == (if c == FULL then 1024 else 0) && (forall i :: 3 <= i < NODES ==> q.nodes[i] == [])
    && q.queueSize == (if |q.nodes[1]| == 0 then 256 else if c == FULL then 1024 else 512)
    && q.nodeIndex == drift + Bit(|q.nodes[1]| > 0) + Bit(c == FULL)
    && q.tailNode == (if c < 256 then 0 else if c < FULL then 1 else 2)
    && q.tailIndex == (if c < 256 then c else if c < FULL then c - 256 else 0)
  }

  lemma NewLayout()
    ensures Layout(NewQueue<Id>(2, NODES, INIT_SIZE), 0, 0)
  {
  }

  lemma PushLayout(q: Chunks<Id>, c: nat, drift: nat, x: Option<Id>)
    requires Valid(q) && Layout(q, c, drift) && c < FULL
    ensures Layout(Push(q, x), c + 1, drift)
  {
  }

  lemma WriteLayout(q: Chunks<Id>, c: nat, drift: nat, n: nat, k: nat, x: Option<Id>)
    requires Layout(q, c, drift) && Has(q.nodes, n, k)
    ensures Layout(Write(q, n, k, x), c, drift)
  {
  }

  lemma LayoutLength(q: Chunks<Id>, c: nat, drift: nat)
    requires Valid(q) && Layout(q, c, drift)
    ensures |Content(q)| == c
  {
    CellsBefore(q);
    var ns := q.nodes;
    assert ns[..0] == [] && ns[..1] == [ns[0]] && ns[..2] == [ns[0], ns[1]];
    var one, two := [ns[0]], [ns[0], ns[1]];
    assert one[1..] == [] && two[1..] == [ns[1]];
    var last := [ns[1]];
    assert last[1..] == [];
    assert Flat(last) == ns[1] + [] && Flat(one) == ns[0] + [] && Flat(two) == ns[0] + Flat(last);
  }

  lemma {:induction false} NonNilHoles(cells: seq<Option<Id>>)
    ensures |NonNil(cells)| + Holes(cells) == |cells|
  {
    if cells != [] {
      NonNilHoles(cells[1..]);
    }
  }

  /** Compacting a full queue with one lock in it gives the third node back and leaves the node count. */
  lemma CompactLayout(q: LongQueue, index: map<Id, nat>, drift: nat)
    requires QueueOk(q, index) && Layout(q.cells, FULL, drift) && q.freeCount == FULL - 1
    ensures var s := Compacted(q.cells, index).q; Layout(s, 1, drift + 1) && !IsEmpty(s)
  {
    hide Agrees, Narrow, Clean, Counted, NonNil, SweepFrom;
    LayoutLength(q.cells, FULL, drift);
    NonNilHoles(Content(q.cells));
    SweptOk(q.cells, index);
    var t := SweptQueue(q.cells, index).q;
    SweptLength(q.cells, t);
    OneCell(q.cells, t, drift);
  }

  lemma OneCell(q0: Chunks<Id>, q: Chunks<Id>, drift: nat)
    requires Valid(q0) && Layout(q0, FULL, drift) && Progress(q0, q, q0.tailNode, q0.tailIndex)
    requires q.tailNode <= 2 && |Flat(q0.nodes[..q.tailNode])| + q.tailIndex == 1
    ensures q.tailNode == 0 && q.tailIndex == 1
    ensures var s := Trimmed(q, 2).(queueSize := CompactedSize(INIT_SIZE, TrimTo(q, 2)));
            Layout(s, 1, drift + 1)
  {
    hide Segment, NonNil, Content;
    FirstNode(q0.nodes);
    if q.tailNode > 0 {
      FlatMonotone(q0.nodes, 1, q.tailNode);
    }
    assert Pow2(1) == 2;
  }

  lemma FirstNode(nodes: Nodes)
    requires nodes != []
    ensures |Flat(nodes[..1])| == |nodes[0]| && |Flat(nodes[..0])| == 0
  {
    var one := nodes[..1];
    assert one == [nodes[0]] && one[1..] == [];
    assert Flat(one) == nodes[0] + [];
  }

  // ---------- one round

  predicate Stored(l: Locks, id: Id) {
    id in l.locks && l.locks[id].deadline == DAY && l.locks[id].index > 0
  }

  predicate Idle(l: Locks, id: Id) { id in l.locks ==> l.locks[id].index == 0 }

  ghost predicate Shard(l: Locks, c: nat, drift: nat, free: nat) {
    && Good(l) && DAY in l.queues && Layout(l.queues[DAY].cells, c, drift) && l.queues[DAY].freeCount == free
    && l.spare == []
  }

  /** Locks 1 to `c` wait in the queue. */
  ghost predicate Filling(l: Locks, c: nat, drift: nat) {
    Shard(l, c, drift, 0) && (forall id :: 1 <= id <= c ==> Stored(l, id)) && (forall id :: id > c ==> Idle(l, id))
  }

  /** Locks 2 to `j - 1` have left a full queue. */
  ghost predicate Emptying(l: Locks, j: nat, drift: nat) {
    && 2 <= j <= FULL + 1 && Shard(l, FULL, drift, j - 2) && Stored(l, 1)
    && (forall id :: j <= id <= FULL ==> Stored(l, id)) && (forall id :: 2 <= id < j || id > FULL ==> Idle(l, id))
  }

  lemma JoinOne(l: Locks, c: nat, drift: nat)
    requires Shard(l, c, drift, 0) && c < FULL && (c + 1 in l.locks && l.locks[c + 1] == LongLock(DAY, 0))
    ensures Valid(QueueFor(l, DAY).cells)
    ensures var l' := Enqueue(l, c + 1, 0);
            && Shard(l', c + 1, drift, 0) && Stored(l', c + 1)
            && forall id :: id != c + 1 ==> (Stored(l', id) <==> Stored(l, id)) && (Idle(l', id) <==> Idle(l, id))
  {
    hide Good, Layout, Push;
    EnqueueGood(l, c + 1, 0);
    CellsValid(l, DAY);
    PushLayout(l.queues[DAY].cells, c, drift, Some(c + 1));
  }

  /** One more lock joins. */
  lemma FillOne(l: Locks, c: nat, drift: nat)
    requires Filling(l, c, drift) && c < FULL
    ensures var es := [SetDeadline(c + 1, DAY), Join(c + 1, 0)];
            Run(l, es) && Filling(After(l, es), c + 1, drift)
  {
    hide Good, Layout, Enqueue, Run, After;
    var id := c + 1;
    assert Idle(l, id);
    RunOne(l, SetDeadline(id, DAY));
    SetDeadlineGood(l, id, DAY);
    var l1 := l.(locks := l.locks[id := LongLock(DAY, 0)]);
    JoinOne(l1, c, drift);
    assert forall x :: x != id ==> (Stored(l1, x) <==> Stored(l, x)) && (Idle(l1, x) <==> Idle(l, x));
    RunOne(l1, Join(id, 0));
    RunPlus(l, [SetDeadline(id, DAY)], [Join(id, 0)]);
    assert [SetDeadline(id, DAY)] + [Join(id, 0)] == [SetDeadline(id, DAY), Join(id, 0)];
  }

  lemma CellsValid(l: Locks, d: int)
    requires Good(l) && d in l.queues
    ensures Valid(l.queues[d].cells) && QueueOk(l.queues[d], Indices(l, d))
  {
  }

  lemma {:induction false} Fill(l: Locks, c: nat, drift: nat) returns (es: seq<Event>)
    requires Filling(l, c, drift) && c <= FULL
    ensures Run(l, es) && Filling(After(l, es), FULL, drift)
    decreases FULL - c
  {
    FillingGood(l, c, drift);
    hide Filling, Good;
    if c == FULL {
      es := [];
    } else {
      var first := [SetDeadline(c + 1, DAY), Join(c + 1, 0)];
      FillOne(l, c, drift);
      var rest := Fill(After(l, first), c + 1, drift);
      RunPlus(l, first, rest);
      es := first + rest;
    }
  }

  lemma FillingGood(l: Locks, c: nat, drift: nat)
    requires Filling(l, c, drift)
    ensures Good(l)
  {
  }

  /** One lock leaves. */
  lemma EmptyOne(l: Locks, j: nat, drift: nat)
    requires Emptying(l, j, drift) && j <= FULL
    ensures Run(l, [Leave(j)]) && Emptying(After(l, [Leave(j)]), j + 1, drift)
  {
    hide Good, Layout, Run, After;
    assert Stored(l, j);
    DequeueGood(l, j);
    RunOne(l, Leave(j));
    var r, l' := l.locks[j], Dequeue(l, j);
    WriteLayout(l.queues[DAY].cells, FULL, drift, NodeOf(r.index), SlotOf(r.index), None);
    assert forall x :: x != j ==> (Stored(l', x) <==> Stored(l, x)) && (Idle(l', x) <==> Idle(l, x));
  }

  lemma {:induction false} Empty(l: Locks, j: nat, drift: nat) returns (es: seq<Event>)
    requires Emptying(l, j, drift)
    ensures Run(l, es) && Emptying(After(l, es), FULL + 1, drift)
    decreases FULL + 1 - j
  {
    EmptyingGood(l, j, drift);
    hide Emptying, Good;
    if j == FULL + 1 {
      es := [];
    } else {
      EmptyOne(l, j, drift);
      var rest := Empty(After(l, [Leave(j)]), j + 1, drift);
      RunPlus(l, [Leave(j)], rest);
      es := [Leave(j)] + rest;
    }
  }

  lemma EmptyingGood(l: Locks, j: nat, drift: nat)
    requires Emptying(l, j, drift)
    ensures Good(l) && j <= FULL + 1
  {
  }

  lemma CompactedShard(l: Locks, drift: nat)
    requires Shard(l, FULL, drift, FULL - 1)
    ensures Possible(l, Compaction(DAY)) && Step(l, Compaction(DAY)).Some?
    ensures var l' := Step(l, Compaction(DAY)).value;
            && Shard(l', 1, drift + 1, 0)
            && forall id :: (Stored(l', id) <==> Stored(l, id)) && (Idle(l', id) <==> Idle(l, id))
  {
    CellsValid(l, DAY);
    hide Good, Layout, Compacted, Content, QueueOk, NonNil;
    var q, index := l.queues[DAY], Indices(l, DAY);
    CompactGood(l, DAY);
    CompactLayout(q, index, drift);
    CompactedIndices(q, index);
    var s := Compacted(q.cells, index);
    EmptyIff(s.q);
    ReindexedStored(l, Step(l, Compaction(DAY)).value, s.index);
  }

  lemma CompactedIndices(q: LongQueue, index: map<Id, nat>)
    requires QueueOk(q, index)
    ensures var s := Compacted(q.cells, index);
            Valid(s.q) && s.index.Keys == index.Keys && forall id :: id in s.index ==> s.index[id] > 0
  {
    hide Compacted;
    CompactQueue(q, index);
    var s := Compacted(q.cells, index);
    PositiveIndices(s.q.nodes, s.index);
  }

  lemma ReindexedStored(l: Locks, l': Locks, index: map<Id, nat>)
    requires index.Keys == Indices(l, DAY).Keys && (forall id :: id in index ==> index[id] > 0)
    requires l'.locks == Reindexed(l.locks, index)
    ensures forall id :: (Stored(l', id) <==> Stored(l, id)) && (Idle(l', id) <==> Idle(l, id))
  {
  }

  /** The compaction leaves one lock, two nodes, and a node count that is one more too high. */
  lemma CompactOne(l: Locks, drift: nat)
    requires Emptying(l, FULL + 1, drift)
    ensures Run(l, [Compaction(DAY)]) && Filling(After(l, [Compaction(DAY)]), 1, drift + 1)
  {
    hide Good, Layout, Step, Possible;
    CompactedShard(l, drift);
    RunOne(l, Compaction(DAY));
  }

  lemma Round(l: Locks, drift: nat) returns (es: seq<Event>)
    requires Filling(l, 1, drift)
    ensures Run(l, es) && Filling(After(l, es), 1, drift + 1)
  {
    FillingGood(l, 1, drift);
    hide Good, Shard, Stored, Idle;
    var a := Fill(l, 1, drift);
    var l1 := After(l, a);
    assert Emptying(l1, 2, drift);
    var b := Empty(l1, 2, drift);
    var l2 := After(l1, b);
    CompactOne(l2, drift);
    RunPlus(l1, b, [Compaction(DAY)]);
    RunPlus(l, a, b + [Compaction(DAY)]);
    es := a + (b + [Compaction(DAY)]);
  }

  lemma {:induction false} Rounds(n: nat) returns (es: seq<Event>)
    ensures Run(EMPTY_LOCKS, es) && Filling(After(EMPTY_LOCKS, es), 1, n)
  {
    hide Filling, Good;
    EmptyGood();
    if n == 0 {
      es := FirstLock();
    } else {
      var a := Rounds(n - 1);
      var b := Round(After(EMPTY_LOCKS, a), n - 1);
      RunPlus(EMPTY_LOCKS, a, b);
      es := a + b;
    }
  }

  /** A first lock makes the queue. */
  lemma FirstLock() returns (es: seq<Event>)
    ensures Run(EMPTY_LOCKS, es) && Filling(After(EMPTY_LOCKS, es), 1, 0)
  {
    hide Good, Layout, Push, Run, After;
    es := [SetDeadline(1, DAY), Join(1, 0)];
    EmptyGood();
    RunOne(EMPTY_LOCKS, SetDeadline(1, DAY));
    SetDeadlineGood(EMPTY_LOCKS, 1, DAY);
    var l1 := EMPTY_LOCKS.(locks := map[1 := LongLock(DAY, 0)]);
    assert EMPTY_LOCKS.locks[1 := LongLock(DAY, 0)] == l1.locks;
    EnqueueGood(l1, 1, 0);
    RunOne(l1, Join(1, 0));
    RunPlus(EMPTY_LOCKS, [SetDeadline(1, DAY)], [Join(1, 0)]);
    assert [SetDeadline(1, DAY)] + [Join(1, 0)] == es;
    NewLayout();
    PushLayout(NewQueue<Id>(2, NODES, INIT_SIZE), 0, 0, Some(1));
  }

  lemma TooHigh(q: Chunks<Id>, n: nat)
    requires Layout(q, 1, n) && n > 0
    ensures q.nodeIndex >= n && !Exact(q)
  {
    assert |q.nodes[2]| == 0 && q.nodeIndex >= Bit(|q.nodes[1]| > 0) + 1;
  }

  /** The node count of a queue in use can be too high by any number. */
  lemma DriftReached(n: nat) returns (es: seq<Event>)
    requires n > 0
    ensures Run(EMPTY_LOCKS, es)
    ensures var l := After(EMPTY_LOCKS, es);
            && Good(l) && l.spare == [] && DAY in l.queues
            && l.queues[DAY].cells.nodeIndex >= n && |l.queues[DAY].cells.nodes| == NODES && !Exact(l.queues[DAY].cells)
  {
    hide Good, Run, After;
    EmptyGood();
    es := Rounds(n);
    TooHigh(After(EMPTY_LOCKS, es).queues[DAY].cells, n);
  }

  /** After 64 rounds the node count is the number of no node, and giving the queue up when its deadline comes indexes
      out of range. */
  lemma ResetOutOfRange() returns (es: seq<Event>)
    ensures Run(EMPTY_LOCKS, es) && Good(After(EMPTY_LOCKS, es))
    ensures Step(After(EMPTY_LOCKS, es), Due(DAY)).None?
  {
    hide Good, Run, After, Drain;
    EmptyGood();
    es := DriftReached(64);
    DrainGood(After(EMPTY_LOCKS, es), DAY);
  }
}
