/** The queue of one deadline, updated in place: locks are added at the end, taken out of the middle by their packed
    index, moved together when there are many holes, and taken out at the front when the deadline has come. */
module LongWait {
  import opened Protocol
  import opened LongWaitModel
  import L = LongLocks
  import M = QueueModel
  import P = QueueProofs
  import C = QueueCompaction
  import Q = LockQueue

  class LongWaitLockQueue {
    const locks: Q.LockQueue<Id>
    var freeCount: nat

    ghost predicate Valid()
      reads this, locks, locks.Arrays()
    {
      locks.Valid()
    }

    ghost function Value(): L.LongQueue
      requires Valid()
      reads this, locks, locks.Arrays()
    {
      L.LongQueue(locks.Value(), freeCount)
    }

    constructor ()
      ensures Valid() && Value() == L.LongQueue(M.NewQueue<Id>(2, L.NODES, L.INIT_SIZE), 0)
      ensures fresh(locks) && fresh(locks.Arrays())
    {
      locks := new Q.LockQueue<Id>(2, L.NODES, L.INIT_SIZE);
      freeCount := 0;
    }

    /** A lock is put behind the last one, and is told the index of its cell. */
    method Insert(id: Id) returns (index: nat)
      requires Valid()
      modifies locks, locks.Arrays()
      ensures Valid() && fresh(locks.Arrays() - old(locks.Arrays()))
      ensures var q := old(Value());
              index == Pack(q.cells.tailNode, q.cells.tailIndex) && Value() == q.(cells := M.Push(q.cells, Some(id)))
    {
      hide M.Push, M.Valid;
      locks.Bounds();
      index := Pack(locks.tailNodeIndex, locks.tailQueueIndex);
      locks.Push(Some(id));
    }

    /** The cell of an index becomes a hole. */
    method Remove(index: nat)
      requires Valid() && Has(locks.Nodes(), NodeOf(index), SlotOf(index))
      modifies `freeCount, locks.Arrays()
      ensures locks.Linked() && locks.Arrays() == old(locks.Arrays())
      ensures var q := old(Value());
              && locks.Value() == M.Write(q.cells, NodeOf(index), SlotOf(index), None)
              && freeCount == q.freeCount + 1
    {
      hide M.Valid, M.Write, Q.Separate, Q.AllCells;
      var n, k := NodeOf(index), SlotOf(index);
      locks.NodeCount();
      locks.NodeLength(n);
      locks.Set(locks.queues[n], n, k, None);
      freeCount := freeCount + 1;
    }

    // ---------- compaction

    ghost predicate Sweeping(q0: M.Chunks<Id>, index: map<Id, nat>, n: nat, k: nat)
      reads this, locks, locks.Arrays()
    {
      locks.Valid() && SweepOk(q0, Swept(locks.Value(), index), n, k)
    }

    method MoveCell(ghost q0: M.Chunks<Id>, index: map<Id, nat>, n: nat, k: nat) returns (index': map<Id, nat>)
      requires M.Valid(q0) && Sweeping(q0, index, n, k) && n <= q0.tailNode && k < LastCell(q0, n)
      modifies locks, locks.Arrays()
      ensures Sweeping(q0, index', n, k + 1) && locks.queues == old(locks.queues)
      ensures Has(old(locks.Nodes()), n, k)
      ensures Swept(locks.Value(), index') == MoveOne(Swept(old(locks.Value()), index), n, k)
    {
      hide M.Valid, Q.Separate, Q.AllCells, M.Content, C.Progress, Agrees, Narrow, M.Moved;
      ghost var s := Swept(locks.Value(), index);
      MoveOneOk(q0, s, n, k);
      InsideCell(q0, n, k);
      locks.NodeCount();
      locks.NodeLength(n);
      var x := locks.queues[n][k];
      index' := if x.Some? then index[x.value := Pack(locks.tailNodeIndex, locks.tailQueueIndex)] else index;
      locks.MoveCell(q0, n, k);
    }

    method SweepNode(ghost q0: M.Chunks<Id>, index: map<Id, nat>, n: nat, end: nat) returns (index': map<Id, nat>)
      requires M.Valid(q0) && Sweeping(q0, index, n, 0) && n <= q0.tailNode && end == LastCell(q0, n)
      modifies locks, locks.Arrays()
      ensures Sweeping(q0, index', n, end) && locks.queues == old(locks.queues)
      ensures SweepFrom(q0, Swept(locks.Value(), index'), n, end) ==
              SweepFrom(q0, Swept(old(locks.Value()), index), n, 0)
    {
      hide SweepOk, M.Valid, MoveOne, SweepFrom;
      index' := index;
      for k := 0 to end
        invariant Sweeping(q0, index', n, k) && locks.queues == old(locks.queues)
        invariant SweepFrom(q0, Swept(locks.Value(), index'), n, k) ==
                  SweepFrom(q0, Swept(old(locks.Value()), index), n, 0)
      {
        SweepCellStep(q0, Swept(locks.Value(), index'), n, k);
        index' := MoveCell(q0, index', n, k);
      }
    }

    method Sweep(ghost q0: M.Chunks<Id>, index: map<Id, nat>, lastNode: nat, lastIndex: nat)
      returns (index': map<Id, nat>)
      requires M.Valid(q0) && Sweeping(q0, index, 0, 0) && q0.tailNode == lastNode && q0.tailIndex == lastIndex
      requires locks.nodeQueueSizes == seq(|q0.nodes|, i requires 0 <= i < |q0.nodes| => |q0.nodes[i]|)
      modifies locks, locks.Arrays()
      ensures Sweeping(q0, index', lastNode, lastIndex) && locks.queues == old(locks.queues)
      ensures Swept(locks.Value(), index') == SweepFrom(q0, Swept(old(locks.Value()), index), 0, 0)
    {
      hide SweepOk, M.Valid, SweepFrom, Q.LockQueue.Linked;
      var sizes := locks.nodeQueueSizes;
      index' := index;
      C.Inside(q0, 0);
      for j := 0 to lastNode
        invariant Sweeping(q0, index', j, 0) && locks.queues == old(locks.queues)
        invariant j < |q0.nodes| && SweepFrom(q0, Swept(locks.Value(), index'), j, 0)
                  == SweepFrom(q0, Swept(old(locks.Value()), index), 0, 0)
      {
        C.Inside(q0, j);
        index' := SweepNode(q0, index', j, sizes[j]);
        ghost var s := Swept(locks.Value(), index');
        SweepNodeStep(q0, s, j);
        NextNodeOk(q0, s, j);
      }
      C.Inside(q0, lastNode);
      index' := SweepNode(q0, index', lastNode, lastIndex);
      SweepEnd(q0, Swept(locks.Value(), index'));
    }

    method SweepAll(index: map<Id, nat>) returns (index': map<Id, nat>, lastNode: nat)
      requires Valid() && Narrow(locks.Nodes()) && Agrees(locks.Nodes(), index)
      modifies locks, locks.Arrays()
      ensures lastNode == old(locks.tailNodeIndex) && locks.queues == old(locks.queues)
      ensures Sweeping(old(locks.Value()), index', lastNode, old(locks.tailQueueIndex))
      ensures Swept(locks.Value(), index') == SweptQueue(old(locks.Value()), index)
    {
      hide M.Valid, M.Content, C.Progress, Q.AllCells, Agrees, Narrow, SweepFrom;
      ghost var q0 := locks.Value();
      locks.Bounds();
      lastNode := locks.tailNodeIndex;
      var lastIndex := locks.tailQueueIndex;
      locks.Rewind();
      C.ProgressStart(q0);
      C.ProgressValid(q0, locks.Value(), 0, 0);
      index' := Sweep(q0, index, lastNode, lastIndex);
    }

    /** The locks move together in their order, and every lock gets the index of its new cell. */
    method Compact(index: map<Id, nat>) returns (index': map<Id, nat>)
      requires Valid() && M.Clean(locks.Value()) && Narrow(locks.Nodes()) && Agrees(locks.Nodes(), index)
      modifies this, locks, locks.Arrays()
      ensures Valid() && locks.Arrays() <= old(locks.Arrays()) && freeCount == 0
      ensures Swept(locks.Value(), index') == Compacted(old(locks.Value()), index)
    {
      hide M.Valid, M.Clean, M.Content, C.Progress, Q.AllCells, Q.Separate, M.Trimmed, Agrees, Narrow, Holes, SweepFrom;
      ghost var q0 := locks.Value();
      var lastNode;
      index', lastNode := SweepAll(index);
      ghost var swept := locks.Value();
      C.ProgressEnd(q0, swept);
      C.ProgressHead(q0, swept, lastNode, q0.tailIndex);
      C.ProgressValid(q0, swept, lastNode, q0.tailIndex);
      locks.Bounds();
      var n := locks.TrimNodes(lastNode);
      SweptBase(q0, swept, lastNode, q0.tailIndex);
      TrimmedFields(swept, lastNode);
      SizePositive(q0, n);
      ghost var trimmed := locks.Value();
      locks.queueSize := CompactedSize(locks.baseQueueSize, n);
      C.SizeKeeps(trimmed, locks.queueSize, locks.nodeIndex);
      freeCount := 0;
    }

    /** Takes all locks out at the front, as many as the queue has cells in use. */
    method PopLocks() returns (ids: set<Id>)
      requires Valid()
      modifies locks, locks.Arrays()
      ensures Valid() && locks.Arrays() == old(locks.Arrays()) && locks.Value() == L.PopAll(old(locks.Value()))
      ensures ids == L.Values(old(locks.Content()))
    {
      hide M.Valid, M.Content, L.PopAll, L.Values, M.IsEmpty, M.Pop, M.Exact, M.Clean, Q.LockQueue.Linked;
      var count := locks.Len();
      ids := {};
      while count > 0
        invariant Valid() && locks.Arrays() == old(locks.Arrays()) && count == |locks.Content()|
        invariant L.PopAll(locks.Value()) == L.PopAll(old(locks.Value()))
        invariant ids + L.Values(locks.Content()) == L.Values(old(locks.Content()))
      {
        PopAllStep(locks.Value());
        ghost var before := locks.Content();
        var x := locks.Pop();
        ValuesFirst(x, locks.Content());
        if x.Some? {
          ids := ids + {x.value};
        }
        count := count - 1;
      }
      PopAllStep(locks.Value());
      NoValues();
    }

    /** An empty queue is made ready to be used again; its node count must be the number of a node. */
    method Recycle()
      requires Valid() && 0 <= locks.nodeIndex < |locks.queues|
      modifies this, locks
      ensures locks.Linked() && locks.Arrays() <= old(locks.Arrays()) && freeCount == 0
      ensures |old(locks.Nodes())| == |old(locks.queues)| && old(locks.baseNodeSize) > 0
      ensures locks.Value() == M.Reset(old(locks.Value()))
    {
      hide M.Valid, M.Reset, M.Clean, M.Exact, M.Counted, M.Content;
      locks.Reset();
      freeCount := 0;
    }
  }

  lemma SweptBase(q0: M.Chunks<Id>, q: M.Chunks<Id>, n: nat, k: nat)
    requires C.Progress(q0, q, n, k)
    ensures q.baseQueueSize == q0.baseQueueSize
  {
  }

  lemma ValuesFirst(x: Option<Id>, rest: seq<Option<Id>>)
    ensures L.Values([x] + rest) == (if x.Some? then {x.value} else {}) + L.Values(rest)
  {
  }

  lemma NoValues()
    ensures L.Values([]) == {}
  {
  }

  lemma PopAllStep(q: M.Chunks<Id>)
    requires M.Valid(q)
    ensures if M.Content(q) == [] then L.PopAll(q) == q
            else !M.IsEmpty(q) && M.Valid(M.Pop(q)) && L.PopAll(q) == L.PopAll(M.Pop(q))
  {
    P.EmptyIff(q);
    if !M.IsEmpty(q) {
      P.PopIsFirst(q);
    }
  }

  lemma SweepCellStep(q0: M.Chunks<Id>, s: Swept, n: nat, k: nat)
    requires M.Valid(q0) && SweepOk(q0, s, n, k) && n <= q0.tailNode && k < LastCell(q0, n)
    ensures M.Valid(s.q) && Has(s.q.nodes, n, k) && SweepFrom(q0, s, n, k) == SweepFrom(q0, MoveOne(s, n, k), n, k + 1)
  {
    MoveOneOk(q0, s, n, k);
  }

  lemma SweepNodeStep(q0: M.Chunks<Id>, s: Swept, n: nat)
    requires M.Valid(q0) && n < q0.tailNode
    ensures n + 1 < |q0.nodes| && SweepFrom(q0, s, n, LastCell(q0, n)) == SweepFrom(q0, s, n + 1, 0)
  {
  }

  lemma SweepEnd(q0: M.Chunks<Id>, s: Swept)
    requires M.Valid(q0)
    ensures SweepFrom(q0, s, q0.tailNode, q0.tailIndex) == s
  {
  }
}
