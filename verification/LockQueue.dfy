/** The chunked deque itself: an array for every node, two cursors with cached nodes and sizes, updated in place. A nil
    pointer is `None`. */
module LockQueue {
  import opened Protocol
  import M = QueueModel
  import P = QueueProofs
  import C = QueueCompaction

  ghost function NodeCells<T>(node: array?<Option<T>>): seq<Option<T>>
    reads node
  {
    if node == null then [] else node[..]
  }

  ghost function AllCells<T>(nodes: seq<array?<Option<T>>>): seq<seq<Option<T>>>
    reads set a: array<Option<T>> | a in nodes
  {
    seq(|nodes|, i requires 0 <= i < |nodes| reads if 0 <= i < |nodes| then {nodes[i]} else {} =>
          NodeCells(nodes[i]))
  }

  /** Nodes are separate non-empty arrays, with their sizes on record. */
  ghost predicate Separate<T>(nodes: seq<array?<Option<T>>>, sizes: seq<int>) {
    && |sizes| == |nodes|
    && (forall i :: 0 <= i < |nodes| ==> sizes[i] == if nodes[i] == null then 0 else nodes[i].Length)
    && (forall i :: 0 <= i < |nodes| && nodes[i] != null ==> nodes[i].Length > 0)
    && (forall i, j :: 0 <= i < j < |nodes| && nodes[i] != null ==> nodes[i] != nodes[j])
  }

  lemma SeparatePlus<T>(nodes: seq<array?<Option<T>>>, sizes: seq<int>, node: array<Option<T>>)
    requires Separate(nodes, sizes) && node !in nodes && node.Length > 0
    ensures Separate(nodes + [node], sizes + [node.Length]) && AllCells(nodes + [node]) == AllCells(nodes) + [node[..]]
    ensures forall a: array?<Option<T>> :: a in nodes + [node] <==> a in nodes || a == node
  {
  }

  lemma SeparateFill<T>(nodes: seq<array?<Option<T>>>, sizes: seq<int>, n: nat, node: array<Option<T>>)
    requires Separate(nodes, sizes) && node !in nodes && node.Length > 0 && n < |nodes| && nodes[n] == null
    ensures Separate(nodes[n := node], sizes[n := node.Length])
    ensures AllCells(nodes[n := node]) == AllCells(nodes)[n := node[..]]
    ensures forall a: array?<Option<T>> :: a in nodes[n := node] && a != null ==> a in nodes || a == node
  {
  }

  /** The nodes from `from` to `to` are given back. */
  ghost predicate Dropped<T>(nodes: seq<array?<Option<T>>>, nodes': seq<array?<Option<T>>>, from: int, to: int) {
    && |nodes'| == |nodes|
    && forall i :: 0 <= i < |nodes| ==> nodes'[i] == if from <= i <= to then null else nodes[i]
  }

  lemma DropOne<T>(nodes: seq<array?<Option<T>>>, nodes': seq<array?<Option<T>>>, sizes: seq<int>, n: nat, to: int)
    requires Separate(nodes', sizes) && n < |nodes'| && Dropped(nodes, nodes', n + 1, to) && n <= to
    ensures Separate(nodes'[n := null], sizes[n := 0]) && Dropped(nodes, nodes'[n := null], n, to)
  {
  }

  lemma DroppedCells<T>(nodes: seq<array?<Option<T>>>, nodes': seq<array?<Option<T>>>, from: int, to: int)
    requires Dropped(nodes, nodes', from, to)
    ensures AllCells(nodes') == M.Released(AllCells(nodes), from, to)
    ensures forall a :: a in nodes' && a != null ==> a in nodes
  {
  }

  lemma ShiftedMore<X>(was: seq<X>, xs: seq<X>, base: int, head: int, i: int, nil: X)
    requires M.Shifted(was, xs, base, head, i, nil) && i < |was|
    ensures M.Shifted(was, xs[i - (head - base) := xs[i]][i := nil], base, head, i + 1, nil)
  {
  }

  lemma ShiftedNodes<T>(was: seq<array?<Option<T>>>, nodes: seq<array?<Option<T>>>, sizes: seq<int>, sizes': seq<int>,
                        base: int, head: int, end: int)
    requires Separate(was, sizes) && M.Shifted(was, nodes, base, head, end, null)
             && M.Shifted(sizes, sizes', base, head, end, 0)
    ensures Separate(nodes, sizes') && |nodes| == |sizes'| == |was| && forall a :: a in nodes && a != null ==> a in was
    ensures forall i :: head <= i < end ==> nodes[i - (head - base)] == was[i]
  {
    forall i, j | 0 <= i < j < |nodes| && nodes[i] != null ensures nodes[i] != nodes[j] {
      assert nodes[i] == M.ShiftedAt(was, base, head, end, null, i);
      assert nodes[j] == M.ShiftedAt(was, base, head, end, null, j);
    }
  }

  lemma ShiftedCells<T>(was: seq<array?<Option<T>>>, nodes: seq<array?<Option<T>>>, base: int, head: int, end: int)
    requires M.Shifted(was, nodes, base, head, end, null)
    ensures M.Shifted(AllCells(was), AllCells(nodes), base, head, end, [])
  {
    forall x | 0 <= x < |nodes| ensures AllCells(nodes)[x] == M.ShiftedAt(AllCells(was), base, head, end, [], x) {
      assert nodes[x] == M.ShiftedAt(was, base, head, end, null, x);
    }
  }

  class LockQueue<T> {
    var headQueueIndex: int
    var headQueueSize: int
    var headQueue: array<Option<T>>
    var tailQueueIndex: int
    var tailQueueSize: int
    var tailQueue: array<Option<T>>
    var headNodeIndex: int
    var tailNodeIndex: int
    var queues: seq<array?<Option<T>>>
    var nodeQueueSizes: seq<int>
    var baseNodeSize: nat
    var nodeIndex: int
    var nodeSize: int
    var baseQueueSize: nat
    var queueSize: nat

    ghost function Arrays(): set<array<Option<T>>>
      reads this`queues
    {
      set a: array<Option<T>> | a in queues
    }

    ghost function Nodes(): seq<seq<Option<T>>>
      reads this`queues, Arrays()
    {
      AllCells(queues)
    }

    /** Nodes are separate arrays with their sizes on record, and the cached nodes are those of the cursors. */
    ghost predicate Linked()
      reads this
    {
      && Separate(queues, nodeQueueSizes) && nodeSize == |queues| == |nodeQueueSizes|
      && 0 <= headQueueIndex && 0 <= tailQueueIndex
      && 0 <= headNodeIndex < |queues| && 0 <= tailNodeIndex < |queues|
      && headQueue == queues[headNodeIndex] && headQueueSize == headQueue.Length
      && tailQueue == queues[tailNodeIndex] && tailQueueSize == tailQueue.Length
    }

    ghost function Value(): M.Chunks<T>
      requires Linked()
      reads this, Arrays()
    {
      M.Chunks(Nodes(), headNodeIndex, headQueueIndex, tailNodeIndex, tailQueueIndex, nodeIndex, baseNodeSize,
               baseQueueSize, queueSize)
    }

    ghost predicate Valid()
      reads this, Arrays()
    {
      Linked() && M.Valid(Value())
    }

    /** The plain sequence. */
    ghost function Content(): seq<Option<T>>
      requires Valid()
      reads this, Arrays()
    {
      M.Content(Value())
    }

    constructor (baseNodeSize: nat, nodeSize: nat, queueSize: nat)
      requires baseNodeSize > 0 && nodeSize > 0 && queueSize > 0
      ensures Valid() && M.Exact(Value()) && M.Clean(Value()) && Content() == [] && fresh(Arrays())
      ensures Value() == M.NewQueue<T>(baseNodeSize, nodeSize, queueSize)
    {
      var node := new Option<T>[queueSize](_ => None);
      queues := seq(nodeSize, i => if i == 0 then node else null);
      nodeQueueSizes := seq(nodeSize, i => if i == 0 then queueSize else 0);
      headQueue, tailQueue := node, node;
      headQueueIndex, headQueueSize, tailQueueIndex, tailQueueSize := 0, queueSize, 0, queueSize;
      headNodeIndex, tailNodeIndex := 0, 0;
      this.baseNodeSize, this.nodeSize, this.nodeIndex := baseNodeSize, nodeSize, 0;
      this.baseQueueSize, this.queueSize := queueSize, queueSize;
      new;
      assert node[..] == M.Blank<T>(queueSize);
      assert Nodes() == M.NewQueue<T>(baseNodeSize, nodeSize, queueSize).nodes;
      P.NewQueueEmpty<T>(baseNodeSize, nodeSize, queueSize);
    }

    method NewNode() returns (node: array<Option<T>>)
      modifies `queueSize
      requires queueSize > 0
      ensures queueSize == M.Doubled(old(queueSize)) && fresh(node) && node[..] == M.Blank<T>(queueSize)
      ensures node.Length == queueSize > 0
    {
      queueSize := queueSize * 2;
      if queueSize > M.MAX_MALLOC_SIZE {
        queueSize := M.MAX_MALLOC_SIZE;
      }
      node := new Option<T>[queueSize](_ => None);
    }

    /** Space for the node behind the tail. */
    method AddNode()
      requires Linked() && tailNodeIndex + 1 >= nodeSize && queueSize > 0
      modifies `queues, `nodeQueueSizes, `nodeIndex, `nodeSize, `queueSize
      ensures Linked() && fresh(Arrays() - old(Arrays())) && tailNodeIndex + 1 < nodeSize
      ensures queues[tailNodeIndex + 1] != null
      ensures Value() == old(Value()).(nodes := old(Nodes()) + [M.Blank(queueSize)], nodeIndex := old(nodeIndex) + 1,
                                       queueSize := M.Doubled(old(queueSize)))
    {
      hide M.Doubled, M.Blank, AllCells, Separate;
      var node := NewNode();
      SeparatePlus(queues, nodeQueueSizes, node);
      queues := queues + [node];
      nodeQueueSizes := nodeQueueSizes + [queueSize];
      nodeIndex := nodeIndex + 1;
      nodeSize := nodeSize + 1;
    }

    method FillNode()
      requires Linked() && tailNodeIndex + 1 < nodeSize && queues[tailNodeIndex + 1] == null && queueSize > 0
      modifies `queues, `nodeQueueSizes, `nodeIndex, `queueSize
      ensures Linked() && fresh(Arrays() - old(Arrays())) && queues[tailNodeIndex + 1] != null
      ensures Value() == old(Value()).(nodes := old(Nodes())[tailNodeIndex + 1 := M.Blank(queueSize)],
                                       nodeIndex := old(nodeIndex) + 1, queueSize := M.Doubled(old(queueSize)))
    {
      hide M.Doubled, M.Blank, AllCells, Separate;
      var n := tailNodeIndex + 1;
      var node := NewNode();
      SeparateFill(queues, nodeQueueSizes, n, node);
      queues := queues[n := node];
      nodeQueueSizes := nodeQueueSizes[n := queueSize];
      nodeIndex := nodeIndex + 1;
    }

    lemma NodeLength(n: nat)
      requires Linked() && n < |queues|
      ensures |Nodes()| == |queues| && |Nodes()[n]| == nodeQueueSizes[n]
      ensures queues[n] == null ==> Nodes()[n] == []
      ensures queues[n] != null ==> Nodes()[n] == queues[n][..] && nodeQueueSizes[n] == queues[n].Length > 0
    {
    }

    lemma NodeCount()
      requires Linked()
      ensures |Nodes()| == |queues|
    {
    }

    /** The tail cursor moves to an allocated node, which is cached with its size. */
    method MoveTail(n: nat, k: nat)
      requires Linked() && n < nodeSize && queues[n] != null
      modifies `tailNodeIndex, `tailQueueIndex, `tailQueue, `tailQueueSize
      ensures Linked() && Value() == old(Value()).(tailNode := n, tailIndex := k)
    {
      hide Separate, AllCells;
      NodeLength(n);
      tailNodeIndex, tailQueueIndex := n, k;
      tailQueue := queues[n];
      tailQueueSize := nodeQueueSizes[n];
    }

    method MoveHead(n: nat, k: nat)
      requires Linked() && n < nodeSize && queues[n] != null
      modifies `headNodeIndex, `headQueueIndex, `headQueue, `headQueueSize
      ensures Linked() && Value() == old(Value()).(headNode := n, headIndex := k)
    {
      hide Separate, AllCells;
      NodeLength(n);
      headNodeIndex, headQueueIndex := n, k;
      headQueue := queues[n];
      headQueueSize := nodeQueueSizes[n];
    }

    /** The tail cursor enters the next node, which is allocated if need be. */
    method Enter()
      requires Linked() && queueSize > 0
      modifies this
      ensures Linked() && Value() == M.Enter(old(Value())) && fresh(Arrays() - old(Arrays()))
      ensures nodeIndex == old(nodeIndex) ==> queues == old(queues)
    {
      hide M.Doubled, M.Blank, Separate, AllCells, Linked;
      EnterBounds();
      if tailNodeIndex + 1 >= nodeSize {
        AddNode();
      } else if queues[tailNodeIndex + 1] == null {
        FillNode();
      }
      MoveTail(tailNodeIndex + 1, 0);
    }

    lemma EnterBounds()
      requires Linked()
      ensures 0 <= tailNodeIndex && |Nodes()| == |queues| == nodeSize
      ensures tailNodeIndex + 1 < nodeSize ==>
                (queues[tailNodeIndex + 1] == null <==> Nodes()[tailNodeIndex + 1] == [])
    {
      if tailNodeIndex + 1 < nodeSize {
        NodeLength(tailNodeIndex + 1);
      }
    }

    /** Writes one cell of a node. */
    method Set(node: array<Option<T>>, ghost n: nat, k: nat, x: Option<T>)
      requires Linked() && n < |queues| && queues[n] == node && k < node.Length
      modifies node
      ensures Linked() && n < |old(Nodes())| && k < |old(Nodes())[n]|
      ensures Value() == M.Write(old(Value()), n, k, x)
    {
      NodeLength(n);
      node[k] := x;
      assert Nodes() == old(Nodes())[n := old(Nodes())[n][k := x]];
    }

    lemma Bounds()
      requires Valid()
      ensures headQueueIndex < headQueue.Length && tailQueueIndex < tailQueue.Length && queueSize > 0
      ensures headNodeIndex <= tailNodeIndex && (headNodeIndex == tailNodeIndex ==> headQueueIndex <= tailQueueIndex)
      ensures |Nodes()| == |queues|
      ensures forall i :: 0 <= i <= tailNodeIndex ==> queues[i] != null && nodeQueueSizes[i] == queues[i].Length > 0
      ensures forall i :: 0 <= i < |queues| ==> |Nodes()[i]| == nodeQueueSizes[i]
      ensures Nodes()[headNodeIndex] == headQueue[..] && Nodes()[tailNodeIndex] == tailQueue[..]
    {
      NodeLength(headNodeIndex);
      NodeLength(tailNodeIndex);
      forall i | 0 <= i <= tailNodeIndex ensures queues[i] != null && nodeQueueSizes[i] == queues[i].Length > 0 {
        NodeLength(i);
      }
    }

    method PushCell(x: Option<T>)
      requires Valid()
      modifies this, Arrays()
      ensures Linked() && Value() == M.Push(old(Value()), x) && fresh(Arrays() - old(Arrays()))
      ensures nodeIndex == old(nodeIndex) ==> queues == old(queues)
    {
      hide M.Enter, Separate, AllCells, M.Valid, M.Write;
      Bounds();
      Set(tailQueue, tailNodeIndex, tailQueueIndex, x);
      StepTail();
      if tailQueueIndex >= tailQueueSize {
        P.EnterAnyIndex(Value(), tailQueueIndex - 1);
        Enter();
      }
    }

    method StepTail()
      requires Linked()
      modifies `tailQueueIndex
      ensures Linked() && Value() == old(Value()).(tailIndex := old(tailQueueIndex) + 1)
    {
      hide Separate, AllCells;
      tailQueueIndex := tailQueueIndex + 1;
    }

    /** A value at the end. */
    method Push(x: Option<T>)
      requires Valid()
      modifies this, Arrays()
      ensures Valid() && Content() == old(Content()) + [x] && fresh(Arrays() - old(Arrays()))
      ensures old(M.Exact(Value())) ==> M.Exact(Value())
      ensures old(M.Clean(Value())) ==> M.Clean(Value())
      ensures Value() == M.Push(old(Value()), x) && (nodeIndex == old(nodeIndex) ==> queues == old(queues))
    {
      hide M.Push, M.Exact, M.Clean, M.Content, M.Valid;
      ghost var q := Value();
      PushCell(x);
      P.PushIsAppend(q, x);
      if M.Exact(q) { P.PushExact(q, x); }
      if M.Clean(q) { P.PushClean(q, x); }
    }

    /** A value at the front, if there is room before the head cursor. */
    method PushLeft(x: Option<T>) returns (ok: bool)
      requires Valid()
      modifies this, Arrays()
      ensures Valid() && Arrays() == old(Arrays())
      ensures ok <==> old(headNodeIndex > 0 || headQueueIndex > 0)
      ensures Content() == if ok then [x] + old(Content()) else old(Content())
      ensures ok ==> (old(M.Exact(Value()) && M.Clean(Value())) ==> M.Exact(Value()) && M.Clean(Value()))
    {
      hide M.Exact, M.Clean, M.Content, M.Valid, Separate, AllCells, M.Write;
      ghost var q := Value();
      if headNodeIndex <= 0 && headQueueIndex <= 0 {
        return false;
      }
      Bounds();
      NotLeftFull();
      if headQueueIndex - 1 < 0 {
        MoveHead(headNodeIndex - 1, nodeQueueSizes[headNodeIndex - 1] - 1);
      } else {
        MoveHead(headNodeIndex, headQueueIndex - 1);
      }
      Set(headQueue, headNodeIndex, headQueueIndex, x);
      P.PushLeftIsPrepend(q, x);
      if M.Exact(q) && M.Clean(q) { P.PushLeftClean(q, x); }
      return true;
    }

    lemma NotLeftFull()
      requires Valid() && !(headNodeIndex <= 0 && headQueueIndex <= 0)
      ensures !M.LeftFull(Value()) && (headQueueIndex == 0 ==> nodeQueueSizes[headNodeIndex - 1] > 0)
    {
      if headQueueIndex == 0 { NodeLength(headNodeIndex - 1); }
    }

    method PopCell() returns (x: Option<T>)
      requires Valid() && !M.IsEmpty(Value())
      modifies this, Arrays()
      ensures Linked() && Value() == M.Pop(old(Value())) && Arrays() == old(Arrays())
      ensures x == M.Head(old(Value()))
    {
      hide M.Valid, Separate, AllCells, M.Write;
      Bounds();
      x := headQueue[headQueueIndex];
      Set(headQueue, headNodeIndex, headQueueIndex, None);
      if headQueueIndex + 1 >= headQueueSize {
        MoveHead(headNodeIndex + 1, 0);
      } else {
        MoveHead(headNodeIndex, headQueueIndex + 1);
      }
    }

    /** Takes the first value. */
    method Pop() returns (x: Option<T>)
      requires Valid()
      modifies this, Arrays()
      ensures Valid() && Arrays() == old(Arrays())
      ensures if old(Content()) == [] then x == None && Content() == [] else old(Content()) == [x] + Content()
      ensures old(M.Exact(Value())) ==> M.Exact(Value())
      ensures old(M.Clean(Value())) ==> M.Clean(Value())
      ensures old(!M.IsEmpty(Value())) ==> Value() == M.Pop(old(Value()))
    {
      hide M.Exact, M.Clean, M.Content, M.Valid, M.Pop, Separate, AllCells;
      ghost var q := Value();
      P.EmptyIff(q);
      if tailQueueIndex <= headQueueIndex && tailNodeIndex <= headNodeIndex {
        return None;
      }
      P.PopIsFirst(q);
      if M.Exact(q) { P.PopsExact(q); }
      if M.Clean(q) { P.PopClean(q); }
      x := PopCell();
    }

    method PopRightCell() returns (x: Option<T>)
      requires Valid() && !M.IsEmpty(Value())
      modifies this, Arrays()
      ensures Linked() && Value() == M.PopRight(old(Value())) && Arrays() == old(Arrays())
      ensures var q := old(Value()); var b := M.Back(q); x == q.nodes[b.tailNode][b.tailIndex]
    {
      hide M.Valid, Separate, AllCells, M.Write;
      Bounds();
      if tailQueueIndex - 1 < 0 {
        MoveTail(tailNodeIndex - 1, nodeQueueSizes[tailNodeIndex - 1] - 1);
      } else {
        MoveTail(tailNodeIndex, tailQueueIndex - 1);
      }
      NodeLength(tailNodeIndex);
      x := tailQueue[tailQueueIndex];
      Set(tailQueue, tailNodeIndex, tailQueueIndex, None);
    }

    /** Takes the last value. */
    method PopRight() returns (x: Option<T>)
      requires Valid()
      modifies this, Arrays()
      ensures Valid() && Arrays() == old(Arrays())
      ensures if old(Content()) == [] then x == None && Content() == [] else old(Content()) == Content() + [x]
      ensures old(M.Exact(Value())) ==> M.Exact(Value())
      ensures old(M.Clean(Value())) ==> M.Clean(Value())
    {
      hide M.Exact, M.Clean, M.Content, M.Valid, M.PopRight, Separate, AllCells;
      ghost var q := Value();
      P.EmptyIff(q);
      if tailQueueIndex <= headQueueIndex && tailNodeIndex <= headNodeIndex {
        return None;
      }
      P.PopRightIsLast(q);
      if M.Exact(q) { P.PopsExact(q); }
      if M.Clean(q) { P.PopRightClean(q); }
      x := PopRightCell();
    }

    /** The first value, without taking it. */
    method Head() returns (x: Option<T>)
      requires Valid()
      ensures x == if Content() == [] then None else Content()[0]
    {
      hide M.Content, M.Valid, Separate, AllCells;
      P.EmptyIff(Value());
      if tailQueueIndex <= headQueueIndex && tailNodeIndex <= headNodeIndex {
        return None;
      }
      P.PopIsFirst(Value());
      Bounds();
      return headQueue[headQueueIndex];
    }

    method Len() returns (n: int)
      requires Valid()
      ensures n == |Content()|
    {
      hide M.Valid, Separate, AllCells, M.Flat;
      Bounds();
      if tailNodeIndex <= headNodeIndex {
        return tailQueueIndex - headQueueIndex;
      }
      ghost var nodes := Nodes();
      n := nodeQueueSizes[headNodeIndex] - headQueueIndex;
      P.FlatEmpty(nodes, headNodeIndex + 1);
      for i := headNodeIndex + 1 to tailNodeIndex
        invariant n == nodeQueueSizes[headNodeIndex] - headQueueIndex + |M.Flat(nodes[headNodeIndex + 1..i])|
      {
        P.FlatLength(nodes, headNodeIndex + 1, i);
        n := n + nodeQueueSizes[i];
      }
      n := n + tailQueueIndex;
    }

    // ---------- giving nodes back

    method DropNodes(keep: nat)
      requires Separate(queues, nodeQueueSizes) && 0 <= nodeIndex < |queues| == |nodeQueueSizes| && keep > 0
      modifies `queues, `nodeQueueSizes, `nodeIndex
      ensures Separate(queues, nodeQueueSizes) && Dropped(old(queues), queues, keep, old(nodeIndex))
      ensures nodeIndex == if old(nodeIndex) >= keep then keep - 1 else old(nodeIndex)
      ensures |queues| == |nodeQueueSizes|
      ensures forall i :: 0 <= i < |queues| && i < keep ==> nodeQueueSizes[i] == old(nodeQueueSizes)[i]
    {
      hide Separate;
      while nodeIndex >= keep
        invariant Separate(queues, nodeQueueSizes) && |queues| == |nodeQueueSizes| == |old(queues)|
        invariant nodeIndex <= old(nodeIndex) && (nodeIndex >= keep - 1 || nodeIndex == old(nodeIndex))
        invariant Dropped(old(queues), queues, nodeIndex + 1, old(nodeIndex))
        invariant forall i :: 0 <= i < |queues| && i < keep ==> nodeQueueSizes[i] == old(nodeQueueSizes)[i]
        decreases nodeIndex
      {
        DropOne(old(queues), queues, nodeQueueSizes, nodeIndex, old(nodeIndex));
        queues := queues[nodeIndex := null];
        nodeQueueSizes := nodeQueueSizes[nodeIndex := 0];
        nodeIndex := nodeIndex - 1;
      }
    }

    method Rewind()
      requires Separate(queues, nodeQueueSizes) && |queues| == |nodeQueueSizes| == nodeSize > 0 && queues[0] != null
      modifies `headNodeIndex, `headQueueIndex, `headQueue, `headQueueSize
      modifies `tailNodeIndex, `tailQueueIndex, `tailQueue, `tailQueueSize
      ensures Linked() && headNodeIndex == headQueueIndex == tailNodeIndex == tailQueueIndex == 0
    {
      headNodeIndex, headQueueIndex, headQueue, headQueueSize := 0, 0, queues[0], nodeQueueSizes[0];
      tailNodeIndex, tailQueueIndex, tailQueue, tailQueueSize := 0, 0, queues[0], nodeQueueSizes[0];
    }

    /** Gives the nodes from `keep` on back and starts again at the first cell. */
    method Restart(keep: nat)
      requires Valid() && 0 <= nodeIndex < |queues| && keep > 0
      modifies this
      ensures Linked() && Value() == M.Rewound(M.Cut(old(Value()), keep)) && Arrays() <= old(Arrays())
    {
      hide M.Valid, Separate, AllCells, M.Released;
      Bounds();
      DropNodes(keep);
      DroppedCells(old(queues), queues, keep, old(nodeIndex));
      queueSize := nodeQueueSizes[nodeIndex];
      Rewind();
    }

    lemma ExactBounds()
      requires Valid() && M.Exact(Value())
      ensures 0 <= nodeIndex < |queues| && tailNodeIndex <= nodeIndex && queues[0] != null
      ensures forall i :: 0 <= i < |queues| ==> nodeQueueSizes[i] >= 0
    {
      Bounds();
    }

    /** The node count must be the number of a node: the loop indexes the nodes with it. A count that is too high does
        no harm otherwise. */
    method Reset()
      requires Valid() && 0 <= nodeIndex < |queues|
      modifies this
      ensures Linked() && |old(Nodes())| == |old(queues)| && old(baseNodeSize) > 0
      ensures Value() == M.Reset(old(Value())) && Arrays() <= old(Arrays())
      ensures old(Content() == [] && M.Clean(Value()) && M.Counted(Value(), baseNodeSize)) ==>
                Valid() && M.Exact(Value()) && M.Clean(Value()) && Content() == []
    {
      hide M.Valid, M.Exact, M.Clean, M.Content, M.Counted, Separate, AllCells, M.Cut;
      ghost var q := Value();
      P.EmptyIff(q);
      BasePositive();
      NodeCount();
      Restart(baseNodeSize);
      if M.Content(q) == [] && M.Clean(q) && M.Counted(q, q.baseNodeSize) { P.ResetUsable(q); }
    }

    lemma BasePositive()
      requires Valid()
      ensures baseNodeSize > 0
    {
    }

    method Rellac()
      requires Valid() && M.Exact(Value())
      modifies this
      ensures Linked() && Value() == M.Rellac(old(Value())) && Arrays() <= old(Arrays())
      ensures old(Content() == [] && M.Clean(Value())) ==>
                Valid() && M.Exact(Value()) && M.Clean(Value()) && Content() == []
    {
      hide M.Valid, M.Exact, M.Clean, M.Content, AllCells, M.Cut;
      ghost var q := Value();
      P.EmptyIff(q);
      BasePositive();
      ExactBounds();
      if nodeIndex > tailNodeIndex {
        var keep := tailNodeIndex + (nodeIndex - tailNodeIndex) / 2;
        if keep < baseNodeSize {
          keep := baseNodeSize;
        }
        Restart(keep);
      } else {
        Rewind();
      }
      if M.Content(q) == [] && M.Clean(q) { P.RellacUsable(q); }
    }

    /** Moves the nodes from the head on down to the base. */
    method MoveNodes()
      requires Separate(queues, nodeQueueSizes) && |queues| == |nodeQueueSizes| && baseNodeSize < headNodeIndex
      requires headNodeIndex <= tailNodeIndex < |queues|
      modifies `queues, `nodeQueueSizes, `nodeIndex
      ensures |queues| == |nodeQueueSizes|
      ensures M.Shifted(old(queues), queues, baseNodeSize, headNodeIndex, tailNodeIndex + 1, null)
      ensures M.Shifted(old(nodeQueueSizes), nodeQueueSizes, baseNodeSize, headNodeIndex, tailNodeIndex + 1, 0)
      ensures nodeIndex == tailNodeIndex - (headNodeIndex - baseNodeSize)
    {
      hide Separate;
      for i := baseNodeSize to headNodeIndex
        invariant |queues| == |nodeQueueSizes| == |old(queues)|
        invariant forall x :: 0 <= x < |queues| ==>
                    queues[x] == if baseNodeSize <= x < i then null else old(queues)[x]
        invariant forall x :: 0 <= x < |queues| ==>
                    nodeQueueSizes[x] == if baseNodeSize <= x < i then 0 else old(nodeQueueSizes)[x]
      {
        queues := queues[i := null];
        nodeQueueSizes := nodeQueueSizes[i := 0];
      }
      nodeIndex := baseNodeSize - 1;
      var move := headNodeIndex - baseNodeSize;
      for i := headNodeIndex to tailNodeIndex + 1
        invariant |queues| == |nodeQueueSizes| == |old(queues)| && nodeIndex == i - move - 1
        invariant M.Shifted(old(queues), queues, baseNodeSize, headNodeIndex, i, null)
        invariant M.Shifted(old(nodeQueueSizes), nodeQueueSizes, baseNodeSize, headNodeIndex, i, 0)
      {
        ShiftedMore(old(queues), queues, baseNodeSize, headNodeIndex, i, null);
        ShiftedMore(old(nodeQueueSizes), nodeQueueSizes, baseNodeSize, headNodeIndex, i, 0);
        queues := queues[i - move := queues[i]][i := null];
        nodeQueueSizes := nodeQueueSizes[i - move := nodeQueueSizes[i]][i := 0];
        nodeIndex := nodeIndex + 1;
      }
    }

    /** The content stays, whatever is allocated behind the tail; the node count stays right exactly when nothing is. */
    method Resize()
      requires Valid()
      modifies this
      ensures Valid() && Content() == old(Content()) && Arrays() <= old(Arrays())
      ensures old(M.Clean(Value())) ==> M.Clean(Value())
      ensures old(M.Exact(Value())) ==>
                (M.Exact(Value()) <==> old(headNodeIndex <= baseNodeSize || nodeIndex == tailNodeIndex))
    {
      hide M.Valid, M.Exact, M.Clean, M.Content, Separate, M.Resize, M.Pow2;
      ghost var q := Value();
      P.ResizeKeeps(q);
      if M.Clean(q) { P.ResizeClean(q); }
      if M.Exact(q) { P.ResizeExact(q); }
      ResizeNodes();
    }

    method ResizeNodes()
      requires Valid()
      modifies this
      ensures Linked() && old(headNodeIndex <= tailNodeIndex < |Nodes()|)
      ensures Value() == M.Resize(old(Value())) && Arrays() <= old(Arrays())
    {
      hide M.Valid, Separate, M.Pow2, AllCells, M.Resize, M.Shifted;
      Bounds();
      if headNodeIndex <= baseNodeSize {
        P.ResizeNothing(Value());
        return;
      }
      MoveNodes();
      queueSize := baseQueueSize * M.Pow2(tailNodeIndex);
      var move := headNodeIndex - baseNodeSize;
      headNodeIndex, tailNodeIndex := headNodeIndex - move, tailNodeIndex - move;
      ghost var head, end := old(headNodeIndex), old(tailNodeIndex) + 1;
      ShiftedNodes(old(queues), queues, old(nodeQueueSizes), nodeQueueSizes, baseNodeSize, head, end);
      ShiftedCells(old(queues), queues, baseNodeSize, head, end);
      P.ResizeIs(old(Value()), Nodes());
    }

    // ---------- compaction

    /** One cell of the sweep. */
    method MoveCell(ghost q0: M.Chunks<T>, n: nat, k: nat)
      requires Valid() && M.Valid(q0) && C.Progress(q0, Value(), n, k)
      requires n <= q0.tailNode && k < |q0.nodes[n]| && (n == q0.tailNode ==> k < q0.tailIndex)
      modifies this, Arrays()
      ensures Valid() && C.Progress(q0, Value(), n, k + 1) && queues == old(queues)
      ensures n < |old(Nodes())| && k < |old(Nodes())[n]| && Value() == M.Moved(old(Value()), n, k)
    {
      hide M.Valid, Separate, AllCells, M.Write, M.Push, M.Content, C.Sweeping, C.SameFrom;
      C.ProgressCell(q0, Value(), n, k);
      C.CellOutside(q0, Value(), n, k);
      Bounds();
      NodeLength(n);
      var x := queues[n][k];
      if x.Some? {
        Set(queues[n], n, k, None);
        Push(x);
      }
      C.ProgressValid(q0, Value(), n, k + 1);
    }

    method SweepNode(ghost q0: M.Chunks<T>, n: nat, end: nat)
      requires Valid() && M.Valid(q0) && C.Progress(q0, Value(), n, 0)
      requires n <= q0.tailNode && end <= |q0.nodes[n]| && (n == q0.tailNode ==> end <= q0.tailIndex)
      modifies this, Arrays()
      ensures Valid() && C.Progress(q0, Value(), n, end) && queues == old(queues)
    {
      hide Linked, M.Valid, C.Progress, Value;
      for k := 0 to end
        invariant Valid() && C.Progress(q0, Value(), n, k) && queues == old(queues)
      {
        MoveCell(q0, n, k);
      }
    }

    /** Gives the nodes behind the one that follows the tail back. */
    method TrimNodes(last: nat) returns (n: nat)
      requires Linked() && tailNodeIndex <= last < |queues| && headNodeIndex <= tailNodeIndex
      modifies `queues, `nodeQueueSizes
      ensures Linked() && n == M.TrimTo(old(Value()), last)
      ensures Value() == M.Trimmed(old(Value()), last) && Arrays() <= old(Arrays())
    {
      hide Separate, AllCells, M.Released;
      n := last;
      while n > tailNodeIndex + 1
        invariant tailNodeIndex <= n <= last && (n == last || n > tailNodeIndex)
        invariant Separate(queues, nodeQueueSizes) && |queues| == |nodeQueueSizes| == nodeSize
        invariant Dropped(old(queues), queues, n + 1, last)
        invariant forall i :: 0 <= i <= tailNodeIndex ==> nodeQueueSizes[i] == old(nodeQueueSizes)[i]
      {
        DropOne(old(queues), queues, nodeQueueSizes, n, last);
        queues := queues[n := null];
        nodeQueueSizes := nodeQueueSizes[n := 0];
        n := n - 1;
      }
      DroppedCells(old(queues), queues, n + 1, last);
    }

    method Sweep(ghost q0: M.Chunks<T>, lastNode: nat, lastIndex: nat)
      requires Valid() && M.Valid(q0) && q0.tailNode == lastNode && q0.tailIndex == lastIndex
      requires C.Progress(q0, Value(), 0, 0)
               && nodeQueueSizes == seq(|q0.nodes|, i requires 0 <= i < |q0.nodes| => |q0.nodes[i]|)
      modifies this, Arrays()
      ensures Valid() && C.Progress(q0, Value(), lastNode, lastIndex) && queues == old(queues)
    {
      hide Linked, M.Valid, C.Progress, Value;
      var sizes := nodeQueueSizes;
      for j := 0 to lastNode
        invariant Valid() && C.Progress(q0, Value(), j, 0) && queues == old(queues)
      {
        C.Inside(q0, j);
        SweepNode(q0, j, sizes[j]);
        C.ProgressNode(q0, Value(), j);
      }
      C.Inside(q0, lastNode);
      SweepNode(q0, lastNode, lastIndex);
    }

    /** The sweep over all cells, and the release of the nodes that it leaves behind. */
    method Gather() returns (lastNode: nat, n: nat, ghost swept: M.Chunks<T>)
      requires Valid() && M.Clean(Value())
      modifies this, Arrays()
      ensures Valid() && M.Clean(Value()) && Content() == M.NonNil(old(Content())) && Arrays() <= old(Arrays())
      ensures C.Progress(old(Value()), swept, old(tailNodeIndex), old(tailQueueIndex)) && lastNode == old(tailNodeIndex)
      ensures Value() == M.Trimmed(swept, lastNode) && n == M.TrimTo(swept, lastNode)
    {
      hide M.Valid, M.Clean, M.Content, C.Progress, M.NonNil, AllCells, M.Trimmed;
      Bounds();
      ghost var q0 := Value();
      lastNode := tailNodeIndex;
      var lastIndex := tailQueueIndex;
      Rewind();
      C.ProgressStart(q0);
      C.ProgressValid(q0, Value(), 0, 0);
      Sweep(q0, lastNode, lastIndex);
      swept := Value();
      C.ProgressEnd(q0, swept);
      C.ProgressHead(q0, swept, lastNode, lastIndex);
      Bounds();
      n := TrimNodes(lastNode);
    }

    /** Compaction in place: the values move together in their order, no node is allocated, and exactly the nodes behind
        the one that follows the new tail are given back. */
    method Restructuring()
      requires Valid() && M.Exact(Value()) && M.Clean(Value()) && nodeIndex == tailNodeIndex
      modifies this, Arrays()
      ensures Valid() && M.Exact(Value()) && M.Clean(Value()) && Arrays() <= old(Arrays())
      ensures Content() == M.NonNil(old(Content()))
      ensures nodeIndex == if old(tailNodeIndex) > tailNodeIndex + 1 then tailNodeIndex + 1 else old(tailNodeIndex)
    {
      hide M.Valid, M.Exact, M.Clean, M.Content, C.Progress, M.NonNil, AllCells, Separate, M.Released;
      ghost var q0 := Value();
      ghost var swept;
      var lastNode, n;
      lastNode, n, swept := Gather();
      C.TrimmedExact(q0, swept);
      C.ProgressValid(q0, swept, lastNode, q0.tailIndex);
      ghost var q := Value();
      nodeIndex := nodeIndex - (lastNode - n);
      LastNode();
      queueSize := nodeQueueSizes[nodeIndex];
      C.SizeKeeps(q, queueSize, nodeIndex);
    }

    lemma LastNode()
      requires Linked() && M.Exact(Value())
      ensures 0 <= nodeIndex < |queues| == |nodeQueueSizes| && nodeQueueSizes[nodeIndex] > 0
    {
      NodeLength(0);
      NodeLength(nodeIndex);
    }
  }
}
