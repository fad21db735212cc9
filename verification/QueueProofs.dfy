/** The chunked deque behaves as a plain sequence. */
module QueueProofs {
  import opened Protocol
  import opened QueueModel

  lemma {:induction false} FlatPlus<T>(nodes: seq<seq<Option<T>>>, node: seq<Option<T>>)
    ensures Flat(nodes + [node]) == Flat(nodes) + node
  {
    if nodes != [] {
      FlatPlus(nodes[1..], node);
      assert (nodes + [node])[1..] == nodes[1..] + [node];
    } else {
      assert [node][1..] == [];
    }
  }

  lemma FlatLength<T>(nodes: seq<seq<Option<T>>>, a: nat, i: nat)
    requires a <= i < |nodes|
    ensures |Flat(nodes[a..i + 1])| == |Flat(nodes[a..i])| + |nodes[i]|
  {
    FlatPlus(nodes[a..i], nodes[i]);
    assert nodes[a..i + 1] == nodes[a..i] + [nodes[i]];
  }

  lemma FlatEmpty<T>(nodes: seq<seq<Option<T>>>, a: nat)
    requires a <= |nodes|
    ensures |Flat(nodes[a..a])| == 0
  {
    assert nodes[a..a] == [];
  }

  // ---------- moving cursors

  lemma Regroup<T>(x: seq<T>, a: seq<T>, b: seq<T>, c: seq<T>)
    ensures x + a + b + c == x + (a + b + c)
    ensures a + b + c + x == a + b + (c + x)
  {
  }

  /** The end of a node is the start of the next. */
  lemma TailAcross<T>(nodes: seq<seq<Option<T>>>, n: int, k: int, n': int)
    requires Cell(nodes, n, k) && Cell(nodes, n', 0) && Cell(nodes, n' + 1, 0) && n <= n'
    ensures Segment(nodes, n, k, n' + 1, 0) == Segment(nodes, n, k, n', |nodes[n']|)
  {
    var last := nodes[n'];
    assert last[..|last|] == last && nodes[n' + 1][..0] == [];
    if n < n' {
      hide Flat;
      var first, middle := nodes[n][k..], nodes[n + 1..n'];
      FlatPlus(middle, last);
      assert nodes[n + 1..n' + 1] == middle + [last];
      assert first + (Flat(middle) + last) + [] == first + Flat(middle) + last;
    } else {
      assert nodes[n + 1..n' + 1] == [];
    }
  }

  lemma HeadAcross<T>(nodes: seq<seq<Option<T>>>, n: int, n': int, k': int)
    requires Cell(nodes, n, 0) && Cell(nodes, n + 1, 0) && Cell(nodes, n', k') && n < n'
    ensures Segment(nodes, n + 1, 0, n', k') == Segment(nodes, n, |nodes[n]|, n', k')
  {
    if n + 1 < n' {
      assert nodes[n + 1..n'] == [nodes[n + 1]] + nodes[n + 2..n'];
    } else {
      assert nodes[n + 1..n'] == [];
    }
  }

  lemma SegmentSame<T>(nodes: seq<seq<Option<T>>>, nodes': seq<seq<Option<T>>>, n: int, k: int, n': int, k': int)
    requires Cell(nodes, n, k) && Cell(nodes, n', k') && n <= n' && (n == n' ==> k <= k')
    requires n' < |nodes'| && nodes'[n..n' + 1] == nodes[n..n' + 1]
    ensures Cell(nodes', n, k) && Cell(nodes', n', k') && Segment(nodes', n, k, n', k') == Segment(nodes, n, k, n', k')
  {
    assert forall i :: n <= i <= n' ==> nodes'[i] == nodes'[n..n' + 1][i - n] == nodes[n..n' + 1][i - n] == nodes[i];
    if n < n' {
      assert nodes'[n + 1..n'] == nodes[n + 1..n'];
    }
  }

  /** A value written behind the last cell. */
  lemma WriteLast<T>(nodes: seq<seq<Option<T>>>, n: int, k: int, n': int, k': int, x: Option<T>)
    requires Cell(nodes, n, k) && Cell(nodes, n', k') && k' < |nodes[n']| && n <= n' && (n == n' ==> k <= k')
    ensures var nodes' := nodes[n' := nodes[n'][k' := x]];
            Segment(nodes', n, k, n', k' + 1) == Segment(nodes, n, k, n', k') + [x]
  {
    var nodes' := nodes[n' := nodes[n'][k' := x]];
    assert nodes'[n'][..k' + 1] == nodes[n'][..k'] + [x];
    if n < n' {
      assert nodes'[n + 1..n'] == nodes[n + 1..n'];
    }
  }

  /** A value written before the first cell. */
  lemma WriteFirst<T>(nodes: seq<seq<Option<T>>>, n: int, k: int, n': int, k': int, x: Option<T>)
    requires Cell(nodes, n, k) && Cell(nodes, n', k') && 0 < k && n <= n' && (n == n' ==> k <= k')
    ensures var nodes' := nodes[n := nodes[n][k - 1 := x]];
            Segment(nodes', n, k - 1, n', k') == [x] + Segment(nodes, n, k, n', k')
  {
    var nodes' := nodes[n := nodes[n][k - 1 := x]];
    assert nodes'[n][k - 1..] == [x] + nodes[n][k..];
    if n < n' {
      assert nodes'[n + 1..n'] == nodes[n + 1..n'];
      Regroup([x], nodes[n][k..], Flat(nodes[n + 1..n']), nodes[n'][..k']);
    } else {
      assert nodes'[n][k - 1..k'] == [x] + nodes[n][k..k'];
    }
  }

  /** The first cell, and the rest. */
  lemma TakeFirst<T>(nodes: seq<seq<Option<T>>>, n: int, k: int, n': int, k': int, x: Option<T>)
    requires Cell(nodes, n, k) && Cell(nodes, n', k') && k < |nodes[n]| && n <= n' && (n == n' ==> k < k')
    ensures var nodes' := nodes[n := nodes[n][k := x]];
            Segment(nodes, n, k, n', k') == [nodes[n][k]] + Segment(nodes', n, k + 1, n', k')
  {
    var nodes' := nodes[n := nodes[n][k := x]];
    assert nodes[n][k..] == [nodes[n][k]] + nodes'[n][k + 1..];
    if n < n' {
      assert nodes'[n + 1..n'] == nodes[n + 1..n'];
      Regroup([nodes[n][k]], nodes'[n][k + 1..], Flat(nodes[n + 1..n']), nodes[n'][..k']);
    } else {
      assert nodes[n][k..k'] == [nodes[n][k]] + nodes'[n][k + 1..k'];
    }
  }

  lemma TakeLast<T>(nodes: seq<seq<Option<T>>>, n: int, k: int, n': int, k': int, x: Option<T>)
    requires Cell(nodes, n, k) && Cell(nodes, n', k') && k' < |nodes[n']| && n <= n' && (n == n' ==> k <= k')
    ensures var nodes' := nodes[n' := nodes[n'][k' := x]];
            Segment(nodes, n, k, n', k' + 1) == Segment(nodes', n, k, n', k') + [nodes[n'][k']]
  {
    var nodes' := nodes[n' := nodes[n'][k' := x]];
    assert nodes[n'][..k' + 1] == nodes'[n'][..k'] + [nodes[n'][k']];
    if n < n' {
      assert nodes'[n + 1..n'] == nodes[n + 1..n'];
    }
  }

  // ---------- the operations on the plain sequence

  lemma EmptyIff<T>(q: Chunks<T>)
    requires Valid(q)
    ensures IsEmpty(q) <==> Content(q) == []
  {
  }

  lemma NewQueueEmpty<T>(baseNodeSize: nat, nodeSize: nat, queueSize: nat)
    requires nodeSize > 0 && baseNodeSize > 0 && queueSize > 0
    ensures var q := NewQueue<T>(baseNodeSize, nodeSize, queueSize);
            Valid(q) && Exact(q) && Clean(q) && Content(q) == []
  {
  }

  lemma EnterAnyIndex<T>(q: Chunks<T>, k: nat)
    ensures Enter(q.(tailIndex := k)) == Enter(q)
  {
  }

  lemma EnterValid<T>(q: Chunks<T>)
    requires Valid(q)
    ensures var q' := Enter(q);
            && Valid(q') && q' == q.(nodes := q'.nodes, tailNode := q.tailNode + 1, tailIndex := 0,
                                     nodeIndex := q'.nodeIndex, queueSize := q'.queueSize)
            && q'.nodes[..q.tailNode + 1] == q.nodes[..q.tailNode + 1]
  {
  }

  lemma PushIsAppend<T>(q: Chunks<T>, x: Option<T>)
    requires Valid(q)
    ensures Valid(Push(q, x)) && Content(Push(q, x)) == Content(q) + [x]
  {
    hide Segment, Enter;
    var q1 := Write(q, q.tailNode, q.tailIndex, x);
    WriteLast(q.nodes, q.headNode, q.headIndex, q.tailNode, q.tailIndex, x);
    if q.tailIndex + 1 >= |q.nodes[q.tailNode]| {
      EnterValid(q1);
      var q' := Enter(q1);
      assert q'.nodes[q.headNode..q.tailNode + 1] == q'.nodes[..q.tailNode + 1][q.headNode..];
      SegmentSame(q1.nodes, q'.nodes, q.headNode, q.headIndex, q.tailNode, q.tailIndex + 1);
      TailAcross(q'.nodes, q.headNode, q.headIndex, q.tailNode);
    }
  }

  lemma PushLeftIsPrepend<T>(q: Chunks<T>, x: Option<T>)
    requires Valid(q) && !LeftFull(q)
    ensures Valid(PushLeft(q, x)) && Content(PushLeft(q, x)) == [x] + Content(q)
  {
    hide Segment;
    if q.headIndex > 0 {
      WriteFirst(q.nodes, q.headNode, q.headIndex, q.tailNode, q.tailIndex, x);
    } else {
      HeadAcross(q.nodes, q.headNode - 1, q.tailNode, q.tailIndex);
      WriteFirst(q.nodes, q.headNode - 1, |q.nodes[q.headNode - 1]|, q.tailNode, q.tailIndex, x);
    }
  }

  lemma PopIsFirst<T>(q: Chunks<T>)
    requires Valid(q) && !IsEmpty(q)
    ensures Valid(Pop(q)) && Content(q) == [Head(q)] + Content(Pop(q))
  {
    hide Segment;
    var q1 := Write(q, q.headNode, q.headIndex, None);
    TakeFirst(q.nodes, q.headNode, q.headIndex, q.tailNode, q.tailIndex, None);
    if q.headIndex + 1 >= |q.nodes[q.headNode]| {
      HeadAcross(q1.nodes, q.headNode, q.tailNode, q.tailIndex);
    }
  }

  lemma PopRightIsLast<T>(q: Chunks<T>)
    requires Valid(q) && !IsEmpty(q)
    ensures var b := Back(q);
            Valid(PopRight(q)) && Content(q) == Content(PopRight(q)) + [q.nodes[b.tailNode][b.tailIndex]]
  {
    hide Segment;
    var b := Back(q);
    if q.tailIndex == 0 {
      TailAcross(q.nodes, q.headNode, q.headIndex, q.tailNode - 1);
    }
    TakeLast(q.nodes, q.headNode, q.headIndex, b.tailNode, b.tailIndex, None);
  }

  lemma ResizeNothing<T>(q: Chunks<T>)
    requires q.headNode <= q.tailNode < |q.nodes| && q.headNode <= q.baseNodeSize
    ensures Resize(q) == q
  {
  }

  lemma ResizeIs<T>(q: Chunks<T>, nodes: seq<seq<Option<T>>>)
    requires q.baseNodeSize < q.headNode <= q.tailNode < |q.nodes|
    requires Shifted(q.nodes, nodes, q.baseNodeSize, q.headNode, q.tailNode + 1, [])
    ensures var move := q.headNode - q.baseNodeSize;
            Resize(q) == q.(nodes := nodes, nodeIndex := q.tailNode - move,
                            queueSize := q.baseQueueSize * Pow2(q.tailNode),
                            headNode := q.headNode - move, tailNode := q.tailNode - move)
  {
    assert nodes == Resize(q).nodes;
  }

  lemma ResizeKeeps<T>(q: Chunks<T>)
    requires Valid(q)
    ensures Valid(Resize(q)) && Content(Resize(q)) == Content(q)
  {
    var q' := Resize(q);
    if q.headNode > q.baseNodeSize {
      PowPositive(q.tailNode);
      assert q.baseQueueSize * Pow2(q.tailNode) > 0;
      var move := q.headNode - q.baseNodeSize;
      assert forall i :: q'.headNode <= i <= q'.tailNode ==> q'.nodes[i] == q.nodes[i + move];
      if q.headNode < q.tailNode {
        assert q'.nodes[q'.headNode + 1..q'.tailNode] == q.nodes[q.headNode + 1..q.tailNode];
      }
    }
  }

  lemma {:induction false} PowPositive(n: nat)
    ensures Pow2(n) > 0
  {
    if n > 0 { PowPositive(n - 1); }
  }

  // ---------- the count of nodes and the cells outside the cursors

  lemma EnterExact<T>(q: Chunks<T>)
    requires Valid(q) && Exact(q)
    ensures Exact(Enter(q))
  {
  }

  lemma PushExact<T>(q: Chunks<T>, x: Option<T>)
    requires Valid(q) && Exact(q)
    ensures Exact(Push(q, x))
  {
    hide Enter;
    EnterExact(Write(q, q.tailNode, q.tailIndex, x));
  }

  lemma EnterClean<T>(q: Chunks<T>)
    requires Valid(q) && Clean(q.(tailIndex := q.tailIndex + 1)) && q.tailIndex + 1 >= |q.nodes[q.tailNode]|
    ensures Clean(Enter(q))
  {
    var q' := Enter(q);
    var full := q.(tailIndex := q.tailIndex + 1);
    forall n, k | 0 <= n < |q'.nodes| && 0 <= k < |q'.nodes[n]| && !Between(q', n, k)
      ensures q'.nodes[n][k] == None
    {
      assert n < |q.nodes| && q'.nodes[n] == q.nodes[n] ==> !Between(full, n, k);
    }
  }

  lemma PushClean<T>(q: Chunks<T>, x: Option<T>)
    requires Valid(q) && Clean(q)
    ensures Clean(Push(q, x))
  {
    hide Enter;
    var q1 := Write(q, q.tailNode, q.tailIndex, x);
    var full := q1.(tailIndex := q.tailIndex + 1);
    forall n, k | 0 <= n < |full.nodes| && 0 <= k < |full.nodes[n]| && !Between(full, n, k)
      ensures full.nodes[n][k] == None
    {
      assert !Between(q, n, k);
    }
    if q.tailIndex + 1 >= |q.nodes[q.tailNode]| {
      EnterClean(q1);
    }
  }

  lemma WriteExact<T>(q: Chunks<T>, q': Chunks<T>, n: nat, k: nat, x: Option<T>)
    requires Exact(q) && n < |q.nodes| && k < |q.nodes[n]|
    requires q'.nodes == q.nodes[n := q.nodes[n][k := x]] && q'.nodeIndex == q.nodeIndex
    ensures Exact(q')
  {
  }

  lemma PopsExact<T>(q: Chunks<T>)
    requires Valid(q) && Exact(q) && !IsEmpty(q)
    ensures Exact(Pop(q)) && Exact(PopRight(q))
  {
    WriteExact(q, Pop(q), q.headNode, q.headIndex, None);
    var b := Back(q);
    WriteExact(q, PopRight(q), b.tailNode, b.tailIndex, None);
  }

  lemma PopClean<T>(q: Chunks<T>)
    requires Valid(q) && Clean(q) && !IsEmpty(q)
    ensures Clean(Pop(q))
  {
    var q' := Pop(q);
    forall n, k | 0 <= n < |q'.nodes| && 0 <= k < |q'.nodes[n]| && !Between(q', n, k)
      ensures q'.nodes[n][k] == None
    {
      assert (n == q.headNode && k == q.headIndex) || !Between(q, n, k);
    }
  }

  lemma PopRightClean<T>(q: Chunks<T>)
    requires Valid(q) && Clean(q) && !IsEmpty(q)
    ensures Clean(PopRight(q))
  {
    var q' := PopRight(q);
    forall n, k | 0 <= n < |q'.nodes| && 0 <= k < |q'.nodes[n]| && !Between(q', n, k)
      ensures q'.nodes[n][k] == None
    {
      assert (n == q'.tailNode && k == q'.tailIndex) || !Between(q, n, k);
    }
  }

  lemma PushLeftClean<T>(q: Chunks<T>, x: Option<T>)
    requires Valid(q) && Clean(q) && !LeftFull(q)
    ensures Clean(PushLeft(q, x)) && (Exact(q) ==> Exact(PushLeft(q, x)))
  {
    var q' := PushLeft(q, x);
    forall n, k | 0 <= n < |q'.nodes| && 0 <= k < |q'.nodes[n]| && !Between(q', n, k)
      ensures q'.nodes[n][k] == None
    {
      assert !Between(q, n, k);
    }
  }

  /** Moving nodes down leaves the node count right exactly when no node is allocated behind the tail. */
  lemma ResizeExact<T>(q: Chunks<T>)
    requires Valid(q) && Exact(q)
    ensures Exact(Resize(q)) <==> q.headNode <= q.baseNodeSize || q.nodeIndex == q.tailNode
  {
    var q' := Resize(q);
    if q.headNode > q.baseNodeSize && q.nodeIndex > q.tailNode {
      assert |q'.nodes[q.tailNode + 1]| > 0;
    }
  }

  lemma ResizeClean<T>(q: Chunks<T>)
    requires Valid(q) && Clean(q)
    ensures Clean(Resize(q))
  {
    if q.headNode > q.baseNodeSize {
      var q' := Resize(q);
      var move := q.headNode - q.baseNodeSize;
      forall n, k | 0 <= n < |q'.nodes| && 0 <= k < |q'.nodes[n]| && !Between(q', n, k)
        ensures q'.nodes[n][k] == None
      {
        assert !Between(q, if n < q.baseNodeSize || n > q.tailNode then n else n + move, k);
      }
    }
  }

  lemma ExactCounted<T>(q: Chunks<T>, keep: nat)
    requires Exact(q)
    ensures Counted(q, keep)
  {
  }

  /** A drained queue that is rewound, with the nodes from `keep` on given back, is a usable empty queue, even if the
      node count was too high, as long as it is the number of a node. */
  lemma CutUsable<T>(q: Chunks<T>, keep: nat)
    requires Valid(q) && Counted(q, keep) && q.nodeIndex < |q.nodes| && Clean(q) && IsEmpty(q) && keep > 0
    ensures var q' := Rewound(Cut(q, keep)); Valid(q') && Exact(q') && Clean(q') && Content(q') == []
  {
    var q' := Rewound(Cut(q, keep));
    assert q'.nodes[0] == q.nodes[0];
    forall n, k | 0 <= n < |q'.nodes| && 0 <= k < |q'.nodes[n]| ensures q'.nodes[n][k] == None {
      assert !Between(q, n, k);
    }
  }

  lemma ResetUsable<T>(q: Chunks<T>)
    requires Valid(q) && Counted(q, q.baseNodeSize) && q.nodeIndex < |q.nodes| && Clean(q) && IsEmpty(q)
    ensures Valid(Reset(q)) && Exact(Reset(q)) && Clean(Reset(q)) && Content(Reset(q)) == []
  {
    CutUsable(q, q.baseNodeSize);
  }

  lemma RellacUsable<T>(q: Chunks<T>)
    requires Valid(q) && Exact(q) && Clean(q) && IsEmpty(q)
    ensures Valid(Rellac(q)) && Exact(Rellac(q)) && Clean(Rellac(q)) && Content(Rellac(q)) == []
  {
    if q.nodeIndex > q.tailNode {
      ExactCounted(q, RellacKeep(q));
      CutUsable(q, RellacKeep(q));
    } else {
      var q' := Rewound(q);
      forall n, k | 0 <= n < |q'.nodes| && 0 <= k < |q'.nodes[n]| ensures q'.nodes[n][k] == None {
        assert !Between(q, n, k);
      }
    }
  }

  /** What Push allocates: nothing while the tail stays in its node or enters one that is there; otherwise one node of
      twice the size of the last one that was allocated, up to 4194303 cells. */
  lemma PushGrows<T>(q: Chunks<T>, x: Option<T>)
    requires Valid(q)
    ensures var q' := Push(q, x); var n := q.tailNode + 1;
            var size := if 2 * q.queueSize > 4194303 then 4194303 else 2 * q.queueSize;
            var there := n < |q.nodes| && |q.nodes[n]| > 0;
            && (q'.tailNode == q.tailNode || q'.tailNode == n)
            && (q'.tailNode == n <==> q.tailIndex + 1 == |q.nodes[q.tailNode]|)
            && (q'.tailNode == q.tailNode || there ==>
                  q'.queueSize == q.queueSize && q'.nodeIndex == q.nodeIndex && |q'.nodes| == |q.nodes|)
            && (q'.tailNode == n && !there ==>
                  n < |q'.nodes| && |q'.nodes[n]| == q'.queueSize == size && q'.nodeIndex == q.nodeIndex + 1)
            && (forall i :: 0 <= i < |q.nodes| && (i != n || there || q'.tailNode != n) ==>
              |q'.nodes[i]| == |q.nodes[i]|)
  {
  }

  /** What Reset gives back: the nodes from the base on; the size of the last one left is the size to double next. */
  lemma ResetReleases<T>(q: Chunks<T>)
    requires 0 <= q.nodeIndex < |q.nodes| && q.baseNodeSize > 0
    ensures var q' := Reset(q);
            && |q'.nodes| == |q.nodes| && q'.nodeIndex < q.baseNodeSize
            && q'.nodeIndex == (if q.nodeIndex < q.baseNodeSize then q.nodeIndex else q.baseNodeSize - 1)
            && (forall i :: 0 <= i < |q.nodes| ==>
                  q'.nodes[i] == if q.baseNodeSize <= i <= q.nodeIndex then [] else q.nodes[i])
            && q'.queueSize == |q.nodes[q'.nodeIndex]|
  {
  }

  /** What Rellac gives back: nothing if no node is allocated behind the tail, otherwise the farther half of those that
      are, but no node before the base. */
  lemma RellacReleases<T>(q: Chunks<T>)
    requires 0 <= q.nodeIndex < |q.nodes| && q.baseNodeSize > 0
    ensures var q' := Rellac(q);
            if q.nodeIndex <= q.tailNode then q'.nodes == q.nodes && q'.nodeIndex == q.nodeIndex
            else
              var half := (q.nodeIndex + q.tailNode) / 2;
              var keep := if half < q.baseNodeSize then q.baseNodeSize else half;
              && q'.nodeIndex == (if q.nodeIndex < keep then q.nodeIndex else keep - 1)
              && q'.queueSize == |q.nodes[q'.nodeIndex]| && |q'.nodes| == |q.nodes|
              && forall i :: 0 <= i < |q.nodes| ==>
                   q'.nodes[i] == if keep <= i <= q.nodeIndex then [] else q.nodes[i]
  {
  }

  /** What Resize moves: the nodes from the head to the tail, down to the base. */
  lemma ResizeMoves<T>(q: Chunks<T>)
    requires q.headNode <= q.tailNode < |q.nodes|
    ensures var q' := Resize(q); var move := q.headNode - q.baseNodeSize;
            if move <= 0 then q' == q
            else
              && q'.headNode == q.baseNodeSize && q'.tailNode == q.tailNode - move && q'.nodeIndex == q.tailNode - move
              && q'.queueSize == q.baseQueueSize * Pow2(q.tailNode) && |q'.nodes| == |q.nodes|
              && (forall i :: 0 <= i < q.baseNodeSize || q.tailNode < i < |q.nodes| ==> q'.nodes[i] == q.nodes[i])
              && (forall i :: q'.headNode <= i <= q'.tailNode ==> q'.nodes[i] == q.nodes[i + move])
              && (forall i :: q'.tailNode < i <= q.tailNode ==> q'.nodes[i] == [])
  {
  }
}
