/** Compaction in place: values move down to a write cursor that never passes the read cursor. */
module QueueCompaction {
  import opened Protocol
  import opened QueueModel
  import opened QueueProofs

  predicate Upto(n: int, k: int, n': int, k': int) { n < n' || (n == n' && k <= k') }

  /** The queue during the sweep: the tail cursor writes, `(n, k)` reads, and the cells from one to the other
      are nil. */
  ghost predicate Sweeping<T>(q: Chunks<T>, n: int, k: int) {
    && Valid(q) && q.headNode == 0 && q.headIndex == 0 && Cell(q.nodes, n, k)
    && (Upto(q.tailNode, q.tailIndex, n, k) || (k == |q.nodes[n]| && q.tailNode == n + 1 && q.tailIndex == 0))
    && (forall i, j :: 0 <= i < |q.nodes| && 0 <= j < |q.nodes[i]| && Passed(q, i, j, n, k) ==> q.nodes[i][j] == None)
  }

  /** The cell is from the tail cursor on and before `(n, k)`. */
  predicate Passed<T>(q: Chunks<T>, i: int, j: int, n: int, k: int) {
    Upto(q.tailNode, q.tailIndex, i, j) && Upto(i, j + 1, n, k)
  }

  /** The same nodes, up to what is in them before a cursor. */
  ghost predicate SameFrom<T>(nodes: seq<seq<Option<T>>>, nodes': seq<seq<Option<T>>>, n: int, k: int) {
    && |nodes'| == |nodes|
    && (forall i :: 0 <= i < |nodes| ==> |nodes'[i]| == |nodes[i]|)
    && (forall i :: 0 <= i < |nodes| && n < i ==> nodes'[i] == nodes[i])
    && (0 <= n < |nodes| && 0 <= k <= |nodes[n]| ==> forall j :: k <= j < |nodes[n]| ==> nodes'[n][j] == nodes[n][j])
  }

  /** A cell behind the tail does not matter to the content. */
  lemma WriteOutside<T>(q: Chunks<T>, n: nat, k: nat, x: Option<T>)
    requires Valid(q) && n < |q.nodes| && k < |q.nodes[n]| && Upto(q.tailNode, q.tailIndex, n, k)
    ensures Valid(Write(q, n, k, x)) && Content(Write(q, n, k, x)) == Content(q)
  {
    var q' := Write(q, n, k, x);
    assert q'.nodes[q.tailNode][..q.tailIndex] == q.nodes[q.tailNode][..q.tailIndex];
    if q.headNode < q.tailNode {
      assert q'.nodes[q.headNode + 1..q.tailNode] == q.nodes[q.headNode + 1..q.tailNode];
    } else {
      assert q'.nodes[q.headNode][q.headIndex..q.tailIndex] == q.nodes[q.headNode][q.headIndex..q.tailIndex];
    }
  }

  /** Pushing where the next node exists allocates nothing. */
  lemma PushNoAlloc<T>(q: Chunks<T>, x: Option<T>)
    requires Valid(q)
    requires q.tailIndex + 1 < |q.nodes[q.tailNode]| || (q.tailNode + 1 < |q.nodes| && q.nodes[q.tailNode + 1] != [])
    ensures var q' := Push(q, x);
            q' == q.(nodes := q.nodes[q.tailNode := q.nodes[q.tailNode][q.tailIndex := x]],
                     tailNode := q'.tailNode, tailIndex := q'.tailIndex)
    ensures var q' := Push(q, x);
            if q.tailIndex + 1 < |q.nodes[q.tailNode]| then q'.tailNode == q.tailNode && q'.tailIndex == q.tailIndex + 1
            else q'.tailNode == q.tailNode + 1 && q'.tailIndex == 0
  {
  }

  /** One step of the sweep, with a node behind the read cursor or room in its own. */
  lemma SweepCell<T>(q: Chunks<T>, n: nat, k: nat)
    requires Sweeping(q, n, k) && k < |q.nodes[n]| && (forall i :: 0 <= i <= n ==> |q.nodes[i]| > 0)
    requires k + 1 < |q.nodes[n]| || (n + 1 < |q.nodes| && |q.nodes[n + 1]| > 0)
    ensures var q' := Moved(q, n, k);
            && Sweeping(q', n, k + 1) && SameFrom(q.nodes, q'.nodes, n, k + 1)
            && q' == q.(nodes := q'.nodes, tailNode := q'.tailNode, tailIndex := q'.tailIndex)
            && Content(q') == Content(q) + NonNil([q.nodes[n][k]])
  {
    var x := q.nodes[n][k];
    if x.Some? {
      var q1 := Write(q, n, k, None);
      WriteOutside(q, n, k, None);
      PushIsAppend(q1, x);
      PushNoAlloc(q1, x);
      SweepMoves(q, n, k);
    }
  }

  lemma SweepMoves<T>(q: Chunks<T>, n: nat, k: nat)
    requires Sweeping(q, n, k) && k < |q.nodes[n]| && (forall i :: 0 <= i <= n ==> |q.nodes[i]| > 0)
    requires k + 1 < |q.nodes[n]| || (n + 1 < |q.nodes| && |q.nodes[n + 1]| > 0)
    requires q.nodes[n][k].Some?
    ensures Sweeping(Moved(q, n, k), n, k + 1) && SameFrom(q.nodes, Moved(q, n, k).nodes, n, k + 1)
  {
    hide Push, Content;
    var x := q.nodes[n][k];
    var q1 := Write(q, n, k, None);
    WriteOutside(q, n, k, None);
    PushIsAppend(q1, x);
    PushNoAlloc(q1, x);
    var q' := Push(q1, x);
    forall i, j | 0 <= i < |q'.nodes| && 0 <= j < |q'.nodes[i]| && Passed(q', i, j, n, k + 1)
      ensures q'.nodes[i][j] == None
    {
      assert (i == n && j == k) || Passed(q, i, j, n, k);
    }
  }

  lemma SweepNode<T>(q: Chunks<T>, n: nat)
    requires n + 1 < |q.nodes| && Sweeping(q, n, |q.nodes[n]|)
    ensures Sweeping(q, n + 1, 0)
  {
    forall i, j | 0 <= i < |q.nodes| && 0 <= j < |q.nodes[i]| && Passed(q, i, j, n + 1, 0)
      ensures q.nodes[i][j] == None
    {
      assert Passed(q, i, j, n, |q.nodes[n]|);
    }
  }

  // ---------- what has been read

  lemma {:induction false} NonNilPlus<T>(a: seq<Option<T>>, b: seq<Option<T>>)
    ensures NonNil(a + b) == NonNil(a) + NonNil(b)
  {
    if a == [] {
      assert a + b == b;
    } else {
      NonNilPlus(a[1..], b);
      assert (a + b)[1..] == a[1..] + b;
    }
  }

  /** What the sweep has read grows by one cell. */
  lemma ReadCell<T>(nodes: seq<seq<Option<T>>>, n: nat, k: nat)
    requires n < |nodes| && k < |nodes[n]|
    ensures NonNil(Segment(nodes, 0, 0, n, k + 1)) == NonNil(Segment(nodes, 0, 0, n, k)) + NonNil([nodes[n][k]])
  {
    var x := nodes[n][k];
    assert nodes[n := nodes[n][k := x]] == nodes by { assert nodes[n][k := x] == nodes[n]; }
    TakeLast(nodes, 0, 0, n, k, x);
    NonNilPlus(Segment(nodes, 0, 0, n, k), [x]);
  }

  /** Nil cells before the head do not matter. */
  lemma {:induction false} SkipNil<T>(nodes: seq<seq<Option<T>>>, n: nat, k: nat, n': nat, k': nat)
    requires Cell(nodes, n, k) && Cell(nodes, n', k') && Upto(n, k, n', k')
             && (forall i :: 0 <= i <= n ==> |nodes[i]| > 0)
    requires forall i, j :: 0 <= i < |nodes| && 0 <= j < |nodes[i]| && Upto(i, j + 1, n, k) ==> nodes[i][j] == None
    ensures NonNil(Segment(nodes, 0, 0, n', k')) == NonNil(Segment(nodes, n, k, n', k'))
    decreases n, k
  {
    hide Segment, NonNil;
    if k > 0 {
      var x := nodes[n][k - 1];
      assert nodes[n := nodes[n][k - 1 := x]] == nodes by { assert nodes[n][k - 1 := x] == nodes[n]; }
      TakeFirst(nodes, n, k - 1, n', k', x);
      NonNilNone(Segment(nodes, n, k, n', k'));
      SkipNil(nodes, n, k - 1, n', k');
    } else if n > 0 {
      HeadAcross(nodes, n - 1, n', k');
      SkipNil(nodes, n - 1, |nodes[n - 1]|, n', k');
    }
  }

  lemma NonNilNone<T>(cells: seq<Option<T>>)
    ensures NonNil([None] + cells) == NonNil(cells)
  {
    assert ([None] + cells)[1..] == cells;
  }

  /** The values of a clean queue are those from the very first cell on. */
  lemma ReadAll<T>(q: Chunks<T>)
    requires Valid(q) && Clean(q)
    ensures NonNil(Segment(q.nodes, 0, 0, q.tailNode, q.tailIndex)) == NonNil(Content(q))
  {
    forall i, j | 0 <= i < |q.nodes| && 0 <= j < |q.nodes[i]| && Upto(i, j + 1, q.headNode, q.headIndex)
      ensures q.nodes[i][j] == None
    {
      assert !Between(q, i, j);
    }
    SkipNil(q.nodes, q.headNode, q.headIndex, q.tailNode, q.tailIndex);
  }

  /** Giving back the nodes behind the sweep. */
  lemma TrimmedKeeps<T>(q: Chunks<T>, last: nat, k: nat)
    requires Sweeping(q, last, k) && k < |q.nodes[last]|
    requires forall i, j :: 0 <= i < |q.nodes| && 0 <= j < |q.nodes[i]| && Upto(last, k, i, j) ==> q.nodes[i][j] == None
    ensures var q' := Trimmed(q, last); Valid(q') && Clean(q') && Content(q') == Content(q)
  {
    var q' := Trimmed(q, last);
    assert q'.nodes[..q.tailNode + 1] == q.nodes[..q.tailNode + 1];
    SegmentSame(q.nodes, q'.nodes, 0, 0, q.tailNode, q.tailIndex);
    forall i, j | 0 <= i < |q'.nodes| && 0 <= j < |q'.nodes[i]| && !Between(q', i, j) ensures q'.nodes[i][j] == None {
      assert q'.nodes[i] == q.nodes[i];
      assert Upto(q.tailNode, q.tailIndex, i, j);
      assert Upto(last, k, i, j) || Passed(q, i, j, last, k);
    }
  }

  // ---------- the whole sweep

  /** All cells before `(n, k)` of the queue `q0` have been read, and their values are the content. */
  ghost predicate Progress<T>(q0: Chunks<T>, q: Chunks<T>, n: int, k: int) {
    && Sweeping(q, n, k) && SameFrom(q0.nodes, q.nodes, n, k) && Cell(q0.nodes, n, k)
    && q == q0.(nodes := q.nodes, headNode := 0, headIndex := 0, tailNode := q.tailNode, tailIndex := q.tailIndex)
    && Content(q) == NonNil(Segment(q0.nodes, 0, 0, n, k))
  }

  lemma ProgressStart<T>(q: Chunks<T>)
    requires Valid(q)
    ensures Progress(q, Rewound(q), 0, 0)
  {
  }

  lemma ProgressCell<T>(q0: Chunks<T>, q: Chunks<T>, n: nat, k: nat)
    requires Valid(q0) && Progress(q0, q, n, k) && n <= q0.tailNode && k < |q0.nodes[n]|
    requires n == q0.tailNode ==> k < q0.tailIndex
    ensures n < |q.nodes| && k < |q.nodes[n]| && Progress(q0, Moved(q, n, k), n, k + 1)
    ensures Moved(q, n, k).nodes == q.nodes || q.tailIndex + 1 < |q.nodes[q.tailNode]|
            || (q.tailNode + 1 < |q.nodes| && q.nodes[q.tailNode + 1] != [])
  {
    hide Moved, Content, Segment, NonNil;
    SweepCell(q, n, k);
    ReadCell(q0.nodes, n, k);
    ProgressSame(q0.nodes, q.nodes, Moved(q, n, k).nodes, n, k);
    RoomToPush(q0, q, n, k);
  }

  lemma RoomToPush<T>(q0: Chunks<T>, q: Chunks<T>, n: nat, k: nat)
    requires Valid(q0) && Sweeping(q, n, k) && SameFrom(q0.nodes, q.nodes, n, k)
    requires n <= q0.tailNode && k < |q0.nodes[n]| && (n == q0.tailNode ==> k < q0.tailIndex)
    ensures q.tailIndex + 1 < |q.nodes[q.tailNode]|
            || (q.tailNode + 1 < |q.nodes| && q.nodes[q.tailNode + 1] != [])
  {
    if q.tailNode < n {
      assert |q.nodes[q.tailNode + 1]| == |q0.nodes[q.tailNode + 1]| > 0;
    } else if n < q0.tailNode {
      assert |q.nodes[n + 1]| == |q0.nodes[n + 1]| > 0;
    }
  }

  lemma ProgressSame<T>(a: seq<seq<Option<T>>>, b: seq<seq<Option<T>>>, c: seq<seq<Option<T>>>, n: nat, k: nat)
    requires SameFrom(a, b, n, k) && SameFrom(b, c, n, k + 1) && n < |a| && k < |a[n]|
    ensures SameFrom(a, c, n, k + 1)
  {
  }

  lemma ProgressNode<T>(q0: Chunks<T>, q: Chunks<T>, n: nat)
    requires Valid(q0) && n < q0.tailNode && Progress(q0, q, n, |q0.nodes[n]|)
    ensures Progress(q0, q, n + 1, 0)
  {
    hide Content, Segment, NonNil;
    SweepNode(q, n);
    TailAcross(q0.nodes, 0, 0, n);
  }

  /** The sweep has read everything. */
  lemma ProgressEnd<T>(q0: Chunks<T>, q: Chunks<T>)
    requires Valid(q0) && Clean(q0) && Progress(q0, q, q0.tailNode, q0.tailIndex)
    ensures q.tailNode <= q0.tailNode < |q.nodes|
    ensures var q' := Trimmed(q, q0.tailNode);
            Valid(q') && Clean(q') && Content(q') == NonNil(Content(q0))
  {
    hide Content, Segment, NonNil;
    ReadAll(q0);
    forall i, j | 0 <= i < |q.nodes| && 0 <= j < |q.nodes[i]| && Upto(q0.tailNode, q0.tailIndex, i, j)
      ensures q.nodes[i][j] == None
    {
      assert q.nodes[i][j] == q0.nodes[i][j];
      assert !Between(q0, i, j);
    }
    TrimmedKeeps(q, q0.tailNode, q0.tailIndex);
  }

  /** With nothing allocated behind the old tail, the last kept node is the last allocated one. */
  lemma TrimmedExact<T>(q0: Chunks<T>, q: Chunks<T>)
    requires Valid(q0) && Exact(q0) && q0.nodeIndex == q0.tailNode && Progress(q0, q, q0.tailNode, q0.tailIndex)
    ensures Exact(Trimmed(q, q0.tailNode).(nodeIndex := TrimTo(q, q0.tailNode)))
  {
  }

  lemma ProgressValid<T>(q0: Chunks<T>, q: Chunks<T>, n: nat, k: nat)
    requires Progress(q0, q, n, k)
    ensures Valid(q) && q.nodeIndex == q0.nodeIndex
  {
  }

  lemma CellOutside<T>(q0: Chunks<T>, q: Chunks<T>, n: nat, k: nat)
    requires Progress(q0, q, n, k) && n < |q.nodes| && k < |q.nodes[n]|
    ensures Valid(Write(q, n, k, None)) && q.nodeIndex == q0.nodeIndex
  {
    WriteOutside(q, n, k, None);
  }

  lemma ProgressHead<T>(q0: Chunks<T>, q: Chunks<T>, n: nat, k: nat)
    requires Progress(q0, q, n, k)
    ensures q.headNode == 0 && q.headIndex == 0 && |q.nodes| == |q0.nodes|
  {
  }

  lemma Inside<T>(q: Chunks<T>, n: nat)
    requires Valid(q) && n <= q.tailNode
    ensures n < |q.nodes| && (n == q.tailNode ==> q.tailIndex <= |q.nodes[n]|)
  {
  }

  lemma SizeKeeps<T>(q: Chunks<T>, size: nat, nodeIndex: int)
    requires Valid(q) && size > 0
    ensures var q' := q.(queueSize := size, nodeIndex := nodeIndex);
            && Valid(q') && Content(q') == Content(q) && (Clean(q) ==> Clean(q'))
            && (Exact(q.(nodeIndex := nodeIndex)) ==> Exact(q'))
  {
    var q' := q.(queueSize := size, nodeIndex := nodeIndex);
    assert forall n, k :: Between(q', n, k) == Between(q, n, k);
  }
}
