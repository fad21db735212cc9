/** The chunked deque as values: nodes of growing size (an empty sequence is a node that is not allocated), a head
    cursor and a tail cursor. A cell without a value is a nil entry. */
module QueueModel {
  import opened Protocol

  const MAX_MALLOC_SIZE: nat := 0x3fffff

  datatype Chunks<T> = Chunks(
    nodes: seq<seq<Option<T>>>,
    headNode: nat,
    headIndex: nat,
    tailNode: nat,
    tailIndex: nat,
    nodeIndex: int,
    baseNodeSize: nat,
    baseQueueSize: nat,
    queueSize: nat)

  /** Both cursors are in allocated nodes, with no gap before the tail. */
  predicate Valid<T>(q: Chunks<T>) {
    && q.headNode <= q.tailNode < |q.nodes|
    && (forall i :: 0 <= i <= q.tailNode ==> |q.nodes[i]| > 0)
    && q.headIndex < |q.nodes[q.headNode]| && q.tailIndex < |q.nodes[q.tailNode]|
    && (q.headNode == q.tailNode ==> q.headIndex <= q.tailIndex)
    && q.baseNodeSize > 0 && q.baseQueueSize > 0 && q.queueSize > 0
  }

  function Flat<T>(nodes: seq<seq<Option<T>>>): seq<Option<T>> {
    if nodes == [] then [] else nodes[0] + Flat(nodes[1..])
  }

  /** A cursor that may stand just behind the last cell of a node. */
  predicate Cell<T>(nodes: seq<seq<Option<T>>>, n: int, k: int) {
    0 <= n < |nodes| && 0 <= k <= |nodes[n]|
  }

  /** The cells from one cursor to another. */
  function Segment<T>(nodes: seq<seq<Option<T>>>, n: int, k: int, n': int, k': int): seq<Option<T>>
    requires Cell(nodes, n, k) && Cell(nodes, n', k') && n <= n' && (n == n' ==> k <= k')
  {
    if n == n' then nodes[n][k..k'] else nodes[n][k..] + Flat(nodes[n + 1..n']) + nodes[n'][..k']
  }

  /** What the queue holds. */
  function Content<T>(q: Chunks<T>): seq<Option<T>>
    requires Valid(q)
  {
    Segment(q.nodes, q.headNode, q.headIndex, q.tailNode, q.tailIndex)
  }

  predicate IsEmpty<T>(q: Chunks<T>) {
    q.tailIndex <= q.headIndex && q.tailNode <= q.headNode
  }

  /** `nodeIndex` is the last allocated node. */
  predicate Exact<T>(q: Chunks<T>) {
    0 <= q.nodeIndex < |q.nodes| && forall i :: 0 <= i < |q.nodes| ==> (|q.nodes[i]| > 0 <==> i <= q.nodeIndex)
  }

  /** `nodeIndex` may be too high, but no node behind it is allocated, and those before `keep` up to it are. */
  predicate Counted<T>(q: Chunks<T>, keep: nat) {
    && 0 <= q.nodeIndex
    && (forall i :: 0 <= i < |q.nodes| && |q.nodes[i]| > 0 ==> i <= q.nodeIndex)
    && (forall i :: 0 <= i < |q.nodes| && i <= q.nodeIndex && i < keep ==> |q.nodes[i]| > 0)
  }

  /** All cells outside the cursors are nil. */
  predicate Clean<T>(q: Chunks<T>) {
    forall n, k :: 0 <= n < |q.nodes| && 0 <= k < |q.nodes[n]| && !Between(q, n, k) ==> q.nodes[n][k] == None
  }

  predicate Between<T>(q: Chunks<T>, n: int, k: int) {
    (q.headNode < n || (q.headNode == n && q.headIndex <= k))
      && (n < q.tailNode || (n == q.tailNode && k < q.tailIndex))
  }

  // ---------- the operations

  function Blank<T>(n: nat): seq<Option<T>> { seq(n, _ => None) }

  function NewQueue<T>(baseNodeSize: nat, nodeSize: nat, queueSize: nat): Chunks<T>
    requires nodeSize > 0
  {
    Chunks(seq(nodeSize, i => if i == 0 then Blank(queueSize) else []), 0, 0, 0, 0, 0, baseNodeSize, queueSize,
      queueSize)
  }

  function Write<T>(q: Chunks<T>, n: nat, k: nat, x: Option<T>): Chunks<T>
    requires n < |q.nodes| && k < |q.nodes[n]|
  {
    q.(nodes := q.nodes[n := q.nodes[n][k := x]])
  }

  function Doubled(size: nat): nat { if size * 2 > MAX_MALLOC_SIZE then MAX_MALLOC_SIZE else size * 2 }

  /** The tail cursor enters the next node, which is allocated if need be. */
  function Enter<T>(q: Chunks<T>): Chunks<T> {
    var n := q.tailNode + 1;
    var size := Doubled(q.queueSize);
    if n >= |q.nodes| then
      q.(tailNode := n, tailIndex := 0, queueSize := size, nodes := q.nodes + [Blank(size)],
        nodeIndex := q.nodeIndex + 1)
    else if q.nodes[n] == [] then
      q.(tailNode := n, tailIndex := 0, queueSize := size, nodes := q.nodes[n := Blank(size)],
         nodeIndex := q.nodeIndex + 1)
    else q.(tailNode := n, tailIndex := 0)
  }

  function Push<T>(q: Chunks<T>, x: Option<T>): Chunks<T>
    requires Valid(q)
  {
    var q1 := Write(q, q.tailNode, q.tailIndex, x);
    if q.tailIndex + 1 >= |q.nodes[q.tailNode]| then Enter(q1) else q1.(tailIndex := q.tailIndex + 1)
  }

  /** Is there no room at the left? */
  predicate LeftFull<T>(q: Chunks<T>) {
    q.headNode == 0 && q.headIndex == 0
  }

  function PushLeft<T>(q: Chunks<T>, x: Option<T>): Chunks<T>
    requires Valid(q) && !LeftFull(q)
  {
    if q.headIndex > 0 then Write(q.(headIndex := q.headIndex - 1), q.headNode, q.headIndex - 1, x)
    else
      var k := |q.nodes[q.headNode - 1]| - 1;
      Write(q.(headNode := q.headNode - 1, headIndex := k), q.headNode - 1, k, x)
  }

  function Pop<T>(q: Chunks<T>): Chunks<T>
    requires Valid(q) && !IsEmpty(q)
  {
    var q1 := Write(q, q.headNode, q.headIndex, None);
    if q.headIndex + 1 >= |q.nodes[q.headNode]| then q1.(headNode := q.headNode + 1, headIndex := 0)
    else q1.(headIndex := q.headIndex + 1)
  }

  function Head<T>(q: Chunks<T>): Option<T>
    requires Valid(q)
  {
    if IsEmpty(q) then None else q.nodes[q.headNode][q.headIndex]
  }

  /** The tail cursor one step back. */
  function Back<T>(q: Chunks<T>): Chunks<T>
    requires Valid(q) && !IsEmpty(q)
  {
    if q.tailIndex > 0 then q.(tailIndex := q.tailIndex - 1)
    else q.(tailNode := q.tailNode - 1, tailIndex := |q.nodes[q.tailNode - 1]| - 1)
  }

  function PopRight<T>(q: Chunks<T>): Chunks<T>
    requires Valid(q) && !IsEmpty(q)
  {
    var q1 := Back(q);
    Write(q1, q1.tailNode, q1.tailIndex, None)
  }

  /** The nodes from `from` to `to` are given back. */
  function Released<T>(nodes: seq<seq<Option<T>>>, from: int, to: int): seq<seq<Option<T>>> {
    seq(|nodes|, i requires 0 <= i < |nodes| => if from <= i <= to then [] else nodes[i])
  }

  function Rewound<T>(q: Chunks<T>): Chunks<T> {
    q.(headNode := 0, headIndex := 0, tailNode := 0, tailIndex := 0)
  }

  /** Nodes from `keep` on are given back. */
  function Cut<T>(q: Chunks<T>, keep: nat): Chunks<T>
    requires 0 <= q.nodeIndex < |q.nodes| && keep > 0
  {
    var last := if q.nodeIndex >= keep then keep - 1 else q.nodeIndex;
    q.(nodes := Released(q.nodes, keep, q.nodeIndex), nodeIndex := last, queueSize := |q.nodes[last]|)
  }

  function Reset<T>(q: Chunks<T>): Chunks<T>
    requires 0 <= q.nodeIndex < |q.nodes| && q.baseNodeSize > 0
  {
    Rewound(Cut(q, q.baseNodeSize))
  }

  function RellacKeep<T>(q: Chunks<T>): nat
    requires q.nodeIndex > q.tailNode
  {
    var half := q.tailNode + (q.nodeIndex - q.tailNode) / 2;
    if half < q.baseNodeSize then q.baseNodeSize else half
  }

  function Rellac<T>(q: Chunks<T>): Chunks<T>
    requires 0 <= q.nodeIndex < |q.nodes| && q.baseNodeSize > 0
  {
    Rewound(if q.nodeIndex > q.tailNode then Cut(q, RellacKeep(q)) else q)
  }

  function Pow2(n: nat): nat { if n == 0 then 1 else 2 * Pow2(n - 1) }

  /** An element during the move of the nodes `head..` down to `base`, with those before `i` moved. */
  function ShiftedAt<X>(was: seq<X>, base: int, head: int, i: int, nil: X, x: int): X
    requires 0 <= base < head <= i <= |was| && 0 <= x < |was|
  {
    if x < base || i <= x then was[x] else if x + (head - base) < i then was[x + (head - base)] else nil
  }

  ghost predicate Shifted<X>(was: seq<X>, xs: seq<X>, base: int, head: int, i: int, nil: X) {
    && |xs| == |was| && 0 <= base < head <= i <= |was|
    && forall x :: 0 <= x < |xs| ==> xs[x] == ShiftedAt(was, base, head, i, nil, x)
  }

  /** The nodes from the head on move down to the base. */
  function Resize<T>(q: Chunks<T>): Chunks<T>
    requires q.headNode <= q.tailNode < |q.nodes|
  {
    if q.headNode <= q.baseNodeSize then q
    else
      var move := q.headNode - q.baseNodeSize;
      q.(nodes := seq(|q.nodes|, x requires 0 <= x < |q.nodes| =>
                   ShiftedAt(q.nodes, q.baseNodeSize, q.headNode, q.tailNode + 1, [], x)),
         nodeIndex := q.tailNode - move,
         queueSize := q.baseQueueSize * Pow2(q.tailNode),
         headNode := q.headNode - move, tailNode := q.tailNode - move)
  }

  // ---------- compaction

  function NonNil<T>(cells: seq<Option<T>>): seq<Option<T>> {
    if cells == [] then [] else (if cells[0].Some? then [cells[0]] else []) + NonNil(cells[1..])
  }

  /** One cell is read: a value moves to the tail cursor. */
  function Moved<T>(q: Chunks<T>, n: nat, k: nat): Chunks<T>
    requires Valid(q) && n < |q.nodes| && k < |q.nodes[n]|
  {
    var x := q.nodes[n][k];
    if x.None? then q
    else
      var q1 := Write(q, n, k, None);
      Push(q1, x)
  }

  /** The last node that is kept: the one that follows the tail. */
  function TrimTo<T>(q: Chunks<T>, last: nat): nat {
    if last > q.tailNode + 1 then q.tailNode + 1 else last
  }

  /** Nodes far behind the tail are given back. */
  function Trimmed<T>(q: Chunks<T>, last: nat): Chunks<T> {
    q.(nodes := Released(q.nodes, TrimTo(q, last) + 1, last))
  }
}
