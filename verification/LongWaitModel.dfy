/** The queue of all locks with one deadline beyond the wheel. A lock carries the place of its cell, packed into one
    number, so that it can be taken out from the middle. */
module LongWaitModel {
  import opened Protocol
  import opened QueueModel
  import opened QueueProofs
  import opened QueueCompaction

  /** The identity of a lock object. */
  type Id = nat

  type Nodes = seq<seq<Option<Id>>>

  // ---------- packing

  const SHIFT: nat := 0x1_0000_0000
  const INT32: nat := 0x8000_0000

  /** Node and slot in one number; zero is kept for locks that are in no such queue. */
  function Pack(n: nat, k: nat): nat { n * SHIFT + k + 1 }

  function NodeOf(i: nat): nat { i / SHIFT }

  function SlotOf(i: nat): int { i % SHIFT - 1 }

  lemma PackInverse(n: nat, k: nat)
    requires k + 1 < SHIFT
    ensures NodeOf(Pack(n, k)) == n && SlotOf(Pack(n, k)) == k && Pack(n, k) > 0
  {
  }

  /** The shifts and masks of the program compute this packing in 64 bits, and its inverse. */
  lemma PackBits(n: bv64, k: bv64)
    requires n < 0x8000_0000 && k <= 0x8000_0000
    ensures var x := (n << 32) | k;
            && x == n * 0x1_0000_0000 + k
            && x >> 32 == x / 0x1_0000_0000 == n && x & 0xffff_ffff == x % 0x1_0000_0000 == k
  {
  }

  // ---------- the agreement of cells and indices

  predicate Has(nodes: Nodes, n: int, k: int) { 0 <= n < |nodes| && 0 <= k < |nodes[n]| }

  /** Node sizes are 32-bit numbers. */
  predicate Narrow(nodes: Nodes) { forall n :: 0 <= n < |nodes| ==> |nodes[n]| < INT32 }

  /** The index of a lock leads to its cell. */
  predicate LeadsTo(nodes: Nodes, i: nat, id: Id) {
    Has(nodes, NodeOf(i), SlotOf(i)) && nodes[NodeOf(i)][SlotOf(i)] == Some(id)
  }

  /** Every lock in a cell has the index of that cell, and every index leads to the cell of its lock. */
  ghost predicate Agrees(nodes: Nodes, index: map<Id, nat>) {
    && (forall n, k :: Has(nodes, n, k) && nodes[n][k].Some? ==>
          nodes[n][k].value in index && index[nodes[n][k].value] == Pack(n, k))
    && (forall id :: id in index ==> index[id] > 0 && LeadsTo(nodes, index[id], id))
  }

  function Stored(nodes: Nodes, n: nat, k: nat, x: Option<Id>): Nodes
    requires Has(nodes, n, k)
  {
    nodes[n := nodes[n][k := x]]
  }

  lemma AgreesAdd(nodes: Nodes, index: map<Id, nat>, n: nat, k: nat, id: Id)
    requires Agrees(nodes, index) && Narrow(nodes) && Has(nodes, n, k) && nodes[n][k] == None && id !in index
    ensures Agrees(Stored(nodes, n, k, Some(id)), index[id := Pack(n, k)])
  {
    var nodes', index' := Stored(nodes, n, k, Some(id)), index[id := Pack(n, k)];
    PackInverse(n, k);
    forall x | x in index' ensures index'[x] > 0 && LeadsTo(nodes', index'[x], x) {
      if x != id {
        assert LeadsTo(nodes, index[x], x);
      }
    }
  }

  lemma AgreesRemove(nodes: Nodes, index: map<Id, nat>, id: Id)
    requires Agrees(nodes, index) && Narrow(nodes) && id in index
    ensures var n, k := NodeOf(index[id]), SlotOf(index[id]);
            Has(nodes, n, k) && nodes[n][k] == Some(id) && Agrees(Stored(nodes, n, k, None), index - {id})
  {
    assert LeadsTo(nodes, index[id], id);
    var n, k := NodeOf(index[id]), SlotOf(index[id]);
    var nodes', index' := Stored(nodes, n, k, None), index - {id};
    forall i, j | Has(nodes', i, j) && nodes'[i][j].Some?
      ensures nodes'[i][j].value in index' && index'[nodes'[i][j].value] == Pack(i, j)
    {
      assert Has(nodes, i, j) && nodes[i][j] == nodes'[i][j];
      PackInverse(i, j);
    }
    forall x | x in index' ensures index'[x] > 0 && LeadsTo(nodes', index'[x], x) {
      assert LeadsTo(nodes, index[x], x);
    }
  }

  /** Cells that appear or disappear without a value do not matter. */
  ghost predicate SameValues(nodes: Nodes, nodes': Nodes) {
    && (forall n, k :: Has(nodes', n, k) && nodes'[n][k].Some? ==> Has(nodes, n, k) && nodes[n][k] == nodes'[n][k])
    && (forall n, k :: Has(nodes, n, k) && nodes[n][k].Some? ==> Has(nodes', n, k) && nodes'[n][k] == nodes[n][k])
  }

  lemma AgreesSame(nodes: Nodes, nodes': Nodes, index: map<Id, nat>)
    requires Agrees(nodes, index) && SameValues(nodes, nodes')
    ensures Agrees(nodes', index)
  {
    forall x | x in index ensures LeadsTo(nodes', index[x], x) {
      assert LeadsTo(nodes, index[x], x);
    }
  }

  lemma EnterSame(q: Chunks<Id>)
    requires Valid(q)
    ensures SameValues(q.nodes, Enter(q).nodes) && (Narrow(q.nodes) ==> Narrow(Enter(q).nodes))
  {
  }

  // ---------- holes

  function Holes(cells: seq<Option<Id>>): nat {
    if cells == [] then 0 else (if cells[0].None? then 1 else 0) + Holes(cells[1..])
  }

  lemma {:induction false} HolesPlus(a: seq<Option<Id>>, b: seq<Option<Id>>)
    ensures Holes(a + b) == Holes(a) + Holes(b)
  {
    if a == [] {
      assert a + b == b;
    } else {
      HolesPlus(a[1..], b);
      assert (a + b)[1..] == a[1..] + b;
    }
  }

  lemma {:induction false} NoHoles(cells: seq<Option<Id>>)
    ensures Holes(NonNil(cells)) == 0
  {
    if cells != [] {
      NoHoles(cells[1..]);
      HolesPlus(if cells[0].Some? then [cells[0]] else [], NonNil(cells[1..]));
    }
  }

  // ---------- insertion

  /** A lock is put behind the tail and gets the index of its cell. */
  lemma InsertAgrees(q: Chunks<Id>, index: map<Id, nat>, id: Id)
    requires Valid(q) && Clean(q) && Narrow(q.nodes) && Agrees(q.nodes, index) && id !in index
    ensures var q' := Push(q, Some(id));
            && Agrees(q'.nodes, index[id := Pack(q.tailNode, q.tailIndex)]) && Narrow(q'.nodes)
            && Holes(Content(q')) == Holes(Content(q))
  {
    hide Enter, Agrees, Segment;
    assert !Between(q, q.tailNode, q.tailIndex);
    AgreesAdd(q.nodes, index, q.tailNode, q.tailIndex, id);
    var q1 := Write(q, q.tailNode, q.tailIndex, Some(id));
    EnterSame(q1);
    AgreesSame(q1.nodes, Enter(q1).nodes, index[id := Pack(q.tailNode, q.tailIndex)]);
    PushIsAppend(q, Some(id));
    HolesPlus(Content(q), [Some(id)]);
  }

  // ---------- removal

  lemma {:induction false} FlatSplit(nodes: Nodes, n: nat)
    requires n <= |nodes|
    ensures Flat(nodes) == Flat(nodes[..n]) + Flat(nodes[n..])
  {
    if n > 0 {
      FlatSplit(nodes[1..], n - 1);
      assert nodes[..n][1..] == nodes[1..][..n - 1] && nodes[n..] == nodes[1..][n - 1..];
    } else {
      assert nodes[n..] == nodes;
    }
  }

  lemma Regrouped(a: seq<Option<Id>>, f: seq<Option<Id>>, k: seq<Option<Id>>, k': seq<Option<Id>>, f': seq<Option<Id>>,
                  d: seq<Option<Id>>)
    ensures a + (f + (k + k' + f')) + d == a + f + k + (k' + f' + d)
    ensures a + f + (k + k') == a + f + k + k'
    ensures k + k' + f' + d == k + (k' + f' + d)
  {
  }

  /** A segment in two parts. */
  lemma SegmentSplit(nodes: Nodes, a: nat, b: nat, n: nat, k: nat, c: nat, d: nat)
    requires Cell(nodes, a, b) && Cell(nodes, n, k) && Cell(nodes, c, d) && Upto(a, b, n, k) && Upto(n, k, c, d)
    ensures Segment(nodes, a, b, c, d) == Segment(nodes, a, b, n, k) + Segment(nodes, n, k, c, d)
  {
    hide Flat;
    if a < n && n < c {
      SplitInside(nodes, a, b, n, k, c, d);
    } else if a < n {
      assert nodes[c][..d] == nodes[c][..k] + nodes[c][k..d];
      Regrouped(nodes[a][b..], Flat(nodes[a + 1..c]), nodes[c][..k], nodes[c][k..d], [], []);
    } else if n < c {
      assert nodes[a][b..] == nodes[a][b..k] + nodes[a][k..];
      Regrouped([], [], nodes[a][b..k], nodes[a][k..], Flat(nodes[a + 1..c]), nodes[c][..d]);
    } else {
      assert nodes[a][b..d] == nodes[a][b..k] + nodes[a][k..d];
    }
  }

  lemma SplitInside(nodes: Nodes, a: nat, b: nat, n: nat, k: nat, c: nat, d: nat)
    requires Cell(nodes, a, b) && Cell(nodes, n, k) && Cell(nodes, c, d) && a < n < c
    ensures Segment(nodes, a, b, c, d) == Segment(nodes, a, b, n, k) + Segment(nodes, n, k, c, d)
  {
    var middle := nodes[a + 1..c];
    FlatSplit(middle, n - a - 1);
    assert middle[..n - a - 1] == nodes[a + 1..n] && middle[n - a - 1..] == nodes[n..c];
    assert nodes[n..c][0] == nodes[n] && nodes[n..c][1..] == nodes[n + 1..c];
    assert nodes[n] == nodes[n][..k] + nodes[n][k..];
    Regrouped(nodes[a][b..], Flat(nodes[a + 1..n]), nodes[n][..k], nodes[n][k..], Flat(nodes[n + 1..c]), nodes[c][..d]);
  }

  lemma HoleSplit(q: Chunks<Id>, n: nat, k: nat)
    requires Valid(q) && Has(q.nodes, n, k) && Between(q, n, k)
    ensures var q' := Write(q, n, k, None);
            var left := Segment(q.nodes, q.headNode, q.headIndex, n, k);
            var right := Segment(q'.nodes, n, k + 1, q.tailNode, q.tailIndex);
            Valid(q') && Content(q) == left + ([q.nodes[n][k]] + right) && Content(q') == left + ([None] + right)
  {
    hide Segment;
    var q' := Write(q, n, k, None);
    SegmentSplit(q.nodes, q.headNode, q.headIndex, n, k, q.tailNode, q.tailIndex);
    SegmentSplit(q'.nodes, q.headNode, q.headIndex, n, k, q.tailNode, q.tailIndex);
    TakeFirst(q.nodes, n, k, q.tailNode, q.tailIndex, None);
    assert q'.nodes[n][k := None] == q'.nodes[n];
    assert q'.nodes[n := q'.nodes[n]] == q'.nodes;
    TakeFirst(q'.nodes, n, k, q.tailNode, q.tailIndex, None);
    LeftSame(q, n, k);
  }

  /** A value inside the cursors makes way for a hole. */
  lemma HoleMade(q: Chunks<Id>, n: nat, k: nat)
    requires Valid(q) && Has(q.nodes, n, k) && Between(q, n, k) && q.nodes[n][k].Some?
    ensures var q' := Write(q, n, k, None); Valid(q') && Holes(Content(q')) == Holes(Content(q)) + 1
  {
    hide Segment;
    HoleSplit(q, n, k);
    var left := Segment(q.nodes, q.headNode, q.headIndex, n, k);
    var right := Segment(Write(q, n, k, None).nodes, n, k + 1, q.tailNode, q.tailIndex);
    HolesPlus(left, [q.nodes[n][k]] + right);
    HolesPlus([q.nodes[n][k]], right);
    HolesPlus(left, [None] + right);
    HolesPlus([None], right);
  }

  lemma LeftSame(q: Chunks<Id>, n: nat, k: nat)
    requires Valid(q) && Has(q.nodes, n, k) && Between(q, n, k)
    ensures Segment(Write(q, n, k, None).nodes, q.headNode, q.headIndex, n, k)
            == Segment(q.nodes, q.headNode, q.headIndex, n, k)
  {
    var nodes' := Write(q, n, k, None).nodes;
    assert nodes'[n][..k] == q.nodes[n][..k];
    if q.headNode < n {
      assert nodes'[q.headNode + 1..n] == q.nodes[q.headNode + 1..n];
    } else {
      assert nodes'[n][q.headIndex..k] == q.nodes[n][q.headIndex..k];
    }
  }

  lemma RemoveAgrees(q: Chunks<Id>, index: map<Id, nat>, id: Id)
    requires Valid(q) && Clean(q) && Narrow(q.nodes) && Agrees(q.nodes, index) && id in index
    ensures var n, k := NodeOf(index[id]), SlotOf(index[id]);
            && Has(q.nodes, n, k) && q.nodes[n][k] == Some(id) && Between(q, n, k)
            && var q' := Write(q, n, k, None);
               && Valid(q') && Clean(q') && Narrow(q'.nodes) && Agrees(q'.nodes, index - {id})
               && Holes(Content(q')) == Holes(Content(q)) + 1
  {
    hide Agrees, Content;
    AgreesRemove(q.nodes, index, id);
    var n, k := NodeOf(index[id]), SlotOf(index[id]);
    assert Between(q, n, k);
    HoleMade(q, n, k);
    var q' := Write(q, n, k, None);
    assert forall i, j :: Between(q', i, j) == Between(q, i, j);
  }

  // ---------- compaction

  /** A lock that moves to the write cursor gets the index of its new cell. */
  lemma MoveAgrees(q0: Chunks<Id>, q: Chunks<Id>, index: map<Id, nat>, n: nat, k: nat)
    requires Valid(q0) && Progress(q0, q, n, k) && n <= q0.tailNode && k < |q0.nodes[n]|
    requires n == q0.tailNode ==> k < q0.tailIndex
    requires Has(q.nodes, n, k) && Agrees(q.nodes, index) && Narrow(q.nodes) && q.nodes[n][k].Some?
    ensures var id := q.nodes[n][k].value;
            && id in index
            && Agrees(Moved(q, n, k).nodes, index[id := Pack(q.tailNode, q.tailIndex)]) && Narrow(Moved(q, n, k).nodes)
  {
    hide Agrees, Content, Segment;
    var id := q.nodes[n][k].value;
    RoomToPush(q0, q, n, k);
    WriteOutside(q, n, k, None);
    var q1 := Write(q, n, k, None);
    PushNoAlloc(q1, Some(id));
    IndexOfCell(q.nodes, index, n, k);
    AgreesRemove(q.nodes, index, id);
    assert q1.nodes[q.tailNode][q.tailIndex] == None by {
      if (q.tailNode, q.tailIndex) != (n, k) {
        assert Passed(q, q.tailNode, q.tailIndex, n, k);
      }
    }
    AgreesAdd(q1.nodes, index - {id}, q.tailNode, q.tailIndex, id);
    assert (index - {id})[id := Pack(q.tailNode, q.tailIndex)] == index[id := Pack(q.tailNode, q.tailIndex)];
  }

  lemma IndexOfCell(nodes: Nodes, index: map<Id, nat>, n: nat, k: nat)
    requires Agrees(nodes, index) && Narrow(nodes) && Has(nodes, n, k) && nodes[n][k].Some?
    ensures var id := nodes[n][k].value; id in index && NodeOf(index[id]) == n && SlotOf(index[id]) == k
  {
    PackInverse(n, k);
  }

  /** The nodes that are given back hold no lock. */
  lemma TrimmedAgrees(q0: Chunks<Id>, q: Chunks<Id>, index: map<Id, nat>)
    requires Valid(q0) && Clean(q0) && Progress(q0, q, q0.tailNode, q0.tailIndex)
    requires Agrees(q.nodes, index) && Narrow(q.nodes)
    ensures Agrees(Trimmed(q, q0.tailNode).nodes, index) && Narrow(Trimmed(q, q0.tailNode).nodes)
  {
    hide Agrees, Content, Segment;
    var nodes' := Trimmed(q, q0.tailNode).nodes;
    forall i, j | Has(q.nodes, i, j) && q.nodes[i][j].Some? ensures Has(nodes', i, j) && nodes'[i][j] == q.nodes[i][j] {
      if i > q.tailNode {
        if Upto(q0.tailNode, q0.tailIndex, i, j) {
          assert q.nodes[i][j] == q0.nodes[i][j];
          assert !Between(q0, i, j);
        } else {
          assert Passed(q, i, j, q0.tailNode, q0.tailIndex);
        }
      }
    }
    AgreesSame(q.nodes, nodes', index);
  }

  // ---------- the whole compaction

  /** The queue and the indices of its locks. */
  datatype Swept = Swept(q: Chunks<Id>, index: map<Id, nat>)

  /** One cell: a lock moves to the write cursor and gets the index of its new cell. */
  function MoveOne(s: Swept, n: nat, k: nat): Swept
    requires Valid(s.q) && Has(s.q.nodes, n, k)
  {
    var x := s.q.nodes[n][k];
    Swept(Moved(s.q, n, k), if x.Some? then s.index[x.value := Pack(s.q.tailNode, s.q.tailIndex)] else s.index)
  }

  /** Where the sweep leaves a node of the queue `q0`. */
  function LastCell(q0: Chunks<Id>, n: nat): nat
    requires n < |q0.nodes|
  {
    if n == q0.tailNode then q0.tailIndex else |q0.nodes[n]|
  }

  /** The sweep over the queue `q0` from a cell on. */
  function SweepFrom(q0: Chunks<Id>, s: Swept, n: nat, k: nat): Swept
    requires Valid(q0) && n <= q0.tailNode && k <= LastCell(q0, n)
    decreases q0.tailNode - n, LastCell(q0, n) - k
  {
    if k < LastCell(q0, n) then
      SweepFrom(q0, if Valid(s.q) && Has(s.q.nodes, n, k) then MoveOne(s, n, k) else s, n, k + 1)
    else if n < q0.tailNode then SweepFrom(q0, s, n + 1, 0)
    else s
  }

  /** The size that the next node is computed from. */
  function CompactedSize(base: nat, n: nat): nat {
    if base * Pow2(n) > MAX_MALLOC_SIZE then MAX_MALLOC_SIZE else base * Pow2(n)
  }

  /** The compaction of a queue, which leaves its node count alone. */
  function Compacted(q: Chunks<Id>, index: map<Id, nat>): Swept
    requires Valid(q)
  {
    var s := SweepFrom(q, Swept(Rewound(q), index), 0, 0);
    var n := TrimTo(s.q, q.tailNode);
    Swept(Trimmed(s.q, q.tailNode).(queueSize := CompactedSize(q.baseQueueSize, n)), s.index)
  }

  ghost predicate SweepOk(q0: Chunks<Id>, s: Swept, n: nat, k: nat) {
    Progress(q0, s.q, n, k) && Narrow(s.q.nodes) && Agrees(s.q.nodes, s.index)
  }

  lemma MoveOneOk(q0: Chunks<Id>, s: Swept, n: nat, k: nat)
    requires Valid(q0) && SweepOk(q0, s, n, k) && n <= q0.tailNode && k < LastCell(q0, n)
    ensures Valid(s.q) && Has(s.q.nodes, n, k)
    ensures SweepOk(q0, MoveOne(s, n, k), n, k + 1) && MoveOne(s, n, k).index.Keys == s.index.Keys
  {
    hide Agrees, Narrow, Progress, Moved;
    InsideCell(q0, n, k);
    ProgressCell(q0, s.q, n, k);
    ProgressValid(q0, s.q, n, k);
    if s.q.nodes[n][k].Some? {
      MoveAgrees(q0, s.q, s.index, n, k);
    } else {
      MovedNothing(s.q, n, k);
    }
  }

  lemma InsideCell(q0: Chunks<Id>, n: nat, k: nat)
    requires Valid(q0) && n <= q0.tailNode && k < LastCell(q0, n)
    ensures k < |q0.nodes[n]| && (n == q0.tailNode ==> k < q0.tailIndex)
  {
  }

  lemma MovedNothing(q: Chunks<Id>, n: nat, k: nat)
    requires Valid(q) && Has(q.nodes, n, k) && q.nodes[n][k].None?
    ensures Moved(q, n, k) == q
  {
  }

  lemma {:induction false} SweepFromOk(q0: Chunks<Id>, s: Swept, n: nat, k: nat)
    requires Valid(q0) && n <= q0.tailNode && k <= LastCell(q0, n) && SweepOk(q0, s, n, k)
    ensures var t := SweepFrom(q0, s, n, k);
            SweepOk(q0, t, q0.tailNode, q0.tailIndex) && t.index.Keys == s.index.Keys
    decreases q0.tailNode - n, LastCell(q0, n) - k
  {
    hide SweepOk, MoveOne;
    if k < LastCell(q0, n) {
      MoveOneOk(q0, s, n, k);
      SweepFromOk(q0, MoveOne(s, n, k), n, k + 1);
    } else if n < q0.tailNode {
      NextNodeOk(q0, s, n);
      SweepFromOk(q0, s, n + 1, 0);
    }
  }

  lemma NextNodeOk(q0: Chunks<Id>, s: Swept, n: nat)
    requires Valid(q0) && n < q0.tailNode && SweepOk(q0, s, n, LastCell(q0, n))
    ensures SweepOk(q0, s, n + 1, 0) && n + 1 < |q0.nodes|
  {
    hide Progress, Agrees, Narrow;
    ProgressNode(q0, s.q, n);
  }

  /** The swept queue, before nodes are given back. */
  function SweptQueue(q: Chunks<Id>, index: map<Id, nat>): Swept
    requires Valid(q)
  {
    SweepFrom(q, Swept(Rewound(q), index), 0, 0)
  }

  lemma SweptOk(q: Chunks<Id>, index: map<Id, nat>)
    requires Valid(q) && Narrow(q.nodes) && Agrees(q.nodes, index)
    ensures SweepOk(q, SweptQueue(q, index), q.tailNode, q.tailIndex) && SweptQueue(q, index).index.Keys == index.Keys
  {
    hide Agrees, Narrow, Progress;
    ProgressStart(q);
    SweepFromOk(q, Swept(Rewound(q), index), 0, 0);
  }

  /** Compaction keeps the locks and their order, gives every lock the index of its new cell, and leaves no hole. */
  lemma CompactedAgrees(q: Chunks<Id>, index: map<Id, nat>)
    requires Valid(q) && Clean(q) && Narrow(q.nodes) && Agrees(q.nodes, index)
    ensures var s := Compacted(q, index);
            && Valid(s.q) && Clean(s.q) && Narrow(s.q.nodes) && Agrees(s.q.nodes, s.index) && s.index.Keys == index.Keys
            && Content(s.q) == NonNil(Content(q)) && Holes(Content(s.q)) == 0 && s.q.nodeIndex == q.nodeIndex
            && s.q.headNode == 0 && s.q.headIndex == 0
  {
    hide Agrees, Narrow, Progress, Trimmed, Valid, Clean, Content, NonNil, SweepFrom;
    SweptOk(q, index);
    var t := SweptQueue(q, index);
    ProgressEnd(q, t.q);
    TrimmedAgrees(q, t.q, t.index);
    NoHoles(Content(q));
    ProgressHead(q, t.q, q.tailNode, q.tailIndex);
    ProgressValid(q, t.q, q.tailNode, q.tailIndex);
    SizePositive(q, TrimTo(t.q, q.tailNode));
    TrimmedFields(t.q, q.tailNode);
    var u := Trimmed(t.q, q.tailNode);
    SizeKeeps(u, CompactedSize(q.baseQueueSize, TrimTo(t.q, q.tailNode)), u.nodeIndex);
  }

  lemma TrimmedFields(q: Chunks<Id>, last: nat)
    ensures var t := Trimmed(q, last);
            && t.nodeIndex == q.nodeIndex && t.headNode == q.headNode && t.headIndex == q.headIndex
            && t.tailNode == q.tailNode && t.tailIndex == q.tailIndex && |t.nodes| == |q.nodes|
            && t.baseNodeSize == q.baseNodeSize && t.baseQueueSize == q.baseQueueSize
  {
  }

  lemma SizePositive(q: Chunks<Id>, n: nat)
    requires Valid(q)
    ensures CompactedSize(q.baseQueueSize, n) > 0
  {
    PowPositive(n);
  }

  // ---------- the node count

  /** The number of cells before the tail cursor. */
  lemma CellsBefore(q: Chunks<Id>)
    requires Valid(q) && q.headNode == 0 && q.headIndex == 0
    ensures |Content(q)| == |Flat(q.nodes[..q.tailNode])| + q.tailIndex
  {
    if q.tailNode > 0 {
      assert q.nodes[..q.tailNode][0] == q.nodes[0] && q.nodes[..q.tailNode][1..] == q.nodes[1..q.tailNode];
    } else {
      assert q.nodes[..0] == [];
    }
  }

  lemma {:induction false} FlatMonotone(nodes: Nodes, a: nat, b: nat)
    requires a <= b <= |nodes|
    ensures |Flat(nodes[..a])| <= |Flat(nodes[..b])|
    decreases b
  {
    if a < b {
      FlatLength(nodes, 0, b - 1);
      assert nodes[0..b] == nodes[..b] && nodes[0..b - 1] == nodes[..b - 1];
      FlatMonotone(nodes, a, b - 1);
    }
  }

  lemma {:induction false} SameSizes(a: Nodes, b: Nodes, n: nat)
    requires n <= |a| == |b| && forall i :: 0 <= i < n ==> |a[i]| == |b[i]|
    ensures |Flat(a[..n])| == |Flat(b[..n])|
  {
    if n == 0 {
      assert a[..0] == [] && b[..0] == [];
    } else {
      SameSizes(a, b, n - 1);
      FlatLength(a, 0, n - 1);
      FlatLength(b, 0, n - 1);
      assert a[0..n] == a[..n] && a[0..n - 1] == a[..n - 1] && b[0..n] == b[..n] && b[0..n - 1] == b[..n - 1];
    }
  }

  /** Do the values of the queue reach into the last node but one? */
  predicate ReachesLast(q: Chunks<Id>)
    requires Valid(q)
  {
    q.tailNode <= 1 || |NonNil(Content(q))| >= |Flat(q.nodes[..q.tailNode - 1])|
  }

  lemma SweptLength(q0: Chunks<Id>, q: Chunks<Id>)
    requires Valid(q0) && Clean(q0) && Progress(q0, q, q0.tailNode, q0.tailIndex)
    ensures Valid(q) && |NonNil(Content(q0))| == |Flat(q0.nodes[..q.tailNode])| + q.tailIndex
    ensures q.tailNode <= q0.tailNode && q.tailIndex < |q0.nodes[q.tailNode]|
  {
    hide Segment, NonNil;
    ReadAll(q0);
    CellsBefore(q);
    SameSizes(q0.nodes, q.nodes, q.tailNode);
  }

  /** After the sweep the tail is in one of the last two nodes exactly when the values reach that far. */
  lemma ReachesIff(q0: Chunks<Id>, q: Chunks<Id>)
    requires Valid(q0) && Clean(q0) && Progress(q0, q, q0.tailNode, q0.tailIndex)
    ensures q0.tailNode <= q.tailNode + 1 <==> ReachesLast(q0)
  {
    hide Progress, Content, Clean;
    SweptLength(q0, q);
    if q0.tailNode > 1 {
      if q.tailNode + 1 < q0.tailNode {
        FlatMonotone(q0.nodes, q.tailNode + 1, q0.tailNode - 1);
        FlatLength(q0.nodes, 0, q.tailNode);
        assert q0.nodes[0..q.tailNode + 1] == q0.nodes[..q.tailNode + 1]
          && q0.nodes[0..q.tailNode] == q0.nodes[..q.tailNode];
      } else {
        FlatMonotone(q0.nodes, q0.tailNode - 1, q.tailNode);
      }
    }
  }

  /** This compaction does not lower the node count. The count stays right if and only if the values that the queue
      holds before it reach into the last node but one, so that no node is given back. */
  lemma NodeIndexDrift(q: Chunks<Id>, index: map<Id, nat>)
    requires Valid(q) && Clean(q) && Exact(q) && Narrow(q.nodes) && Agrees(q.nodes, index)
    ensures Exact(Compacted(q, index).q) <==> ReachesLast(q)
  {
    hide Agrees, Narrow, Valid, Clean, SweepFrom, ReachesLast;
    SweptOk(q, index);
    var t := SweptQueue(q, index).q;
    ReachesIff(q, t);
    TrimmedCount(q, t);
  }

  lemma TrimmedCount(q0: Chunks<Id>, q: Chunks<Id>)
    requires Valid(q0) && Exact(q0) && Progress(q0, q, q0.tailNode, q0.tailIndex)
    ensures Exact(Trimmed(q, q0.tailNode)) <==> q0.tailNode <= q.tailNode + 1
  {
    var q' := Trimmed(q, q0.tailNode);
    if q0.tailNode > q.tailNode + 1 {
      assert q'.nodes[q0.tailNode] == [];
      assert |q0.nodes[q0.tailNode]| > 0;
    }
  }
}
