/** The lists of one key as the engine keeps them: holds and waiters that are gone stay in place until they reach
    the front. These functions read the live entries out of such lists. */
module Lazy {
  import opened Protocol
  import opened KeySpec

  /** What the lists are about in a lock object. */
  datatype LockView = LockView(
    command: LockCommand,
    expireTime: int,
    timeoutTime: int,
    locked: nat,
    timeouted: bool)

  function HoldOf(v: LockView): Hold {
    Hold(v.command.commandId, v.command.lockId, v.locked, v.command.count, v.command.rcount, v.expireTime)
  }

  function WaiterOf(v: LockView): Waiter {
    Waiter(v.command.commandId, v.command.lockId, v.command.expried, v.command.expriedFlag, v.command.count,
           v.command.rcount, v.timeoutTime)
  }

  function LiveHolds(vs: seq<LockView>): seq<Hold> {
    if vs == [] then []
    else if vs[0].locked > 0 then [HoldOf(vs[0])] + LiveHolds(vs[1..])
    else LiveHolds(vs[1..])
  }

  function LiveWaiters(vs: seq<LockView>): seq<Waiter> {
    if vs == [] then []
    else if vs[0].timeouted then LiveWaiters(vs[1..])
    else [WaiterOf(vs[0])] + LiveWaiters(vs[1..])
  }

  lemma {:induction false} LiveHoldsSplit(a: seq<LockView>, b: seq<LockView>)
    ensures LiveHolds(a + b) == LiveHolds(a) + LiveHolds(b)
  {
    if a == [] {
      assert a + b == b;
    } else {
      assert (a + b)[1..] == a[1..] + b;
      LiveHoldsSplit(a[1..], b);
    }
  }

  lemma {:induction false} LiveWaitersSplit(a: seq<LockView>, b: seq<LockView>)
    ensures LiveWaiters(a + b) == LiveWaiters(a) + LiveWaiters(b)
  {
    if a == [] {
      assert a + b == b;
    } else {
      assert (a + b)[1..] == a[1..] + b;
      LiveWaitersSplit(a[1..], b);
    }
  }

  /** The live holds before and from a position. */
  lemma LiveHoldsFrom(vs: seq<LockView>, i: nat)
    requires i < |vs|
    ensures LiveHolds(vs) == LiveHolds(vs[..i]) + LiveHolds(vs[i..])
    ensures LiveHolds(vs[i..])
            == if vs[i].locked > 0 then [HoldOf(vs[i])] + LiveHolds(vs[i + 1..]) else LiveHolds(vs[i + 1..])
  {
    assert vs == vs[..i] + vs[i..];
    LiveHoldsSplit(vs[..i], vs[i..]);
    assert vs[i..][1..] == vs[i + 1..];
  }

  lemma LiveWaitersFrom(vs: seq<LockView>, i: nat)
    requires i < |vs|
    ensures LiveWaiters(vs) == LiveWaiters(vs[..i]) + LiveWaiters(vs[i..])
    ensures LiveWaiters(vs[i..])
            == if vs[i].timeouted then LiveWaiters(vs[i + 1..]) else [WaiterOf(vs[i])] + LiveWaiters(vs[i + 1..])
  {
    assert vs == vs[..i] + vs[i..];
    LiveWaitersSplit(vs[..i], vs[i..]);
    assert vs[i..][1..] == vs[i + 1..];
  }

  lemma LiveHoldsOne(v: LockView)
    ensures LiveHolds([v]) == if v.locked > 0 then [HoldOf(v)] else []
  {
    assert [v][1..] == [];
    assert v.locked > 0 ==> [HoldOf(v)] + LiveHolds([v][1..]) == [HoldOf(v)];
  }

  lemma LiveWaitersOne(v: LockView)
    ensures LiveWaiters([v]) == if v.timeouted then [] else [WaiterOf(v)]
  {
    assert [v][1..] == [];
    assert !v.timeouted ==> [WaiterOf(v)] + LiveWaiters([v][1..]) == [WaiterOf(v)];
  }

  /** The place of a live hold among the live holds. */
  function Rank(vs: seq<LockView>, i: nat): nat
    requires i <= |vs|
  {
    |LiveHolds(vs[..i])|
  }

  function WaitRank(vs: seq<LockView>, i: nat): nat
    requires i <= |vs|
  {
    |LiveWaiters(vs[..i])|
  }

  /** A live hold is found at its rank, and changing it changes that hold. */
  lemma HoldAtRank(vs: seq<LockView>, i: nat, v: LockView)
    requires i < |vs| && vs[i].locked > 0 && v.locked > 0
    ensures Rank(vs, i) < |LiveHolds(vs)| && LiveHolds(vs)[Rank(vs, i)] == HoldOf(vs[i])
    ensures LiveHolds(vs[i := v]) == LiveHolds(vs)[Rank(vs, i) := HoldOf(v)]
  {
    var a, b := LiveHolds(vs[..i]), LiveHolds(vs[i + 1..]);
    assert LiveHolds(vs) == a + ([HoldOf(vs[i])] + b) by {
      LiveHoldsFrom(vs, i);
    }
    assert LiveHolds(vs[i := v]) == a + ([HoldOf(v)] + b) by {
      LiveHoldsFrom(vs[i := v], i);
      assert vs[i := v][..i] == vs[..i] && vs[i := v][i + 1..] == vs[i + 1..];
    }
  }

  /** The end of a live hold removes the hold at its rank. */
  lemma HoldEnds(vs: seq<LockView>, i: nat, v: LockView)
    requires i < |vs| && vs[i].locked > 0 && v.locked == 0
    ensures Rank(vs, i) < |LiveHolds(vs)| && LiveHolds(vs)[Rank(vs, i)] == HoldOf(vs[i])
    ensures LiveHolds(vs[i := v]) == Without(LiveHolds(vs), Rank(vs, i))
  {
    var a, b := LiveHolds(vs[..i]), LiveHolds(vs[i + 1..]);
    assert LiveHolds(vs) == a + ([HoldOf(vs[i])] + b) by {
      LiveHoldsFrom(vs, i);
    }
    assert LiveHolds(vs[i := v]) == a + b by {
      LiveHoldsFrom(vs[i := v], i);
      assert vs[i := v][..i] == vs[..i] && vs[i := v][i + 1..] == vs[i + 1..];
    }
  }

  lemma WaiterAtRank(vs: seq<LockView>, i: nat, v: LockView)
    requires i < |vs| && !vs[i].timeouted
    ensures WaitRank(vs, i) < |LiveWaiters(vs)| && LiveWaiters(vs)[WaitRank(vs, i)] == WaiterOf(vs[i])
    ensures v.timeouted ==> LiveWaiters(vs[i := v]) == Without(LiveWaiters(vs), WaitRank(vs, i))
  {
    var a, b := LiveWaiters(vs[..i]), LiveWaiters(vs[i + 1..]);
    assert LiveWaiters(vs) == a + ([WaiterOf(vs[i])] + b) by {
      LiveWaitersFrom(vs, i);
    }
    assert LiveWaiters(vs[i := v]) == a + (if v.timeouted then b else [WaiterOf(v)] + b) by {
      LiveWaitersFrom(vs[i := v], i);
      assert vs[i := v][..i] == vs[..i] && vs[i := v][i + 1..] == vs[i + 1..];
    }
  }

  /** The live holds depend only on the live entries. */
  lemma {:induction false} SameHolds(vs: seq<LockView>, us: seq<LockView>)
    requires |vs| == |us|
    requires forall i :: 0 <= i < |vs| ==> (vs[i].locked > 0 <==> us[i].locked > 0)
    requires forall i :: 0 <= i < |vs| && vs[i].locked > 0 ==> HoldOf(vs[i]) == HoldOf(us[i])
    ensures LiveHolds(vs) == LiveHolds(us)
  {
    if vs != [] {
      SameHolds(vs[1..], us[1..]);
    }
  }

  /** The live waiters depend only on the live entries. */
  lemma {:induction false} SameWaiters(vs: seq<LockView>, us: seq<LockView>)
    requires |vs| == |us|
    requires forall i :: 0 <= i < |vs| ==> (vs[i].timeouted <==> us[i].timeouted)
    requires forall i :: 0 <= i < |vs| && !vs[i].timeouted ==> WaiterOf(vs[i]) == WaiterOf(us[i])
    ensures LiveWaiters(vs) == LiveWaiters(us)
  {
    if vs != [] {
      SameWaiters(vs[1..], us[1..]);
    }
  }

  /** Dropping entries that are gone from the front changes nothing. */
  lemma {:induction false} DropGoneHolds(vs: seq<LockView>, n: nat)
    requires n <= |vs| && forall i :: 0 <= i < n ==> vs[i].locked == 0
    ensures LiveHolds(vs[n..]) == LiveHolds(vs)
  {
    if n > 0 {
      DropGoneHolds(vs[1..], n - 1);
      assert vs[1..][n - 1..] == vs[n..];
    }
  }

  lemma {:induction false} DropGoneWaiters(vs: seq<LockView>, n: nat)
    requires n <= |vs| && forall i :: 0 <= i < n ==> vs[i].timeouted
    ensures LiveWaiters(vs[n..]) == LiveWaiters(vs)
  {
    if n > 0 {
      DropGoneWaiters(vs[1..], n - 1);
      assert vs[1..][n - 1..] == vs[n..];
    }
  }
}
