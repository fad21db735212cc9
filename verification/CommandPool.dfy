/** The pools of command records: two free lists per connection, one of them for records returned by other threads, and
    a list shared by all connections. */
module CommandPool {
  import opened Protocol
  import opened KeyProofs

  lemma TallyPlus(cs: seq<nat>, d: nat)
    ensures forall c :: Tally(cs + [d], c) == Tally(cs, c) + Bit(d == c)
  {
    forall c ensures Tally(cs + [d], c) == Tally(cs, c) + Bit(d == c) {
      TallySplit(cs, [d], c);
      assert [d][1..] == [];
    }
  }

  lemma TallyLast(cs: seq<nat>)
    requires cs != []
    ensures forall c :: Tally(cs, c) == Tally(cs[..|cs| - 1], c) + Bit(cs[|cs| - 1] == c)
  {
    TallyPlus(cs[..|cs| - 1], cs[|cs| - 1]);
    assert cs[..|cs| - 1] + [cs[|cs| - 1]] == cs;
  }

  class SharedPool {
    var freeCommands: seq<nat>
    var count: int

    ghost predicate Valid()
      reads this
    {
      count == |freeCommands|
    }

    constructor ()
      ensures Valid() && freeCommands == []
    {
      freeCommands, count := [], 0;
    }

    method Push(c: nat)
      requires Valid()
      modifies this
      ensures Valid() && freeCommands == old(freeCommands) + [c]
    {
      freeCommands, count := freeCommands + [c], count + 1;
    }

    method Pop() returns (c: nat)
      requires Valid() && freeCommands != []
      modifies this
      ensures Valid() && old(freeCommands) == freeCommands + [c]
    {
      c := freeCommands[|freeCommands| - 1];
      freeCommands, count := freeCommands[..|freeCommands| - 1], count - 1;
    }
  }

  class Connection {
    const shared: SharedPool
    var freeCommands: seq<nat>
    var lockedFreeCommands: seq<nat>
    var closed: bool

    constructor (shared: SharedPool)
      ensures this.shared == shared && freeCommands == [] && lockedFreeCommands == [] && !closed
    {
      this.shared := shared;
      freeCommands, lockedFreeCommands, closed := [], [], false;
    }

    /** How often a record is in the lists that the connection can reach. */
    ghost function Pooled(c: nat): nat
      reads this, shared
    {
      Tally(freeCommands, c) + Tally(lockedFreeCommands, c) + Tally(shared.freeCommands, c)
    }

    method PopFree() returns (c: nat)
      requires freeCommands != []
      modifies `freeCommands
      ensures old(freeCommands) == freeCommands + [c]
      ensures forall x :: old(Pooled(x)) == Pooled(x) + Bit(x == c)
    {
      hide Tally;
      TallyLast(freeCommands);
      c := freeCommands[|freeCommands| - 1];
      freeCommands := freeCommands[..|freeCommands| - 1];
    }

    method PopLocked() returns (c: nat)
      requires lockedFreeCommands != []
      modifies `lockedFreeCommands
      ensures old(lockedFreeCommands) == lockedFreeCommands + [c]
      ensures forall x :: old(Pooled(x)) == Pooled(x) + Bit(x == c)
    {
      hide Tally;
      TallyLast(lockedFreeCommands);
      c := lockedFreeCommands[|lockedFreeCommands| - 1];
      lockedFreeCommands := lockedFreeCommands[..|lockedFreeCommands| - 1];
    }

    method PopShared() returns (c: nat)
      requires shared.Valid() && shared.freeCommands != []
      modifies shared
      ensures shared.Valid() && old(shared.freeCommands) == shared.freeCommands + [c]
      ensures forall x :: old(Pooled(x)) == Pooled(x) + Bit(x == c)
    {
      hide Tally;
      c := shared.Pop();
      TallyPlus(shared.freeCommands, c);
    }

    /** A record comes back on the connection's own thread. */
    method FreeLockCommand(c: nat)
      modifies `freeCommands
      ensures freeCommands == old(freeCommands) + [c]
      ensures forall x :: Pooled(x) == old(Pooled(x)) + Bit(x == c)
    {
      hide Tally;
      TallyPlus(freeCommands, c);
      freeCommands := freeCommands + [c];
    }

    /** A record comes back on another thread: to the shared list if the connection is closed. */
    method FreeLockCommandLocked(c: nat)
      requires shared.Valid()
      modifies `lockedFreeCommands, shared
      ensures shared.Valid() && forall x :: Pooled(x) == old(Pooled(x)) + Bit(x == c)
    {
      hide Tally;
      if closed {
        TallyPlus(shared.freeCommands, c);
        shared.Push(c);
      } else {
        TallyPlus(lockedFreeCommands, c);
        lockedFreeCommands := lockedFreeCommands + [c];
      }
    }

    /** A record for a request: a pooled one, which leaves the pools, or the new record `made` when there is none. */
    method GetLockCommand(made: nat) returns (c: nat, isNew: bool)
      requires shared.Valid()
      modifies this, shared
      ensures shared.Valid() && (isNew ==> c == made)
      ensures isNew <==> forall x :: old(Pooled(x)) == 0
      ensures forall x :: old(Pooled(x)) == Pooled(x) + Bit(!isNew && x == c)
      ensures old(freeCommands) != [] ==>
                c == old(freeCommands)[|old(freeCommands)| - 1] && lockedFreeCommands == old(lockedFreeCommands)
                && shared.freeCommands == old(shared.freeCommands)
      ensures old(freeCommands) == [] && old(lockedFreeCommands) != [] ==>
                lockedFreeCommands == [] && |freeCommands| == |old(lockedFreeCommands)| - 1
                && shared.freeCommands == old(shared.freeCommands)
      ensures old(freeCommands) == [] && old(lockedFreeCommands) == [] ==>
                |shared.freeCommands| == (if |old(shared.freeCommands)| < 9 then 0 else |old(shared.freeCommands)| - 9)
    {
      hide Tally;
      if freeCommands != [] {
        c := PopFree();
        assert old(Pooled(c)) > 0;
        return c, false;
      }
      c, isNew := GetLockCommandLocked(made);
    }

    method GetLockCommandLocked(made: nat) returns (c: nat, isNew: bool)
      requires shared.Valid() && freeCommands == []
      modifies this, shared
      ensures shared.Valid() && (isNew ==> c == made)
      ensures isNew <==> forall x :: old(Pooled(x)) == 0
      ensures forall x :: old(Pooled(x)) == Pooled(x) + Bit(!isNew && x == c)
      ensures old(lockedFreeCommands) != [] ==>
                lockedFreeCommands == [] && |freeCommands| == |old(lockedFreeCommands)| - 1
                && shared.freeCommands == old(shared.freeCommands)
      ensures old(lockedFreeCommands) == [] ==>
                |shared.freeCommands| == (if |old(shared.freeCommands)| < 9 then 0 else |old(shared.freeCommands)| - 9)
    {
      hide Tally;
      if lockedFreeCommands != [] {
        c := PopLocked();
        while lockedFreeCommands != []
          invariant shared.Valid() && forall x :: old(Pooled(x)) == Pooled(x) + Bit(x == c)
          invariant |freeCommands| + |lockedFreeCommands| == |old(lockedFreeCommands)| - 1
          invariant shared.freeCommands == old(shared.freeCommands)
          decreases |lockedFreeCommands|
        {
          var d := PopLocked();
          FreeLockCommand(d);
        }
        assert old(Pooled(c)) > 0;
        return c, false;
      }
      if shared.freeCommands != [] {
        c := PopShared();
        for i := 0 to 8
          invariant shared.Valid() && forall x :: old(Pooled(x)) == Pooled(x) + Bit(x == c)
          invariant |shared.freeCommands| == |old(shared.freeCommands)| - 1 - i
        {
          if shared.freeCommands == [] {
            break;
          }
          var d := PopShared();
          FreeLockCommand(d);
        }
        assert old(Pooled(c)) > 0;
        return c, false;
      }
      Nothing();
      return made, true;
    }

    lemma Nothing()
      requires freeCommands == [] && lockedFreeCommands == [] && shared.freeCommands == []
      ensures forall x :: Pooled(x) == 0
    {
    }

    /** A connection that starts stocks its own list with four records, shared ones as far as there are, then new ones;
        `made` are new records, in no list. */
    method InitLockCommand(made: seq<nat>)
      requires shared.Valid() && |made| == 4
      modifies `freeCommands, shared
      ensures shared.Valid() && |freeCommands| == |old(freeCommands)| + 4
      ensures |shared.freeCommands| == if |old(shared.freeCommands)| < 4 then 0 else |old(shared.freeCommands)| - 4
      ensures var n := if |old(shared.freeCommands)| < 4 then |old(shared.freeCommands)| else 4;
              forall x :: Pooled(x) == old(Pooled(x)) + Tally(made[n..], x)
    {
      hide Tally;
      ghost var n := if |shared.freeCommands| < 4 then |shared.freeCommands| else 4;
      NoTally();
      assert made[n..n] == [];
      for i := 0 to 4
        invariant shared.Valid() && |freeCommands| == |old(freeCommands)| + i
        invariant |shared.freeCommands| == |old(shared.freeCommands)| - (if i < n then i else n)
        invariant forall x :: Pooled(x) == old(Pooled(x)) + (if i < n then 0 else Tally(made[n..i], x))
      {
        if shared.freeCommands != [] {
          var c := PopShared();
          FreeLockCommand(c);
          assert i + 1 == n ==> made[n..i + 1] == [];
        } else {
          TallyPlus(made[n..i], made[i]);
          assert made[n..i + 1] == made[n..i] + [made[i]];
          FreeLockCommand(made[i]);
        }
      }
      assert made[n..4] == made[n..];
    }

    /** A connection that ends gives all its records to the shared list. */
    method UnInitLockCommand()
      requires shared.Valid()
      modifies this, shared
      ensures shared.Valid() && freeCommands == [] && lockedFreeCommands == []
      ensures forall x :: Tally(shared.freeCommands, x) == old(Pooled(x))
    {
      hide Tally;
      while freeCommands != []
        invariant shared.Valid() && forall x :: Pooled(x) == old(Pooled(x))
        decreases |freeCommands|
      {
        var c := PopFree();
        TallyPlus(shared.freeCommands, c);
        shared.Push(c);
      }
      while lockedFreeCommands != []
        invariant shared.Valid() && freeCommands == [] && forall x :: Pooled(x) == old(Pooled(x))
        decreases |lockedFreeCommands|
      {
        var c := PopLocked();
        TallyPlus(shared.freeCommands, c);
        shared.Push(c);
      }
      NoTally();
    }
  }

  lemma NoTally()
    ensures forall x :: Tally([], x) == 0
  {
  }
}
