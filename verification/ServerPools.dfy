/** All connections of a server with the list that they share. Between them they keep exactly the pool of the database
    model: every operation is an event of a legal run. */
module ServerPools {
  import opened Protocol
  import opened KeySpec
  import opened KeyProofs
  import opened CommandPool
  import R = Runs

  // ---------- sums over the connections

  function Sum(vs: seq<seq<nat>>, x: nat): nat {
    if vs == [] then 0 else Tally(vs[0], x) + Sum(vs[1..], x)
  }

  lemma {:induction false} SumSet(vs: seq<seq<nat>>, k: nat, v: seq<nat>, x: nat)
    requires k < |vs|
    ensures Sum(vs[k := v], x) == Sum(vs, x) - Tally(vs[k], x) + Tally(v, x)
    ensures Sum(vs, x) >= Tally(vs[k], x)
  {
    if k == 0 {
      assert vs[k := v][1..] == vs[1..];
    } else {
      SumSet(vs[1..], k - 1, v, x);
      assert vs[k := v][1..] == vs[1..][k - 1 := v];
    }
  }

  lemma {:induction false} SumPlus(vs: seq<seq<nat>>, v: seq<nat>, x: nat)
    ensures Sum(vs + [v], x) == Sum(vs, x) + Tally(v, x)
  {
    if vs == [] {
      assert vs + [v] == [v] && [v][1..] == [];
    } else {
      SumPlus(vs[1..], v, x);
      assert (vs + [v])[1..] == vs[1..] + [v];
    }
  }

  // ---------- legal runs

  /** A record that is in no pool, in no hand and in no key. */
  ghost predicate Unknown(db: R.Db, c: nat) { R.Total(db, c) == 0 }

  lemma UnknownUnpooled(db: R.Db, c: nat)
    requires Unknown(db, c)
    ensures Tally(db.pool, c) == 0
  {
    R.SumNonNegative(R.OwnedOf(c), db.keys);
  }

  lemma Extended(n: nat, run: seq<R.Event>, e: R.Event)
    requires R.Legal(n, run) && R.Enabled(R.After(n, run), e)
    ensures R.Legal(n, run + [e]) && R.After(n, run + [e]) == R.Next(R.After(n, run), e)
  {
    assert (run + [e])[..|run|] == run;
  }

  function Stocks(cs: seq<nat>): seq<R.Event> {
    if cs == [] then [] else Stocks(cs[..|cs| - 1]) + [R.Stock(cs[|cs| - 1])]
  }

  /** New records are stocked one after another. */
  lemma {:induction false} Stocked(n: nat, run: seq<R.Event>, cs: seq<nat>)
    requires R.Legal(n, run) && (forall i :: 0 <= i < |cs| ==> Unknown(R.After(n, run), cs[i]))
    requires forall i, j :: 0 <= i < j < |cs| ==> cs[i] != cs[j]
    ensures R.Legal(n, run + Stocks(cs))
    ensures R.After(n, run + Stocks(cs)) == R.After(n, run).(pool := R.After(n, run).pool + cs)
    ensures forall c :: c !in cs ==> R.Total(R.After(n, run + Stocks(cs)), c) == R.Total(R.After(n, run), c)
    decreases |cs|
  {
    hide R.Legal, R.After, R.Total;
    if cs == [] {
      assert run + [] == run;
      assert R.After(n, run).pool + [] == R.After(n, run).pool;
    } else {
      var front, c := cs[..|cs| - 1], cs[|cs| - 1];
      Stocked(n, run, front);
      var db := R.After(n, run + Stocks(front));
      Extended(n, run + Stocks(front), R.Stock(c));
      assert run + Stocks(front) + [R.Stock(c)] == run + Stocks(cs);
      assert front + [c] == cs;
      forall d | d !in cs ensures R.Total(R.Next(db, R.Stock(c)), d) == R.Total(db, d) {
        R.NextTotal(db, R.Stock(c), d);
      }
    }
  }

  /** A record is taken from the pool, or is new. */
  lemma TakenFrom(n: nat, run: seq<R.Event>, c: nat, pooled: bool)
    requires R.Legal(n, run) && var db := R.After(n, run);
             (pooled ==> Tally(db.pool, c) > 0) && (!pooled ==> Unknown(db, c))
    ensures R.Legal(n, run + [R.Checkout(c)])
    ensures forall x :: Tally(R.After(n, run).pool, x)
                        == Tally(R.After(n, run + [R.Checkout(c)]).pool, x) + Bit(pooled && x == c)
  {
    hide R.Legal, R.After, Tally, R.Drop;
    Extended(n, run, R.Checkout(c));
    if !pooled { UnknownUnpooled(R.After(n, run), c); }
    forall x ensures Tally(R.After(n, run).pool, x)
                     == Tally(R.After(n, run + [R.Checkout(c)]).pool, x) + Bit(pooled && x == c)
    {
      R.DropTally(R.After(n, run).pool, c, x);
    }
  }

  // ---------- the server

  /** Where a returned record goes, and whether the thread that returns it is the connection's own. */
  datatype Return = Return(connection: nat, ownThread: bool)

  /** The records in the lists of each connection. */
  ghost function ListsOf(cs: seq<Connection>): (vs: seq<seq<nat>>)
    reads cs
    ensures |vs| == |cs|
    ensures forall i :: 0 <= i < |vs| ==> vs[i] == cs[i].freeCommands + cs[i].lockedFreeCommands
  {
    seq(|cs|, i reads cs requires 0 <= i < |cs| => cs[i].freeCommands + cs[i].lockedFreeCommands)
  }

  class Server {
    const shared: SharedPool
    ghost const keys: nat
    var connections: seq<Connection>
    /** The run of the database model so far. */
    ghost var run: seq<R.Event>

    ghost function Lists(): (vs: seq<seq<nat>>)
      reads this`connections, connections
    {
      ListsOf(connections)
    }

    /** How often a record is in a list of any connection or in the shared list. */
    ghost function Pooled(x: nat): nat
      reads this`connections, connections, shared
    {
      Sum(Lists(), x) + Tally(shared.freeCommands, x)
    }

    ghost predicate Wired()
      reads this`connections, connections, shared
    {
      && shared.Valid()
      && (forall i :: 0 <= i < |connections| ==> connections[i].shared == shared)
      && (forall i, j :: 0 <= i < j < |connections| ==> connections[i] != connections[j])
    }

    ghost function Database(): R.Db
      reads this
    {
      R.After(keys, run)
    }

    /** The run is legal, and all lists together are its pool. */
    ghost predicate Valid()
      reads this, connections, shared
    {
      Wired() && R.Legal(keys, run) && forall x :: Pooled(x) == Tally(Database().pool, x)
    }

    constructor (ghost keys: nat)
      ensures Valid() && connections == [] && run == [] && this.keys == keys && fresh(shared)
    {
      this.keys := keys;
      shared := new SharedPool();
      connections, run := [], [];
    }

    /** Nothing changes but the lists of one connection and the shared list. */
    twostate lemma OnlyAt(k: nat)
      requires connections == old(connections) && k < |connections|
      requires old(Wired()) && Wired()
      requires forall i :: 0 <= i < |connections| && i != k ==>
                 connections[i].freeCommands == old(connections[i].freeCommands)
                 && connections[i].lockedFreeCommands == old(connections[i].lockedFreeCommands)
      ensures forall x :: Pooled(x) - old(Pooled(x)) == connections[k].Pooled(x) - old(connections[k].Pooled(x))
      ensures forall x :: old(Pooled(x)) >= old(connections[k].Pooled(x))
    {
      var c := connections[k];
      var a, b := old(c.freeCommands), old(c.lockedFreeCommands);
      assert Lists() == old(Lists())[k := c.freeCommands + c.lockedFreeCommands];
      forall x
        ensures Pooled(x) - old(Pooled(x)) == c.Pooled(x) - old(c.Pooled(x)) && old(Pooled(x)) >= old(c.Pooled(x))
      {
        OneChanges(old(Lists()), k, a, b, c.freeCommands, c.lockedFreeCommands, x);
      }
    }

    /** A connection takes a record for a request: a checkout of the database model. `made` is a new record. */
    method GetLockCommand(k: nat, made: nat) returns (c: nat)
      requires Valid() && k < |connections| && Unknown(Database(), made)
      modifies this, shared, connections
      ensures Valid() && connections == old(connections) && run == old(run) + [R.Checkout(c)]
    {
      hide R.Legal, Unknown, Tally, Sum, R.After;
      label Before:
      var isNew;
      c, isNew := connections[k].GetLockCommand(made);
      OnlyAt@Before(k);
      TakenFrom(keys, run, c, !isNew);
      run := run + [R.Checkout(c)];
    }

    /** A returned record goes to one connection, or to the shared list if that is closed. */
    method FreeLockCommand(c: nat, to: Return)
      requires Wired() && to.connection < |connections|
      modifies shared, connections
      ensures Wired() && forall x :: Pooled(x) == old(Pooled(x)) + Bit(x == c)
    {
      hide Tally, Sum;
      label Before:
      if to.ownThread {
        connections[to.connection].FreeLockCommand(c);
      } else {
        connections[to.connection].FreeLockCommandLocked(c);
      }
      OnlyAt@Before(to.connection);
    }

    /** After a critical section of a key the records that it gave up go back, to whatever connections. */
    method Finish(freed: seq<nat>, to: seq<Return>, ghost key: nat, ghost step: KeyEvent)
      requires Valid() && R.Enabled(Database(), R.At(key, step))
      requires key < |Database().keys| && freed == R.OutcomeAt(Database(), key, step).freed
      requires |to| == |freed| && forall i :: 0 <= i < |to| ==> to[i].connection < |connections|
      modifies this, shared, connections
      ensures Valid() && connections == old(connections) && run == old(run) + [R.At(key, step)]
    {
      hide R.Legal, R.After, Tally, Sum, R.OutcomeAt, R.Enabled;
      NoTally();
      for i := 0 to |freed|
        invariant Wired() && connections == old(connections) && run == old(run)
        invariant forall x :: Pooled(x) == old(Pooled(x)) + Tally(freed[..i], x)
      {
        FreeLockCommand(freed[i], to[i]);
        TallyPlus(freed[..i], freed[i]);
        assert freed[..i + 1] == freed[..i] + [freed[i]];
      }
      assert freed[..|freed|] == freed;
      ghost var pool := Database().pool;
      Extended(keys, run, R.At(key, step));
      run := run + [R.At(key, step)];
      forall x ensures Tally(pool + freed, x) == Tally(pool, x) + Tally(freed, x) {
        TallySplit(pool, freed, x);
      }
    }

    /** A connection that has no records yet. */
    method Accept()
      requires Wired()
      modifies this`connections
      ensures Wired() && |connections| == |old(connections)| + 1
              && connections[..|old(connections)|] == old(connections)
      ensures fresh(connections[|old(connections)|])
      ensures forall x :: Pooled(x) == old(Pooled(x))
    {
      hide Tally, Sum;
      ghost var lists := Lists();
      var c := new Connection(shared);
      connections := connections + [c];
      NoTally();
      assert Lists() == lists + [[]];
      forall x ensures Sum(lists + [[]], x) == Sum(lists, x) { SumPlus(lists, [], x); }
    }

    /** A connection starts with four records: shared ones as far as there are, and new ones of `made`. */
    method Connect(made: seq<nat>)
      requires Valid() && |made| == 4
      requires forall i :: 0 <= i < |made| ==> Unknown(Database(), made[i])
      requires forall i, j :: 0 <= i < j < |made| ==> made[i] != made[j]
      modifies this, shared, connections
      ensures Valid() && |connections| == |old(connections)| + 1
              && connections[..|old(connections)|] == old(connections)
      ensures fresh(connections[|old(connections)|])
      ensures var n := |old(shared.freeCommands)|; run == old(run) + Stocks(made[if n < 4 then n else 4..])
    {
      hide R.Legal, R.After, Tally, Sum, Unknown, Stocks, Lists;
      ghost var n := if |shared.freeCommands| < 4 then |shared.freeCommands| else 4;
      Accept();
      label Before:
      connections[|connections| - 1].InitLockCommand(made);
      OnlyAt@Before(|connections| - 1);
      ghost var pool := Database().pool;
      Stocked(keys, run, made[n..]);
      run := run + Stocks(made[n..]);
      forall x ensures Tally(pool + made[n..], x) == Tally(pool, x) + Tally(made[n..], x) {
        TallySplit(pool, made[n..], x);
      }
    }

    /** A connection ends: its records go to the shared list, and the database model sees nothing. */
    method Close(k: nat)
      requires Valid() && k < |connections|
      modifies this, shared, connections
      ensures Valid() && connections == old(connections) && run == old(run)
      ensures connections[k].closed
      ensures !old(connections[k].closed) ==>
              connections[k].freeCommands == [] && connections[k].lockedFreeCommands == []
    {
      hide R.Legal, R.After, Tally, Sum;
      if !connections[k].closed {
        NoTally();
        label Before:
        connections[k].UnInitLockCommand();
        connections[k].closed := true;
        OnlyAt@Before(k);
      }
    }

    /** Whatever the connections have done: no record is in two lists, or in one list twice, and the record of a hold or
        of a waiter of any key is in none. */
    lemma RecordsApart(x: nat)
      requires Valid()
      ensures Pooled(x) <= 1
      ensures forall k :: 0 <= k < |Database().keys| && Owned(Database().keys[k], x) > 0 ==> Pooled(x) == 0
    {
      hide R.Legal, Tally, Sum, Owned;
      R.CommandOwnership(keys, run, x);
    }
  }

  /** A change of one connection and the shared list changes the sum by as much. */
  lemma OneChanges(vs: seq<seq<nat>>, k: nat, a: seq<nat>, b: seq<nat>, a': seq<nat>, b': seq<nat>, x: nat)
    requires k < |vs| && vs[k] == a + b
    ensures Sum(vs[k := a' + b'], x) - Sum(vs, x) == Tally(a', x) + Tally(b', x) - Tally(a, x) - Tally(b, x)
    ensures Sum(vs, x) >= Tally(a, x) + Tally(b, x)
  {
    SumSet(vs, k, a' + b', x);
    TallySplit(a, b, x);
    TallySplit(a', b', x);
  }
}
