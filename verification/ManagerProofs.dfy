/** The operations of the lock manager keep its representation, keep reference counts exact, and do to the key what
    the reference machine says. */
module ManagerProofs {
  import opened Protocol
  import opened KeySpec
  import opened Lazy
  import opened Locks
  import opened ManagerModel

  // ---------- views

  lemma ViewsSplit(m: Manager, a: seq<Lock>, b: seq<Lock>)
    ensures Views(m, a + b) == Views(m, a) + Views(m, b)
  {
  }

  lemma SameViews(m: Manager, m': Manager, ls: seq<Lock>)
    requires forall l :: l in ls ==> ViewOf(m'.Get(l)) == ViewOf(m.Get(l))
    ensures Views(m', ls) == Views(m, ls)
  {
  }

  /** The live holds are the current one, if any, and those of the queue. */
  function QueueHolds(m: Manager): seq<Hold> {
    LiveHolds(Views(m, m.locks))
  }

  function CurrentHolds(m: Manager): seq<Hold> {
    if m.currentLock.Some? then LiveHolds(Views(m, [m.currentLock.value])) else []
  }

  lemma HoldsOfAbs(m: Manager)
    ensures Abs(m).holders == CurrentHolds(m) + QueueHolds(m)
  {
    if m.currentLock.Some? {
      ViewsSplit(m, [m.currentLock.value], m.locks);
      LiveHoldsSplit(Views(m, [m.currentLock.value]), Views(m, m.locks));
    } else {
      assert AllHolds(m) == m.locks;
    }
  }

  lemma CurrentHold(m: Manager)
    requires m.currentLock.Some? && m.Get(m.currentLock.value).locked > 0
    ensures CurrentHolds(m) == [HoldOf(ViewOf(m.Get(m.currentLock.value)))]
  {
    assert Views(m, [m.currentLock.value]) == [ViewOf(m.Get(m.currentLock.value))];
    LiveHoldsOne(ViewOf(m.Get(m.currentLock.value)));
  }

  /** The waiters read the same if live entries do and dead ones stay dead. */
  lemma WaitersFrame(m: Manager, m': Manager, ls: seq<Lock>)
    requires forall l :: l in ls ==> m'.Get(l).timeouted == m.Get(l).timeouted
    requires forall l :: l in ls && !m.Get(l).timeouted ==> WaiterOf(ViewOf(m'.Get(l))) == WaiterOf(ViewOf(m.Get(l)))
    ensures LiveWaiters(Views(m', ls)) == LiveWaiters(Views(m, ls))
  {
    SameWaiters(Views(m, ls), Views(m', ls));
  }

  // ---------- dropping locks that are gone from the front of the queues

  /** `m'` is `m` without `h` dead holds and `w` dead waiters; only reference counts changed otherwise. */
  ghost predicate Trimmed(m: Manager, m': Manager, h: nat, w: nat) {
    && h <= |m.locks| && m'.locks == m.locks[h..]
    && (forall i :: 0 <= i < h ==> m.Get(m.locks[i]).locked == 0)
    && w <= |m.waitLocks| && m'.waitLocks == m.waitLocks[w..]
    && (forall i :: 0 <= i < w ==> m.Get(m.waitLocks[i]).timeouted)
    && m'.currentLock == m.currentLock && m'.lockMaps == m.lockMaps && m'.locked == m.locked && m'.waited == m.waited
    && m'.inTimeout == m.inTimeout && m'.inExpiry == m.inExpiry
    && m'.attached <= m.attached && InUse(m')
    && (forall l :: l in m'.attached ==> m'.Get(l) == m.Get(l).(refCount := m'.Get(l).refCount))
  }

  lemma TrimmedMembers(m: Manager, m': Manager, h: nat, w: nat)
    requires Members(m) && Trimmed(m, m', h, w)
    ensures Members(m')
  {
  }

  lemma TrimmedHolds(m: Manager, m': Manager, h: nat, w: nat, ending: Option<Lock>)
    requires Members(m) && HoldsOk(m, ending) && IndexOk(m) && Trimmed(m, m', h, w)
    ensures HoldsOk(m', ending) && IndexOk(m')
  {
    assert forall l :: l in m.locks ==> l in m.locks[..h] || l in m'.locks;
    assert forall l :: l in m.attached && m.IsHold(l) && m.Get(l).locked > 0 ==> m'.IsHold(l);
    assert forall l :: m'.IsHold(l) ==> m.IsHold(l);
  }

  lemma TrimmedWaits(m: Manager, m': Manager, h: nat, w: nat)
    requires Members(m) && WaitsOk(m) && LongOk(m) && Trimmed(m, m', h, w)
    ensures WaitsOk(m') && LongOk(m')
  {
    assert forall l :: l in m.waitLocks ==> l in m.waitLocks[..w] || l in m'.waitLocks;
    assert forall l :: m'.IsHold(l) ==> m.IsHold(l);
  }

  lemma TrimmedHolders(m: Manager, m': Manager, h: nat, w: nat)
    requires Members(m) && Trimmed(m, m', h, w)
    ensures Abs(m').holders == Abs(m).holders
  {
    HoldsOfAbs(m);
    HoldsOfAbs(m');
    assert QueueHolds(m') == QueueHolds(m) by {
      SameViews(m, m', m.locks[h..]);
      assert Views(m, m.locks[h..]) == Views(m, m.locks)[h..];
      DropGoneHolds(Views(m, m.locks), h);
    }
    if m.currentLock.Some? {
      SameViews(m, m', [m.currentLock.value]);
    }
  }

  lemma TrimmedWaiters(m: Manager, m': Manager, h: nat, w: nat)
    requires Members(m) && Trimmed(m, m', h, w)
    ensures Abs(m').waiters == Abs(m).waiters
  {
    SameViews(m, m', m.waitLocks[w..]);
    assert Views(m, m.waitLocks[w..]) == Views(m, m.waitLocks)[w..];
    DropGoneWaiters(Views(m, m.waitLocks), w);
  }

  lemma SameIndex(m: Manager, m': Manager)
    requires m'.lockMaps == m.lockMaps
    requires forall id :: id in m.lockMaps ==>
               m'.Get(m.lockMaps[id]).command.commandId == m.Get(m.lockMaps[id]).command.commandId
    ensures Abs(m').index == Abs(m).index
  {
  }

  lemma TrimmedKeeps(m: Manager, m': Manager, h: nat, w: nat, ending: Option<Lock>)
    requires Shape(m, ending) && Trimmed(m, m', h, w)
    ensures Shape(m', ending) && Abs(m') == Abs(m)
  {
    TrimmedMembers(m, m', h, w);
    TrimmedHolds(m, m', h, w, ending);
    TrimmedWaits(m, m', h, w);
    TrimmedHolders(m, m', h, w);
    TrimmedWaiters(m, m', h, w);
    SameIndex(m, m');
  }

  lemma ReleaseExact(m: Manager, l: Lock, idle: set<Lock>)
    requires l in m.attached && RefsExact(m, {l}, idle) && l !in idle
    requires Uses(m, l) == 0 ==> m.Get(l).locked == 0
    ensures RefsExact(Release(m, l), {}, idle)
    ensures Release(m, l).attached == if Uses(m, l) == 0 then m.attached - {l} else m.attached
  {
    var m' := Release(m, l);
    assert forall x :: Uses(m', x) == Uses(m, x);
  }

  /** The locks of `m` that may be dropped are not idle, and only holds have a depth. */
  ghost predicate Droppable(m: Manager, idle: set<Lock>) {
    && Members(m) && RefsExact(m, {}, idle)
    && (forall l :: l in m.attached && !m.IsHold(l) ==> m.Get(l).locked == 0)
    && (forall l :: l in idle ==> l !in m.locks)
  }

  /** The first hold of the queue is dropped. */
  function PoppedHold(m: Manager): Manager
    requires m.locks != []
  {
    Release(m.(locks := m.locks[1..]), m.locks[0])
  }

  function PoppedWaiter(m: Manager): Manager
    requires m.waitLocks != []
  {
    Release(m.(waitLocks := m.waitLocks[1..]), m.waitLocks[0])
  }

  lemma PopHoldExact(m: Manager, idle: set<Lock>)
    requires Droppable(m, idle) && m.locks != [] && m.Get(m.locks[0]).locked == 0
    ensures RefsExact(PoppedHold(m), {}, idle)
    ensures PoppedHold(m).attached
            == if Uses(m, m.locks[0]) == 1 then m.attached - {m.locks[0]} else m.attached
    ensures forall x :: x in PoppedHold(m).locks <==> x in m.locks && x != m.locks[0]
  {
    var l := m.locks[0];
    var m1 := m.(locks := m.locks[1..]);
    assert forall x :: x in m1.locks <==> x in m.locks && x != l;
    assert forall x :: Uses(m1, x) == Uses(m, x) - Bit(x == l);
    ReleaseExact(m1, l, idle);
  }

  lemma PopHoldTrims(m: Manager, idle: set<Lock>)
    requires Droppable(m, idle) && m.locks != [] && m.Get(m.locks[0]).locked == 0
    ensures Trimmed(m, PoppedHold(m), 1, 0)
  {
    PopHoldExact(m, idle);
    var l := m.locks[0];
    assert Uses(m, l) == 1 ==> l !in m.inTimeout && l !in m.inExpiry;
  }

  lemma PopHold(m: Manager, idle: set<Lock>)
    requires Droppable(m, idle) && m.locks != [] && m.Get(m.locks[0]).locked == 0
    ensures Droppable(PoppedHold(m), idle) && Trimmed(m, PoppedHold(m), 1, 0)
  {
    PopHoldExact(m, idle);
    PopHoldTrims(m, idle);
    TrimmedMembers(m, PoppedHold(m), 1, 0);
  }

  lemma PopWaiterExact(m: Manager)
    requires Droppable(m, {}) && m.waitLocks != [] && m.Get(m.waitLocks[0]).timeouted
    ensures RefsExact(PoppedWaiter(m), {}, {})
    ensures PoppedWaiter(m).attached
            == if Uses(m, m.waitLocks[0]) == 1 then m.attached - {m.waitLocks[0]} else m.attached
    ensures forall x :: x in PoppedWaiter(m).waitLocks <==> x in m.waitLocks && x != m.waitLocks[0]
  {
    var l := m.waitLocks[0];
    var m1 := m.(waitLocks := m.waitLocks[1..]);
    assert forall x :: x in m1.waitLocks <==> x in m.waitLocks && x != l;
    assert forall x :: Uses(m1, x) == Uses(m, x) - Bit(x == l);
    ReleaseExact(m1, l, {});
  }

  lemma PopWaiterTrims(m: Manager)
    requires Droppable(m, {}) && m.waitLocks != [] && m.Get(m.waitLocks[0]).timeouted
    ensures Trimmed(m, PoppedWaiter(m), 0, 1)
  {
    PopWaiterExact(m);
    var l := m.waitLocks[0];
    assert Uses(m, l) == 1 ==> l !in m.inTimeout && l !in m.inExpiry;
  }

  lemma PopWaiter(m: Manager)
    requires Droppable(m, {}) && m.waitLocks != [] && m.Get(m.waitLocks[0]).timeouted
    ensures Droppable(PoppedWaiter(m), {}) && Trimmed(m, PoppedWaiter(m), 0, 1)
  {
    PopWaiterExact(m);
    PopWaiterTrims(m);
    TrimmedMembers(m, PoppedWaiter(m), 0, 1);
  }

  // ---------- the cleaning loops

  lemma DropHoldsStep(m: Manager)
    ensures DropDeadHolds(m)
            == if m.locks != [] && m.Get(m.locks[0]).locked == 0 then DropDeadHolds(PoppedHold(m)) else m
  {
  }

  lemma DropWaitersStep(m: Manager)
    ensures DropDeadWaiters(m)
            == if m.waitLocks != [] && m.Get(m.waitLocks[0]).timeouted then DropDeadWaiters(PoppedWaiter(m)) else m
  {
  }

  lemma TrimmedTwice(m: Manager, m1: Manager, m2: Manager, h1: nat, w1: nat, h2: nat, w2: nat)
    requires Trimmed(m, m1, h1, w1) && Trimmed(m1, m2, h2, w2)
    ensures Trimmed(m, m2, h1 + h2, w1 + w2)
  {
    assert forall i :: h1 <= i < h1 + h2 ==> m.locks[i] == m1.locks[i - h1];
    assert forall i :: w1 <= i < w1 + w2 ==> m.waitLocks[i] == m1.waitLocks[i - w1];
  }

  lemma {:induction false} DropHolds(m: Manager, idle: set<Lock>) returns (h: nat)
    requires Droppable(m, idle)
    ensures var m' := DropDeadHolds(m);
            && Droppable(m', idle) && Trimmed(m, m', h, 0)
            && (m'.locks != [] ==> m'.Get(m'.locks[0]).locked > 0)
    decreases |m.locks|
  {
    h := 0;
    if m.locks != [] && m.Get(m.locks[0]).locked == 0 {
      PopHold(m, idle);
      var h' := DropHolds(PoppedHold(m), idle);
      TrimmedTwice(m, PoppedHold(m), DropDeadHolds(m), 1, 0, h', 0);
      h := 1 + h';
    }
  }

  lemma {:induction false} DropWaiters(m: Manager) returns (w: nat)
    requires Droppable(m, {})
    ensures var m' := DropDeadWaiters(m);
            && Droppable(m', {}) && Trimmed(m, m', 0, w)
            && (m'.waitLocks != [] ==> !m'.Get(m'.waitLocks[0]).timeouted)
    decreases |m.waitLocks|
  {
    w := 0;
    if m.waitLocks != [] && m.Get(m.waitLocks[0]).timeouted {
      PopWaiter(m);
      var w' := DropWaiters(PoppedWaiter(m));
      TrimmedTwice(m, PoppedWaiter(m), DropDeadWaiters(m), 0, 1, 0, w');
      w := 1 + w';
    }
  }

  // ---------- ending a hold

  /** The hold to be ended: live, already marked expired, and counted exactly. */
  ghost predicate Ending(m: Manager, l: Lock) {
    && Shape(m, Some(l)) && RefsExact(m, {}, {})
    && m.IsHold(l) && l in m.attached && m.Get(l).locked > 0 && m.Get(l).expired
  }

  function Unseated(m: Manager, l: Lock): Manager {
    var r := m.Get(l);
    m.Set(l, r.(locked := 0, refCount := r.refCount - 1)).(currentLock := None)
  }

  lemma UnseatedShape(m: Manager, l: Lock)
    requires Ending(m, l) && m.currentLock == Some(l)
    ensures Shape(Unseated(m, l), None)
  {
    var m' := Unseated(m, l);
    assert forall x :: m'.IsHold(x) <==> m.IsHold(x) && x != l;
    assert forall x :: x != l ==> m'.Get(x) == m.Get(x);
  }

  lemma UnseatedDroppable(m: Manager, l: Lock)
    requires Ending(m, l) && m.currentLock == Some(l)
    ensures Droppable(Unseated(m, l), {l})
  {
    var m' := Unseated(m, l);
    assert forall x :: m'.IsHold(x) <==> m.IsHold(x) && x != l;
    assert forall x :: Uses(m', x) == Uses(m, x) - Bit(x == l);
    assert forall x :: x != l ==> m'.Get(x) == m.Get(x);
  }

  lemma UnseatedHolders(m: Manager, l: Lock)
    requires Members(m) && m.currentLock == Some(l) && m.Get(l).locked > 0
    ensures Abs(m).holders != [] && Abs(m).holders[0] == HoldOf(ViewOf(m.Get(l)))
    ensures Abs(Unseated(m, l)).holders == Abs(m).holders[1..]
  {
    var m' := Unseated(m, l);
    HoldsOfAbs(m);
    HoldsOfAbs(m');
    SameViews(m, m', m.locks);
    CurrentHold(m);
  }

  lemma UnseatedAbs(m: Manager, l: Lock)
    requires Ending(m, l) && m.currentLock == Some(l)
    ensures Abs(m).holders != [] && Abs(m).holders[0] == HoldOf(ViewOf(m.Get(l)))
    ensures Abs(Unseated(m, l)) == Abs(m).(holders := Abs(m).holders[1..])
  {
    var m' := Unseated(m, l);
    UnseatedHolders(m, l);
    SameIndex(m, m');
    WaitersFrame(m, m', m.waitLocks);
  }

  lemma PromoteShape(m: Manager)
    requires Shape(m, None) && m.currentLock.None? && (m.locks != [] ==> m.Get(m.locks[0]).locked > 0)
    ensures Shape(Promote(m), None) && (Promote(m).currentLock.None? ==> Promote(m).locks == [])
    ensures forall x :: Promote(m).IsHold(x) <==> m.IsHold(x)
  {
    if m.locks != [] {
      var m' := Promote(m);
      assert m.locks == [m.locks[0]] + m'.locks;
      assert forall x :: m'.IsHold(x) <==> m.IsHold(x);
    }
  }

  lemma PromoteHolders(m: Manager)
    requires m.currentLock.None? && m.locks != [] && m.Get(m.locks[0]).locked > 0
    ensures Abs(Promote(m)).holders == Abs(m).holders
    ensures Abs(m).holders != [] && Abs(m).holders[0].lockId == m.Get(m.locks[0]).command.lockId
  {
    var m' := Promote(m);
    assert AllHolds(m') == AllHolds(m) == m.locks;
    SameViews(m, m', m.locks);
    assert Views(m, m.locks)[0] == ViewOf(m.Get(m.locks[0]));
  }

  lemma PromoteIndex(m: Manager)
    requires IndexOk(m) && m.locks != []
    ensures Abs(Promote(m)).index == Abs(m).index - {m.Get(m.locks[0]).command.lockId}
  {
    hide LiveHolds, LiveWaiters, Views, AllHolds;
  }

  lemma PromoteAbs(m: Manager)
    requires Shape(m, None) && m.currentLock.None? && (m.locks != [] ==> m.Get(m.locks[0]).locked > 0)
    ensures var s := Abs(m);
            Abs(Promote(m)) == s.(index := if s.holders == [] then s.index else s.index - {s.holders[0].lockId})
  {
    if m.locks == [] {
      assert AllHolds(m) == [];
    } else {
      hide LiveHolds, LiveWaiters, Views, AllHolds, HoldsOk, WaitsOk, LongOk, Members, IndexOk;
      PromoteHolders(m);
      PromoteIndex(m);
      SameViews(m, Promote(m), m.waitLocks);
    }
  }

  lemma PromoteExact(m: Manager, over: set<Lock>, idle: set<Lock>)
    requires RefsExact(m, over, idle) && m.currentLock.None?
    requires forall x :: Promote(m).IsHold(x) <==> m.IsHold(x)
    ensures RefsExact(Promote(m), over, idle)
  {
    assert forall x :: Uses(Promote(m), x) == Uses(m, x);
  }

  /** What ending a hold leaves alone. */
  ghost predicate OnlyHoldsChanged(m: Manager, m': Manager) {
    && m'.waitLocks == m.waitLocks && m'.inTimeout == m.inTimeout && m'.inExpiry == m.inExpiry
    && m'.locked == m.locked && m'.waited == m.waited
  }

  /** The current hold ends: the next live hold is promoted, and the lock stays attached. */
  lemma RemoveCurrentKeeps(m: Manager, l: Lock)
    requires Ending(m, l) && m.currentLock == Some(l)
    ensures var m' := RemoveLock(m, l);
            && Shape(m', None) && RefsExact(m', {}, {l}) && OnlyHoldsChanged(m, m')
            && (m'.currentLock.None? ==> m'.locks == [])
            && !m'.IsHold(l) && l in m'.attached
            && m'.Get(l) == m.Get(l).(locked := 0, refCount := m'.Get(l).refCount)
    ensures Abs(m).holders != [] && Abs(m).holders[0] == HoldOf(ViewOf(m.Get(l)))
    ensures Abs(RemoveLock(m, l)) == RemoveHold(Abs(m), 0)
  {
    hide Shape, RefsExact, Members, HoldsOk, Abs, Trimmed;
    var m1 := Unseated(m, l);
    UnseatedShape(m, l);
    UnseatedDroppable(m, l);
    UnseatedAbs(m, l);
    var h := DropHolds(m1, {l});
    var m2 := DropDeadHolds(m1);
    TrimmedKeeps(m1, m2, h, 0, None);
    PromoteShape(m2);
    PromoteExact(m2, {}, {l});
    PromoteAbs(m2);
    DropKeepsIdle(m1, l);
    assert Without(Abs(m).holders, 0) == Abs(m).holders[1..];
  }

  /** A lock dropped from the queue is still attached or has been recycled. */
  lemma {:induction false} DropAccounts(m: Manager, l: Lock)
    requires l in m.attached || l in m.freeLocks
    ensures l in DropDeadHolds(m).attached || l in DropDeadHolds(m).freeLocks
    decreases |m.locks|
  {
    if m.locks != [] && m.Get(m.locks[0]).locked == 0 {
      DropAccounts(Release(m.(locks := m.locks[1..]), m.locks[0]), l);
    }
  }

  /** Dropping dead holds recycles only locks of the queue. */
  lemma {:induction false} DropKeepsIdle(m: Manager, l: Lock)
    requires l !in m.locks
    ensures l in DropDeadHolds(m).attached <==> l in m.attached
    ensures DropDeadHolds(m).Get(l) == m.Get(l)
    decreases |m.locks|
  {
    if m.locks != [] && m.Get(m.locks[0]).locked == 0 {
      DropKeepsIdle(Release(m.(locks := m.locks[1..]), m.locks[0]), l);
    }
  }

  // ---------- ending a hold of the queue

  function IndexOf(ls: seq<Lock>, l: Lock): (i: nat)
    requires l in ls
    ensures i < |ls| && ls[i] == l
  {
    if ls[0] == l then 0 else 1 + IndexOf(ls[1..], l)
  }

  /** The place of a live hold in the abstract list. */
  function Place(m: Manager, l: Lock): nat
    requires l in AllHolds(m)
  {
    Rank(Views(m, AllHolds(m)), IndexOf(AllHolds(m), l))
  }

  lemma HoldInList(m: Manager, l: Lock)
    ensures m.IsHold(l) <==> l in AllHolds(m)
  {
  }

  lemma AllHoldsDistinct(m: Manager)
    requires Members(m)
    ensures NoDuplicates(AllHolds(m))
  {
  }

  function Dimmed(m: Manager, l: Lock): Manager {
    var r := m.Get(l);
    m.Set(l, r.(locked := 0)).(lockMaps := m.lockMaps - {r.command.lockId})
  }

  lemma DimmedRecords(m: Manager, l: Lock)
    ensures var m' := Dimmed(m, l);
            && m' == m.(records := m'.records, lockMaps := m.lockMaps - {m.Get(l).command.lockId})
            && m'.Get(l) == m.Get(l).(locked := 0)
            && (forall x :: x != l ==> m'.Get(x) == m.Get(x))
            && (forall x :: m'.IsHold(x) <==> m.IsHold(x))
  {
  }

  lemma DimmedHoldsOk(m: Manager, l: Lock)
    requires Members(m) && HoldsOk(m, Some(l)) && m.Get(l).expired && m.currentLock != Some(l)
    ensures HoldsOk(Dimmed(m, l), None)
  {
    hide Dimmed;
    DimmedRecords(m, l);
  }

  lemma DimmedIndexOk(m: Manager, l: Lock)
    requires IndexOk(m)
    ensures IndexOk(Dimmed(m, l))
  {
    hide Dimmed;
    DimmedRecords(m, l);
    var m' := Dimmed(m, l);
    assert forall id :: id in m'.lockMaps ==> m'.lockMaps[id] == m.lockMaps[id] && m.lockMaps[id] != l;
  }

  lemma DimmedWaitsOk(m: Manager, l: Lock)
    requires WaitsOk(m) && LongOk(m) && Members(m)
    ensures WaitsOk(Dimmed(m, l)) && LongOk(Dimmed(m, l)) && Members(Dimmed(m, l))
  {
    hide Dimmed;
    DimmedRecords(m, l);
  }

  lemma DimmedShape(m: Manager, l: Lock)
    requires Ending(m, l) && m.currentLock != Some(l)
    ensures Shape(Dimmed(m, l), None)
  {
    hide Dimmed, Members, HoldsOk, IndexOk, WaitsOk, LongOk, RefsExact;
    DimmedHoldsOk(m, l);
    DimmedIndexOk(m, l);
    DimmedWaitsOk(m, l);
  }

  lemma DimmedDroppable(m: Manager, l: Lock)
    requires Ending(m, l) && m.currentLock != Some(l)
    ensures Droppable(Dimmed(m, l), {})
  {
    var m' := Dimmed(m, l);
    assert forall x :: m'.IsHold(x) <==> m.IsHold(x);
    assert forall x :: Uses(m', x) == Uses(m, x);
    assert forall x :: x != l ==> m'.Get(x) == m.Get(x);
  }

  lemma DimmedHolders(m: Manager, l: Lock)
    requires Members(m) && l in AllHolds(m) && m.Get(l).locked > 0
    ensures Place(m, l) < |Abs(m).holders| && Abs(m).holders[Place(m, l)] == HoldOf(ViewOf(m.Get(l)))
    ensures Abs(Dimmed(m, l)).holders == Without(Abs(m).holders, Place(m, l))
  {
    var m' := Dimmed(m, l);
    var i := IndexOf(AllHolds(m), l);
    AllHoldsDistinct(m);
    assert AllHolds(m') == AllHolds(m);
    assert Views(m', AllHolds(m)) == Views(m, AllHolds(m))[i := ViewOf(m'.Get(l))];
    HoldEnds(Views(m, AllHolds(m)), i, ViewOf(m'.Get(l)));
  }

  lemma DimmedIndex(m: Manager, l: Lock)
    requires IndexOk(m)
    ensures Abs(Dimmed(m, l)).index == Abs(m).index - {m.Get(l).command.lockId}
  {
    var m' := Dimmed(m, l);
    forall id | id in m'.lockMaps ensures m'.Get(m.lockMaps[id]).command == m.Get(m.lockMaps[id]).command {
    }
  }

  lemma DimmedAbs(m: Manager, l: Lock)
    requires Ending(m, l) && m.currentLock.Some? && m.currentLock != Some(l) && l in AllHolds(m)
    ensures Place(m, l) < |Abs(m).holders| && Abs(m).holders[Place(m, l)] == HoldOf(ViewOf(m.Get(l)))
    ensures Place(m, l) > 0 && Abs(Dimmed(m, l)) == RemoveHold(Abs(m), Place(m, l))
  {
    PlacePositive(m, l);
    hide Members, HoldsOk, IndexOk, WaitsOk, LongOk, RefsExact;
    DimmedHolders(m, l);
    DimmedIndex(m, l);
    WaitersFrame(m, Dimmed(m, l), m.waitLocks);
  }

  lemma PlacePositive(m: Manager, l: Lock)
    requires m.currentLock.Some? && m.currentLock != Some(l) && l in AllHolds(m)
    requires m.Get(m.currentLock.value).locked > 0
    ensures Place(m, l) > 0
  {
    var vs, i := Views(m, AllHolds(m)), IndexOf(AllHolds(m), l);
    assert i > 0 && vs[..i][0] == ViewOf(m.Get(m.currentLock.value));
  }

  /** A hold of the queue ends; the lock is recycled on the spot exactly when it reaches the front of the queue and
      no other structure contains it. */
  lemma RemoveQueuedKeeps(m: Manager, l: Lock)
    requires Ending(m, l) && m.currentLock.Some? && m.currentLock != Some(l) && l in AllHolds(m)
    ensures var m' := RemoveLock(m, l);
            && Shape(m', None) && RefsExact(m', {}, {}) && OnlyHoldsChanged(m, m')
            && m'.currentLock == m.currentLock
            && (l in m'.attached || l in m'.freeLocks)
    ensures Place(m, l) < |Abs(m).holders| && Abs(m).holders[Place(m, l)] == HoldOf(ViewOf(m.Get(l)))
    ensures Abs(RemoveLock(m, l)) == RemoveHold(Abs(m), Place(m, l))
  {
    hide Shape, RefsExact, Members, Abs;
    var m1 := Dimmed(m, l);
    DimmedShape(m, l);
    DimmedDroppable(m, l);
    DimmedAbs(m, l);
    var h := DropHolds(m1, {});
    TrimmedKeeps(m1, DropDeadHolds(m1), h, 0, None);
    DropAccounts(m1, l);
  }
}
