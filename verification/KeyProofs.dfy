/** What every critical section of one key keeps, whatever the order in which they come. */
module KeyProofs {
  import opened Protocol
  import opened KeySpec

  // ---------- who owns a command record

  function Tally(cs: seq<nat>, c: nat): nat {
    if cs == [] then 0 else (if cs[0] == c then 1 else 0) + Tally(cs[1..], c)
  }

  function HoldTally(hs: seq<Hold>, c: nat): nat {
    if hs == [] then 0 else (if hs[0].request == c then 1 else 0) + HoldTally(hs[1..], c)
  }

  function WaitTally(ws: seq<Waiter>, c: nat): nat {
    if ws == [] then 0 else (if ws[0].request == c then 1 else 0) + WaitTally(ws[1..], c)
  }

  /** How many holds and waiters of the key a command record belongs to. */
  function Owned(s: KeyState, c: nat): nat {
    HoldTally(s.holders, c) + WaitTally(s.waiters, c)
  }

  /** The invariant of a key in every reachable state. */
  ghost predicate WellFormed(s: KeyState) {
    && (forall i :: 0 <= i < |s.holders| ==> 1 <= s.holders[i].depth <= MAX_DEPTH)
    && (forall id :: id in s.index ==> Indexed(s.holders, id, s.index[id]))
    && (s.waiters != [] ==> s.waited)
    && (forall c :: Owned(s, c) <= 1)
  }

  /** A hold other than the first has this lock id and this request. */
  ghost predicate Indexed(hs: seq<Hold>, id: LockId, request: nat) {
    exists i :: 1 <= i < |hs| && hs[i].request == request && hs[i].lockId == id
  }

  /** An event brings in a command record that no hold and no waiter owns. */
  ghost predicate Admissible(s: KeyState, e: KeyEvent) {
    e.LockRequest? || e.UnlockRequest? ==> Owned(s, e.cmd.commandId) == 0
  }

  // ---------- sequences of holds and waiters

  lemma {:induction false} HoldsSplit(a: seq<Hold>, b: seq<Hold>, c: nat)
    ensures Locked(a + b) == Locked(a) + Locked(b)
    ensures HoldTally(a + b, c) == HoldTally(a, c) + HoldTally(b, c)
  {
    if a == [] {
      assert a + b == b;
    } else {
      HoldsSplit(a[1..], b, c);
      assert (a + b)[1..] == a[1..] + b;
    }
  }

  lemma {:induction false} WaitersSplit(a: seq<Waiter>, b: seq<Waiter>, c: nat)
    ensures WaitTally(a + b, c) == WaitTally(a, c) + WaitTally(b, c)
  {
    if a == [] {
      assert a + b == b;
    } else {
      WaitersSplit(a[1..], b, c);
      assert (a + b)[1..] == a[1..] + b;
    }
  }

  lemma {:induction false} TallySplit(a: seq<nat>, b: seq<nat>, c: nat)
    ensures Tally(a + b, c) == Tally(a, c) + Tally(b, c)
  {
    if a == [] {
      assert a + b == b;
    } else {
      TallySplit(a[1..], b, c);
      assert (a + b)[1..] == a[1..] + b;
    }
  }

  lemma HoldsAround(hs: seq<Hold>, i: nat, c: nat)
    requires i < |hs|
    ensures Locked(hs) == Locked(hs[..i]) + hs[i].depth + Locked(hs[i + 1..])
    ensures HoldTally(hs, c) == HoldTally(hs[..i], c) + HoldTally([hs[i]], c) + HoldTally(hs[i + 1..], c)
  {
    assert hs == hs[..i] + ([hs[i]] + hs[i + 1..]);
    HoldsSplit(hs[..i], [hs[i]] + hs[i + 1..], c);
    HoldsSplit([hs[i]], hs[i + 1..], c);
  }

  lemma HoldsUpdate(hs: seq<Hold>, i: nat, h: Hold, c: nat)
    requires i < |hs| && h.request == hs[i].request
    ensures Locked(hs[i := h]) == Locked(hs) - hs[i].depth + h.depth
    ensures HoldTally(hs[i := h], c) == HoldTally(hs, c)
  {
    HoldsAround(hs, i, c);
    HoldsAround(hs[i := h], i, c);
    assert hs[i := h][..i] == hs[..i] && hs[i := h][i + 1..] == hs[i + 1..];
  }

  lemma HoldsWithout(hs: seq<Hold>, i: nat, c: nat)
    requires i < |hs|
    ensures Locked(Without(hs, i)) == Locked(hs) - hs[i].depth
    ensures HoldTally(Without(hs, i), c) == HoldTally(hs, c) - Tally([hs[i].request], c)
  {
    HoldsAround(hs, i, c);
    HoldsSplit(hs[..i], hs[i + 1..], c);
  }

  lemma WaitersWithout(ws: seq<Waiter>, i: nat, c: nat)
    requires i < |ws|
    ensures WaitTally(Without(ws, i), c) == WaitTally(ws, c) - Tally([ws[i].request], c)
  {
    assert ws == ws[..i] + ([ws[i]] + ws[i + 1..]);
    WaitersSplit(ws[..i], [ws[i]] + ws[i + 1..], c);
    WaitersSplit([ws[i]], ws[i + 1..], c);
    WaitersSplit(ws[..i], ws[i + 1..], c);
  }

  lemma {:induction false} LockedBounds(hs: seq<Hold>)
    requires forall i :: 0 <= i < |hs| ==> hs[i].depth >= 1
    ensures Locked(hs) >= |hs|
  {
    if hs != [] {
      LockedBounds(hs[1..]);
    }
  }

  /** Two different positions never carry the same request. */
  lemma DistinctHolds(s: KeyState, i: nat, j: nat)
    requires (forall c :: Owned(s, c) <= 1) && i < j < |s.holders|
    ensures s.holders[i].request != s.holders[j].request
  {
    var hs, c := s.holders, s.holders[i].request;
    HoldsAround(hs, i, c);
    HoldsAround(hs[i + 1..], j - i - 1, c);
    assert Owned(s, c) <= 1;
  }

  lemma PositionAt(s: KeyState, i: nat)
    requires (forall c :: Owned(s, c) <= 1) && i < |s.holders|
    ensures Position(s.holders, s.holders[i].request) == Some(i)
  {
    var r := Position(s.holders, s.holders[i].request).value;
    if r < i {
      DistinctHolds(s, r, i);
    } else if i < r {
      DistinctHolds(s, i, r);
    }
  }

  lemma WaitPositionAt(s: KeyState, i: nat)
    requires (forall c :: Owned(s, c) <= 1) && i < |s.waiters|
    ensures WaitPosition(s.waiters, s.waiters[i].request) == Some(i)
  {
    var c := s.waiters[i].request;
    var r := WaitPosition(s.waiters, c).value;
    if r != i {
      var a, b := if r < i then r else i, if r < i then i else r;
      var ws := s.waiters;
      assert Owned(s, c) <= 1;
      WaitersWithout(ws, b, c);
      assert Without(ws, b)[a] == ws[a];
      WaitersWithout(Without(ws, b), a, c);
    }
  }

  lemma {:induction false} HeldTally(hs: seq<Hold>, c: nat)
    ensures HoldTally(hs, c) > 0 <==> Position(hs, c).Some?
  {
    if hs != [] {
      HeldTally(hs[1..], c);
    }
  }

  lemma {:induction false} WaitingTally(ws: seq<Waiter>, c: nat)
    ensures WaitTally(ws, c) > 0 <==> WaitPosition(ws, c).Some?
  {
    if ws != [] {
      WaitingTally(ws[1..], c);
    }
  }

  // ---------- every step conserves command records

  /** Records the key owns after a step, plus those it returned, are those it owned plus the one that came in. */
  ghost predicate Conserves(s: KeyState, e: KeyEvent, o: Outcome, c: nat) {
    Owned(o.state, c) + Tally(o.freed, c) == Owned(s, c) + Tally(Taken(e), c)
  }

  lemma AddTally(s: KeyState, h: Hold, c: nat)
    ensures HoldTally(AddHold(s, h).holders, c) == HoldTally(s.holders, c) + Tally([h.request], c)
    ensures Locked(AddHold(s, h).holders) == Locked(s.holders) + h.depth
  {
    HoldsSplit(s.holders, [h], c);
  }

  lemma HeldConserves(s: KeyState, i: nat, cmd: LockCommand, now: int, st: Stats, c: nat)
    requires i < |s.holders|
    ensures Conserves(s, LockRequest(cmd, now), HeldStep(s, i, cmd, now, st), c)
  {
    hide ExpireTime, ReplyTo;
    var h := s.holders[i];
    HoldsUpdate(s.holders, i, Updated(h, cmd, now), c);
    HoldsUpdate(s.holders, i, Updated(h, cmd, now).(depth := h.depth + 1), c);
  }

  lemma FreshConserves(s: KeyState, cmd: LockCommand, now: int, st: Stats, c: nat)
    ensures Conserves(s, LockRequest(cmd, now), FreshStep(s, cmd, now, st), c)
  {
    hide ExpireTime, TimeoutTime, ReplyTo, MayGrant;
    AddTally(s, HoldFor(cmd, now), c);
    WaitersSplit(s.waiters, [WaiterFor(cmd, now)], c);
  }

  lemma LockConserves(s: KeyState, cmd: LockCommand, now: int, st: Stats, c: nat)
    ensures Conserves(s, LockRequest(cmd, now), LockStep(s, cmd, now, st), c)
  {
    hide HeldStep, FreshStep, ReplyTo, Owned;
    var f := Find(s, cmd.lockId);
    if f.Some? {
      HeldConserves(s, f.value, cmd, now, st, c);
    } else {
      FreshConserves(s, cmd, now, st, c);
    }
  }

  lemma ReleaseConserves(s: KeyState, i: nat, cmd: LockCommand, st: Stats, c: nat)
    requires i < |s.holders|
    ensures Conserves(s, UnlockRequest(cmd), ReleaseStep(s, i, cmd, st), c)
  {
    var h := s.holders[i];
    HoldsWithout(s.holders, i, c);
    TallySplit([cmd.commandId], [h.request], c);
    assert [cmd.commandId] + [h.request] == [cmd.commandId, h.request];
    if h.depth > 1 {
      HoldsUpdate(s.holders, i, h.(depth := h.depth - 1), c);
    }
  }

  lemma UnlockConserves(s: KeyState, cmd: LockCommand, st: Stats, c: nat)
    ensures Conserves(s, UnlockRequest(cmd), UnlockStep(s, cmd, st), c)
  {
    var f := Find(s, cmd.lockId);
    if f.Some? {
      ReleaseConserves(s, f.value, cmd, st, c);
    } else if s.holders != [] {
      ReleaseConserves(s, 0, Shown(cmd, s.holders[0]), st, c);
    }
  }

  lemma WakeConserves(s: KeyState, now: int, st: Stats, c: nat)
    ensures Conserves(s, Wake(now), WakeStep(s, now, st), c)
  {
    if WakeGrants(s) {
      var w := s.waiters[0];
      WaitersWithout(s.waiters, 0, c);
      assert Without(s.waiters, 0) == s.waiters[1..];
      AddTally(s.(waiters := s.waiters[1..]), HoldOfWaiter(w, now), c);
    }
  }

  /** No critical section loses a command record, keeps it twice or returns one that is still in use. */
  lemma StepConserves(s: KeyState, e: KeyEvent, st: Stats, c: nat)
    ensures Conserves(s, e, KeyStep(s, e, st), c)
  {
    match e {
      case LockRequest(cmd, now) =>
        LockConserves(s, cmd, now, st, c);
      case UnlockRequest(cmd) =>
        UnlockConserves(s, cmd, st, c);
      case TimeOut(request) =>
        var i := WaitPosition(s.waiters, request);
        if i.Some? {
          WaitersWithout(s.waiters, i.value, c);
        }
      case Expire(request) =>
        var i := Position(s.holders, request);
        if i.Some? {
          HoldsWithout(s.holders, i.value, c);
        }
      case Wake(now) =>
        WakeConserves(s, now, st, c);
    }
  }

  // ---------- every step keeps the key well formed

  lemma AddKeepsIndex(s: KeyState, h: Hold)
    requires WellFormed(s)
    ensures var s' := AddHold(s, h); forall id :: id in s'.index ==> Indexed(s'.holders, id, s'.index[id])
  {
    var s' := AddHold(s, h);
    forall id | id in s'.index ensures Indexed(s'.holders, id, s'.index[id]) {
      if s.holders != [] && id == h.lockId {
        assert s'.holders[|s.holders|] == h;
      } else {
        assert Indexed(s.holders, id, s.index[id]);
        var i :| 1 <= i < |s.holders| && s.holders[i].request == s.index[id] && s.holders[i].lockId == id;
        assert s'.holders[i] == s.holders[i];
      }
    }
  }

  lemma RemoveKeepsIndex(s: KeyState, i: nat)
    requires WellFormed(s) && i < |s.holders|
    ensures var s' := RemoveHold(s, i); forall id :: id in s'.index ==> Indexed(s'.holders, id, s'.index[id])
  {
    var s' := RemoveHold(s, i);
    forall id | id in s'.index ensures Indexed(s'.holders, id, s'.index[id]) {
      assert id in s.index && Indexed(s.holders, id, s.index[id]);
      var j :| 1 <= j < |s.holders| && s.holders[j].request == s.index[id] && s.holders[j].lockId == id;
      var j' := if j < i then j else j - 1;
      assert s'.holders[j'] == s.holders[j];
    }
  }

  lemma UpdateKeepsIndex(s: KeyState, i: nat, h: Hold)
    requires WellFormed(s) && i < |s.holders|
    requires h.request == s.holders[i].request && h.lockId == s.holders[i].lockId
    ensures forall id :: id in s.index ==> Indexed(s.holders[i := h], id, s.index[id])
  {
    forall id | id in s.index ensures Indexed(s.holders[i := h], id, s.index[id]) {
      assert Indexed(s.holders, id, s.index[id]);
      var j :| 1 <= j < |s.holders| && s.holders[j].request == s.index[id] && s.holders[j].lockId == id;
      assert s.holders[i := h][j].request == s.index[id] && s.holders[i := h][j].lockId == id;
    }
  }

  /** The part of the invariant that is about holds and waiters one by one. */
  ghost predicate Shaped(s: KeyState) {
    && (forall i :: 0 <= i < |s.holders| ==> 1 <= s.holders[i].depth <= MAX_DEPTH)
    && (forall id :: id in s.index ==> Indexed(s.holders, id, s.index[id]))
    && (s.waiters != [] ==> s.waited)
  }

  lemma HeldShaped(s: KeyState, i: nat, cmd: LockCommand, now: int, st: Stats)
    requires WellFormed(s) && i < |s.holders|
    ensures Shaped(HeldStep(s, i, cmd, now, st).state)
  {
    hide ExpireTime, ReplyTo, Indexed, Owned;
    var h := s.holders[i];
    UpdateKeepsIndex(s, i, Updated(h, cmd, now));
    UpdateKeepsIndex(s, i, Updated(h, cmd, now).(depth := h.depth + 1));
  }

  lemma FreshShaped(s: KeyState, cmd: LockCommand, now: int, st: Stats)
    requires WellFormed(s)
    ensures Shaped(FreshStep(s, cmd, now, st).state)
  {
    hide ExpireTime, TimeoutTime, ReplyTo, MayGrant, Indexed, Owned;
    AddKeepsIndex(s, HoldFor(cmd, now));
  }

  lemma WellShaped(s: KeyState)
    requires WellFormed(s)
    ensures Shaped(s)
  {
  }

  lemma LockShaped(s: KeyState, cmd: LockCommand, now: int, st: Stats)
    requires WellFormed(s)
    ensures Shaped(LockStep(s, cmd, now, st).state)
  {
    hide HeldStep, FreshStep, ReplyTo, WellFormed, Shaped;
    WellShaped(s);
    var f := Find(s, cmd.lockId);
    if f.Some? {
      HeldShaped(s, f.value, cmd, now, st);
    } else {
      FreshShaped(s, cmd, now, st);
    }
  }

  lemma ReleaseShaped(s: KeyState, i: nat, cmd: LockCommand, st: Stats)
    requires WellFormed(s) && i < |s.holders|
    ensures Shaped(ReleaseStep(s, i, cmd, st).state)
  {
    var h := s.holders[i];
    RemoveKeepsIndex(s, i);
    if h.depth > 1 {
      UpdateKeepsIndex(s, i, h.(depth := h.depth - 1));
    }
  }

  lemma UnlockShaped(s: KeyState, cmd: LockCommand, st: Stats)
    requires WellFormed(s)
    ensures Shaped(UnlockStep(s, cmd, st).state)
  {
    hide ReleaseStep, ReplyTo, WellFormed, Shaped;
    WellShaped(s);
    var f := Find(s, cmd.lockId);
    if f.Some? {
      ReleaseShaped(s, f.value, cmd, st);
    } else if s.holders != [] {
      ReleaseShaped(s, 0, Shown(cmd, s.holders[0]), st);
    }
  }

  lemma ExpireShaped(s: KeyState, request: nat, st: Stats)
    requires WellFormed(s)
    ensures Shaped(ExpireStep(s, request, st).state)
  {
    hide Indexed, Owned;
    var i := Position(s.holders, request);
    if i.Some? {
      RemoveKeepsIndex(s, i.value);
    }
  }

  lemma WakeShaped(s: KeyState, now: int, st: Stats)
    requires WellFormed(s)
    ensures Shaped(WakeStep(s, now, st).state)
  {
    hide ExpireTime, MayGrant;
    if s.waiters != [] {
      var popped := s.(waiters := s.waiters[1..]);
      assert forall c :: Owned(popped, c) <= Owned(s, c) by {
        forall c ensures Owned(popped, c) <= Owned(s, c) {
          WaitersWithout(s.waiters, 0, c);
          assert Without(s.waiters, 0) == s.waiters[1..];
        }
      }
      AddKeepsIndex(popped, HoldOfWaiter(s.waiters[0], now));
    }
  }

  lemma StepShaped(s: KeyState, e: KeyEvent, st: Stats)
    requires WellFormed(s)
    ensures Shaped(KeyStep(s, e, st).state)
  {
    hide LockStep, UnlockStep, ExpireStep, WakeStep, Indexed, Owned;
    match e {
      case LockRequest(cmd, now) => LockShaped(s, cmd, now, st);
      case UnlockRequest(cmd) => UnlockShaped(s, cmd, st);
      case TimeOut(request) =>
      case Expire(request) => ExpireShaped(s, request, st);
      case Wake(now) => WakeShaped(s, now, st);
    }
  }

  /** Every critical section keeps the invariant. */
  lemma StepKeeps(s: KeyState, e: KeyEvent, st: Stats)
    requires WellFormed(s) && Admissible(s, e)
    ensures WellFormed(KeyStep(s, e, st).state)
  {
    var o := KeyStep(s, e, st);
    StepShaped(s, e, st);
    forall c ensures Owned(o.state, c) <= 1 {
      assert Owned(s, c) <= 1;
      StepConserves(s, e, st, c);
      assert Taken(e) == [] || (Taken(e) == [e.cmd.commandId] && Tally(Taken(e)[1..], c) == 0);
    }
  }

  // ---------- every step keeps the statistics exact

  /** 1 when the step answers Succed to a lock request and leaves no hold for it. */
  function ZeroGrant(e: KeyEvent, o: Outcome): int {
    if (e.LockRequest? || e.Wake?) && o.reply.Some? && o.reply.value.code == Succed && o.reply.value.lrcount == 0
    then 1 else 0
  }

  /** The counters move with the state, and grants balance releases, expiries and current holds. */
  ghost predicate Counted(s: KeyState, e: KeyEvent, st: Stats, o: Outcome) {
    && o.stats.lockedCount - st.lockedCount == Locked(o.state.holders) - Locked(s.holders)
    && o.stats.waitCount - st.waitCount == |o.state.waiters| - |s.waiters|
    && o.stats.lockCount - st.lockCount
       == o.stats.unLockCount - st.unLockCount + o.stats.expriedCount - st.expriedCount
          + o.stats.lockedCount - st.lockedCount + ZeroGrant(e, o)
  }

  lemma HeldCounts(s: KeyState, i: nat, cmd: LockCommand, now: int, st: Stats)
    requires WellFormed(s) && i < |s.holders|
    ensures Counted(s, LockRequest(cmd, now), st, HeldStep(s, i, cmd, now, st))
  {
    var h := s.holders[i];
    HoldsUpdate(s.holders, i, Updated(h, cmd, now), 0);
    HoldsUpdate(s.holders, i, Updated(h, cmd, now).(depth := h.depth + 1), 0);
  }

  lemma FreshCounts(s: KeyState, cmd: LockCommand, now: int, st: Stats)
    requires WellFormed(s)
    ensures Counted(s, LockRequest(cmd, now), st, FreshStep(s, cmd, now, st))
  {
    AddTally(s, HoldFor(cmd, now), 0);
  }

  lemma ReleaseCounts(s: KeyState, i: nat, cmd: LockCommand, st: Stats)
    requires WellFormed(s) && i < |s.holders|
    ensures Counted(s, UnlockRequest(cmd), st, ReleaseStep(s, i, cmd, st))
  {
    var h := s.holders[i];
    HoldsWithout(s.holders, i, 0);
    if h.depth > 1 {
      HoldsUpdate(s.holders, i, h.(depth := h.depth - 1), 0);
    }
  }

  lemma WakeCounts(s: KeyState, now: int, st: Stats)
    requires WellFormed(s)
    ensures Counted(s, Wake(now), st, WakeStep(s, now, st))
  {
    if WakeGrants(s) {
      AddTally(s.(waiters := s.waiters[1..]), HoldOfWaiter(s.waiters[0], now), 0);
    }
  }

  lemma LockCounts(s: KeyState, cmd: LockCommand, now: int, st: Stats)
    requires WellFormed(s)
    ensures Counted(s, LockRequest(cmd, now), st, LockStep(s, cmd, now, st))
  {
    hide HeldStep, FreshStep, WellFormed;
    var f := Find(s, cmd.lockId);
    if f.Some? {
      HeldCounts(s, f.value, cmd, now, st);
    } else {
      FreshCounts(s, cmd, now, st);
    }
  }

  lemma UnlockCounts(s: KeyState, cmd: LockCommand, st: Stats)
    requires WellFormed(s)
    ensures Counted(s, UnlockRequest(cmd), st, UnlockStep(s, cmd, st))
  {
    hide ReleaseStep, WellFormed;
    var f := Find(s, cmd.lockId);
    if f.Some? {
      ReleaseCounts(s, f.value, cmd, st);
    } else if s.holders != [] {
      ReleaseCounts(s, 0, Shown(cmd, s.holders[0]), st);
    }
  }

  lemma ExpireCounts(s: KeyState, request: nat, st: Stats)
    requires WellFormed(s)
    ensures Counted(s, Expire(request), st, ExpireStep(s, request, st))
  {
    hide WellFormed;
    var i := Position(s.holders, request);
    if i.Some? {
      HoldsWithout(s.holders, i.value, 0);
    }
  }

  lemma StepCounts(s: KeyState, e: KeyEvent, st: Stats)
    requires WellFormed(s)
    ensures Counted(s, e, st, KeyStep(s, e, st))
  {
    hide LockStep, UnlockStep, ExpireStep, WakeStep, WellFormed;
    match e {
      case LockRequest(cmd, now) => LockCounts(s, cmd, now, st);
      case UnlockRequest(cmd) => UnlockCounts(s, cmd, st);
      case TimeOut(request) =>
      case Expire(request) => ExpireCounts(s, request, st);
      case Wake(now) => WakeCounts(s, now, st);
    }
  }
}
