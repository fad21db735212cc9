/** The reference machine against the plain machine. They agree exactly as long as the index names the first hold of
    every lock id, and that is so as long as no two requests wait with the same lock id. */
module PlainSpec {
  import opened Protocol
  import opened KeySpec
  import opened KeyProofs
  import opened PlainLevels
  import P = PlainMachine

  /** The first hold with a lock id. */
  function Search(hs: seq<Hold>, id: LockId): (r: Option<nat>)
    ensures r.Some? ==> r.value < |hs| && hs[r.value].lockId == id
    ensures r.None? ==> forall i :: 0 <= i < |hs| ==> hs[i].lockId != id
  {
    if hs == [] then None
    else if hs[0].lockId == id then Some(0)
    else
      var r := Search(hs[1..], id);
      if r.None? then None else Some(r.value + 1)
  }

  function PlainAnswer(o: Outcome): P.Answer {
    P.Answer(Plain(o.state), o.reply, o.freed, o.stats)
  }

  /** Lock ids are pairwise distinct and every hold but the first is indexed. */
  ghost predicate Faithful(s: KeyState) {
    && (forall i, j :: 0 <= i < j < |s.holders| ==> s.holders[i].lockId != s.holders[j].lockId)
    && (forall i, j :: 0 <= i < j < |s.waiters| ==> s.waiters[i].lockId != s.waiters[j].lockId)
    && (forall i, j :: 0 <= i < |s.holders| && 0 <= j < |s.waiters| ==> s.holders[i].lockId != s.waiters[j].lockId)
    && (forall i :: 1 <= i < |s.holders| ==>
          s.holders[i].lockId in s.index && s.index[s.holders[i].lockId] == s.holders[i].request)
  }

  /** A hold behind the first that is the first of its lock id, but that the index does not name. */
  ghost predicate Missed(s: KeyState, i: nat) {
    1 <= i < |s.holders| && var h := s.holders[i];
    Search(s.holders, h.lockId) == Some(i) && (h.lockId in s.index ==> s.index[h.lockId] != h.request)
  }

  /** Every hold behind the first that is the first of its lock id is the one that the index names. */
  ghost predicate FirstIndexed(s: KeyState) {
    forall i :: 0 <= i < |s.holders| ==> !Missed(s, i)
  }

  /** The request does not ask for a lock id that is already waiting. */
  ghost predicate NewId(s: KeyState, e: KeyEvent) {
    e.LockRequest? ==> forall i :: 0 <= i < |s.waiters| ==> s.waiters[i].lockId != e.cmd.lockId
  }

  /** The index finds exactly what a search through the holds finds. */
  lemma FindIsSearch(s: KeyState, id: LockId)
    requires WellFormed(s) && FirstIndexed(s)
    ensures Find(s, id) == Search(s.holders, id)
  {
    var r := Search(s.holders, id);
    assert id in s.index ==> Indexed(s.holders, id, s.index[id]);
    if r.Some? && r.value > 0 {
      assert !Missed(s, r.value);
      PositionAt(s, r.value);
    }
  }

  /** The lookups of the engine are searches through the list if and only if the index names first holds. */
  lemma FindIffFirst(s: KeyState)
    requires WellFormed(s)
    ensures (forall id :: Find(s, id) == Search(s.holders, id)) <==> FirstIndexed(s)
  {
    if FirstIndexed(s) {
      forall id ensures Find(s, id) == Search(s.holders, id) { FindIsSearch(s, id); }
    } else {
      var i := NotFirst(s);
      MissedFind(s, i);
    }
  }

  /** The engine finds another hold of that id, or none. */
  lemma MissedFind(s: KeyState, i: nat)
    requires WellFormed(s) && Missed(s, i)
    ensures s.holders[0].lockId != s.holders[i].lockId
    ensures var f := Find(s, s.holders[i].lockId);
            f.Some? ==> && 1 <= f.value && s.holders[f.value].lockId == s.holders[i].lockId
                        && s.holders[f.value].request != s.holders[i].request
  {
    var id := s.holders[i].lockId;
    SearchFirst(s.holders, id, i);
    if id in s.index {
      assert Indexed(s.holders, id, s.index[id]);
      var j :| 1 <= j < |s.holders| && s.holders[j].request == s.index[id] && s.holders[j].lockId == id;
      PositionAt(s, j);
    }
  }

  lemma {:induction false} SearchFirst(hs: seq<Hold>, id: LockId, i: nat)
    requires Search(hs, id) == Some(i)
    ensures forall j :: 0 <= j < i ==> hs[j].lockId != id
  {
    if i > 0 {
      SearchFirst(hs[1..], id, i - 1);
      assert forall j :: 1 <= j < i ==> hs[j] == hs[1..][j - 1];
    }
  }

  lemma FaithfulFirst(s: KeyState)
    requires Faithful(s)
    ensures FirstIndexed(s)
  {
  }

  // ---------- one step

  lemma WellApart(s: KeyState)
    requires WellFormed(s)
    ensures Deep(s.holders) && Apart(s.holders)
  {
    forall i, j | 0 <= i < j < |s.holders| ensures s.holders[i].request != s.holders[j].request {
      PositionAt(s, i);
      PositionAt(s, j);
    }
  }

  /** A search through the levels is a search through the holds. */
  lemma {:induction false} FirstIsSearch(hs: seq<Hold>, id: LockId)
    requires Deep(hs)
    ensures P.First(Levels(hs), id)
            == (match Search(hs, id) case None => None case Some(i) => Some(LevelOf(hs[i])))
  {
    if hs != [] {
      FirstIsSearch(hs[1..], id);
      CopiesFirst(LevelOf(hs[0]), hs[0].depth, id);
      FirstPlus(Copies(LevelOf(hs[0]), hs[0].depth), Levels(hs[1..]), id);
    }
  }

  lemma SameRoom(s: KeyState, count: Uint16)
    requires WellFormed(s)
    ensures P.Room(Levels(s.holders), count) <==> MayGrant(s, count)
  {
    LevelsCount(s.holders);
    LevelsFirst(s.holders);
  }

  lemma RenewedRow(s: KeyState, i: nat, t: Hold)
    requires WellFormed(s) && i < |s.holders|
    requires t == s.holders[i].(count := t.count, rcount := t.rcount, expireTime := t.expireTime)
    ensures var row := Levels(s.holders[i := t]);
            P.Renewed(Levels(s.holders), LevelOf(t)) == row && |row| == Locked(s.holders)
            && P.Depth(row, t.request) == t.depth == P.Depth(Levels(s.holders), t.request)
    ensures var row := Levels(s.holders[i := t.(depth := t.depth + 1)]);
            P.Raised(P.Renewed(Levels(s.holders), LevelOf(t)), t.request) == row && |row| == Locked(s.holders) + 1
            && P.Depth(row, t.request) == t.depth + 1
  {
    hide WellFormed, Apart, Deep, Levels, P.Renewed, P.Raised, P.Depth;
    WellApart(s);
    HoldInRow(s.holders, i, LevelOf(t));
    HoldChanged(s.holders, i, t.depth, t);
    HoldChanged(s.holders, i, t.depth + 1, t.(depth := t.depth + 1));
    ChangedCount(s.holders, i, t);
    ChangedCount(s.holders, i, t.(depth := t.depth + 1));
  }

  lemma SameTerms(h: Hold, cmd: LockCommand, now: int)
    ensures var t := Updated(h, cmd, now);
            && LevelOf(t) == P.Level(h.request, h.lockId, cmd.count, cmd.rcount,
                                     P.HoldDeadline(now, cmd.expried, cmd.expriedFlag))
            && t == h.(count := cmd.count, rcount := cmd.rcount, expireTime := t.expireTime)
  {
  }

  lemma SameHeld(s: KeyState, i: nat, cmd: LockCommand, now: int, st: Stats)
    requires WellFormed(s) && i < |s.holders|
    ensures P.Again(Plain(s), LevelOf(s.holders[i]), cmd, now, st) == PlainAnswer(HeldStep(s, i, cmd, now, st))
  {
    hide WellFormed, Levels, P.Renewed, P.Raised, P.Depth, Updated, P.HoldDeadline;
    LevelsCount(s.holders);
    SameTerms(s.holders[i], cmd, now);
    RenewedRow(s, i, Updated(s.holders[i], cmd, now));
  }

  /** What the row counts after a hold has changed. */
  lemma ChangedCount(hs: seq<Hold>, i: nat, h: Hold)
    requires i < |hs| && Deep(hs) && Apart(hs) && h.request == hs[i].request
    ensures |Levels(hs[i := h])| == Locked(hs) - hs[i].depth + h.depth
    ensures P.Depth(Levels(hs[i := h]), h.request) == h.depth
  {
    var t, c := LevelOf(h), h.request;
    LevelsAround(hs, i, h);
    LevelsAround(hs, i, hs[i]);
    assert hs[i := hs[i]] == hs;
    LevelsCount(hs);
    CopiesOf(t, h.depth, c, t);
    CopiesOf(LevelOf(hs[i]), hs[i].depth, c, t);
    LevelsAbsent(hs[..i], c, t);
    LevelsAbsent(hs[i + 1..], c, t);
    DepthPlus(Levels(hs[..i]), Copies(t, h.depth) + Levels(hs[i + 1..]), c);
    DepthPlus(Copies(t, h.depth), Levels(hs[i + 1..]), c);
  }

  lemma NewLevel(hs: seq<Hold>, h: Hold)
    requires Absent(hs, h.request) && h.depth == 1
    ensures Levels(hs + [h]) == Levels(hs) + [LevelOf(h)] && P.Depth(Levels(hs), h.request) == 0
    ensures P.Depth(Levels(hs) + [LevelOf(h)], h.request) == 1 && |Levels(hs) + [LevelOf(h)]| == Locked(hs) + 1
  {
    LevelsPlus(hs, [h]);
    LevelsOne(h);
    assert Copies(LevelOf(h), 1) == [LevelOf(h)];
    LevelsAbsent(hs, h.request, LevelOf(h));
    DepthPlus(Levels(hs), [LevelOf(h)], h.request);
    LevelsCount(hs);
  }

  lemma SameFresh(s: KeyState, cmd: LockCommand, now: int, st: Stats)
    requires WellFormed(s) && Absent(s.holders, cmd.commandId)
    ensures P.Enter(Plain(s), cmd, now, st) == PlainAnswer(FreshStep(s, cmd, now, st))
  {
    hide WellFormed, Absent, Levels, MayGrant, P.Room, P.Depth;
    LevelsCount(s.holders);
    SameRoom(s, cmd.count);
    NewLevel(s.holders, HoldFor(cmd, now));
  }

  lemma OwnedAbsent(s: KeyState, c: nat)
    requires Owned(s, c) == 0
    ensures Absent(s.holders, c)
  {
    HeldTally(s.holders, c);
  }

  lemma SameLock(s: KeyState, cmd: LockCommand, now: int, st: Stats)
    requires WellFormed(s) && FirstIndexed(s) && Owned(s, cmd.commandId) == 0
    ensures P.Lock(Plain(s), cmd, now, st) == PlainAnswer(LockStep(s, cmd, now, st))
  {
    FindIsSearch(s, cmd.lockId);
    WellApart(s);
    OwnedAbsent(s, cmd.commandId);
    FirstIsSearch(s.holders, cmd.lockId);
    LevelsFirst(s.holders);
    hide WellFormed, FirstIndexed, Absent, Apart, Deep, Levels, HeldStep, FreshStep, P.Again, P.Enter, Find, Search,
         P.First, Owned;
    var f := Find(s, cmd.lockId);
    if s.holders != [] && cmd.flag == 1 {
      hide P.Depth;
      LevelsCount(s.holders);
      HoldInRow(s.holders, 0, LevelOf(s.holders[0]));
    } else if f.Some? {
      SameHeld(s, f.value, cmd, now, st);
    } else {
      SameFresh(s, cmd, now, st);
    }
  }

  lemma SameRelease(s: KeyState, i: nat, cmd: LockCommand, st: Stats)
    requires WellFormed(s) && i < |s.holders|
    ensures P.Leave(Plain(s), LevelOf(s.holders[i]), cmd.commandId, cmd.lockId, cmd.count, cmd.rcount, st)
            == PlainAnswer(ReleaseStep(s, i, cmd, st))
  {
    var h := s.holders[i];
    hide WellFormed, Apart, Deep, Levels, P.Lowered, P.Ended, P.Depth;
    WellApart(s);
    LevelsCount(s.holders);
    HoldInRow(s.holders, i, LevelOf(h));
    if h.depth > 1 {
      var less := h.(depth := h.depth - 1);
      HoldChanged(s.holders, i, h.depth - 1, less);
      ChangedCount(s.holders, i, less);
      LevelsCount(s.holders[i := less]);
    }
    LeftCount(s.holders, i);
  }

  /** What the row counts after a hold has ended. */
  lemma LeftCount(hs: seq<Hold>, i: nat)
    requires i < |hs| && Deep(hs) && Apart(hs)
    ensures |Levels(Without(hs, i))| == Locked(Without(hs, i)) == Locked(hs) - hs[i].depth
    ensures P.Depth(Levels(Without(hs, i)), hs[i].request) == 0
  {
    var c := hs[i].request;
    LevelsCount(Without(hs, i));
    LevelsCount(hs);
    LevelsAround(hs, i, hs[i]);
    assert hs[i := hs[i]] == hs;
    CopiesOf(LevelOf(hs[i]), hs[i].depth, c, LevelOf(hs[i]));
    LevelsAbsent(Without(hs, i), c, LevelOf(hs[i]));
  }

  lemma SameUnlock(s: KeyState, cmd: LockCommand, st: Stats)
    requires WellFormed(s) && FirstIndexed(s)
    ensures P.Unlock(Plain(s), cmd, st) == PlainAnswer(UnlockStep(s, cmd, st))
  {
    FindIsSearch(s, cmd.lockId);
    WellApart(s);
    FirstIsSearch(s.holders, cmd.lockId);
    LevelsFirst(s.holders);
    LevelsCount(s.holders);
    hide WellFormed, FirstIndexed, Apart, Deep, ReleaseStep, P.Leave, Find, Search, P.First;
    var f := Find(s, cmd.lockId);
    if f.Some? {
      SameRelease(s, f.value, cmd, st);
    } else if s.holders != [] {
      SameRelease(s, 0, Shown(cmd, s.holders[0]), st);
    }
  }

  lemma SameWake(s: KeyState, now: int, st: Stats)
    requires WellFormed(s)
    ensures P.LetIn(Plain(s), now, st) == PlainAnswer(WakeStep(s, now, st))
  {
    if s.waiters != [] {
      var w := s.waiters[0];
      WaiterAbsent(s);
      hide WellFormed, Absent, Levels, MayGrant, P.Room, P.Depth;
      LevelsCount(s.holders);
      SameRoom(s, w.count);
      NewLevel(s.holders, HoldOfWaiter(w, now));
    }
  }

  lemma WaiterAbsent(s: KeyState)
    requires WellFormed(s) && s.waiters != []
    ensures Absent(s.holders, s.waiters[0].request)
  {
    var c := s.waiters[0].request;
    assert Owned(s, c) <= 1;
    HeldTally(s.holders, c);
  }

  lemma {:induction false} WaiterFound(ws: seq<Waiter>, c: nat)
    ensures P.WaiterOf(ws, c) == (match WaitPosition(ws, c) case None => None case Some(i) => Some(ws[i]))
    ensures WaitPosition(ws, c).Some? ==> P.GivenUp(ws, c) == Without(ws, WaitPosition(ws, c).value)
  {
    if ws != [] && ws[0].request != c {
      WaiterFound(ws[1..], c);
      var i := WaitPosition(ws, c);
      if i.Some? {
        assert [ws[0]] + Without(ws[1..], i.value - 1) == Without(ws, i.value);
      }
    }
  }

  lemma SameTimeOut(s: KeyState, request: nat, st: Stats)
    ensures P.GiveUp(Plain(s), request, st) == PlainAnswer(TimeOutStep(s, request, st))
  {
    WaiterFound(s.waiters, request);
    LevelsCount(s.holders);
  }

  lemma SameExpire(s: KeyState, request: nat, st: Stats)
    requires WellFormed(s)
    ensures P.TakeAway(Plain(s), request, st) == PlainAnswer(ExpireStep(s, request, st))
  {
    var i := Position(s.holders, request);
    WellApart(s);
    LevelsCount(s.holders);
    hide WellFormed, Levels, P.Ended, P.Depth, P.FirstOf;
    if i.Some? {
      HoldInRow(s.holders, i.value, LevelOf(s.holders[i.value]));
      LeftCount(s.holders, i.value);
    } else {
      LevelsAbsent(s.holders, request, P.Level(request, 0, 0, 0, 0));
    }
  }

  /** One step: the plain machine gives the same reply, with the same counts, returns the same records, and has the same
      levels, waiters and statistics afterwards. */
  lemma SameStep(s: KeyState, e: KeyEvent, st: Stats)
    requires WellFormed(s) && FirstIndexed(s) && (e.LockRequest? ==> Admissible(s, e))
    ensures P.Step(Plain(s), e, st) == PlainAnswer(KeyStep(s, e, st))
  {
    hide LockStep, UnlockStep, TimeOutStep, ExpireStep, WakeStep, WellFormed, FirstIndexed, P.Lock, P.Unlock, P.GiveUp,
         P.TakeAway, P.LetIn, Plain, Owned;
    match e {
      case LockRequest(cmd, now) => SameLock(s, cmd, now, st);
      case UnlockRequest(cmd) => SameUnlock(s, cmd, st);
      case TimeOut(request) => SameTimeOut(s, request, st);
      case Expire(request) => SameExpire(s, request, st);
      case Wake(now) => SameWake(s, now, st);
    }
  }

  // ---------- distinct lock ids

  lemma RemoveFaithful(s: KeyState, i: nat)
    requires Faithful(s) && i < |s.holders|
    ensures Faithful(RemoveHold(s, i))
  {
    var s' := RemoveHold(s, i);
    hide RemoveHold;
    RemovedFrom(s, i);
    forall j | 1 <= j < |s'.holders|
      ensures s'.holders[j].lockId in s'.index && s'.index[s'.holders[j].lockId] == s'.holders[j].request
    {
      var k := if j < i then j else j + 1;
      assert s'.holders[j] == s.holders[k] && s'.holders[0] == s.holders[if 0 < i then 0 else 1];
    }
  }

  /** What is left, where it was, and which index entry goes. */
  lemma RemovedFrom(s: KeyState, i: nat)
    requires i < |s.holders|
    ensures var s' := RemoveHold(s, i);
            && |s'.holders| == |s.holders| - 1 && s'.waiters == s.waiters
            && (forall j :: 0 <= j < |s'.holders| ==> s'.holders[j] == s.holders[if j < i then j else j + 1])
            && (s'.holders != [] ==>
                  s'.index == s.index - {if i == 0 then s'.holders[0].lockId else s.holders[i].lockId})
  {
  }

  lemma AddFaithful(s: KeyState, h: Hold)
    requires Faithful(s)
    requires forall i :: 0 <= i < |s.holders| ==> s.holders[i].lockId != h.lockId
    requires forall i :: 0 <= i < |s.waiters| ==> s.waiters[i].lockId != h.lockId
    ensures Faithful(AddHold(s, h))
  {
  }

  lemma UpdateFaithful(s: KeyState, i: nat, h: Hold)
    requires Faithful(s) && i < |s.holders|
    requires h.lockId == s.holders[i].lockId && h.request == s.holders[i].request
    ensures Faithful(s.(holders := s.holders[i := h]))
  {
  }

  lemma HeldFaithful(s: KeyState, i: nat, cmd: LockCommand, now: int, st: Stats)
    requires Faithful(s) && i < |s.holders|
    ensures Faithful(HeldStep(s, i, cmd, now, st).state)
  {
    hide ExpireTime, ReplyTo, Faithful;
    var h := s.holders[i];
    UpdateFaithful(s, i, Updated(h, cmd, now));
    UpdateFaithful(s, i, Updated(h, cmd, now).(depth := h.depth + 1));
  }

  lemma QueueFaithful(s: KeyState, w: Waiter)
    requires Faithful(s)
    requires forall i :: 0 <= i < |s.holders| ==> s.holders[i].lockId != w.lockId
    requires forall i :: 0 <= i < |s.waiters| ==> s.waiters[i].lockId != w.lockId
    ensures Faithful(s.(waiters := s.waiters + [w], waited := true))
  {
  }

  lemma FreshFaithful(s: KeyState, cmd: LockCommand, now: int, st: Stats)
    requires Faithful(s)
    requires forall i :: 0 <= i < |s.holders| ==> s.holders[i].lockId != cmd.lockId
    requires forall i :: 0 <= i < |s.waiters| ==> s.waiters[i].lockId != cmd.lockId
    ensures Faithful(FreshStep(s, cmd, now, st).state)
  {
    hide ExpireTime, TimeoutTime, ReplyTo, Faithful, MayGrant;
    AddFaithful(s, HoldFor(cmd, now));
    QueueFaithful(s, WaiterFor(cmd, now));
  }

  lemma LockFaithful(s: KeyState, cmd: LockCommand, now: int, st: Stats)
    requires WellFormed(s) && Faithful(s) && NewId(s, LockRequest(cmd, now))
    ensures Faithful(LockStep(s, cmd, now, st).state)
  {
    hide WellFormed, Faithful, HeldStep, FreshStep, ReplyTo;
    var f := Find(s, cmd.lockId);
    FaithfulFirst(s);
    FindIsSearch(s, cmd.lockId);
    if f.Some? {
      HeldFaithful(s, f.value, cmd, now, st);
    } else if !(s.holders != [] && cmd.flag == 0x01) {
      FreshFaithful(s, cmd, now, st);
    }
  }

  lemma ReleaseFaithful(s: KeyState, i: nat, cmd: LockCommand, st: Stats)
    requires Faithful(s) && i < |s.holders|
    ensures Faithful(ReleaseStep(s, i, cmd, st).state)
  {
    RemoveFaithful(s, i);
    var h := s.holders[i];
    if h.depth > 1 {
      UpdateFaithful(s, i, h.(depth := h.depth - 1));
    }
  }

  lemma UnlockFaithful(s: KeyState, cmd: LockCommand, st: Stats)
    requires Faithful(s)
    ensures Faithful(UnlockStep(s, cmd, st).state)
  {
    hide Faithful, ReleaseStep, ReplyTo;
    var f := Find(s, cmd.lockId);
    if f.Some? {
      ReleaseFaithful(s, f.value, cmd, st);
    } else if s.holders != [] {
      ReleaseFaithful(s, 0, Shown(cmd, s.holders[0]), st);
    }
  }

  lemma TimeOutFaithful(s: KeyState, request: nat, st: Stats)
    requires Faithful(s)
    ensures Faithful(TimeOutStep(s, request, st).state)
  {
    var i := WaitPosition(s.waiters, request);
    if i.Some? {
      var ws := Without(s.waiters, i.value);
      assert forall j :: 0 <= j < |ws| ==> ws[j] == s.waiters[if j < i.value then j else j + 1];
    }
  }

  lemma ExpireFaithful(s: KeyState, request: nat, st: Stats)
    requires Faithful(s)
    ensures Faithful(ExpireStep(s, request, st).state)
  {
    hide Faithful;
    var i := Position(s.holders, request);
    if i.Some? {
      RemoveFaithful(s, i.value);
    }
  }

  lemma PoppedFaithful(s: KeyState)
    requires Faithful(s) && s.waiters != []
    ensures Faithful(s.(waiters := s.waiters[1..])) && Faithful(s.(waited := false))
    ensures forall i :: 0 <= i < |s.holders| ==> s.holders[i].lockId != s.waiters[0].lockId
    ensures forall i :: 1 <= i < |s.waiters| ==> s.waiters[i].lockId != s.waiters[0].lockId
  {
  }

  lemma WakeFaithful(s: KeyState, now: int, st: Stats)
    requires Faithful(s)
    ensures Faithful(WakeStep(s, now, st).state)
  {
    if s.waiters != [] {
      hide Faithful, ExpireTime, MayGrant;
      PoppedFaithful(s);
      AddFaithful(s.(waiters := s.waiters[1..]), HoldOfWaiter(s.waiters[0], now));
    }
  }

  lemma StepFaithful(s: KeyState, e: KeyEvent, st: Stats)
    requires WellFormed(s) && Faithful(s) && NewId(s, e)
    ensures Faithful(KeyStep(s, e, st).state)
  {
    hide LockStep, UnlockStep, TimeOutStep, ExpireStep, WakeStep, WellFormed, Faithful, NewId;
    match e {
      case LockRequest(cmd, now) => LockFaithful(s, cmd, now, st);
      case UnlockRequest(cmd) => UnlockFaithful(s, cmd, st);
      case TimeOut(request) => TimeOutFaithful(s, request, st);
      case Expire(request) => ExpireFaithful(s, request, st);
      case Wake(now) => WakeFaithful(s, now, st);
    }
  }

  // ---------- whole runs of one key

  function RunState(s: KeyState, es: seq<KeyEvent>, st: Stats): KeyState
    decreases |es|
  {
    if es == [] then s else var o := KeyStep(s, es[0], st); RunState(o.state, es[1..], o.stats)
  }

  function Replies(s: KeyState, es: seq<KeyEvent>, st: Stats): seq<Option<Reply>>
    decreases |es|
  {
    if es == [] then [] else var o := KeyStep(s, es[0], st); [o.reply] + Replies(o.state, es[1..], o.stats)
  }

  function PlainReplies(k: P.Key, es: seq<KeyEvent>, st: Stats): seq<Option<Reply>>
    decreases |es|
  {
    if es == [] then [] else var o := P.Step(k, es[0], st); [o.reply] + PlainReplies(o.key, es[1..], o.stats)
  }

  /** No event submits a record in use, and no lock request asks for a lock id that is already waiting. */
  ghost predicate DistinctWaiting(s: KeyState, es: seq<KeyEvent>, st: Stats)
    decreases |es|
  {
    es == [] ||
    (Admissible(s, es[0]) && NewId(s, es[0])
     && DistinctWaiting(KeyStep(s, es[0], st).state, es[1..], KeyStep(s, es[0], st).stats))
  }

  /** No event submits a record in use. */
  ghost predicate AdmissibleRun(s: KeyState, es: seq<KeyEvent>, st: Stats)
    decreases |es|
  {
    es == [] || (Admissible(s, es[0])
      && AdmissibleRun(KeyStep(s, es[0], st).state, es[1..], KeyStep(s, es[0], st).stats))
  }

  /** In every state of the run the index names the first hold of every lock id. */
  ghost predicate Throughout(s: KeyState, es: seq<KeyEvent>, st: Stats)
    decreases |es|
  {
    FirstIndexed(s)
    && (es == [] || Throughout(KeyStep(s, es[0], st).state, es[1..], KeyStep(s, es[0], st).stats))
  }

  /** What is seen of a step: the reply, the records that are returned because their request is over, and the
      statistics. */
  predicate SameAnswer(o: Outcome, p: P.Answer) {
    o.reply == p.reply && o.freed == p.freed && o.stats == p.stats
  }

  /** All along the run the answers to its events are those of the plain machine, and in every state of it the answer to
      any unlock request would be, too. */
  ghost predicate Agree(s: KeyState, k: P.Key, es: seq<KeyEvent>, st: Stats)
    decreases |es|
  {
    && (forall u: LockCommand :: SameAnswer(UnlockStep(s, u, st), P.Unlock(k, u, st)))
    && (es == [] ||
        var o, q := KeyStep(s, es[0], st), P.Step(k, es[0], st);
        SameAnswer(o, q) && Agree(o.state, q.key, es[1..], o.stats))
  }

  /** An unlock request for a missed hold ends another one, or is refused: the answer is not that of the plain
      machine. */
  lemma UnlockTells(s: KeyState, i: nat, c: nat, st: Stats)
    requires WellFormed(s) && Missed(s, i)
    ensures var u := Release(c, s.holders[i].lockId).cmd; !SameAnswer(UnlockStep(s, u, st), P.Unlock(Plain(s), u, st))
  {
    hide WellFormed, ReplyTo, P.Unlock, Plain;
    MissedFind(s, i);
    WellApart(s);
    var id := s.holders[i].lockId;
    var f := Find(s, id);
    var u := Release(c, id).cmd;
    PlainRelease(s.holders, s.waiters, s.waited, i, u, st);
    PlainOf(s);
    if f.Some? {
      ReleaseAnswer(s, f.value, u, st);
      assert P.Unlock(Plain(s), u, st).freed[1] == s.holders[i].request;
    } else {
      RefusedAnswer(s, u, st);
    }
  }

  lemma PlainOf(s: KeyState)
    ensures Plain(s) == P.Key(Levels(s.holders), s.waiters, s.waited)
  {
  }

  /** A full release answers SUCCED and returns the record of the request with that of the hold. */
  lemma ReleaseAnswer(s: KeyState, i: nat, cmd: LockCommand, st: Stats)
    requires i < |s.holders| && cmd.rcount == 0
    ensures var o := ReleaseStep(s, i, cmd, st);
            && o.freed == [cmd.commandId, s.holders[i].request] && o.reply.Some? && o.reply.value.code == Succed
            && o.state == RemoveHold(s, i)
  {
  }

  /** So it does on the plain machine, for the first hold with the lock id. */
  lemma PlainRelease(hs: seq<Hold>, ws: seq<Waiter>, waited: bool, i: nat, cmd: LockCommand, st: Stats)
    requires Deep(hs) && Apart(hs) && Search(hs, cmd.lockId) == Some(i) && cmd.rcount == 0
    ensures var o := P.Unlock(P.Key(Levels(hs), ws, waited), cmd, st);
            && o.freed == [cmd.commandId, hs[i].request] && o.reply.Some? && o.reply.value.code == Succed
            && o.key == P.Key(Levels(Without(hs, i)), ws, waited)
  {
    hide Search, Apart, Deep, Levels, P.First, P.Ended, P.Depth;
    FirstIsSearch(hs, cmd.lockId);
    LevelsFirst(hs);
    HoldInRow(hs, i, LevelOf(hs[i]));
  }

  lemma RefusedAnswer(s: KeyState, cmd: LockCommand, st: Stats)
    requires s.holders != [] && Find(s, cmd.lockId).None? && cmd.flag == 0
    ensures var o := UnlockStep(s, cmd, st); o.reply.Some? && o.reply.value.code == UnownError
  {
  }

  /** Replies alone tell after two unlock requests at the latest: then the engine refuses the id although it is held. */
  lemma TwoUnlocksTell(s: KeyState, i: nat, c: nat, d: nat, st: Stats)
    requires WellFormed(s) && Missed(s, i)
    ensures var es := [Release(c, s.holders[i].lockId), Release(d, s.holders[i].lockId)];
            Replies(s, es, st) != PlainReplies(Plain(s), es, st)
  {
    MissedInside(s, i);
    hide WellFormed, ReplyTo, KeyStep, P.Step, Plain, Missed;
    var id := s.holders[i].lockId;
    var a, b := Release(c, id), Release(d, id);
    var es := [a, b];
    assert es[1..] == [b] && [b][1..] == [];
    var o, q := KeyStep(s, a, st), P.Step(Plain(s), a, st);
    var o2, q2 := KeyStep(o.state, b, o.stats), P.Step(q.key, b, q.stats);
    assert Replies(s, es, st) == [o.reply] + Replies(o.state, [b], o.stats);
    assert Replies(o.state, [b], o.stats) == [o2.reply];
    assert PlainReplies(Plain(s), es, st) == [q.reply] + PlainReplies(q.key, [b], q.stats);
    assert PlainReplies(q.key, [b], q.stats) == [q2.reply];
    assert Replies(s, es, st)[0] == o.reply && Replies(s, es, st)[1] == o2.reply;
    assert PlainReplies(Plain(s), es, st)[0] == q.reply && PlainReplies(Plain(s), es, st)[1] == q2.reply;
    SecondTells(s, i, c, d, st);
  }

  lemma SecondTells(s: KeyState, i: nat, c: nat, d: nat, st: Stats)
    requires WellFormed(s) && Missed(s, i)
    ensures var id := s.holders[i].lockId; var a, b := Release(c, id), Release(d, id);
            var o, q := KeyStep(s, a, st), P.Step(Plain(s), a, st);
            o.reply != q.reply || KeyStep(o.state, b, o.stats).reply != P.Step(q.key, b, q.stats).reply
  {
    hide WellFormed, ReplyTo, ReleaseStep, P.Unlock, Levels;
    MissedFind(s, i);
    WellApart(s);
    var id := s.holders[i].lockId;
    var f := Find(s, id);
    var a, b := Release(c, id), Release(d, id);
    PlainRelease(s.holders, s.waiters, s.waited, i, a.cmd, st);
    if f.None? {
      RefusedAnswer(s, a.cmd, st);
    } else {
      ReleaseAnswer(s, f.value, a.cmd, st);
      var o, q := KeyStep(s, a, st), P.Step(Plain(s), a, st);
      StillHeld(s, i, f.value);
      RefusedAnswer(o.state, b.cmd, o.stats);
      var left := Without(s.holders, i);
      StillApart(s.holders, i);
      PlainRelease(left, s.waiters, s.waited, Search(left, id).value, b.cmd, q.stats);
    }
  }

  lemma StillApart(hs: seq<Hold>, i: nat)
    requires i < |hs| && Deep(hs) && Apart(hs)
    ensures Deep(Without(hs, i)) && Apart(Without(hs, i))
  {
    assert forall j :: 0 <= j < |Without(hs, i)| ==> Without(hs, i)[j] == hs[if j < i then j else j + 1];
  }

  /** After the other hold of the id has ended, the engine has no index entry for the id, and the plain machine still
      has one of its holds. */
  lemma StillHeld(s: KeyState, i: nat, j: nat)
    requires 1 <= i < |s.holders| && 1 <= j < |s.holders| && i != j && s.holders[j].lockId == s.holders[i].lockId
    requires s.holders[0].lockId != s.holders[i].lockId
    ensures var id := s.holders[i].lockId;
            && RemoveHold(s, j).holders != [] && Find(RemoveHold(s, j), id).None?
            && Search(Without(s.holders, i), id).Some?
  {
    var id := s.holders[i].lockId;
    var left := Without(s.holders, i);
    assert left[if j < i then j else j - 1].lockId == id;
    assert RemoveHold(s, j).holders[0] == s.holders[0];
  }

  lemma NotFirst(s: KeyState) returns (i: nat)
    requires !FirstIndexed(s)
    ensures Missed(s, i)
  {
    i :| 0 <= i < |s.holders| && Missed(s, i);
  }

  lemma MissedInside(s: KeyState, i: nat)
    requires Missed(s, i)
    ensures i < |s.holders|
  {
  }

  /** The engine answers as the plain machine, all along a run and to any unlock request in any state of it, if and only
      if in every state of the run the index names the first hold of every lock id. */
  lemma {:induction false} PlainIff(s: KeyState, es: seq<KeyEvent>, st: Stats)
    requires WellFormed(s) && AdmissibleRun(s, es, st)
    ensures Throughout(s, es, st) <==> Agree(s, Plain(s), es, st)
    decreases |es|
  {
    hide WellFormed, FirstIndexed, KeyStep, P.Step, UnlockStep, P.Unlock, Admissible, Plain;
    if FirstIndexed(s) {
      forall u: LockCommand ensures SameAnswer(UnlockStep(s, u, st), P.Unlock(Plain(s), u, st)) {
        SameUnlock(s, u, st);
      }
      if es != [] {
        SameStep(s, es[0], st);
        StepKeeps(s, es[0], st);
        var o := KeyStep(s, es[0], st);
        PlainIff(o.state, es[1..], o.stats);
      }
    } else {
      var i := NotFirst(s);
      UnlockTells(s, i, 0, st);
    }
  }

  lemma {:induction false} DistinctThroughout(s: KeyState, es: seq<KeyEvent>, st: Stats)
    requires WellFormed(s) && Faithful(s) && DistinctWaiting(s, es, st)
    ensures Throughout(s, es, st) && AdmissibleRun(s, es, st)
    decreases |es|
  {
    hide WellFormed, Faithful, FirstIndexed, KeyStep, Admissible, NewId;
    FaithfulFirst(s);
    if es != [] {
      StepKeeps(s, es[0], st);
      StepFaithful(s, es[0], st);
      var o := KeyStep(s, es[0], st);
      DistinctThroughout(o.state, es[1..], o.stats);
    }
  }

  lemma {:induction false} SameReplies(s: KeyState, es: seq<KeyEvent>, st: Stats)
    requires WellFormed(s) && AdmissibleRun(s, es, st) && Throughout(s, es, st)
    ensures Replies(s, es, st) == PlainReplies(Plain(s), es, st)
    decreases |es|
  {
    hide WellFormed, FirstIndexed, KeyStep, P.Step, Admissible, Plain;
    if es != [] {
      SameStep(s, es[0], st);
      StepKeeps(s, es[0], st);
      var o := KeyStep(s, es[0], st);
      SameReplies(o.state, es[1..], o.stats);
    }
  }

  /** Over every run in which waiting lock ids stay distinct, the engine and the plain machine give the same reply,
      code, lcount and lrcount included, to every event. */
  lemma PlainRefinement(s: KeyState, es: seq<KeyEvent>, st: Stats)
    requires WellFormed(s) && Faithful(s) && DistinctWaiting(s, es, st)
    ensures Replies(s, es, st) == PlainReplies(Plain(s), es, st)
    ensures Agree(s, Plain(s), es, st)
  {
    DistinctThroughout(s, es, st);
    SameReplies(s, es, st);
    PlainIff(s, es, st);
  }

  // ---------- a run in which it does not

  function Ask(record: nat, id: LockId, count: Uint16): KeyEvent {
    LockRequest(LockCommand(record, 0, id, 10, 0, 10, 0, count, 0), 0)
  }

  function Release(record: nat, id: LockId): KeyEvent {
    UnlockRequest(LockCommand(record, 0, id, 0, 0, 0, 0, 0, 0))
  }

  function TwinHold(record: nat, id: LockId): Hold {
    Hold(record, id, 1, 5, 0, 11)
  }

  function TwinWaiter(record: nat, id: LockId): Waiter {
    Waiter(record, id, 10, 0, 5, 0, 11)
  }

  /** Lock ids 8, 7 and 7 wait behind a writer with id 9, and all are granted when it leaves. */
  const TWINS: seq<KeyEvent> :=
    [Ask(1, 9, 0), Ask(2, 8, 5), Ask(3, 7, 5), Ask(4, 7, 5), Release(5, 9), Wake(0), Wake(0), Wake(0)]

  const TWIN_STATE := KeyState([TwinHold(2, 8), TwinHold(3, 7), TwinHold(4, 7)], map[7 := 4], [], true)

  /** The key after the first `i` events. */
  function TwinState(i: nat): KeyState {
    var writer := [Hold(1, 9, 1, 0, 0, 11)];
    var a, b, c := TwinWaiter(2, 8), TwinWaiter(3, 7), TwinWaiter(4, 7);
    match i
    case 0 => EMPTY
    case 1 => KeyState(writer, map[], [], false)
    case 2 => KeyState(writer, map[], [a], true)
    case 3 => KeyState(writer, map[], [a, b], true)
    case 4 => KeyState(writer, map[], [a, b, c], true)
    case 5 => KeyState([], map[], [a, b, c], true)
    case 6 => KeyState([TwinHold(2, 8)], map[], [b, c], true)
    case 7 => KeyState([TwinHold(2, 8), TwinHold(3, 7)], map[7 := 3], [c], true)
    case _ => TWIN_STATE
  }

  lemma TwinRequest(i: nat, st: Stats)
    requires i < 4
    ensures KeyStep(TwinState(i), TWINS[i], st).state == TwinState(i + 1)
  {
  }

  lemma TwinRelease(st: Stats)
    ensures KeyStep(TwinState(4), TWINS[4], st).state == TwinState(5)
  {
  }

  lemma TwinWake(i: nat, st: Stats)
    requires 5 <= i < 8
    ensures KeyStep(TwinState(i), TWINS[i], st).state == TwinState(i + 1)
  {
  }

  lemma TwinNext(i: nat, st: Stats)
    requires i < 8
    ensures KeyStep(TwinState(i), TWINS[i], st).state == TwinState(i + 1)
  {
    hide KeyStep, TwinState, TWINS;
    if i < 4 {
      TwinRequest(i, st);
    } else if i == 4 {
      TwinRelease(st);
    } else {
      TwinWake(i, st);
    }
  }

  lemma {:induction false} TwinsFrom(i: nat, st: Stats)
    requires i <= 8
    ensures RunState(TwinState(i), TWINS[i..], st) == TWIN_STATE
    decreases 8 - i
  {
    if i < 8 {
      hide KeyStep, TwinState;
      TwinNext(i, st);
      TwinsFrom(i + 1, KeyStep(TwinState(i), TWINS[i], st).stats);
    }
  }

  lemma TwinsReached(st: Stats)
    ensures RunState(EMPTY, TWINS, st) == TWIN_STATE && Missed(TWIN_STATE, 1)
  {
    TwinsFrom(0, st);
    assert TWINS[0..] == TWINS;
  }

  /** There 7 is unlocked twice: the engine refuses the second time, though a hold of 7 is still there. */
  lemma TwinsDiffer(st: Stats)
    ensures var s := KeyStep(TWIN_STATE, Release(6, 7), st).state;
            var k := P.Step(Plain(TWIN_STATE), Release(6, 7), st).key;
            && Search(s.holders, 7).Some?
            && UnlockStep(s, Release(7, 7).cmd, st).reply.value.code == UnownError
            && P.Step(k, Release(7, 7), st).reply.Some? && P.Step(k, Release(7, 7), st).reply.value.code == Succed
  {
    var s := KeyStep(TWIN_STATE, Release(6, 7), st).state;
    assert s == KeyState([TwinHold(2, 8), TwinHold(3, 7)], map[], [], true);
    hide P.Step, Plain;
    TwinsPlain(st);
  }

  lemma TwinsPlain(st: Stats)
    ensures var k := P.Step(Plain(TWIN_STATE), Release(6, 7), st).key;
            P.Step(k, Release(7, 7), st).reply.Some? && P.Step(k, Release(7, 7), st).reply.value.code == Succed
  {
    var hs, left := TWIN_STATE.holders, [TwinHold(2, 8), TwinHold(4, 7)];
    assert Without(hs, 1) == left;
    assert Search(hs, 7) == Some(1) && Search(left, 7) == Some(1);
    hide Levels, P.Unlock, Search;
    PlainRelease(hs, [], true, 1, Release(6, 7).cmd, st);
    PlainRelease(left, [], true, 1, Release(7, 7).cmd, st);
  }
}
