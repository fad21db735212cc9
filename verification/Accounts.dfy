/** An account of one request, kept from nothing but requests, their times, and replies: whether it waits and until
    when, whether it holds the key, how deep, on what terms and until when. Over every run this is what the server
    has. */
module Accounts {
  import opened Protocol
  import opened KeySpec
  import opened KeyProofs
  import opened HoldLaws
  import opened Runs

  datatype Account =
    | Nothing
    | Waits(cmd: LockCommand, until: int)
    | Holds(lockId: LockId, depth: nat, count: Uint16, rcount: Uint8, until: int)

  /** Seconds count from the request, and one more; a time in milliseconds has no deadline in seconds, and one that is
      never over the greatest. */
  function HoldUntil(now: int, seconds: Uint16, flag: bv16): int {
    if flag & 0x0400 == 0 then now + seconds + 1 else if flag & 0x4000 != 0 then 9223372036854775807 else 0
  }

  function WaitUntil(now: int, seconds: Uint16, flag: bv16): int {
    if flag & 0x0400 == 0 then now + seconds + 1 else 0
  }

  /** The request is about the hold of record `c`. */
  predicate About(s: KeyState, at: Option<nat>, c: nat) {
    at.Some? && at.value < |s.holders| && s.holders[at.value].request == c
  }

  predicate Told(reply: Option<Reply>, c: nat, code: ResultCode) {
    reply.Some? && reply.value.commandId == c && reply.value.code == code
  }

  /** What a step with its reply does to the account of record `c`. */
  function Booked(s: KeyState, step: KeyEvent, reply: Option<Reply>, c: nat, a: Account): Account {
    match step
    case LockRequest(cmd, now) =>
      if cmd.commandId == c then
        if reply.None? then Waits(cmd, WaitUntil(now, cmd.timeout, cmd.timeoutFlag))
        else if Told(reply, c, Succed) && reply.value.lrcount == 1 then
          Holds(cmd.lockId, 1, cmd.count, cmd.rcount, HoldUntil(now, cmd.expried, cmd.expriedFlag))
        else a
      else if !About(s, Find(s, cmd.lockId), c) || reply.None? || a.Nothing? || a.Waits? then a
      else if reply.value.code == Succed then
        a.(depth := a.depth + 1, count := cmd.count, rcount := cmd.rcount,
           until := HoldUntil(now, cmd.expried, cmd.expriedFlag))
      else if reply.value.code == LockedError && cmd.flag == 2 then
        a.(count := cmd.count, rcount := cmd.rcount, until := HoldUntil(now, cmd.expried, cmd.expriedFlag))
      else a
    case UnlockRequest(cmd) =>
      if !About(s, Addressed(s, cmd), c) || !Told(reply, cmd.commandId, Succed) || a.Nothing? || a.Waits? then a
      else if a.depth > 1 && (if Find(s, cmd.lockId).Some? then cmd.rcount else a.rcount) != 0 then
        a.(depth := a.depth - 1)
      else Nothing
    case TimeOut(_) => if Told(reply, c, TimedOut) then Nothing else a
    case Expire(_) => if Told(reply, c, Expried) then Nothing else a
    case Wake(now) =>
      if !Told(reply, c, Succed) || a.Nothing? || a.Holds? then a
      else if reply.value.lrcount == 0 then Nothing
      else Holds(a.cmd.lockId, 1, a.cmd.count, a.cmd.rcount, HoldUntil(now, a.cmd.expried, a.cmd.expriedFlag))
  }

  /** The account is what the key has. */
  ghost predicate Right(s: KeyState, c: nat, a: Account) {
    match a
    case Nothing => Owned(s, c) == 0
    case Waits(cmd, until) =>
      Waiter(c, cmd.lockId, cmd.expried, cmd.expriedFlag, cmd.count, cmd.rcount, until) in s.waiters
    case Holds(lockId, depth, count, rcount, until) => Hold(c, lockId, depth, count, rcount, until) in s.holders
  }

  // ---------- one step

  lemma SameTimes(now: int, seconds: Uint16, flag: bv16)
    ensures HoldUntil(now, seconds, flag) == ExpireTime(now, seconds, flag)
    ensures WaitUntil(now, seconds, flag) == TimeoutTime(now, seconds, flag)
  {
  }

  /** There is one hold of a record, and it does not wait as well. */
  lemma OnlyHold(s: KeyState, i: nat, h: Hold)
    requires WellFormed(s) && i < |s.holders| && h in s.holders && s.holders[i].request == h.request
    ensures s.holders[i] == h
  {
    var j :| 0 <= j < |s.holders| && s.holders[j] == h;
    if i < j {
      DistinctHolds(s, i, j);
    } else if j < i {
      DistinctHolds(s, j, i);
    }
  }

  lemma OwnedOnce(s: KeyState, c: nat)
    requires WellFormed(s)
    ensures (exists i :: 0 <= i < |s.holders| && s.holders[i].request == c) <==> HoldTally(s.holders, c) == 1
    ensures (exists i :: 0 <= i < |s.waiters| && s.waiters[i].request == c) <==> WaitTally(s.waiters, c) == 1
    ensures HoldTally(s.holders, c) + WaitTally(s.waiters, c) <= 1
  {
    HeldTally(s.holders, c);
    WaitingTally(s.waiters, c);
    assert Owned(s, c) <= 1;
  }

  /** What is held by another record is not touched when one hold changes or ends. */
  lemma OthersStay(hs: seq<Hold>, i: nat, h: Hold, to: Hold)
    requires i < |hs| && h in hs && h.request != hs[i].request
    ensures h in hs[i := to] && h in hs[..i] + hs[i + 1..]
  {
    var j :| 0 <= j < |hs| && hs[j] == h;
    assert hs[i := to][j] == h;
    assert (hs[..i] + hs[i + 1..])[if j < i then j else j - 1] == h;
  }

  lemma HeldEffect(s: KeyState, i: nat, cmd: LockCommand, now: int, st: Stats)
    requires WellFormed(s) && i < |s.holders|
    ensures var o := HeldStep(s, i, cmd, now, st); var h := s.holders[i];
            var terms := Hold(h.request, h.lockId, h.depth, cmd.count, cmd.rcount,
                              HoldUntil(now, cmd.expried, cmd.expriedFlag));
            && o.state == s.(holders := s.holders[i := o.state.holders[i]])
            && o.reply.Some? && o.reply.value.commandId == cmd.commandId
            && (o.reply.value.code == Succed ==>
                  o.reply.value.lrcount > 1 && o.state.holders[i] == terms.(depth := h.depth + 1))
            && (o.reply.value.code != Succed && o.reply.value.code == LockedError && cmd.flag == 2 ==>
                  o.state.holders[i] == terms)
            && (o.reply.value.code != Succed && !(o.reply.value.code == LockedError && cmd.flag == 2) ==>
                  o.state == s)
  {
    hide ExpireTime, HoldUntil;
    SameTimes(now, cmd.expried, cmd.expriedFlag);
    assert s.holders[i := s.holders[i]] == s.holders;
  }

  lemma HeldBooked(s: KeyState, i: nat, cmd: LockCommand, now: int, st: Stats, c: nat, a: Account)
    requires WellFormed(s) && Owned(s, cmd.commandId) == 0 && Right(s, c, a)
    requires Find(s, cmd.lockId) == Some(i) && cmd.flag != 1
    ensures var o := HeldStep(s, i, cmd, now, st); Right(o.state, c, Booked(s, LockRequest(cmd, now), o.reply, c, a))
  {
    HeldEffect(s, i, cmd, now, st);
    hide WellFormed, HoldUntil, WaitUntil, HeldStep, Find, Owned, Right;
    ChangedRight(s, HeldStep(s, i, cmd, now, st).state, i, c, a);
    OwnedHolds(s, c, a);
  }

  /** An account says that a record holds the key exactly if some hold is of that record. */
  lemma OwnedHolds(s: KeyState, c: nat, a: Account)
    requires WellFormed(s) && Right(s, c, a)
    ensures a.Holds? <==> exists i :: 0 <= i < |s.holders| && s.holders[i].request == c
    ensures a.Nothing? <==> Owned(s, c) == 0
  {
    OwnedOnce(s, c);
  }

  lemma FreshBooked(s: KeyState, cmd: LockCommand, now: int, st: Stats, c: nat, a: Account)
    requires WellFormed(s) && Owned(s, cmd.commandId) == 0 && Right(s, c, a) && Find(s, cmd.lockId).None?
    ensures var o := FreshStep(s, cmd, now, st); Right(o.state, c, Booked(s, LockRequest(cmd, now), o.reply, c, a))
  {
    hide WellFormed, ExpireTime, TimeoutTime, HoldUntil, WaitUntil, MayGrant;
    SameTimes(now, cmd.expried, cmd.expriedFlag);
    SameTimes(now, cmd.timeout, cmd.timeoutFlag);
    OwnedOnce(s, c);
    OwnedOnce(s, cmd.commandId);
    HoldsSplit(s.holders, [HoldFor(cmd, now)], c);
    WaitersSplit(s.waiters, [WaiterFor(cmd, now)], c);
  }

  lemma ShownBooked(s: KeyState, cmd: LockCommand, now: int, st: Stats, c: nat, a: Account)
    requires WellFormed(s) && Owned(s, cmd.commandId) == 0 && Right(s, c, a) && s.holders != [] && cmd.flag == 1
    ensures var o := LockStep(s, cmd, now, st); Right(o.state, c, Booked(s, LockRequest(cmd, now), o.reply, c, a))
  {
    OwnedOnce(s, cmd.commandId);
  }

  lemma LockBooked(s: KeyState, cmd: LockCommand, now: int, st: Stats, c: nat, a: Account)
    requires WellFormed(s) && Owned(s, cmd.commandId) == 0 && Right(s, c, a)
    ensures var o := LockStep(s, cmd, now, st); Right(o.state, c, Booked(s, LockRequest(cmd, now), o.reply, c, a))
  {
    hide WellFormed, HeldStep, FreshStep, Find, Right, Booked, Owned;
    var f := Find(s, cmd.lockId);
    if s.holders != [] && cmd.flag == 1 {
      ShownBooked(s, cmd, now, st, c, a);
    } else if f.Some? {
      FoundHolder(s, cmd.lockId);
      HeldBooked(s, f.value, cmd, now, st, c, a);
    } else {
      FreshBooked(s, cmd, now, st, c, a);
    }
  }

  lemma FoundHolder(s: KeyState, id: LockId)
    ensures Find(s, id).Some? ==> s.holders != []
  {
  }

  lemma UnlockBooked(s: KeyState, cmd: LockCommand, st: Stats, c: nat, a: Account)
    requires WellFormed(s) && Owned(s, cmd.commandId) == 0 && Right(s, c, a)
    ensures var o := UnlockStep(s, cmd, st); Right(o.state, c, Booked(s, UnlockRequest(cmd), o.reply, c, a))
  {
    UnlockTakes(s, cmd, st);
    hide WellFormed, UnlockStep, Find, Owned, Right, Addressed, Booked;
    var at, o := Addressed(s, cmd), UnlockStep(s, cmd, st);
    if at.None? {
      RefusedBooked(s, cmd, o.reply, c, a);
    } else if (if Find(s, cmd.lockId).Some? then cmd.rcount else s.holders[at.value].rcount) != 0
              && s.holders[at.value].depth > 1 {
      LowerBooked(s, o.state, cmd, o.reply, at.value, c, a);
    } else {
      EndBooked(s, o.state, cmd, o.reply, at.value, c, a);
    }
  }

  lemma RefusedBooked(s: KeyState, cmd: LockCommand, reply: Option<Reply>, c: nat, a: Account)
    requires Addressed(s, cmd).None?
    ensures Booked(s, UnlockRequest(cmd), reply, c, a) == a
  {
  }

  lemma LowerBooked(s: KeyState, t: KeyState, cmd: LockCommand, reply: Option<Reply>, i: nat, c: nat, a: Account)
    requires WellFormed(s) && Right(s, c, a) && i < |s.holders| && Addressed(s, cmd) == Some(i)
    requires Told(reply, cmd.commandId, Succed) && s.holders[i].depth > 1
    requires (if Find(s, cmd.lockId).Some? then cmd.rcount else s.holders[i].rcount) != 0
    requires t.waiters == s.waiters && t.holders == s.holders[i := s.holders[i].(depth := s.holders[i].depth - 1)]
    ensures Right(t, c, Booked(s, UnlockRequest(cmd), reply, c, a))
  {
    hide WellFormed, Find, Right, Addressed;
    ChangedRight(s, t, i, c, a);
  }

  lemma EndBooked(s: KeyState, t: KeyState, cmd: LockCommand, reply: Option<Reply>, i: nat, c: nat, a: Account)
    requires WellFormed(s) && Right(s, c, a) && i < |s.holders| && Addressed(s, cmd) == Some(i)
    requires Told(reply, cmd.commandId, Succed)
    requires (if Find(s, cmd.lockId).Some? then cmd.rcount else s.holders[i].rcount) == 0 || s.holders[i].depth <= 1
    requires t.waiters == s.waiters && t.holders == s.holders[..i] + s.holders[i + 1..]
    ensures Right(t, c, Booked(s, UnlockRequest(cmd), reply, c, a))
  {
    hide WellFormed, Find, Right, Addressed;
    EndedRight(s, t, i, c, a);
  }

  /** A hold has other terms or another depth. */
  lemma ChangedRight(s: KeyState, t: KeyState, i: nat, c: nat, a: Account)
    requires WellFormed(s) && Right(s, c, a) && i < |s.holders|
    requires t.waiters == s.waiters && |t.holders| == |s.holders| && t.holders == s.holders[i := t.holders[i]]
    requires t.holders[i].request == s.holders[i].request
    ensures a.Holds? && s.holders[i].request == c ==>
              var h, h' := s.holders[i], t.holders[i];
              && a == Holds(h.lockId, h.depth, h.count, h.rcount, h.expireTime)
              && Right(t, c, Holds(h'.lockId, h'.depth, h'.count, h'.rcount, h'.expireTime))
    ensures !a.Holds? || s.holders[i].request != c ==> Right(t, c, a)
  {
    hide WellFormed;
    HoldsUpdate(s.holders, i, t.holders[i], c);
    if a.Holds? {
      var held := Hold(c, a.lockId, a.depth, a.count, a.rcount, a.until);
      if s.holders[i].request == c {
        OnlyHold(s, i, held);
        assert t.holders[i] in t.holders;
      } else {
        OthersStay(s.holders, i, held, t.holders[i]);
      }
    }
  }

  /** A hold is over. */
  lemma EndedRight(s: KeyState, t: KeyState, i: nat, c: nat, a: Account)
    requires WellFormed(s) && Right(s, c, a) && i < |s.holders|
    requires t.waiters == s.waiters && t.holders == s.holders[..i] + s.holders[i + 1..]
    ensures s.holders[i].request == c ==> Right(t, c, Nothing) && a.Holds?
    ensures s.holders[i].request == c && a.Holds? ==>
              a.depth == s.holders[i].depth && a.rcount == s.holders[i].rcount
    ensures s.holders[i].request != c ==> Right(t, c, a)
  {
    OwnedOnce(s, c);
    hide WellFormed;
    assert t.holders == Without(s.holders, i);
    HoldsWithout(s.holders, i, c);
    if a.Holds? {
      var held := Hold(c, a.lockId, a.depth, a.count, a.rcount, a.until);
      if s.holders[i].request == c {
        OnlyHold(s, i, held);
      } else {
        OthersStay(s.holders, i, held, held);
      }
    }
  }


  lemma ExpireBooked(s: KeyState, request: nat, st: Stats, c: nat, a: Account)
    requires WellFormed(s) && Right(s, c, a)
    ensures var o := ExpireStep(s, request, st); Right(o.state, c, Booked(s, Expire(request), o.reply, c, a))
  {
    ExpiryNotice(s, request, st);
    KeptWaiters(s, request, st);
    hide WellFormed, ExpireStep, Right, Owned;
    var o := ExpireStep(s, request, st);
    if o.reply.Some? {
      var i :| 0 <= i < |s.holders| && s.holders[i].request == request
               && o.state.holders == s.holders[..i] + s.holders[i + 1..] && Told(o.reply, request, Expried);
      EndedRight(s, o.state, i, c, a);
    }
  }

  lemma KeptWaiters(s: KeyState, request: nat, st: Stats)
    ensures ExpireStep(s, request, st).state.waiters == s.waiters
  {
  }

  /** A waiter is gone. */
  lemma GoneRight(s: KeyState, t: KeyState, i: nat, c: nat, a: Account)
    requires WellFormed(s) && Right(s, c, a) && i < |s.waiters|
    requires t.holders == s.holders && t.waiters == s.waiters[..i] + s.waiters[i + 1..]
    ensures Right(t, c, if s.waiters[i].request == c then Nothing else a)
  {
    OwnedOnce(s, c);
    hide WellFormed;
    assert t.waiters == Without(s.waiters, i);
    WaitersWithout(s.waiters, i, c);
    if a.Waits? && s.waiters[i].request != c {
      var w := Waiter(c, a.cmd.lockId, a.cmd.expried, a.cmd.expriedFlag, a.cmd.count, a.cmd.rcount, a.until);
      var j :| 0 <= j < |s.waiters| && s.waiters[j] == w;
      assert t.waiters[if j < i then j else j - 1] == w;
    }
  }

  lemma TimeOutBooked(s: KeyState, request: nat, st: Stats, c: nat, a: Account)
    requires WellFormed(s) && Right(s, c, a)
    ensures var o := TimeOutStep(s, request, st); Right(o.state, c, Booked(s, TimeOut(request), o.reply, c, a))
  {
    TimeoutNotice(s, request, st);
    hide WellFormed, TimeOutStep, Right, Owned;
    var o := TimeOutStep(s, request, st);
    if o.reply.Some? {
      var i :| 0 <= i < |s.waiters| && s.waiters[i].request == request
               && o.state.waiters == s.waiters[..i] + s.waiters[i + 1..] && Told(o.reply, request, TimedOut);
      GoneRight(s, o.state, i, c, a);
    }
  }

  lemma WakeBooked(s: KeyState, now: int, st: Stats, c: nat, a: Account)
    requires WellFormed(s) && Right(s, c, a)
    ensures var o := WakeStep(s, now, st); Right(o.state, c, Booked(s, Wake(now), o.reply, c, a))
  {
    hide WellFormed, ExpireTime, HoldUntil, MayGrant;
    OwnedOnce(s, c);
    if s.waiters != [] {
      var w := s.waiters[0];
      SameTimes(now, w.expried, w.expriedFlag);
      HoldsSplit(s.holders, [HoldOfWaiter(w, now)], c);
      WaitersSplit([w], s.waiters[1..], c);
      assert s.waiters == [w] + s.waiters[1..];
      if a.Waits? {
        FirstWaiter(s, Waiter(c, a.cmd.lockId, a.cmd.expried, a.cmd.expriedFlag, a.cmd.count, a.cmd.rcount, a.until));
      }
    }
  }

  lemma FirstWaiter(s: KeyState, w: Waiter)
    requires WellFormed(s) && w in s.waiters
    ensures if s.waiters[0].request == w.request then s.waiters[0] == w else w in s.waiters[1..]
  {
    var j :| 0 <= j < |s.waiters| && s.waiters[j] == w;
    WaitPositionAt(s, 0);
    WaitPositionAt(s, j);
    if j > 0 {
      assert s.waiters[1..][j - 1] == w;
    }
  }

  /** One step: what the reply says is what happens. */
  lemma StepBooked(s: KeyState, step: KeyEvent, st: Stats, c: nat, a: Account)
    requires WellFormed(s) && Admissible(s, step) && Right(s, c, a)
    ensures var o := KeyStep(s, step, st); Right(o.state, c, Booked(s, step, o.reply, c, a))
  {
    hide WellFormed, Right, Booked, Owned, LockStep, UnlockStep, TimeOutStep, ExpireStep, WakeStep;
    match step {
      case LockRequest(cmd, now) => LockBooked(s, cmd, now, st, c, a);
      case UnlockRequest(cmd) => UnlockBooked(s, cmd, st, c, a);
      case TimeOut(request) => TimeOutBooked(s, request, st, c, a);
      case Expire(request) => ExpireBooked(s, request, st, c, a);
      case Wake(now) => WakeBooked(s, now, st, c, a);
    }
  }

  // ---------- whole runs

  /** The account of a record with one key, from the requests and replies of a run. */
  ghost function AccountOf(n: nat, es: seq<Event>, k: nat, c: nat): Account {
    if es == [] then Nothing
    else
      var db, e, a := After(n, es[..|es| - 1]), es[|es| - 1], AccountOf(n, es[..|es| - 1], k, c);
      if e.At? && e.key == k && k < |db.keys| then
        Booked(db.keys[k], e.step, OutcomeAt(db, k, e.step).reply, c, a)
      else a
  }

  /** Over every run, whatever other requests, timers and keys do in between: a request waits, or holds the key, exactly
      as its account says, as deep, on these terms, and until then. */
  lemma {:induction false} AccountsAreRight(n: nat, es: seq<Event>, k: nat, c: nat)
    requires Legal(n, es) && k < n
    ensures |After(n, es).keys| == n && Right(After(n, es).keys[k], c, AccountOf(n, es, k, c))
  {
    hide WellFormed, Right, Booked, Owned, KeyStep;
    Reachable(n, es);
    if es == [] {
      EmptyRight(n, k, c);
    } else {
      var front, e := es[..|es| - 1], es[|es| - 1];
      AccountsAreRight(n, front, k, c);
      Reachable(n, front);
      if e.At? && e.key == k {
        SubmittedIsUnowned(After(n, front), k, e.step);
        StepBooked(After(n, front).keys[k], e.step, After(n, front).stats, c, AccountOf(n, front, k, c));
      }
    }
  }

  lemma EmptyRight(n: nat, k: nat, c: nat)
    requires k < n
    ensures Right(Start(n).keys[k], c, Nothing)
  {
  }
}
