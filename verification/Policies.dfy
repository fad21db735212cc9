/** What clients build on: capacity, reader/writer exclusion, arrival order and wake-up, over whole runs. */
module Policies {
  import opened Protocol
  import opened KeySpec
  import opened KeyProofs
  import opened Runs
  import HoldLaws

  /** Every lock request that a run makes on a key satisfies `p`. */
  ghost predicate AllRequests(es: seq<Event>, k: nat, p: LockCommand -> bool) {
    forall i :: 0 <= i < |es| && es[i].At? && es[i].key == k && es[i].step.LockRequest? ==> p(es[i].step.cmd)
  }

  lemma FindHasId(s: KeyState, id: LockId)
    requires WellFormed(s) && Find(s, id).Some?
    ensures s.holders[Find(s, id).value].lockId == id
  {
    if s.holders[0].lockId != id {
      assert Indexed(s.holders, id, s.index[id]);
      var i :| 1 <= i < |s.holders| && s.holders[i].request == s.index[id] && s.holders[i].lockId == id;
      PositionAt(s, i);
    }
  }

  // ---------- what a step may do to the holds and to the waiters

  datatype Change = Same | Update(at: nat, to: Hold) | Remove(at: nat) | Add(hold: Hold)

  /** What a step may do to the holds: change the terms of one hold, to those of the request that its lock id makes or
      only in depth; end one; or grant one that passes the grant test, to the request or to the oldest waiter. */
  ghost predicate Allowed(s: KeyState, e: KeyEvent, c: Change) {
    match c
    case Same => true
    case Update(i, h) =>
      && i < |s.holders| && h.lockId == s.holders[i].lockId
      && (h.count == s.holders[i].count
          || (e.LockRequest? && h.count == e.cmd.count && Find(s, e.cmd.lockId) == Some(i)))
    case Remove(i) => i < |s.holders|
    case Add(h) =>
      && MayGrant(s, h.count)
      && (|| (e.LockRequest? && h.lockId == e.cmd.lockId && h.count == e.cmd.count)
          || (s.waiters != [] && h.lockId == s.waiters[0].lockId && h.count == s.waiters[0].count))
  }

  function Apply(hs: seq<Hold>, c: Change): seq<Hold> {
    match c
    case Same => hs
    case Update(i, h) => if i < |hs| then hs[i := h] else hs
    case Remove(i) => if i < |hs| then Without(hs, i) else hs
    case Add(h) => hs + [h]
  }

  lemma LockChanges(s: KeyState, cmd: LockCommand, now: int, st: Stats) returns (c: Change)
    ensures Allowed(s, LockRequest(cmd, now), c) && LockStep(s, cmd, now, st).state.holders == Apply(s.holders, c)
  {
    hide ExpireTime, TimeoutTime, ReplyTo, MayGrant, Locked;
    var hs := LockStep(s, cmd, now, st).state.holders;
    var f := Find(s, cmd.lockId);
    c := if hs == s.holders then Same else if f.Some? then Update(f.value, hs[f.value]) else Add(hs[|hs| - 1]);
  }

  lemma ReleaseChanges(s: KeyState, e: KeyEvent, i: nat, cmd: LockCommand, st: Stats) returns (c: Change)
    requires i < |s.holders|
    ensures Allowed(s, e, c) && ReleaseStep(s, i, cmd, st).state.holders == Apply(s.holders, c)
  {
    hide ReplyTo, Locked;
    var hs := ReleaseStep(s, i, cmd, st).state.holders;
    c := if |hs| == |s.holders| then Update(i, hs[i]) else Remove(i);
  }

  lemma UnlockChanges(s: KeyState, cmd: LockCommand, st: Stats) returns (c: Change)
    ensures Allowed(s, UnlockRequest(cmd), c) && UnlockStep(s, cmd, st).state.holders == Apply(s.holders, c)
  {
    hide ReleaseStep, ReplyTo, Locked, Allowed, Apply;
    var f := Find(s, cmd.lockId);
    if s.holders != [] && (f.Some? || cmd.flag == 0x01) {
      var i, terms := if f.Some? then f.value else 0, if f.Some? then cmd else Shown(cmd, s.holders[0]);
      c := ReleaseChanges(s, UnlockRequest(cmd), i, terms, st);
    } else {
      NoChange(s, UnlockRequest(cmd));
      c := Same;
    }
  }

  lemma NoChange(s: KeyState, e: KeyEvent)
    ensures Allowed(s, e, Same) && Apply(s.holders, Same) == s.holders
  {
  }

  lemma StepChanges(s: KeyState, e: KeyEvent, st: Stats) returns (c: Change)
    ensures Allowed(s, e, c) && KeyStep(s, e, st).state.holders == Apply(s.holders, c)
  {
    hide LockStep, UnlockStep, ExpireTime, MayGrant, Locked;
    var hs := KeyStep(s, e, st).state.holders;
    match e {
      case LockRequest(cmd, now) => c := LockChanges(s, cmd, now, st);
      case UnlockRequest(cmd) => c := UnlockChanges(s, cmd, st);
      case TimeOut(request) => c := Same;
      case Expire(request) =>
        var i := Position(s.holders, request);
        c := if i.Some? then Remove(i.value) else Same;
      case Wake(now) => c := if hs == s.holders then Same else Add(hs[|hs| - 1]);
    }
  }

  /** Every waiter after a step was waiting before, or is the request just made. */
  lemma StepWaiters(s: KeyState, e: KeyEvent, st: Stats, i: nat)
    requires i < |KeyStep(s, e, st).state.waiters|
    ensures var w := KeyStep(s, e, st).state.waiters[i];
            w in s.waiters || (e.LockRequest? && w == WaiterFor(e.cmd, e.now))
  {
    match e {
      case LockRequest(cmd, now) =>
      case UnlockRequest(cmd) =>
      case TimeOut(request) =>
      case Expire(request) =>
      case Wake(now) =>
    }
  }

  // ---------- capacity

  function CountIs(n: Uint16): LockCommand -> bool { (cmd: LockCommand) => cmd.count == n }

  ghost predicate WithinCapacity(s: KeyState, n: Uint16) {
    && (forall i :: 0 <= i < |s.holders| ==> s.holders[i].count == n)
    && (forall i :: 0 <= i < |s.waiters| ==> s.waiters[i].count == n)
    && |s.holders| <= n + 1 && |s.holders| <= MAX_LOCKED
  }

  lemma CapacityChange(s: KeyState, e: KeyEvent, c: Change, n: Uint16)
    requires WellFormed(s) && WithinCapacity(s, n) && (e.LockRequest? ==> e.cmd.count == n) && Allowed(s, e, c)
    ensures c.Update? ==> c.at < |s.holders| && c.to.count == n
    ensures c.Add? ==> c.hold.count == n && |s.holders| <= n && |s.holders| < MAX_LOCKED
  {
    hide Owned, Indexed, Find;
    LockedBounds(s.holders);
  }

  lemma CapacityApplied(s: KeyState, c: Change, n: Uint16)
    requires WithinCapacity(s, n)
    requires c.Update? ==> c.at < |s.holders| && c.to.count == n
    requires c.Add? ==> c.hold.count == n && |s.holders| <= n && |s.holders| < MAX_LOCKED
    ensures var hs := Apply(s.holders, c);
            (forall i :: 0 <= i < |hs| ==> hs[i].count == n) && |hs| <= n + 1 && |hs| <= MAX_LOCKED
  {
  }

  lemma CapacityStep(s: KeyState, e: KeyEvent, st: Stats, n: Uint16)
    requires WellFormed(s) && WithinCapacity(s, n)
    requires e.LockRequest? ==> e.cmd.count == n
    ensures WithinCapacity(KeyStep(s, e, st).state, n)
  {
    hide KeyStep, WellFormed, Allowed, Apply;
    var s' := KeyStep(s, e, st).state;
    var c := StepChanges(s, e, st);
    CapacityChange(s, e, c, n);
    CapacityApplied(s, c, n);
    forall i | 0 <= i < |s'.waiters| ensures s'.waiters[i].count == n {
      StepWaiters(s, e, st, i);
    }
  }

  /** If all requests on a key carry Count = n, it never has more than n + 1 holds (nor more than 0xffff),
      whatever re-entries, updates, expiries and wake-ups happen; n = 0 is mutual exclusion. */
  lemma {:induction false} Capacity(keys: nat, es: seq<Event>, k: nat, n: Uint16)
    requires Legal(keys, es) && k < keys && AllRequests(es, k, CountIs(n))
    ensures k < |After(keys, es).keys|
    ensures var s := After(keys, es).keys[k]; |s.holders| <= n + 1 && |s.holders| <= MAX_LOCKED
    ensures WithinCapacity(After(keys, es).keys[k], n)
  {
    Reachable(keys, es);
    if es != [] {
      var front, e := es[..|es| - 1], es[|es| - 1];
      Reachable(keys, front);
      Capacity(keys, front, k, n);
      if e.At? && e.key == k {
        CapacityStep(After(keys, front).keys[k], e.step, After(keys, front).stats, n);
      }
    }
  }

  /** And it never has less than it may: if all requests on a key carry Count = n, nobody waits and the key is open, a
      request of a lock id without a hold is answered SUCCED if and only if the levels held are none, or at most n and
      not 65535; otherwise it waits, or is answered TIMEOUT if it has no time to wait. */
  lemma GrantedIff(keys: nat, es: seq<Event>, k: nat, n: Uint16, cmd: LockCommand, now: int)
    requires Legal(keys, es) && k < keys && AllRequests(es, k, CountIs(n)) && cmd.count == n
    requires |After(keys, es).keys| == keys && var s := After(keys, es).keys[k];
             && s.waiters == [] && !s.waited && (s.holders == [] || cmd.flag != 1)
             && (forall i :: 0 <= i < |s.holders| ==> s.holders[i].lockId != cmd.lockId)
    ensures var s := After(keys, es).keys[k]; var levels := Locked(s.holders);
            var o := KeyStep(s, LockRequest(cmd, now), After(keys, es).stats);
            var room := levels == 0 || (levels <= n && levels != 65535);
            && (o.reply.Some? && o.reply.value.code == Succed <==> room)
            && (room ==> o.reply.value.lcount == levels + (if cmd.expried > 0 then 1 else 0) == Locked(o.state.holders))
            && (!room && cmd.timeout > 0 ==> o.reply.None? && |o.state.waiters| == 1)
            && (!room && cmd.timeout == 0 ==> o.reply.Some? && o.reply.value.code == TimedOut)
  {
    hide LockStep, Locked;
    Reachable(keys, es);
    Capacity(keys, es, k, n);
    var s := After(keys, es).keys[k];
    if Find(s, cmd.lockId).Some? {
      FindHasId(s, cmd.lockId);
    }
    HoldLaws.GrantIff(s, cmd, now, After(keys, es).stats);
    NothingLocked(s);
  }

  lemma NothingLocked(s: KeyState)
    requires WellFormed(s)
    ensures Locked(s.holders) == 0 <==> s.holders == []
  {
    LockedBounds(s.holders);
  }

  // ---------- readers and writers

  const WRITER: Uint16 := 0
  const READER: Uint16 := 0xffff

  /** Each lock id always asks for the same role. */
  function KeepsRole(role: LockId -> Uint16): LockCommand -> bool {
    (cmd: LockCommand) => cmd.count == role(cmd.lockId)
  }

  ghost predicate Roles(role: LockId -> Uint16) {
    forall id :: role(id) == WRITER || role(id) == READER
  }

  ghost predicate Exclusive(s: KeyState, role: LockId -> Uint16) {
    && (forall i :: 0 <= i < |s.holders| ==> s.holders[i].count == role(s.holders[i].lockId))
    && (forall i :: 0 <= i < |s.waiters| ==> s.waiters[i].count == role(s.waiters[i].lockId))
    && (|s.holders| == 1 || forall i :: 0 <= i < |s.holders| ==> s.holders[i].count == READER)
  }

  /** What an update or a grant puts in has the role of its lock id, and a grant obeys the grant test. */
  lemma ChangeKeepsRole(s: KeyState, e: KeyEvent, c: Change, role: LockId -> Uint16)
    requires WellFormed(s) && Exclusive(s, role) && Allowed(s, e, c)
    requires e.LockRequest? ==> e.cmd.count == role(e.cmd.lockId)
    ensures c.Update? ==>
              c.at < |s.holders| && c.to.count == role(c.to.lockId) && c.to.count == s.holders[c.at].count
    ensures c.Add? ==> c.hold.count == role(c.hold.lockId) && MayGrant(s, c.hold.count)
  {
    if e.LockRequest? && Find(s, e.cmd.lockId).Some? {
      FindHasId(s, e.cmd.lockId);
    }
  }

  lemma ExclusiveStep(s: KeyState, e: KeyEvent, st: Stats, role: LockId -> Uint16)
    requires WellFormed(s) && Exclusive(s, role) && Roles(role)
    requires e.LockRequest? ==> e.cmd.count == role(e.cmd.lockId)
    ensures Exclusive(KeyStep(s, e, st).state, role)
  {
    hide KeyStep, WellFormed, Allowed, Apply;
    var s' := KeyStep(s, e, st).state;
    forall i | 0 <= i < |s'.waiters| ensures s'.waiters[i].count == role(s'.waiters[i].lockId) {
      StepWaiters(s, e, st, i);
    }
    var c := StepChanges(s, e, st);
    ChangeKeepsRole(s, e, c, role);
    ExclusiveHolds(s, c, role);
  }

  lemma ExclusiveHolds(s: KeyState, c: Change, role: LockId -> Uint16)
    requires WellFormed(s) && Exclusive(s, role) && Roles(role)
    requires c.Update? ==> c.at < |s.holders| && c.to.count == role(c.to.lockId) && c.to.count == s.holders[c.at].count
    requires c.Add? ==> c.hold.count == role(c.hold.lockId) && MayGrant(s, c.hold.count)
    ensures var hs := Apply(s.holders, c);
            && (forall i :: 0 <= i < |hs| ==> hs[i].count == role(hs[i].lockId))
            && (|hs| == 1 || forall i :: 0 <= i < |hs| ==> hs[i].count == READER)
  {
    LockedBounds(s.holders);
  }

  /** If requests use only Count 0 (writer) and 0xffff (reader) and no lock id changes its role, a writer in any
      reachable state is alone. */
  lemma {:induction false} ReaderWriterExclusion(keys: nat, es: seq<Event>, k: nat, role: LockId -> Uint16)
    requires Legal(keys, es) && k < keys && AllRequests(es, k, KeepsRole(role)) && Roles(role)
    ensures k < |After(keys, es).keys|
    ensures Exclusive(After(keys, es).keys[k], role)
    ensures var hs := After(keys, es).keys[k].holders;
            forall i :: 0 <= i < |hs| && role(hs[i].lockId) == WRITER ==> |hs| == 1
  {
    Reachable(keys, es);
    if es != [] {
      var front, e := es[..|es| - 1], es[|es| - 1];
      Reachable(keys, front);
      ReaderWriterExclusion(keys, front, k, role);
      if e.At? && e.key == k {
        ExclusiveStep(After(keys, front).keys[k], e.step, After(keys, front).stats, role);
      }
    }
  }

  // ---------- arrival order

  ghost predicate Waiting(ws: seq<Waiter>, a: nat) {
    exists i :: 0 <= i < |ws| && ws[i].request == a
  }

  /** Nowhere in the queue is b ahead of a. */
  ghost predicate NotAhead(ws: seq<Waiter>, b: nat, a: nat) {
    forall i, j :: 0 <= i < |ws| && 0 <= j < |ws| && ws[i].request == a && ws[j].request == b ==> i < j
  }

  /** The step lets a request in that did not hold the key: with a hold, or at once when it asks for none. */
  predicate Admits(step: KeyEvent, o: Outcome, c: nat) {
    (step.LockRequest? || step.Wake?) && o.reply.Some? && o.reply.value.commandId == c
    && o.reply.value.code == Succed && o.reply.value.lrcount <= 1
  }

  /** While a request waits, only the oldest waiter is let in, and by a wake-up. */
  lemma AdmitsOldest(s: KeyState, e: KeyEvent, st: Stats, b: nat)
    requires WellFormed(s) && s.waiters != [] && Admits(e, KeyStep(s, e, st), b)
    ensures e.Wake? && s.waiters[0].request == b
  {
  }

  lemma OrderTimeOut(s: KeyState, request: nat, st: Stats, a: nat, b: nat)
    requires NotAhead(s.waiters, b, a)
    ensures NotAhead(TimeOutStep(s, request, st).state.waiters, b, a)
  {
    var ws := TimeOutStep(s, request, st).state.waiters;
    var r := WaitPosition(s.waiters, request);
    if r.Some? {
      forall p, q | 0 <= p < |ws| && 0 <= q < |ws| && ws[p].request == a && ws[q].request == b ensures p < q {
        var p', q' := if p < r.value then p else p + 1, if q < r.value then q else q + 1;
        assert ws[p] == s.waiters[p'] && ws[q] == s.waiters[q'];
      }
    }
  }

  lemma OrderLock(s: KeyState, cmd: LockCommand, now: int, st: Stats, a: nat, b: nat)
    requires Waiting(s.waiters, a) && NotAhead(s.waiters, b, a) && Owned(s, cmd.commandId) == 0
    ensures NotAhead(LockStep(s, cmd, now, st).state.waiters, b, a)
  {
    hide TimeoutTime, ExpireTime, ReplyTo;
    WaitingTally(s.waiters, cmd.commandId);
    var ws := LockStep(s, cmd, now, st).state.waiters;
    assert ws == s.waiters || ws == s.waiters + [WaiterFor(cmd, now)];
  }

  lemma OrderStep(s: KeyState, e: KeyEvent, st: Stats, a: nat, b: nat)
    requires WellFormed(s) && Admissible(s, e) && Waiting(s.waiters, a) && NotAhead(s.waiters, b, a)
    ensures !Admits(e, KeyStep(s, e, st), b)
    ensures NotAhead(KeyStep(s, e, st).state.waiters, b, a)
  {
    hide LockStep, TimeOutStep;
    var i :| 0 <= i < |s.waiters| && s.waiters[i].request == a;
    if Admits(e, KeyStep(s, e, st), b) {
      AdmitsOldest(s, e, st, b);
    }
    var ws := KeyStep(s, e, st).state.waiters;
    match e {
      case LockRequest(cmd, now) => OrderLock(s, cmd, now, st, a, b);
      case UnlockRequest(cmd) =>
      case TimeOut(request) => OrderTimeOut(s, request, st, a, b);
      case Expire(request) =>
      case Wake(now) =>
        if WakeGrants(s) {
          assert forall p :: 0 <= p < |ws| ==> ws[p] == s.waiters[p + 1];
        }
    }
  }

  /** The waiters of a key after the first `i` events of a run. */
  function Queue(keys: nat, es: seq<Event>, k: nat, i: nat): seq<Waiter>
    requires i <= |es|
  {
    var db := After(keys, es[..i]);
    if k < |db.keys| then db.keys[k].waiters else []
  }

  lemma {:induction false} LegalPrefix(keys: nat, es: seq<Event>, i: nat)
    requires Legal(keys, es) && i <= |es|
    ensures Legal(keys, es[..i])
    ensures i < |es| ==> Enabled(After(keys, es[..i]), es[i])
    decreases |es| - i
  {
    if i == |es| {
      assert es[..i] == es;
    } else {
      LegalPrefix(keys, es, i + 1);
      assert es[..i + 1][..i] == es[..i];
    }
  }

  /** One event of a run keeps the order of the queue and lets nobody in past a request that waits. */
  lemma OrderEvent(keys: nat, es: seq<Event>, k: nat, i: nat, a: nat, b: nat)
    requires Legal(keys, es) && k < keys && i < |es|
    requires Waiting(Queue(keys, es, k, i), a) && NotAhead(Queue(keys, es, k, i), b, a)
    ensures NotAhead(Queue(keys, es, k, i + 1), b, a)
    ensures es[i].At? && es[i].key == k ==>
              var db := After(keys, es[..i]); k < |db.keys| && !Admits(es[i].step, OutcomeAt(db, k, es[i].step), b)
  {
    LegalPrefix(keys, es, i);
    Reachable(keys, es[..i]);
    var db := After(keys, es[..i]);
    assert es[..i + 1][..i] == es[..i];
    if es[i].At? && es[i].key == k {
      SubmittedIsUnowned(db, k, es[i].step);
      OrderStep(db.keys[k], es[i].step, db.stats, a, b);
    }
  }

  /** No overtaking: as long as request a waits, no request that was not ahead of it is let in, except that a
      request that already holds the key may re-enter. */
  lemma {:induction false} NoOvertaking(keys: nat, es: seq<Event>, k: nat, i: nat, j: nat, a: nat, b: nat)
    requires Legal(keys, es) && k < keys && i <= j < |es|
    requires forall m :: i <= m <= j ==> Waiting(Queue(keys, es, k, m), a)
    requires NotAhead(Queue(keys, es, k, i), b, a)
    ensures NotAhead(Queue(keys, es, k, j), b, a)
    ensures es[j].At? && es[j].key == k ==>
              var db := After(keys, es[..j]); k < |db.keys| && !Admits(es[j].step, OutcomeAt(db, k, es[j].step), b)
    decreases j
  {
    hide Queue, Waiting, NotAhead, Admits, After, Legal;
    if i < j {
      NoOvertaking(keys, es, k, i, j - 1, a, b);
      OrderEvent(keys, es, k, j - 1, a, b);
    }
    OrderEvent(keys, es, k, j, a, b);
  }

  // ---------- wake-up

  /** The wake-up loop, run without interference, answers the oldest waiters in order, at most one grant each, and
      stops only when nobody waits (and the flag says so) or when there is no room for the oldest waiter: the levels
      held are 65535, or more than the Count of the first hold or than its own. */
  lemma {:induction false} WakeUpComplete(s: KeyState, now: int, st: Stats)
    requires WellFormed(s)
    ensures var (t, replies, freed, st') := WakeAll(s, now, st);
            && WellFormed(t)
            && |replies| <= |s.waiters|
            && t.waiters == s.waiters[|replies|..]
            && (forall i :: 0 <= i < |replies| ==>
                  replies[i].commandId == s.waiters[i].request && replies[i].code == Succed)
            && (t.waiters == [] ==> !t.waited)
            && (t.waiters != [] ==>
                  t.waited && t.holders != [] && var n := Locked(t.holders);
                  n == 65535 || n > t.holders[0].count || n > t.waiters[0].count)
    decreases |s.waiters|
  {
    hide ExpireTime, TimeoutTime, ReplyTo;
    StepKeeps(s, Wake(now), st);
    if WakeGrants(s) {
      var o := WakeStep(s, now, st);
      WakeUpComplete(o.state, now, o.stats);
      var (t, replies, freed, st') := WakeAll(s, now, st);
      assert s.waiters[1..][|replies| - 1..] == s.waiters[|replies|..];
    }
  }
}
