/** The reference machine of one lock key: an ordered list of holds, the index of the holds that are not first,
    and an ordered list of waiters. Each critical section of the engine is one function on this state. */
module KeySpec {
  import opened Protocol

  datatype Hold = Hold(
    request: nat,
    lockId: LockId,
    depth: nat,
    count: Uint16,
    rcount: Uint8,
    expireTime: int)

  datatype Waiter = Waiter(
    request: nat,
    lockId: LockId,
    expried: Uint16,
    expriedFlag: bv16,
    count: Uint16,
    rcount: Uint8,
    timeoutTime: int)

  datatype KeyState = KeyState(
    holders: seq<Hold>,
    index: map<LockId, nat>,
    waiters: seq<Waiter>,
    waited: bool)

  const EMPTY := KeyState([], map[], [], false)

  /** One critical section: the new state, the reply it sends, the command records it returns to a pool,
      and the new statistics. */
  datatype Outcome = Outcome(state: KeyState, reply: Option<Reply>, freed: seq<nat>, stats: Stats)

  /** The number of times the key is locked: the sum of the depths of its holds. */
  function Locked(hs: seq<Hold>): nat {
    if hs == [] then 0 else hs[0].depth + Locked(hs[1..])
  }

  /** The position of the hold of a request. */
  function Position(hs: seq<Hold>, request: nat): (r: Option<nat>)
    ensures r.Some? ==> r.value < |hs| && hs[r.value].request == request
    ensures r.None? ==> forall i :: 0 <= i < |hs| ==> hs[i].request != request
  {
    if hs == [] then None
    else if hs[0].request == request then Some(0)
    else
      var r := Position(hs[1..], request);
      if r.None? then None else Some(r.value + 1)
  }

  /** The position of a queued request. */
  function WaitPosition(ws: seq<Waiter>, request: nat): (r: Option<nat>)
    ensures r.Some? ==> r.value < |ws| && ws[r.value].request == request
    ensures r.None? ==> forall i :: 0 <= i < |ws| ==> ws[i].request != request
  {
    if ws == [] then None
    else if ws[0].request == request then Some(0)
    else
      var r := WaitPosition(ws[1..], request);
      if r.None? then None else Some(r.value + 1)
  }

  function Without<T>(s: seq<T>, i: nat): seq<T>
    requires i < |s|
  {
    s[..i] + s[i + 1..]
  }

  /** The hold found for a lock id: the first hold if it has that id, otherwise the indexed one. */
  function Find(s: KeyState, id: LockId): (r: Option<nat>)
    ensures r.Some? ==> r.value < |s.holders|
  {
    if s.holders == [] then None
    else if s.holders[0].lockId == id then Some(0)
    else if id in s.index then Position(s.holders, s.index[id])
    else None
  }

  /** May a request with this count be granted now? */
  predicate MayGrant(s: KeyState, count: Uint16) {
    var n := Locked(s.holders);
    n == 0 || (n != MAX_LOCKED && s.holders != [] && n <= s.holders[0].count && n <= count)
  }

  function AddHold(s: KeyState, h: Hold): KeyState {
    s.(holders := s.holders + [h],
       index := if s.holders == [] then s.index else s.index[h.lockId := h.request])
  }

  function RemoveHold(s: KeyState, i: nat): KeyState
    requires i < |s.holders|
  {
    var rest := Without(s.holders, i);
    s.(holders := rest,
       index := if i != 0 then s.index - {s.holders[i].lockId}
                else if rest == [] then s.index
                else s.index - {rest[0].lockId})
  }

  function Updated(h: Hold, cmd: LockCommand, now: int): Hold {
    h.(count := cmd.count, rcount := cmd.rcount, expireTime := ExpireTime(now, cmd.expried, cmd.expriedFlag))
  }

  /** The command record as the engine rewrites it from a hold before replying. */
  function Shown(cmd: LockCommand, h: Hold): LockCommand {
    cmd.(lockId := h.lockId, count := h.count, rcount := h.rcount)
  }

  function LockStep(s: KeyState, cmd: LockCommand, now: int, st: Stats): Outcome {
    LockStepAt(s, Find(s, cmd.lockId), cmd, now, st)
  }

  /** A lock request, given the position of the hold that its lock id already has. */
  function LockStepAt(s: KeyState, found: Option<nat>, cmd: LockCommand, now: int, st: Stats): Outcome
    requires found.Some? ==> found.value < |s.holders|
  {
    if s.holders != [] && cmd.flag == 0x01 then
      Outcome(s, Some(ReplyTo(Shown(cmd, s.holders[0]), UnownError, Locked(s.holders), s.holders[0].depth)),
              [cmd.commandId], st)
    else if found.Some? then HeldStep(s, found.value, cmd, now, st)
    else FreshStep(s, cmd, now, st)
  }

  /** A lock request whose lock id already holds the key: update, re-entry or refusal. */
  function HeldStep(s: KeyState, i: nat, cmd: LockCommand, now: int, st: Stats): Outcome
    requires i < |s.holders|
  {
    var h := s.holders[i];
    var n := Locked(s.holders);
    if cmd.flag == 0x02 then
      Outcome(s.(holders := s.holders[i := Updated(h, cmd, now)]),
              Some(ReplyTo(cmd, LockedError, n, h.depth)), [cmd.commandId], st)
    else if h.depth < MAX_DEPTH && h.depth <= cmd.rcount then
      if cmd.expried == 0 then
        Outcome(s, Some(ReplyTo(Shown(cmd, h), Expried, n, h.depth)), [cmd.commandId], st)
      else
        Outcome(s.(holders := s.holders[i := Updated(h, cmd, now).(depth := h.depth + 1)]),
                Some(ReplyTo(cmd, Succed, n + 1, h.depth + 1)), [cmd.commandId],
                st.(lockCount := st.lockCount + 1, lockedCount := st.lockedCount + 1))
    else
      Outcome(s, Some(ReplyTo(cmd, LockedError, n, h.depth)), [cmd.commandId], st)
  }

  function HoldFor(cmd: LockCommand, now: int): Hold {
    Hold(cmd.commandId, cmd.lockId, 1, cmd.count, cmd.rcount, ExpireTime(now, cmd.expried, cmd.expriedFlag))
  }

  function WaiterFor(cmd: LockCommand, now: int): Waiter {
    Waiter(cmd.commandId, cmd.lockId, cmd.expried, cmd.expriedFlag, cmd.count, cmd.rcount,
           TimeoutTime(now, cmd.timeout, cmd.timeoutFlag))
  }

  /** A lock request by a lock id that does not hold the key: grant, queue or refusal. */
  function FreshStep(s: KeyState, cmd: LockCommand, now: int, st: Stats): Outcome {
    var n := Locked(s.holders);
    if !s.waited && MayGrant(s, cmd.count) then
      if cmd.expried > 0 then
        Outcome(AddHold(s, HoldFor(cmd, now)), Some(ReplyTo(cmd, Succed, n + 1, 1)), [],
                st.(lockCount := st.lockCount + 1, lockedCount := st.lockedCount + 1))
      else
        Outcome(s, Some(ReplyTo(cmd, Succed, n, 0)), [cmd.commandId], st.(lockCount := st.lockCount + 1))
    else if cmd.timeout > 0 then
      Outcome(s.(waiters := s.waiters + [WaiterFor(cmd, now)], waited := true), None, [],
              st.(waitCount := st.waitCount + 1))
    else
      Outcome(s, Some(ReplyTo(cmd, TimedOut, n, 0)), [cmd.commandId], st)
  }

  function UnlockStep(s: KeyState, cmd: LockCommand, st: Stats): Outcome {
    UnlockStepAt(s, Find(s, cmd.lockId), cmd, st)
  }

  /** An unlock request, given the position of the hold that its lock id has. */
  function UnlockStepAt(s: KeyState, found: Option<nat>, cmd: LockCommand, st: Stats): Outcome
    requires found.Some? ==> found.value < |s.holders|
  {
    var failed := st.(unlockErrorCount := st.unlockErrorCount + 1);
    if s.holders == [] then
      Outcome(s, Some(ReplyTo(cmd, UnlockError, 0, 0)), [cmd.commandId], failed)
    else if found.Some? then ReleaseStep(s, found.value, cmd, st)
    else if cmd.flag == 0x01 then ReleaseStep(s, 0, Shown(cmd, s.holders[0]), st)
    else Outcome(s, Some(ReplyTo(cmd, UnownError, Locked(s.holders), 0)), [cmd.commandId], failed)
  }

  /** Releases one level of a hold, or all of it. */
  function ReleaseStep(s: KeyState, i: nat, cmd: LockCommand, st: Stats): Outcome
    requires i < |s.holders|
  {
    var h := s.holders[i];
    var n := Locked(s.holders);
    if h.depth > 1 && cmd.rcount != 0 then
      var rest := s.holders[i := h.(depth := h.depth - 1)];
      Outcome(s.(holders := rest), Some(ReplyTo(cmd, Succed, Locked(rest), h.depth - 1)), [cmd.commandId],
              st.(unLockCount := st.unLockCount + 1, lockedCount := st.lockedCount - 1))
    else
      var s' := RemoveHold(s, i);
      Outcome(s', Some(ReplyTo(cmd, Succed, Locked(s'.holders), 0)), [cmd.commandId, h.request],
              st.(unLockCount := st.unLockCount + h.depth, lockedCount := st.lockedCount - h.depth))
  }

  /** The timer of a waiting request fires. A request that no longer waits is left alone. */
  function TimeOutStep(s: KeyState, request: nat, st: Stats): Outcome {
    var i := WaitPosition(s.waiters, request);
    if i.None? then Outcome(s, None, [], st)
    else
      var w := s.waiters[i.value];
      var rest := Without(s.waiters, i.value);
      Outcome(s.(waiters := rest, waited := s.waited && rest != []),
              Some(Reply(w.request, TimedOut, Locked(s.holders) % 0x10000, 0, w.lockId, w.count, w.rcount)),
              [request], st.(waitCount := st.waitCount - 1, timeoutedCount := st.timeoutedCount + 1))
  }

  /** The timer of a hold fires. A request that no longer holds is left alone. */
  function ExpireStep(s: KeyState, request: nat, st: Stats): Outcome {
    var i := Position(s.holders, request);
    if i.None? then Outcome(s, None, [], st)
    else
      var h := s.holders[i.value];
      var s' := RemoveHold(s, i.value);
      Outcome(s', Some(Reply(h.request, Expried, Locked(s'.holders) % 0x10000, 0, h.lockId, h.count, h.rcount)),
              [request], st.(lockedCount := st.lockedCount - h.depth, expriedCount := st.expriedCount + h.depth))
  }

  function HoldOfWaiter(w: Waiter, now: int): Hold {
    Hold(w.request, w.lockId, 1, w.count, w.rcount, ExpireTime(now, w.expried, w.expriedFlag))
  }

  /** One turn of the wake-up loop: the oldest waiter is granted if it may be. */
  function WakeStep(s: KeyState, now: int, st: Stats): Outcome {
    if s.waiters == [] then Outcome(s.(waited := false), None, [], st)
    else
      var w := s.waiters[0];
      var n := Locked(s.holders);
      if !MayGrant(s, w.count) then Outcome(s, None, [], st)
      else
        var popped := s.(waiters := s.waiters[1..]);
        var granted := st.(lockCount := st.lockCount + 1, waitCount := st.waitCount - 1);
        if w.expried > 0 then
          Outcome(AddHold(popped, HoldOfWaiter(w, now)),
                  Some(Reply(w.request, Succed, (n + 1) % 0x10000, 1, w.lockId, w.count, w.rcount)), [],
                  granted.(lockedCount := granted.lockedCount + 1))
        else
          Outcome(popped, Some(Reply(w.request, Succed, n % 0x10000, 0, w.lockId, w.count, w.rcount)),
                  [w.request], granted)
  }

  /** The critical sections of one key. A timer event names the command record of the request it was set for. */
  datatype KeyEvent =
    | LockRequest(cmd: LockCommand, now: int)
    | UnlockRequest(cmd: LockCommand)
    | TimeOut(request: nat)
    | Expire(request: nat)
    | Wake(now: int)

  function KeyStep(s: KeyState, e: KeyEvent, st: Stats): Outcome {
    match e
    case LockRequest(cmd, now) => LockStep(s, cmd, now, st)
    case UnlockRequest(cmd) => UnlockStep(s, cmd, st)
    case TimeOut(request) => TimeOutStep(s, request, st)
    case Expire(request) => ExpireStep(s, request, st)
    case Wake(now) => WakeStep(s, now, st)
  }

  /** The command record that comes in with an event. */
  function Taken(e: KeyEvent): seq<nat> {
    if e.LockRequest? || e.UnlockRequest? then [e.cmd.commandId] else []
  }

  /** Does a turn of the wake-up loop grant a waiter (so that the loop goes round again)? */
  predicate WakeGrants(s: KeyState) {
    s.waiters != [] && MayGrant(s, s.waiters[0].count)
  }

  /** The wake-up loop run without interference. */
  function WakeAll(s: KeyState, now: int, st: Stats): (r: (KeyState, seq<Reply>, seq<nat>, Stats))
    decreases |s.waiters|
  {
    var o := WakeStep(s, now, st);
    if WakeGrants(s) then
      var r := WakeAll(o.state, now, o.stats);
      (r.0, [o.reply.value] + r.1, o.freed + r.2, r.3)
    else (o.state, [], [], o.stats)
  }
}
