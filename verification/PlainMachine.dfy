/** A key as its clients may think of it: a row of levels, one entry for every time the key is locked, and a row of
    waiters. There are no holds with a depth, no index and no lookups but searches; the depth of a hold is the number of
    its levels, and what a reply counts is what is left in the row. */
module PlainMachine {
  import opened Protocol
  import K = KeySpec

  /** One level of a hold, with the terms of the hold. */
  datatype Level = Level(request: nat, lockId: LockId, count: Uint16, rcount: Uint8, deadline: int)

  datatype Key = Key(levels: seq<Level>, waiters: seq<K.Waiter>, closed: bool)

  datatype Answer = Answer(key: Key, reply: Option<Reply>, freed: seq<nat>, stats: Stats)

  const FREE := Key([], [], false)

  // ---------- rows

  /** How many levels a hold has. */
  function Depth(ls: seq<Level>, c: nat): nat {
    if ls == [] then 0 else (if ls[0].request == c then 1 else 0) + Depth(ls[1..], c)
  }

  /** The first level with a lock id, if there is one. */
  function First(ls: seq<Level>, id: LockId): Option<Level> {
    if ls == [] then None else if ls[0].lockId == id then Some(ls[0]) else First(ls[1..], id)
  }

  function FirstOf(ls: seq<Level>, c: nat): Option<Level> {
    if ls == [] then None else if ls[0].request == c then Some(ls[0]) else FirstOf(ls[1..], c)
  }

  /** The row without a hold. */
  function Ended(ls: seq<Level>, c: nat): seq<Level> {
    if ls == [] then [] else (if ls[0].request == c then [] else [ls[0]]) + Ended(ls[1..], c)
  }

  /** The row with one level of a hold less. */
  function Lowered(ls: seq<Level>, c: nat): seq<Level> {
    if ls == [] then [] else if ls[0].request == c then ls[1..] else [ls[0]] + Lowered(ls[1..], c)
  }

  /** The row with one level of a hold more, behind its first. */
  function Raised(ls: seq<Level>, c: nat): seq<Level> {
    if ls == [] then [] else if ls[0].request == c then [ls[0]] + ls else [ls[0]] + Raised(ls[1..], c)
  }

  /** The row with new terms for a hold. */
  function Renewed(ls: seq<Level>, t: Level): seq<Level> {
    if ls == [] then [] else [if ls[0].request == t.request then t else ls[0]] + Renewed(ls[1..], t)
  }

  /** The waiters without a request. */
  function GivenUp(ws: seq<K.Waiter>, c: nat): seq<K.Waiter> {
    if ws == [] then [] else if ws[0].request == c then ws[1..] else [ws[0]] + GivenUp(ws[1..], c)
  }

  function WaiterOf(ws: seq<K.Waiter>, c: nat): Option<K.Waiter> {
    if ws == [] then None else if ws[0].request == c then Some(ws[0]) else WaiterOf(ws[1..], c)
  }

  // ---------- rules

  /** Is there room for one more? The counts of the first hold and of the request both bound the levels before it. */
  predicate Room(ls: seq<Level>, count: int) {
    ls == [] || (|ls| < 65535 && |ls| <= ls[0].count && |ls| <= count)
  }

  function HoldDeadline(now: int, seconds: int, flag: bv16): int {
    if flag & 0x0400 == 0 then now + seconds + 1 else if flag & 0x4000 == 0 then 0 else 0x7fff_ffff_ffff_ffff
  }

  function WaitDeadline(now: int, seconds: int, flag: bv16): int {
    if flag & 0x0400 == 0 then now + seconds + 1 else 0
  }

  /** A reply counts the levels of the row, and those of one hold. */
  function Tell(c: nat, code: ResultCode, ls: seq<Level>, hold: nat, id: LockId, count: Uint16, rcount: Uint8): Reply {
    Reply(c, code, |ls| % 65536, Depth(ls, hold), id, count, rcount)
  }

  /** A request that is over: its record is given back. */
  function Refuse(k: Key, cmd: LockCommand, code: ResultCode, hold: nat, st: Stats): Answer {
    Answer(k, Some(Tell(cmd.commandId, code, k.levels, hold, cmd.lockId, cmd.count, cmd.rcount)), [cmd.commandId], st)
  }

  /** A request that is over and is shown the terms of a hold. */
  function Show(k: Key, cmd: LockCommand, code: ResultCode, h: Level, st: Stats): Answer {
    Answer(k, Some(Tell(cmd.commandId, code, k.levels, h.request, h.lockId, h.count, h.rcount)), [cmd.commandId], st)
  }

  /** A request of a lock id that holds the key: new terms, one level more, or no. */
  function Again(k: Key, h: Level, cmd: LockCommand, now: int, st: Stats): Answer {
    var renewed := k.(levels := Renewed(k.levels, Level(h.request, h.lockId, cmd.count, cmd.rcount,
                                                        HoldDeadline(now, cmd.expried, cmd.expriedFlag))));
    var raised := renewed.(levels := Raised(renewed.levels, h.request));
    if cmd.flag == 2 then Refuse(renewed, cmd, LockedError, h.request, st)
    else if Depth(k.levels, h.request) >= 255 || Depth(k.levels, h.request) > cmd.rcount then
      Refuse(k, cmd, LockedError, h.request, st)
    else if cmd.expried == 0 then Show(k, cmd, Expried, h, st)
    else Refuse(raised, cmd, Succed, h.request,
                st.(lockCount := st.lockCount + 1, lockedCount := st.lockedCount + 1))
  }

  /** A request of a lock id that does not hold the key. */
  function Enter(k: Key, cmd: LockCommand, now: int, st: Stats): Answer {
    var c := cmd.commandId;
    if k.closed || !Room(k.levels, cmd.count) then
      if cmd.timeout == 0 then Refuse(k, cmd, TimedOut, c, st)
      else
        var w := K.Waiter(c, cmd.lockId, cmd.expried, cmd.expriedFlag, cmd.count, cmd.rcount,
                          WaitDeadline(now, cmd.timeout, cmd.timeoutFlag));
        Answer(k.(waiters := k.waiters + [w], closed := true), None, [], st.(waitCount := st.waitCount + 1))
    else if cmd.expried == 0 then Refuse(k, cmd, Succed, c, st.(lockCount := st.lockCount + 1))
    else
      var l := Level(c, cmd.lockId, cmd.count, cmd.rcount, HoldDeadline(now, cmd.expried, cmd.expriedFlag));
      Answer(k.(levels := k.levels + [l]),
             Some(Tell(c, Succed, k.levels + [l], c, cmd.lockId, cmd.count, cmd.rcount)), [],
             st.(lockCount := st.lockCount + 1, lockedCount := st.lockedCount + 1))
  }

  function Lock(k: Key, cmd: LockCommand, now: int, st: Stats): Answer {
    var mine := First(k.levels, cmd.lockId);
    if cmd.flag == 1 && k.levels != [] then Show(k, cmd, UnownError, k.levels[0], st)
    else if mine.Some? then Again(k, mine.value, cmd, now, st)
    else Enter(k, cmd, now, st)
  }

  /** Levels of a hold leave the row: one if the request has a re-entry count and another is left, otherwise all. */
  function Leave(k: Key, h: Level, c: nat, id: LockId, count: Uint16, rcount: Uint8, st: Stats): Answer {
    var one := rcount != 0 && Depth(k.levels, h.request) > 1;
    var rest := if one then Lowered(k.levels, h.request) else Ended(k.levels, h.request);
    var gone := |k.levels| - |rest|;
    Answer(k.(levels := rest), Some(Tell(c, Succed, rest, h.request, id, count, rcount)),
           if one then [c] else [c, h.request],
           st.(unLockCount := st.unLockCount + gone, lockedCount := st.lockedCount - gone))
  }

  function Unlock(k: Key, cmd: LockCommand, st: Stats): Answer {
    var mine := First(k.levels, cmd.lockId);
    var failed := st.(unlockErrorCount := st.unlockErrorCount + 1);
    if k.levels == [] then Refuse(k, cmd, UnlockError, 0, failed)
    else if mine.Some? then Leave(k, mine.value, cmd.commandId, cmd.lockId, cmd.count, cmd.rcount, st)
    else if cmd.flag == 1 then
      var h := k.levels[0];
      Leave(k, h, cmd.commandId, h.lockId, h.count, h.rcount, st)
    else Answer(k, Some(Reply(cmd.commandId, UnownError, |k.levels| % 65536, 0, cmd.lockId, cmd.count, cmd.rcount)),
                [cmd.commandId], failed)
  }

  function GiveUp(k: Key, c: nat, st: Stats): Answer {
    var w := WaiterOf(k.waiters, c);
    if w.None? then Answer(k, None, [], st)
    else
      var rest := GivenUp(k.waiters, c);
      Answer(k.(waiters := rest, closed := k.closed && rest != []),
             Some(Reply(c, TimedOut, |k.levels| % 65536, 0, w.value.lockId, w.value.count, w.value.rcount)), [c],
             st.(waitCount := st.waitCount - 1, timeoutedCount := st.timeoutedCount + 1))
  }

  function TakeAway(k: Key, c: nat, st: Stats): Answer {
    var h := FirstOf(k.levels, c);
    if h.None? then Answer(k, None, [], st)
    else
      var rest := Ended(k.levels, c);
      var gone := |k.levels| - |rest|;
      Answer(k.(levels := rest), Some(Tell(c, Expried, rest, c, h.value.lockId, h.value.count, h.value.rcount)), [c],
             st.(lockedCount := st.lockedCount - gone, expriedCount := st.expriedCount + gone))
  }

  /** The oldest waiter comes in if there is room for it; with nobody waiting the key is open again. */
  function LetIn(k: Key, now: int, st: Stats): Answer {
    if k.waiters == [] then Answer(k.(closed := false), None, [], st)
    else
      var w := k.waiters[0];
      var l := Level(w.request, w.lockId, w.count, w.rcount, HoldDeadline(now, w.expried, w.expriedFlag));
      var levels := if w.expried == 0 then k.levels else k.levels + [l];
      if !Room(k.levels, w.count) then Answer(k, None, [], st)
      else
        Answer(k.(levels := levels, waiters := k.waiters[1..]),
               Some(Tell(w.request, Succed, levels, w.request, w.lockId, w.count, w.rcount)),
               if w.expried == 0 then [w.request] else [],
               st.(lockCount := st.lockCount + 1, waitCount := st.waitCount - 1,
                   lockedCount := st.lockedCount + |levels| - |k.levels|))
  }

  function Step(k: Key, e: K.KeyEvent, st: Stats): Answer {
    match e
    case LockRequest(cmd, now) => Lock(k, cmd, now, st)
    case UnlockRequest(cmd) => Unlock(k, cmd, st)
    case TimeOut(c) => GiveUp(k, c, st)
    case Expire(c) => TakeAway(k, c, st)
    case Wake(now) => LetIn(k, now, st)
  }
}
