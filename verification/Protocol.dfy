/** The values that cross the boundary of the lock engine: commands, result codes, replies and statistics. */
module Protocol {

  datatype Option<+T> = None | Some(value: T)

  type Uint8 = x: int | 0 <= x < 0x100
  type Uint16 = x: int | 0 <= x < 0x10000

  /** A 16-byte lock id, read as a 128-bit number. */
  type LockId = nat

  /** A lock or unlock request. `commandId` is the identity of the pooled record that carries it. */
  datatype LockCommand = LockCommand(
    commandId: nat,
    flag: Uint8,
    lockId: LockId,
    timeout: Uint16,
    timeoutFlag: bv16,
    expried: Uint16,
    expriedFlag: bv16,
    count: Uint16,
    rcount: Uint8)

  datatype ResultCode = Succed | LockedError | UnlockError | UnownError | TimedOut | Expried

  /** What a client is told: `lcount` is the depth sum of the key, `lrcount` the depth of one hold. */
  datatype Reply = Reply(
    commandId: nat,
    code: ResultCode,
    lcount: Uint16,
    lrcount: nat,
    lockId: LockId,
    count: Uint16,
    rcount: Uint8)

  /** The counters of a database, read as unbounded integers. */
  datatype Stats = Stats(
    lockCount: int,
    unLockCount: int,
    lockedCount: int,
    waitCount: int,
    timeoutedCount: int,
    expriedCount: int,
    unlockErrorCount: int)

  const MAX_LOCKED: nat := 0xffff
  const MAX_DEPTH: nat := 0xff
  const FOREVER: int := 0x7fff_ffff_ffff_ffff

  /** One if it is so, for counting. */
  function Bit(b: bool): nat { if b then 1 else 0 }

  /** The later of two times: what is overdue is seen to at the next second that is checked. */
  function Later(a: int, b: int): int { if a < b then b else a }

  /** The answer to a command; the program cuts the depth sum to 16 bits. */
  function ReplyTo(cmd: LockCommand, code: ResultCode, locked: nat, depth: nat): Reply {
    Reply(cmd.commandId, code, locked % 0x10000, depth, cmd.lockId, cmd.count, cmd.rcount)
  }

  /** The deadline of a hold taken, or updated, at time `now`. */
  function ExpireTime(now: int, expried: Uint16, flag: bv16): int {
    if flag & 0x0400 == 0 then now + expried + 1
    else if flag & 0x4000 != 0 then FOREVER
    else 0
  }

  /** The deadline of a waiter queued at time `now`. */
  function TimeoutTime(now: int, timeout: Uint16, flag: bv16): int {
    if flag & 0x0400 == 0 then now + timeout + 1 else 0
  }
}
