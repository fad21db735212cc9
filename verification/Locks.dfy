/** Lock objects: one for every lock request, shared by the queues, the index and the timer structures. */
module Locks {
  import opened Protocol

  datatype Record = Record(
    command: LockCommand,
    startTime: int,
    expireTime: int,
    timeoutTime: int,
    longWaitIndex: nat,
    timeoutCheckedCount: nat,
    expireCheckedCount: nat,
    refCount: int,
    locked: nat,
    timeouted: bool,
    expired: bool)

  const NO_COMMAND := LockCommand(0, 0, 0, 0, 0, 0, 0, 0, 0)
  const BLANK := Record(NO_COMMAND, 0, 0, 0, 0, 0, 0, 0, 0, false, false)

  class Lock {
    var command: LockCommand
    var startTime: int
    var expireTime: int
    var timeoutTime: int
    var longWaitIndex: nat
    var timeoutCheckedCount: nat
    var expireCheckedCount: nat
    var refCount: int
    var locked: nat
    var timeouted: bool
    var expired: bool

    constructor ()
      ensures Fields() == BLANK
    {
      command := NO_COMMAND;
      startTime, expireTime, timeoutTime, longWaitIndex := 0, 0, 0, 0;
      timeoutCheckedCount, expireCheckedCount, refCount, locked := 0, 0, 0, 0;
      timeouted, expired := false, false;
    }

    function Fields(): Record
      reads this
    {
      Record(command, startTime, expireTime, timeoutTime, longWaitIndex, timeoutCheckedCount, expireCheckedCount,
             refCount, locked, timeouted, expired)
    }
  }
}
