/** What requests and timers do, in numbers: how many levels an unlock takes, when there is room for one more, until
    when a hold or a waiter may stay, and what its owner is told when that is over. */
module HoldLaws {
  import opened Protocol
  import opened KeySpec
  import opened KeyProofs

  // ---------- unlock

  /** The hold that an unlock request is about: that of its lock id, or the first one if it asks for that. */
  function Addressed(s: KeyState, cmd: LockCommand): (r: Option<nat>)
    ensures r.Some? ==> r.value < |s.holders|
  {
    if s.holders == [] then None
    else if Find(s, cmd.lockId).Some? then Find(s, cmd.lockId)
    else if cmd.flag == 1 then Some(0)
    else None
  }

  /** What an unlock takes off a hold of some depth: one level if the request has a re-entry count and another level is
      left, otherwise all of them. */
  lemma ReleaseTakes(s: KeyState, i: nat, cmd: LockCommand, st: Stats)
    requires WellFormed(s) && i < |s.holders|
    ensures var o := ReleaseStep(s, i, cmd, st); var h := s.holders[i];
            var taken := if cmd.rcount != 0 && h.depth > 1 then 1 else h.depth;
            && taken >= 1 && Locked(o.state.holders) == Locked(s.holders) - taken
            && o.reply == Some(Reply(cmd.commandId, Succed, Locked(o.state.holders) % 65536, h.depth - taken,
                                     cmd.lockId, cmd.count, cmd.rcount))
            && o.stats == st.(unLockCount := st.unLockCount + taken, lockedCount := st.lockedCount - taken)
            && o.state.holders == (if taken < h.depth then s.holders[i := h.(depth := h.depth - taken)]
                                   else s.holders[..i] + s.holders[i + 1..])
            && o.state.waiters == s.waiters && o.state.waited == s.waited
            && o.freed == (if taken < h.depth then [cmd.commandId] else [cmd.commandId, h.request])
  {
    HoldsWithout(s.holders, i, 0);
    var h := s.holders[i];
    if h.depth > 1 {
      HoldsUpdate(s.holders, i, h.(depth := h.depth - 1), 0);
    }
  }

  /** An unlock is answered SUCCED if and only if it is about a hold. The reply counts the levels of the key and of the
      hold that are left, the counters move by the levels taken, and no other hold is touched. Otherwise nothing changes
      but the count of errors. */
  lemma UnlockTakes(s: KeyState, cmd: LockCommand, st: Stats)
    requires WellFormed(s)
    ensures var o := UnlockStep(s, cmd, st); var n, n' := Locked(s.holders), Locked(o.state.holders);
            o.reply.Some? && o.reply.value.commandId == cmd.commandId && o.reply.value.lcount == n' % 65536
            && (o.reply.value.code == Succed <==> Addressed(s, cmd).Some?)
            && match Addressed(s, cmd)
               case Some(i) =>
                 var h := s.holders[i];
                 var rcount := if Find(s, cmd.lockId).Some? then cmd.rcount else h.rcount;
                 var taken := if rcount != 0 && h.depth > 1 then 1 else h.depth;
                 && taken >= 1 && n' == n - taken && o.reply.value.lrcount == h.depth - taken
                 && o.stats == st.(unLockCount := st.unLockCount + taken, lockedCount := st.lockedCount - taken)
                 && o.state.holders == (if taken < h.depth then s.holders[i := h.(depth := h.depth - taken)]
                                        else s.holders[..i] + s.holders[i + 1..])
                 && o.state.waiters == s.waiters && o.state.waited == s.waited
                 && o.freed == (if taken < h.depth then [cmd.commandId] else [cmd.commandId, h.request])
               case None =>
                 && o.state == s && o.reply.value.lrcount == 0 && o.freed == [cmd.commandId]
                 && o.reply.value.code == (if s.holders == [] then UnlockError else UnownError)
                 && o.stats == st.(unlockErrorCount := st.unlockErrorCount + 1)
  {
    hide ReleaseStep, Find, WellFormed;
    var a := Addressed(s, cmd);
    if a.Some? {
      ReleaseTakes(s, a.value, if Find(s, cmd.lockId).Some? then cmd else Shown(cmd, s.holders[0]), st);
    }
  }

  // ---------- room for one more

  /** A request of a lock id that holds nothing is let in at once if and only if nobody waits and either nothing is
      held or the levels held are at most the Count of the first hold and that of the request, and not 65535. With an
      expiry time it then holds one level, without one it is only answered. If it is not let in it waits if it has a
      timeout, and is answered TIMEOUT otherwise. */
  lemma GrantIff(s: KeyState, cmd: LockCommand, now: int, st: Stats)
    requires WellFormed(s) && Find(s, cmd.lockId).None? && (s.holders == [] || cmd.flag != 1)
    ensures var o := LockStep(s, cmd, now, st); var n := Locked(s.holders);
            var room := n == 0 || (n != 65535 && n <= s.holders[0].count && n <= cmd.count);
            && (o.reply.Some? && o.reply.value.code == Succed <==> !s.waited && room)
            && (!s.waited && room ==>
                  Locked(o.state.holders) == o.reply.value.lcount == n + (if cmd.expried == 0 then 0 else 1)
                  && o.reply.value.lrcount == (if cmd.expried == 0 then 0 else 1) && o.state.waiters == s.waiters)
            && (s.waited || !room ==>
                  o.state.holders == s.holders
                  && (o.reply.None? <==> cmd.timeout > 0) && (o.reply.Some? ==> o.reply.value.code == TimedOut)
                  && |o.state.waiters| == |s.waiters| + (if cmd.timeout > 0 then 1 else 0))
  {
    LockedBounds(s.holders);
    HoldsSplit(s.holders, [HoldFor(cmd, now)], 0);
  }

  /** A turn of the wake-up loop lets the oldest waiter in if and only if there is room for it. */
  lemma WakeIff(s: KeyState, now: int, st: Stats)
    requires WellFormed(s) && s.waiters != []
    ensures var o := WakeStep(s, now, st); var n := Locked(s.holders); var w := s.waiters[0];
            var room := n == 0 || (n != 65535 && n <= s.holders[0].count && n <= w.count);
            && (o.reply.Some? <==> room)
            && (room ==> o.reply.value.code == Succed && o.reply.value.commandId == w.request
                         && o.state.waiters == s.waiters[1..]
                         && Locked(o.state.holders) == o.reply.value.lcount == n + (if w.expried == 0 then 0 else 1)
                         && o.reply.value.lrcount == (if w.expried == 0 then 0 else 1))
            && (!room ==> o.state == s)
  {
    LockedBounds(s.holders);
    HoldsSplit(s.holders, [HoldOfWaiter(s.waiters[0], now)], 0);
  }

  /** A lock id that holds the key re-enters if and only if its depth is at most the re-entry count of the request, and
      below 255, and the request has an expiry time. */
  lemma ReentryIff(s: KeyState, i: nat, cmd: LockCommand, now: int, st: Stats)
    requires WellFormed(s) && Find(s, cmd.lockId) == Some(i) && cmd.flag != 1 && cmd.flag != 2
    ensures var o := LockStep(s, cmd, now, st); var h := s.holders[i]; var n := Locked(s.holders);
            o.reply.Some? && var r := o.reply.value;
            && (r.code == Succed <==> h.depth < 255 && h.depth <= cmd.rcount && cmd.expried != 0)
            && (r.code == Expried <==> h.depth < 255 && h.depth <= cmd.rcount && cmd.expried == 0)
            && (r.code == LockedError <==> h.depth == 255 || h.depth > cmd.rcount)
            && r.lrcount == h.depth + (if r.code == Succed then 1 else 0)
            && Locked(o.state.holders) == n + (if r.code == Succed then 1 else 0)
            && r.lcount == Locked(o.state.holders) % 65536
            && (r.code != Succed ==> o.state == s)
  {
    HoldsUpdate(s.holders, i, Updated(s.holders[i], cmd, now).(depth := s.holders[i].depth + 1), 0);
  }

  // ---------- how long a hold or a waiter may stay

  /** The deadline is in seconds, one more than asked for, counted from `now`. */
  predicate InSeconds(flag: bv16) { flag & 0x0400 == 0 }

  /** Renewal: a hold gets new terms at `now`. */
  lemma HeldDeadline(s: KeyState, i: nat, cmd: LockCommand, now: int, st: Stats)
    requires i < |s.holders| && InSeconds(cmd.expriedFlag)
    ensures var o := HeldStep(s, i, cmd, now, st); var h := s.holders[i];
            && o.state.holders == s.holders[i := o.state.holders[i]] && o.state.waiters == s.waiters
            && o.state.holders[i].request == h.request
            && (if o.reply.value.code == Succed || cmd.flag == 2
                then o.state.holders[i].expireTime == now + cmd.expried + 1 && o.state.holders[i].count == cmd.count
                     && o.state.holders[i].rcount == cmd.rcount
                else o.state.holders[i] == h)
  {
  }

  /** Arrival: a new hold or a new waiter at `now`. */
  lemma FreshDeadline(s: KeyState, cmd: LockCommand, now: int, st: Stats)
    requires InSeconds(cmd.expriedFlag) && InSeconds(cmd.timeoutFlag)
    ensures var o := FreshStep(s, cmd, now, st);
            && o.state.holders == s.holders
                 + (if o.reply.Some? && o.reply.value.code == Succed && cmd.expried > 0
                    then [Hold(cmd.commandId, cmd.lockId, 1, cmd.count, cmd.rcount, now + cmd.expried + 1)] else [])
            && o.state.waiters == s.waiters
                 + (if o.reply.None?
                    then [Waiter(cmd.commandId, cmd.lockId, cmd.expried, cmd.expriedFlag, cmd.count, cmd.rcount,
                                 now + cmd.timeout + 1)] else [])
  {
    hide MayGrant;
  }

  /** With times in seconds, a lock request at `now` leaves every hold as it was, except one that it renews or re-enters
      or gets, which it may keep until `now` plus the seconds asked for plus one; if it waits, it waits until `now` plus
      its timeout plus one. */
  lemma LockDeadline(s: KeyState, cmd: LockCommand, now: int, st: Stats)
    requires InSeconds(cmd.expriedFlag) && InSeconds(cmd.timeoutFlag)
    ensures var o := LockStep(s, cmd, now, st); var f := Find(s, cmd.lockId);
            var shown := s.holders != [] && cmd.flag == 1;
            var renewed := f.Some? && !shown && (cmd.flag == 2 || (o.reply.Some? && o.reply.value.code == Succed));
            var granted := f.None? && !shown && o.reply.Some? && o.reply.value.code == Succed && cmd.expried > 0;
            var hold := Hold(cmd.commandId, cmd.lockId, 1, cmd.count, cmd.rcount, now + cmd.expried + 1);
            var waiter := Waiter(cmd.commandId, cmd.lockId, cmd.expried, cmd.expriedFlag, cmd.count, cmd.rcount,
                                 now + cmd.timeout + 1);
            && (renewed ==>
                  && |o.state.holders| == |s.holders| && o.state.holders[f.value].expireTime == now + cmd.expried + 1
                  && o.state.holders == s.holders[f.value := o.state.holders[f.value]])
            && (granted ==> o.state.holders == s.holders + [hold])
            && (!renewed && !granted ==> o.state.holders == s.holders)
            && o.state.waiters == (if o.reply.None? then s.waiters + [waiter] else s.waiters)
  {
    hide HeldStep, FreshStep, Find;
    var f := Find(s, cmd.lockId);
    if f.Some? {
      HeldDeadline(s, f.value, cmd, now, st);
      HeldAnswers(s, f.value, cmd, now, st);
    } else {
      FreshDeadline(s, cmd, now, st);
    }
  }

  lemma HeldAnswers(s: KeyState, i: nat, cmd: LockCommand, now: int, st: Stats)
    requires i < |s.holders|
    ensures HeldStep(s, i, cmd, now, st).reply.Some?
  {
  }

  /** A waiter that is let in at `now` counts its expiry time from then. */
  lemma WakeDeadline(s: KeyState, now: int, st: Stats)
    requires s.waiters != [] && s.waiters[0].expried > 0 && InSeconds(s.waiters[0].expriedFlag)
    ensures var o := WakeStep(s, now, st); var w := s.waiters[0];
            var hold := Hold(w.request, w.lockId, 1, w.count, w.rcount, now + w.expried + 1);
            o.reply.Some? ==> o.state.holders == s.holders + [hold]
  {
  }

  // ---------- when the time is over

  /** A hold that the timer ends is told so: EXPRIED, with the levels that are left on the key, none of them its own;
      all its levels are gone, and its record is returned. A request that holds nothing is told nothing. */
  lemma ExpiryNotice(s: KeyState, c: nat, st: Stats)
    requires WellFormed(s)
    ensures var o := ExpireStep(s, c, st); var n, n' := Locked(s.holders), Locked(o.state.holders);
            && (o.reply.Some? <==> HoldTally(s.holders, c) > 0) && HoldTally(o.state.holders, c) == 0
            && (HoldTally(s.holders, c) > 0 ==>
                  exists i :: 0 <= i < |s.holders| && s.holders[i].request == c && var h := s.holders[i];
                    && o.reply == Some(Reply(c, Expried, n' % 65536, 0, h.lockId, h.count, h.rcount))
                    && n' == n - h.depth && o.freed == [c] && o.state.holders == s.holders[..i] + s.holders[i + 1..]
                    && o.stats == st.(lockedCount := st.lockedCount - h.depth,
                      expriedCount := st.expriedCount + h.depth))
            && (HoldTally(s.holders, c) == 0 ==> o == Outcome(s, None, [], st))
  {
    HeldTally(s.holders, c);
    var p := Position(s.holders, c);
    assert Owned(s, c) <= 1;
    if p.Some? {
      HoldsWithout(s.holders, p.value, c);
      assert Tally([c], c) == 1;
    }
  }

  /** A waiter that the timer ends is told TIMEOUT; its record is returned, and nothing that is held changes. */
  lemma TimeoutNotice(s: KeyState, c: nat, st: Stats)
    requires WellFormed(s)
    ensures var o := TimeOutStep(s, c, st);
            && (o.reply.Some? <==> WaitTally(s.waiters, c) > 0) && WaitTally(o.state.waiters, c) == 0
            && o.state.holders == s.holders && o.state.index == s.index
            && o.state.waited == (s.waited && (o.state.waiters != [] || WaitTally(s.waiters, c) == 0))
            && (WaitTally(s.waiters, c) > 0 ==>
                  exists i :: 0 <= i < |s.waiters| && s.waiters[i].request == c && var w := s.waiters[i];
                    && o.reply == Some(Reply(c, TimedOut, Locked(s.holders) % 65536, 0, w.lockId, w.count, w.rcount))
                    && o.freed == [c] && o.state.waiters == s.waiters[..i] + s.waiters[i + 1..]
                    && o.stats == st.(waitCount := st.waitCount - 1, timeoutedCount := st.timeoutedCount + 1))
            && (WaitTally(s.waiters, c) == 0 ==> o == Outcome(s, None, [], st))
  {
    WaitingTally(s.waiters, c);
    var p := WaitPosition(s.waiters, c);
    assert Owned(s, c) <= 1;
    if p.Some? {
      WaitersWithout(s.waiters, p.value, c);
      assert Tally([c], c) == 1;
    }
  }

  /** A request that only asks who holds the key is told: UNOWN_ERROR, with the levels held and the first hold. */
  lemma ShownFirst(s: KeyState, cmd: LockCommand, now: int, st: Stats)
    requires WellFormed(s) && s.holders != [] && cmd.flag == 1
    ensures var h := s.holders[0];
            LockStep(s, cmd, now, st)
            == Outcome(s, Some(Reply(cmd.commandId, UnownError, Locked(s.holders) % 65536, h.depth, h.lockId, h.count,
                                     h.rcount)), [cmd.commandId], st)
  {
  }

  /** A request that updates its hold changes the terms, and is answered LOCKED_ERROR. */
  lemma UpdateNotice(s: KeyState, i: nat, cmd: LockCommand, now: int, st: Stats)
    requires WellFormed(s) && Find(s, cmd.lockId) == Some(i) && cmd.flag == 2
    ensures var o := LockStep(s, cmd, now, st); var h := s.holders[i];
            && o.reply == Some(Reply(cmd.commandId, LockedError, Locked(s.holders) % 65536, h.depth, cmd.lockId,
              cmd.count,
                                     cmd.rcount))
            && o.freed == [cmd.commandId] && o.stats == st && o.state.waiters == s.waiters
            && |o.state.holders| == |s.holders|
            && o.state.holders == s.holders[i := h.(count := cmd.count, rcount := cmd.rcount,
                                                    expireTime := o.state.holders[i].expireTime)]
  {
  }

  /** Times that are not in seconds: a hold that never expires has the greatest deadline, one in milliseconds none,
      and a waiter in milliseconds none. */
  lemma OtherDeadlines(s: KeyState, cmd: LockCommand, now: int, st: Stats)
    ensures var hs := FreshStep(s, cmd, now, st).state.holders;
            |hs| > |s.holders| && !InSeconds(cmd.expriedFlag) ==>
              hs[|hs| - 1].expireTime == if cmd.expriedFlag & 0x4000 != 0 then 9223372036854775807 else 0
    ensures var ws := FreshStep(s, cmd, now, st).state.waiters;
            |ws| > |s.waiters| && !InSeconds(cmd.timeoutFlag) ==> ws[|ws| - 1].timeoutTime == 0
    ensures forall h: Hold :: !InSeconds(cmd.expriedFlag) ==>
              Updated(h, cmd, now).expireTime == if cmd.expriedFlag & 0x4000 != 0 then 9223372036854775807 else 0
  {
    hide MayGrant;
  }
}
