/** The timers of one shard, updated in place. */
module TimerWheel {
  import opened Protocol
  import opened TimerModel
  import opened TimerProofs
  import opened TimerRuns

  class Wheel {
    const slots: array<seq<Id>>
    var entries: map<Id, Entry>
    var long: map<int, seq<Id>>
    var checkTime: int
    var now: int
    var scan: int
    var slotDone: bool
    var batch: seq<Id>
    ghost var before: int
    ghost var due: map<Id, int>
    ghost var place: map<Id, Place>

    ghost function View(): Timers
      reads this, slots
    {
      Timers(entries, slots[..], long, checkTime, before, now, scan, slotDone, batch, due, place)
    }

    constructor (start: int)
      ensures Valid(View()) && Idle(View()) && due == map[] && now == start - 1 && fresh(slots)
    {
      slots := new seq<Id>[LENGTH](_ => []);
      entries, long, batch, due, place := map[], map[], [], map[], map[];
      checkTime, before, now, scan, slotDone := start, start - 1, start - 1, start, false;
      new;
      Unused();
    }

    lemma Unused()
      requires slots.Length == LENGTH && (forall i :: 0 <= i < LENGTH ==> slots[i] == [])
      requires entries == map[] && long == map[] && batch == [] && due == map[] && place == map[]
      requires checkTime == now + 1 == scan && before == now && !slotDone
      ensures Valid(View())
    {
      var t := View();
      assert forall i :: t.Slot(i) == [];
    }

    method Forget(e: Id)
      modifies `entries, `due, `place
      ensures View() == old(View()).Forget(e)
    {
      entries, due, place := entries - {e}, due - {e}, place - {e};
    }

    /** The lock goes to the slot of the second in which it is looked at next, or, after eight looks, to the queue of
        its deadline. Overdue locks come up at the next second that is checked. */
    method Insert(e: Id, r: Entry)
      requires slots.Length == LENGTH
      modifies slots, `entries, `long, `due, `place
      ensures View() == Add(old(View()), e, r)
    {
      if r.checkedCount > MAX_WAIT {
        var k := if r.deadline < checkTime then checkTime else r.deadline;
        entries := entries[e := r.(deadline := k, inLong := true)];
        long := long[k := (if k in long then long[k] else []) + [e]];
        due, place := due[e := k], place[e := Long(k)];
      } else {
        var v := checkTime + r.checkedCount;
        if r.deadline < v {
          v := r.deadline;
          if v < checkTime {
            v := checkTime;
          }
        }
        slots[v % LENGTH] := slots[v % LENGTH] + [e];
        entries := entries[e := r];
        due, place := due[e := Later(r.deadline, checkTime)], place[e := Visit(v)];
      }
    }

    /** A waiting lock gets a new deadline where it is. */
    method Renew(e: Id, deadline: int, checkedCount: nat)
      requires Valid(View()) && e in due && !View().Get(e).inLong
      requires View().PlaceOf(e).Visit? ==> 1 <= checkedCount <= MAX_WAIT
      modifies `entries, `due, `place
      ensures View() == TimerModel.Renew(old(View()), e, deadline, checkedCount) && Valid(View())
    {
      RenewValid(View(), e, deadline, checkedCount);
      ClockOf(View());
      hide Valid;
      entries := entries[e := entries[e].(deadline := deadline, checkedCount := checkedCount)];
      match View().PlaceOf(e) {
        case Visit(v) => due := due[e := Later(deadline, v)];
        case Batch => place := place[e := Doomed];
        case _ =>
      }
    }

    method CollectLock(e: Id, r: Entry, ghost d: int)
      modifies `entries, `batch, `due, `place
      ensures View() == Collect(old(View()), e, r, d)
    {
      batch := batch + [e];
      entries, due, place := entries[e := r], due[e := d], place[e := Batch];
    }

    method PopFromSlot(w: int) returns (e: Id, r: Entry)
      requires slots.Length == LENGTH && 0 <= w < LENGTH && slots[w] != []
      modifies slots, `entries, `due, `place
      ensures View() == PopSlot(old(View()), w) && e == old(slots[w][0]) && r == old(View()).Get(e)
    {
      e := slots[w][0];
      r := if e in entries then entries[e] else Entry(0, 1, true, false);
      slots[w] := slots[w][1..];
      Forget(e);
    }

    method LookAtNext()
      requires slots.Length == LENGTH && slots[scan % LENGTH] != []
      modifies slots, this
      ensures View() == Look(old(View()))
    {
      hide Add, PopSlot, Collect;
      ghost var d := if slots[scan % LENGTH][0] in due then due[slots[scan % LENGTH][0]] else now;
      var e, r := PopFromSlot(scan % LENGTH);
      if !r.done {
        if r.deadline > now {
          Insert(e, r.(checkedCount := r.checkedCount + 1));
        } else {
          CollectLock(e, r, d);
        }
      }
    }

    /** Empties the slot of the second `scan`. */
    method CheckSlot()
      requires slots.Length == LENGTH
      modifies slots, this
      ensures View() == DrainSlot(old(View()))
    {
      hide Look, DrainSlot;
      while slots[scan % LENGTH] != []
        invariant DrainSlot(View()) == DrainSlot(old(View()))
        decreases SlotWork(View())
      {
        LookProgress(View());
        DrainSlotTurn(View());
        LookAtNext();
      }
      DrainSlotTurn(View());
      slotDone := true;
    }

    method LookAtLong()
      requires scan in long && long[scan] != []
      modifies this
      ensures View() == LookLong(old(View()))
    {
      hide Collect;
      var e := long[scan][0];
      var r := if e in entries then entries[e] else Entry(0, 1, true, false);
      long := long[scan := long[scan][1..]];
      Forget(e);
      if !r.done {
        CollectLock(e, r.(inLong := false), scan);
      }
    }

    /** Empties the queue of the deadline `scan`. */
    method CheckLong()
      modifies this
      ensures View() == DrainLong(old(View()))
    {
      hide LookLong, DrainLong;
      while scan in long && long[scan] != []
        invariant DrainLong(View()) == DrainLong(old(View()))
        decreases |View().Queue(scan)|
      {
        LookLongShorter(View());
        DrainLongTurn(View());
        LookAtLong();
      }
      DrainLongTurn(View());
      long := long - {scan};
      scan, slotDone := scan + 1, false;
    }

    /** Looks at every second up to the clock. */
    method Scan(n: int)
      requires Valid(View()) && Idle(View()) && now <= n
      modifies slots, this
      ensures Valid(View()) && scan == now + 1 && now == n && Keeps(Begin(old(View()), n), View())
      ensures n == old(now) ==> batch == []
    {
      hide Valid, Keeps, DrainSlot, DrainLong;
      ClockOf(View());
      before, now, checkTime := now, n, n + 1;
      BeginValid(old(View()), n);
      ghost var start := View();
      KeepsSelf(start, start);
      while scan <= now
        invariant Valid(View()) && slots.Length == LENGTH && scan <= now + 1 && now == n && !slotDone
        invariant Keeps(start, View()) && (n == old(now) ==> scan == now + 1 && batch == [])
      {
        ghost var t := View();
        DrainSlotValid(t);
        CheckSlot();
        KeepsTwice(start, t, View());
        t := View();
        DrainLongValid(t);
        CheckLong();
        KeepsTwice(start, t, View());
        ClockOf(View());
      }
    }

    /** Hands over what the batch has collected; a lock that is no longer waiting is skipped. */
    method HandOverAll() returns (fired: seq<Id>)
      requires Valid(View())
      modifies `batch, `entries, `due, `place
      ensures Valid(View()) && batch == [] && HandedOver(old(View()), View(), fired)
    {
      hide Valid, HandedOver;
      fired := [];
      ghost var start := View();
      NothingHandedOver(start);
      while batch != []
        invariant Valid(View()) && HandedOver(start, View(), fired) && View() == start.(
          batch := batch, entries := entries, due := due, place := place)
        decreases |batch|
      {
        FireValid(View());
        ghost var t := View();
        var e := batch[0];
        var done := if e in entries then entries[e].done else true;
        batch := batch[1..];
        Forget(e);
        HandOverStep(start, t, fired);
        if !done {
          fired := fired + [e];
        }
      }
    }

    /** One batch without interference: exactly the waiting locks that are due by its clock come up, each once, and the
        other waiting locks stay. A lock that is not punctual may come up before it is due, but not before its
        deadline. */
    method CheckTime(n: int) returns (fired: seq<Id>)
      requires Valid(View()) && Idle(View()) && now <= n
      modifies slots, this
      ensures Valid(View()) && Idle(View()) && now == n
      ensures Exact(old(View()), View(), n, fired)
    {
      hide Valid, Keeps, WaitsFor, HandedOver, Begin, Exact;
      ghost var start := View();
      Scan(n);
      ghost var scanned := View();
      fired := HandOverAll();
      ClockOf(View());
      BatchExact(start, scanned, View(), n, fired);
    }

    /** Batches for any non-decreasing clock: a waiting lock comes up in the first batch whose clock has reached its due
        time, and in no other. */
    method CheckTimeOut(clock: seq<int>) returns (fired: seq<seq<Id>>)
      requires Valid(View()) && Idle(View())
      requires forall i, j :: 0 <= i <= j < |clock| ==> now <= clock[i] <= clock[j]
      modifies slots, this
      ensures Valid(View()) && Idle(View()) && |fired| == |clock|
      ensures forall e, d, deadline, j :: WaitsFor(old(View()), e, d, deadline) && 0 <= j < |clock| ==>
                (e in fired[j] <==> First(clock, d, j))
    {
      hide Valid, Idle, WaitsFor, Times, Exact, First;
      fired := [];
      ghost var start := View();
      NotYet(start);
      while |fired| < |clock|
        invariant |fired| <= |clock| && Valid(View()) && Idle(View())
        invariant now == if fired == [] then start.now else clock[|fired| - 1]
        invariant forall e, d, deadline :: WaitsFor(start, e, d, deadline) ==>
                    if now < d then WaitsFor(View(), e, d, deadline) else e !in due
        invariant forall e, d, deadline, j :: WaitsFor(start, e, d, deadline) && 0 <= j < |fired| ==>
                    (e in fired[j] <==> First(clock, d, j))
      {
        ghost var t := View();
        var k := |fired|;
        var up := CheckTime(clock[k]);
        forall e, d, deadline | WaitsFor(start, e, d, deadline)
          ensures e in up <==> First(clock, d, k)
          ensures if now < d then WaitsFor(View(), e, d, deadline) else e !in due
        {
          NextBatch(start, t, View(), clock, k, up, e, d, deadline);
        }
        fired := fired + [up];
      }
    }
  }

  /** The batch with number `j` is the first whose clock has reached `d`. */
  ghost predicate First(clock: seq<int>, d: int, j: int) {
    0 <= j < |clock| && d <= clock[j] && forall i :: 0 <= i < j ==> clock[i] < d
  }

  /** The lock is punctual and has to come up by `d`, neither earlier nor later. */
  ghost predicate WaitsFor(t: Timers, e: Id, d: int, deadline: int) {
    Waits(t, e, d, deadline) && t.due[e] == d && Punctual(t, e)
  }

  lemma NotYet(t: Timers)
    requires Valid(t) && Idle(t)
    ensures forall e, d, deadline :: WaitsFor(t, e, d, deadline) ==> t.now < d
  {
    forall e, d, deadline | WaitsFor(t, e, d, deadline) ensures t.now < d {
      NoneLeftBehind(t, e);
    }
  }

  lemma NextBatch(start: Timers, t: Timers, t': Timers, clock: seq<int>, k: nat, up: seq<Id>, e: Id, d: int,
    deadline: int)
    requires k < |clock| && forall i, j :: 0 <= i <= j < |clock| ==> start.now <= clock[i] <= clock[j]
    requires WaitsFor(start, e, d, deadline) && start.now < d && t.now == if k == 0 then start.now else clock[k - 1]
    requires if t.now < d then WaitsFor(t, e, d, deadline) else e !in t.due
    requires Exact(t, t', clock[k], up)
    ensures e in up <==> First(clock, d, k)
    ensures if clock[k] < d then WaitsFor(t', e, d, deadline) else e !in t'.due
  {
  }

  /** What was waiting in the batch has come up, once; the rest is as it was. */
  ghost predicate HandedOver(t: Timers, t': Timers, fired: seq<Id>) {
    && (forall e :: e in t'.batch ==> e in t.batch)
    && (forall e :: e in fired ==> e in t.due && e in t.batch && !t.Get(e).done && e !in t'.due)
    && (forall e :: Times(fired, e) <= 1)
    && t'.now == t.now
    && (forall e :: e in t'.due ==>
          e in t.due && t'.due[e] == t.due[e] && t'.Get(e) == t.Get(e) && t'.PlaceOf(e) == t.PlaceOf(e))
    && (forall e :: e in t.due && !t.Get(e).done ==> e in t'.due || e in fired)
  }

  lemma NothingHandedOver(t: Timers)
    ensures HandedOver(t, t, [])
  {
  }

  lemma {:induction false} TimesIn(es: seq<Id>, e: Id)
    ensures e in es <==> Times(es, e) > 0
  {
    if es != [] { TimesIn(es[1..], e); }
  }

  lemma HandOverStep(start: Timers, t: Timers, fired: seq<Id>)
    requires HandedOver(start, t, fired) && t.batch != [] && t.batch[0] in t.due
    ensures HandedOver(start, Fire(t), if t.Get(t.batch[0]).done then fired else fired + [t.batch[0]])
  {
    hide Times;
    var e := t.batch[0];
    forall x ensures Times(fired + [e], x) <= 1 || t.Get(e).done {
      TimesPlus(fired, e, x);
      TimesIn(fired, x);
    }
  }

  /** Exactly the waiting locks that are due by `n` have come up, each once, and the other waiting locks are still
      there. */
  ghost predicate Exact(t: Timers, t': Timers, n: int, fired: seq<Id>) {
    && (forall e :: Times(fired, e) <= 1)
    && (forall e :: e in t.due && !t.Get(e).done && t.due[e] <= n ==> e in fired)
    && (forall e :: e in fired ==>
          e in t.due && !t.Get(e).done && t.Get(e).deadline <= n && (Punctual(t, e) ==> t.due[e] <= n))
    && (forall e :: e in fired || e !in t.due ==> e !in t'.due)
    && (forall e, d, deadline :: WaitsFor(t, e, d, deadline) && n < d ==> WaitsFor(t', e, d, deadline))
  }

  /** The batch of a finished scan. */
  lemma ScannedExact(start: Timers, t: Timers, n: int, e: Id)
    requires Valid(start) && Idle(start) && start.now <= n && Keeps(Begin(start, n), t) && Valid(t) && t.scan == n + 1
    requires n == start.now ==> t.batch == []
    ensures e in start.due && !start.Get(e).done && start.due[e] <= n ==> e in t.batch && !t.Get(e).done
    ensures e in t.batch && !t.Get(e).done ==>
              && e in start.due && !start.Get(e).done && start.Get(e).deadline <= n
              && (Punctual(start, e) ==> start.due[e] <= n)
  {
    TimesIn(t.batch, e);
    assert Located(t, e);
    if e in t.due {
      assert Timely(t, e) && Timely(start, e) && Located(start, e);
    }
  }

  lemma FiredIff(start: Timers, t: Timers, end: Timers, n: int, fired: seq<Id>, e: Id)
    requires Valid(start) && Idle(start) && start.now <= n && Keeps(Begin(start, n), t) && Valid(t) && t.scan == n + 1
    requires n == start.now ==> t.batch == []
    requires HandedOver(t, end, fired) && Valid(end) && Idle(end) && end.now == n
    ensures e in start.due && !start.Get(e).done && start.due[e] <= n ==> e in fired
    ensures e in fired ==>
              && e in start.due && !start.Get(e).done && start.Get(e).deadline <= n
              && (Punctual(start, e) ==> start.due[e] <= n)
    ensures e in fired || e !in start.due ==> e !in end.due
    ensures forall d, deadline :: WaitsFor(start, e, d, deadline) && n < d ==> WaitsFor(end, e, d, deadline)
  {
    hide Valid, Times;
    ScannedExact(start, t, n, e);
    if e in end.due {
      NoneLeftBehind(end, e);
    }
  }

  lemma BatchExact(start: Timers, t: Timers, end: Timers, n: int, fired: seq<Id>)
    requires Valid(start) && Idle(start) && start.now <= n && Keeps(Begin(start, n), t) && Valid(t) && t.scan == n + 1
    requires n == start.now ==> t.batch == []
    requires HandedOver(t, end, fired) && Valid(end) && Idle(end) && end.now == n
    ensures Exact(start, end, n, fired)
  {
    hide Valid, Times, Keeps, WaitsFor;
    forall e
      ensures e in start.due && !start.Get(e).done && start.due[e] <= n ==> e in fired
      ensures e in fired ==>
                && e in start.due && !start.Get(e).done && start.Get(e).deadline <= n
                && (Punctual(start, e) ==> start.due[e] <= n)
      ensures e in fired || e !in start.due ==> e !in end.due
    {
      FiredIff(start, t, end, n, fired, e);
    }
    forall e, d, deadline | WaitsFor(start, e, d, deadline) && n < d ensures WaitsFor(end, e, d, deadline) {
      FiredIff(start, t, end, n, fired, e);
    }
  }

  lemma DrainSlotTurn(t: Timers)
    requires |t.slots| == LENGTH
    ensures if t.slots[t.scan % LENGTH] == [] then DrainSlot(t) == t.(slotDone := true)
            else |Look(t).slots| == LENGTH && DrainSlot(t) == DrainSlot(Look(t))
  {
    if t.slots[t.scan % LENGTH] != [] {
      LookProgress(t);
    }
  }

  lemma DrainLongTurn(t: Timers)
    ensures DrainLong(t) == if t.Queue(t.scan) == []
                            then t.(long := t.long - {t.scan}, scan := t.scan + 1, slotDone := false)
                            else DrainLong(LookLong(t))
  {
  }
}
