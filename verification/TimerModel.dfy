/** The timers of one shard as values: a wheel of 16 slots, an exact-deadline map for locks that have been looked at too
    often, and the batch of locks collected for their timeout. The same code serves timeouts and expiries, on different
    fields of the lock; `Entry` stands for those fields. Each function is one critical section. */
module TimerModel {
  import opened Protocol

  const LENGTH: int := 16
  const MAX_WAIT: nat := 8

  /** The identity of a lock object. */
  type Id = nat

  datatype Entry = Entry(deadline: int, checkedCount: nat, done: bool, inLong: bool)

  /** Where a lock is: in the slot of the second at which it will be looked at, in the queue of its deadline, or in the
      batch; a lock that gets a new deadline while it is in the batch is doomed: it comes up all the same. */
  datatype Place = Nowhere | Visit(at: int) | Long(deadline: int) | Batch | Doomed

  /** `now` is the clock of the batch under way and `before` that of the one before it, `scan` the next second to look
      at, `slotDone` whether the slot of that second has been emptied, `batch` what has been collected. `due` says by
      when each lock has to come up and `place` where it is. */
  datatype Timers = Timers(
    entries: map<Id, Entry>,
    slots: seq<seq<Id>>,
    long: map<int, seq<Id>>,
    checkTime: int,
    before: int,
    now: int,
    scan: int,
    slotDone: bool,
    batch: seq<Id>,
    due: map<Id, int>,
    place: map<Id, Place>)
  {
    function Get(e: Id): Entry { if e in entries then entries[e] else Entry(0, 1, true, false) }

    function Queue(k: int): seq<Id> { if k in long then long[k] else [] }

    function Slot(i: int): seq<Id> { if 0 <= i < |slots| then slots[i] else [] }

    function PlaceOf(e: Id): Place { if e in place then place[e] else Nowhere }

    /** The lock leaves the timers. */
    function Forget(e: Id): Timers { this.(entries := entries - {e}, due := due - {e}, place := place - {e}) }

    function Put(e: Id, r: Entry, d: int, p: Place): Timers {
      this.(entries := entries[e := r], due := due[e := d], place := place[e := p])
    }
  }

  // ---------- putting a lock in

  function InSlot(t: Timers, e: Id, r: Entry, v: int): Timers
    requires |t.slots| == LENGTH
  {
    t.(slots := t.slots[v % LENGTH := t.slots[v % LENGTH] + [e]]).Put(e, r, Later(r.deadline, t.checkTime), Visit(v))
  }

  function InLong(t: Timers, e: Id, r: Entry): Timers {
    var k := Later(r.deadline, t.checkTime);
    t.(long := t.long[k := t.Queue(k) + [e]]).Put(e, r.(deadline := k, inLong := true), k, Long(k))
  }

  /** The second at which a lock is looked at next. */
  function VisitTime(r: Entry, checkTime: int): int {
    var v := checkTime + r.checkedCount;
    if r.deadline < v then Later(r.deadline, checkTime) else v
  }

  function Add(t: Timers, e: Id, r: Entry): Timers
    requires |t.slots| == LENGTH
  {
    if r.checkedCount > MAX_WAIT then InLong(t, e, r) else InSlot(t, e, r, VisitTime(r, t.checkTime))
  }

  // ---------- a batch

  function Begin(t: Timers, n: int): Timers {
    t.(before := t.now, now := n, checkTime := n + 1)
  }

  function Collect(t: Timers, e: Id, r: Entry, d: int): Timers {
    t.(batch := t.batch + [e]).Put(e, r, d, Batch)
  }

  function PopSlot(t: Timers, w: int): Timers
    requires 0 <= w < |t.slots| && t.slots[w] != []
  {
    t.(slots := t.slots[w := t.slots[w][1..]]).Forget(t.slots[w][0])
  }

  /** What happens to the next lock of the slot that is being emptied. */
  function Look(t: Timers): Timers
    requires |t.slots| == LENGTH && t.slots[t.scan % LENGTH] != []
  {
    var e := t.slots[t.scan % LENGTH][0];
    var r := t.Get(e);
    var popped := PopSlot(t, t.scan % LENGTH);
    if r.done then popped
    else if r.deadline > t.now then Add(popped, e, r.(checkedCount := r.checkedCount + 1))
    else Collect(popped, e, r, if e in t.due then t.due[e] else t.now)
  }

  /** How often a lock can still be looked at. */
  function Weight(entries: map<Id, Entry>, e: Id): nat {
    if e in entries && entries[e].checkedCount <= MAX_WAIT then MAX_WAIT + 2 - entries[e].checkedCount else 1
  }

  function Work(entries: map<Id, Entry>, es: seq<Id>): nat {
    if es == [] then 0 else Weight(entries, es[0]) + Work(entries, es[1..])
  }

  function SlotWork(t: Timers): nat { Work(t.entries, t.Slot(t.scan % LENGTH)) }

  lemma {:induction false} WorkLess(a: map<Id, Entry>, b: map<Id, Entry>, es: seq<Id>)
    requires forall e :: Weight(b, e) <= Weight(a, e)
    ensures Work(b, es) <= Work(a, es)
  {
    if es != [] { WorkLess(a, b, es[1..]); }
  }

  lemma {:induction false} WorkPlus(a: map<Id, Entry>, es: seq<Id>, e: Id)
    ensures Work(a, es + [e]) == Work(a, es) + Weight(a, e)
  {
    if es != [] {
      WorkPlus(a, es[1..], e);
      assert (es + [e])[1..] == es[1..] + [e];
    }
  }

  lemma AddEffect(t: Timers, e: Id, r: Entry, w: int)
    requires |t.slots| == LENGTH && 0 <= w < LENGTH
    ensures var t' := Add(t, e, r);
            && |t'.slots| == LENGTH && t'.scan == t.scan
            && (t'.slots[w] == t.slots[w] || (t'.slots[w] == t.slots[w] + [e] && r.checkedCount <= MAX_WAIT))
            && t'.entries.Keys == t.entries.Keys + {e} && t'.entries[e].checkedCount == r.checkedCount
            && forall x :: x in t.entries && x != e ==> t'.entries[x] == t.entries[x]
  {
  }

  /** What a look does to the slot being emptied and to the weights. */
  lemma LookEffect(t: Timers)
    requires |t.slots| == LENGTH && t.slots[t.scan % LENGTH] != []
    ensures var w := t.scan % LENGTH; var e := t.slots[w][0]; var t' := Look(t);
            && |t'.slots| == LENGTH && t'.scan == t.scan
            && (t'.slots[w] == t.slots[w][1..]
                || (t'.slots[w] == t.slots[w][1..] + [e] && Weight(t'.entries, e) < Weight(t.entries, e)))
            && forall x :: Weight(t'.entries, x) <= Weight(t.entries, x)
  {
    hide Add;
    var w := t.scan % LENGTH;
    var e := t.slots[w][0];
    var r := t.Get(e);
    AddEffect(PopSlot(t, w), e, r.(checkedCount := r.checkedCount + 1), w);
  }

  /** A lock that is put back into the very slot that is being emptied has been looked at once more, so there is less to
      do. */
  lemma LookProgress(t: Timers)
    requires |t.slots| == LENGTH && t.slots[t.scan % LENGTH] != []
    ensures SlotWork(Look(t)) < SlotWork(t) && |Look(t).slots| == LENGTH
  {
    hide Look, Weight;
    var w := t.scan % LENGTH;
    var e := t.slots[w][0];
    var rest := t.slots[w][1..];
    LookEffect(t);
    WorkLess(t.entries, Look(t).entries, rest);
    WorkPlus(Look(t).entries, rest, e);
    SomeWork(t.entries, e);
  }

  lemma SomeWork(entries: map<Id, Entry>, e: Id)
    ensures Weight(entries, e) > 0
  {
  }

  function DrainSlot(t: Timers): Timers
    requires |t.slots| == LENGTH
    decreases SlotWork(t)
  {
    if t.slots[t.scan % LENGTH] == [] then t.(slotDone := true)
    else LookProgress(t); DrainSlot(Look(t))
  }

  function PopLong(t: Timers): Timers
    requires t.Queue(t.scan) != []
  {
    t.(long := t.long[t.scan := t.Queue(t.scan)[1..]]).Forget(t.Queue(t.scan)[0])
  }

  function LookLong(t: Timers): Timers
    requires t.Queue(t.scan) != []
  {
    var e := t.Queue(t.scan)[0];
    var r := t.Get(e);
    if r.done then PopLong(t) else Collect(PopLong(t), e, r.(inLong := false), t.scan)
  }

  function DrainLong(t: Timers): Timers
    decreases |t.Queue(t.scan)|
  {
    if t.Queue(t.scan) == [] then t.(long := t.long - {t.scan}, scan := t.scan + 1, slotDone := false)
    else DrainLong(LookLong(t))
  }

  /** The next lock of the batch is handed over. */
  function Fire(t: Timers): Timers
    requires t.batch != []
  {
    t.(batch := t.batch[1..]).Forget(t.batch[0])
  }

  // ---------- what other critical sections do

  function Settle(t: Timers, e: Id): Timers {
    if e in t.entries then t.(entries := t.entries[e := t.entries[e].(done := true)]) else t
  }

  function Minus(es: seq<Id>, e: Id): seq<Id> {
    if es == [] then [] else if es[0] == e then es[1..] else [es[0]] + Minus(es[1..], e)
  }

  /** A lock gets a new deadline, and is then looked at as often as a new one, or goes on counting. In a slot it stays
      where it is: it is looked at no earlier for a deadline that is earlier. */
  function Renew(t: Timers, e: Id, deadline: int, checkedCount: nat): Timers {
    if e !in t.entries then t
    else
      var r := t.entries[e].(deadline := deadline, checkedCount := checkedCount);
      match t.PlaceOf(e)
      case Visit(v) => t.(entries := t.entries[e := r], due := t.due[e := Later(deadline, v)])
      case Batch => t.(entries := t.entries[e := r], place := t.place[e := Doomed])
      case _ => t.(entries := t.entries[e := r])
  }

  /** A lock is taken out of the queue of its deadline. */
  function RemoveLong(t: Timers, e: Id): Timers {
    var k := t.Get(e).deadline;
    if k in t.long then t.(long := t.long[k := Minus(t.long[k], e)]).Forget(e) else t
  }

  // ---------- the invariant

  function Times(es: seq<Id>, e: Id): nat {
    if es == [] then 0 else (if es[0] == e then 1 else 0) + Times(es[1..], e)
  }

  ghost predicate Clock(t: Timers) {
    && |t.slots| == LENGTH && t.checkTime == t.now + 1 && t.scan <= t.now + 1 && (t.slotDone ==> t.scan <= t.now)
    && t.before <= t.now && t.before < t.scan && t.place.Keys == t.due.Keys == t.entries.Keys
  }

  /** A lock is in the structure where it is placed, once, and in no other. */
  ghost predicate Located(t: Timers, e: Id) {
    var p := t.PlaceOf(e);
    && (forall i :: 0 <= i < LENGTH ==> Times(t.Slot(i), e) == Bit(p.Visit? && p.at % LENGTH == i))
    && (forall k: int :: Times(t.Queue(k), e) == Bit(p == Long(k)))
    && Times(t.batch, e) == Bit(p.Batch? || p.Doomed?)
    && (e in t.place ==> p != Nowhere)
  }

  /** A lock comes up at its deadline, or in the next batch if that has passed. */
  predicate Punctual(t: Timers, e: Id) {
    e in t.due && (t.Get(e).deadline == t.due[e] || t.due[e] <= t.now + 1)
  }

  /** A lock will be looked at neither in the past nor after it is due; and it is punctual unless it got an earlier
      deadline in its slot and is looked at no earlier. */
  ghost predicate Timely(t: Timers, e: Id)
    requires e in t.due
  {
    var r := t.Get(e);
    var d := t.due[e];
    && t.before < d
    && match t.PlaceOf(e)
       case Nowhere => false
       case Visit(v) =>
         && (if t.slotDone then t.scan + 1 else t.scan) <= v <= d && 1 <= r.checkedCount <= MAX_WAIT && !r.inLong
         && r.deadline <= d && (Punctual(t, e) || v == d)
       case Long(k) => r.deadline == d == k && t.scan <= k && r.inLong && r.checkedCount > MAX_WAIT
       case Batch => r.deadline <= t.now && !r.inLong
       case Doomed => !r.inLong
  }

  ghost predicate Valid(t: Timers) {
    Clock(t) && (forall e :: Located(t, e)) && (forall e :: e in t.due ==> Timely(t, e))
  }

  /** No batch is under way. */
  predicate Idle(t: Timers) {
    t.scan == t.now + 1 && t.batch == []
  }
}
