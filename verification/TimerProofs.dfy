/** The timers under any interleaving of their critical sections: no lock comes up early, late or twice. */
module TimerProofs {
  import opened Protocol
  import opened TimerModel

  lemma {:induction false} TimesPlus(es: seq<Id>, x: Id, e: Id)
    ensures Times(es + [x], e) == Times(es, e) + Bit(x == e)
  {
    if es != [] {
      TimesPlus(es[1..], x, e);
      assert (es + [x])[1..] == es[1..] + [x];
    }
  }

  lemma {:induction false} TimesMinus(es: seq<Id>, x: Id, e: Id)
    ensures Times(Minus(es, x), e) == if e == x && Times(es, x) > 0 then Times(es, e) - 1 else Times(es, e)
  {
    if es != [] {
      TimesMinus(es[1..], x, e);
      if es[0] != x {
        assert ([es[0]] + Minus(es[1..], x))[1..] == Minus(es[1..], x);
      }
    }
  }

  // ---------- every lock stays in one structure

  lemma InSlotLocated(t: Timers, e: Id, r: Entry, v: int, x: Id)
    requires Clock(t) && Located(t, x) && t.PlaceOf(e) == Nowhere
    ensures Located(InSlot(t, e, r, v), x)
  {
    var t' := InSlot(t, e, r, v);
    TimesPlus(t.slots[v % LENGTH], e, x);
    assert forall i :: t'.Slot(i) == if i == v % LENGTH then t.Slot(i) + [e] else t.Slot(i);
    assert forall k: int :: t'.Queue(k) == t.Queue(k);
  }

  lemma InLongLocated(t: Timers, e: Id, r: Entry, x: Id)
    requires Clock(t) && Located(t, x) && t.PlaceOf(e) == Nowhere
    ensures Located(InLong(t, e, r), x)
  {
    var t' := InLong(t, e, r);
    var d := Later(r.deadline, t.checkTime);
    TimesPlus(t.Queue(d), e, x);
    assert forall i :: t'.Slot(i) == t.Slot(i);
    assert forall k: int :: t'.Queue(k) == if k == d then t.Queue(k) + [e] else t.Queue(k);
  }

  lemma AddLocated(t: Timers, e: Id, r: Entry, x: Id)
    requires Clock(t) && Located(t, x) && t.PlaceOf(e) == Nowhere
    ensures Located(Add(t, e, r), x)
  {
    hide Located, InSlot, InLong;
    if r.checkedCount > MAX_WAIT {
      InLongLocated(t, e, r, x);
    } else {
      InSlotLocated(t, e, r, VisitTime(r, t.checkTime), x);
    }
  }

  lemma CollectLocated(t: Timers, e: Id, r: Entry, d: int, x: Id)
    requires Clock(t) && Located(t, x) && t.PlaceOf(e) == Nowhere
    ensures Located(Collect(t, e, r, d), x)
  {
    var t' := Collect(t, e, r, d);
    TimesPlus(t.batch, e, x);
    assert forall i :: t'.Slot(i) == t.Slot(i);
    assert forall k: int :: t'.Queue(k) == t.Queue(k);
  }

  lemma PopSlotLocated(t: Timers, w: int, x: Id)
    requires Clock(t) && 0 <= w < LENGTH && t.slots[w] != [] && Located(t, t.slots[w][0]) && Located(t, x)
    ensures Located(PopSlot(t, w), x)
  {
    var t' := PopSlot(t, w);
    var e := t.slots[w][0];
    assert Times(t.Slot(w), e) > 0;
    assert forall i :: t'.Slot(i) == if i == w then t.Slot(i)[1..] else t.Slot(i);
    assert forall k: int :: t'.Queue(k) == t.Queue(k);
    assert Times(t.Slot(w), x) == Bit(e == x) + Times(t.Slot(w)[1..], x);
  }

  lemma PopLongLocated(t: Timers, x: Id)
    requires Clock(t) && t.Queue(t.scan) != [] && Located(t, t.Queue(t.scan)[0]) && Located(t, x)
    ensures Located(PopLong(t), x)
  {
    var t' := PopLong(t);
    var e := t.Queue(t.scan)[0];
    assert Times(t.Queue(t.scan), e) > 0;
    assert forall i :: t'.Slot(i) == t.Slot(i);
    assert forall k: int :: t'.Queue(k) == if k == t.scan then t.Queue(k)[1..] else t.Queue(k);
    assert Times(t.Queue(t.scan), x) == Bit(e == x) + Times(t.Queue(t.scan)[1..], x);
  }

  lemma FireLocated(t: Timers, x: Id)
    requires Clock(t) && t.batch != [] && Located(t, t.batch[0]) && Located(t, x)
    ensures Located(Fire(t), x)
  {
    var t' := Fire(t);
    assert Times(t.batch, t.batch[0]) > 0;
    assert forall i :: t'.Slot(i) == t.Slot(i);
    assert forall k: int :: t'.Queue(k) == t.Queue(k);
  }

  lemma RemoveLongLocated(t: Timers, e: Id, x: Id)
    requires Clock(t) && Located(t, e) && Located(t, x) && t.PlaceOf(e) == Long(t.Get(e).deadline)
    ensures Located(RemoveLong(t, e), x)
  {
    var t' := RemoveLong(t, e);
    var d := t.Get(e).deadline;
    assert Times(t.Queue(d), e) == 1;
    TimesMinus(t.Queue(d), e, x);
    assert forall i :: t'.Slot(i) == t.Slot(i);
    assert forall k: int :: t'.Queue(k) == if k == d then Minus(t.Queue(k), e) else t.Queue(k);
  }

  // ---------- one look

  lemma AddTimely(t: Timers, e: Id, r: Entry, x: Id)
    requires Clock(t) && e !in t.due && r.checkedCount >= 1 && !r.inLong
    requires x in t.due ==> Timely(t, x)
    requires x in t.due || x == e
    ensures x in Add(t, e, r).due && Timely(Add(t, e, r), x)
  {
  }

  /** Adding a lock: it will come up in time, and the others are not disturbed. */
  lemma AddValid(t: Timers, e: Id, r: Entry)
    requires Valid(t) && e !in t.due && r.checkedCount >= 1 && !r.inLong
    ensures Valid(Add(t, e, r))
    ensures Add(t, e, r).due == t.due[e := Later(r.deadline, t.checkTime)]
  {
    var t' := Add(t, e, r);
    assert t'.due == t.due[e := Later(r.deadline, t.checkTime)] && Clock(t');
    hide Located, Timely, Add;
    forall x ensures Located(t', x) { AddLocated(t, e, r, x); }
    forall x | x in t'.due ensures Timely(t', x) { AddTimely(t, e, r, x); }
  }

  lemma ForgetTimely(t: Timers, t': Timers, e: Id)
    requires Valid(t) && t' == t.(slots := t'.slots, long := t'.long, batch := t'.batch).Forget(e)
    ensures forall x :: x in t'.due ==> Timely(t', x)
  {
    forall x | x in t'.due ensures Timely(t', x) {
      assert Timely(t, x);
    }
  }

  lemma PopSlotValid(t: Timers, w: int)
    requires Valid(t) && 0 <= w < LENGTH && t.slots[w] != []
    ensures Valid(PopSlot(t, w))
  {
    var t' := PopSlot(t, w);
    hide Timely, Located;
    forall x ensures Located(t', x) { PopSlotLocated(t, w, x); }
    ForgetTimely(t, t', t.slots[w][0]);
  }

  lemma PopLongValid(t: Timers)
    requires Valid(t) && t.Queue(t.scan) != []
    ensures Valid(PopLong(t))
  {
    var t' := PopLong(t);
    hide Timely, Located;
    forall x ensures Located(t', x) { PopLongLocated(t, x); }
    ForgetTimely(t, t', t.Queue(t.scan)[0]);
  }

  lemma CollectValid(t: Timers, e: Id, r: Entry, d: int)
    requires Valid(t) && e !in t.due && r.deadline <= t.now && !r.inLong
    requires t.before < d
    ensures Valid(Collect(t, e, r, d)) && Collect(t, e, r, d).due == t.due[e := d]
  {
    var t' := Collect(t, e, r, d);
    hide Located;
    forall x ensures Located(t', x) { CollectLocated(t, e, r, d, x); }
    forall x | x in t'.due ensures Timely(t', x) {
      assert x != e ==> Timely(t, x);
    }
  }

  // ---------- what a scan keeps

  /** Of the locks that still wait none is lost, added or changed in what matters; one that is not punctual may become
      so. */
  ghost predicate Keeps(t: Timers, t': Timers) {
    && t'.now == t.now && t'.before == t.before && t'.checkTime == t.checkTime
    && (forall e :: e in t.due && !t.Get(e).done ==> e in t'.due)
    && (forall e :: e in t'.due ==>
          && e in t.due && t'.due[e] <= t.due[e] && (Punctual(t, e) ==> t'.due[e] == t.due[e])
          && t'.Get(e).done == t.Get(e).done && t'.Get(e).deadline == t.Get(e).deadline
          && (t'.PlaceOf(e).Doomed? <==> t.PlaceOf(e).Doomed?))
  }

  lemma KeepsTwice(a: Timers, b: Timers, c: Timers)
    requires Keeps(a, b) && Keeps(b, c)
    ensures Keeps(a, c)
  {
  }

  lemma FirstOfSlot(t: Timers, w: int)
    requires Valid(t) && 0 <= w < LENGTH && t.slots[w] != []
    ensures var e := t.slots[w][0];
            && e in t.due && e in t.entries && Timely(t, e) && !t.Get(e).inLong
            && t.Get(e).deadline <= t.due[e] && (Punctual(t, e) && t.Get(e).deadline > t.now ==>
                                                 t.due[e] == t.Get(e).deadline)
            && !t.PlaceOf(e).Doomed?
  {
    var e := t.slots[w][0];
    assert Located(t, e);
    assert Times(t.Slot(w), e) > 0;
  }

  /** Only the record and the place of one lock changed, and neither its deadline nor its state. */
  ghost predicate SameButPlace(t: Timers, t': Timers, e: Id) {
    && t'.now == t.now && t'.before == t.before && t'.checkTime == t.checkTime
    && e in t.due && e in t.entries && e in t'.due && t'.due == t.due[e := t'.due[e]] && t'.due[e] <= t.due[e]
    && (Punctual(t, e) ==> t'.due[e] == t.due[e]) && e in t'.entries && t'.entries == t.entries[e := t'.entries[e]]
    && (forall x :: x in t.due && x != e ==> t'.PlaceOf(x) == t.PlaceOf(x))
    && !t.PlaceOf(e).Doomed? && !t'.PlaceOf(e).Doomed?
    && t'.entries[e].done == t.entries[e].done && t'.entries[e].deadline == t.entries[e].deadline
  }

  lemma SamePlaceKeeps(t: Timers, t': Timers, e: Id)
    requires SameButPlace(t, t', e)
    ensures Keeps(t, t')
  {
  }

  lemma ForgetKeeps(t: Timers, t': Timers, e: Id)
    requires t' == t.(slots := t'.slots, long := t'.long, batch := t'.batch).Forget(e) && t.Get(e).done
    ensures Keeps(t, t')
  {
  }

  /** A lock that was taken out and put back. */
  lemma PutBackKeeps(t: Timers, popped: Timers, t': Timers, e: Id, r: Entry, d: int, p: Place)
    requires e in t.due && e in t.entries && d <= t.due[e] && (Punctual(t, e) ==> d == t.due[e])
    requires !t.PlaceOf(e).Doomed? && !p.Doomed?
    requires popped == t.(slots := popped.slots, long := popped.long).Forget(e)
    requires t' == popped.(slots := t'.slots, long := t'.long, batch := t'.batch).Put(e, r, d, p)
    requires r.done == t.entries[e].done && r.deadline == t.entries[e].deadline
    ensures Keeps(t, t') && t'.scan == t.scan && t'.now == t.now && t'.slotDone == t.slotDone
  {
    assert t'.entries == t.entries[e := r];
    assert t'.due == t.due[e := d];
    SamePlaceKeeps(t, t', e);
  }

  lemma AddPuts(t: Timers, e: Id, r: Entry)
    requires |t.slots| == LENGTH && r.deadline >= t.checkTime
    ensures var t' := Add(t, e, r);
            && e in t'.entries && e in t'.place
            && t' == t.(slots := t'.slots, long := t'.long, batch := t'.batch)
                     .Put(e, t'.entries[e], r.deadline, t'.place[e])
            && t'.entries[e].done == r.done && t'.entries[e].deadline == r.deadline && !t'.place[e].Doomed?
  {
  }

  lemma RetryValid(t: Timers, e: Id, r: Entry)
    requires Valid(t) && t.scan <= t.now && t.slots[t.scan % LENGTH] != [] && e == t.slots[t.scan % LENGTH][0]
    requires e in t.entries && r == t.entries[e] && e in t.due && t.due[e] >= r.deadline > t.now && !r.inLong
    requires (Punctual(t, e) ==> t.due[e] == r.deadline) && !t.PlaceOf(e).Doomed?
    ensures var t' := Add(PopSlot(t, t.scan % LENGTH), e, r.(checkedCount := r.checkedCount + 1));
            Valid(t') && Keeps(t, t') && t'.scan == t.scan && t'.now == t.now && t'.slotDone == t.slotDone
              && |t'.slots| == LENGTH
  {
    PopSlotValid(t, t.scan % LENGTH);
    hide Valid, Keeps, Add;
    var popped := PopSlot(t, t.scan % LENGTH);
    var r' := r.(checkedCount := r.checkedCount + 1);
    assert popped.checkTime == t.now + 1 by { ClockOf(t); }
    AddValid(popped, e, r');
    AddPuts(popped, e, r');
    ClockOf(Add(popped, e, r'));
    var t' := Add(popped, e, r');
    PutBackKeeps(t, popped, t', e, t'.entries[e], r.deadline, t'.place[e]);
  }

  lemma ClockOf(t: Timers)
    requires Valid(t)
    ensures Clock(t)
  {
  }

  lemma CollectedValid(t: Timers, e: Id, r: Entry)
    requires Valid(t) && t.scan <= t.now && t.slots[t.scan % LENGTH] != [] && e == t.slots[t.scan % LENGTH][0]
    requires e in t.entries && r == t.entries[e] && e in t.due && Timely(t, e) && r.deadline <= t.now && !r.inLong
    requires !t.PlaceOf(e).Doomed?
    ensures var t' := Collect(PopSlot(t, t.scan % LENGTH), e, r, t.due[e]);
            Valid(t') && Keeps(t, t') && t'.scan == t.scan && t'.now == t.now && t'.slotDone == t.slotDone
              && |t'.slots| == LENGTH
  {
    PopSlotValid(t, t.scan % LENGTH);
    var popped := PopSlot(t, t.scan % LENGTH);
    var t' := Collect(popped, e, r, t.due[e]);
    hide Valid, Keeps;
    CollectValid(popped, e, r, t.due[e]);
    PutBackKeeps(t, popped, t', e, r, t.due[e], Batch);
  }

  lemma DroppedValid(t: Timers, e: Id)
    requires Valid(t) && t.slots[t.scan % LENGTH] != [] && e == t.slots[t.scan % LENGTH][0] && t.Get(e).done
    ensures var t' := PopSlot(t, t.scan % LENGTH);
            Valid(t') && Keeps(t, t') && t'.scan == t.scan && t'.now == t.now && t'.slotDone == t.slotDone
            && |t'.slots| == LENGTH
  {
    PopSlotValid(t, t.scan % LENGTH);
    ForgetKeeps(t, PopSlot(t, t.scan % LENGTH), e);
  }

  lemma LookValid(t: Timers)
    requires Valid(t) && t.scan <= t.now && t.slots[t.scan % LENGTH] != []
    ensures Valid(Look(t)) && Keeps(t, Look(t)) && Look(t).scan == t.scan <= Look(t).now == t.now
    ensures Look(t).slotDone == t.slotDone && |Look(t).slots| == LENGTH
  {
    hide Valid, Keeps, Add, Collect, Timely, PopSlot;
    ClockOf(t);
    var w := t.scan % LENGTH;
    var e := t.slots[w][0];
    var r := t.Get(e);
    FirstOfSlot(t, w);
    if r.done {
      DroppedValid(t, e);
    } else if r.deadline > t.now {
      RetryValid(t, e, r);
    } else {
      CollectedValid(t, e, r);
    }
  }

  lemma SlotEmptied(t: Timers)
    requires Valid(t) && t.scan <= t.now && t.slots[t.scan % LENGTH] == []
    ensures Valid(t.(slotDone := true))
  {
    var t' := t.(slotDone := true);
    forall x ensures Located(t', x) {
      assert Located(t, x);
      assert forall i :: t'.Slot(i) == t.Slot(i);
      assert forall k: int :: t'.Queue(k) == t.Queue(k);
    }
    forall x | x in t'.due ensures Timely(t', x) {
      assert Timely(t, x) && Located(t, x);
      assert Times(t.Slot(t.scan % LENGTH), x) == 0;
    }
  }

  /** Emptying a slot ends with the slot empty and loses no waiting lock. */
  lemma {:induction false} DrainSlotValid(t: Timers)
    requires Valid(t) && t.scan <= t.now && |t.slots| == LENGTH
    ensures var t' := DrainSlot(t); Valid(t') && Keeps(t, t') && t'.scan == t.scan && t'.slotDone
    decreases SlotWork(t)
  {
    hide Valid, Keeps, Look;
    if t.slots[t.scan % LENGTH] == [] {
      SlotEmptied(t);
      KeepsSelf(t, t.(slotDone := true));
    } else {
      LookValid(t);
      LookProgress(t);
      DrainSlotValid(Look(t));
      KeepsTwice(t, Look(t), DrainSlot(t));
    }
  }

  lemma KeepsSelf(t: Timers, t': Timers)
    requires t' == t.(slotDone := t'.slotDone, scan := t'.scan, long := t'.long)
    ensures Keeps(t, t')
  {
  }

  // ---------- the queue of one deadline

  lemma FirstOfQueue(t: Timers)
    requires Valid(t) && t.Queue(t.scan) != []
    ensures var e := t.Queue(t.scan)[0];
            && e in t.due && e in t.entries && Timely(t, e) && t.due[e] == t.scan == t.entries[e].deadline
            && !t.PlaceOf(e).Doomed?
  {
    var e := t.Queue(t.scan)[0];
    assert Located(t, e);
    assert Times(t.Queue(t.scan), e) > 0;
  }

  lemma LookLongValid(t: Timers)
    requires Valid(t) && t.scan <= t.now && t.Queue(t.scan) != []
    ensures var t' := LookLong(t);
            Valid(t') && Keeps(t, t') && t'.scan == t.scan <= t'.now && t'.slotDone == t.slotDone
  {
    var e := t.Queue(t.scan)[0];
    var r := t.Get(e);
    FirstOfQueue(t);
    PopLongValid(t);
    hide Valid, Keeps, Located;
    if r.done {
      ForgetKeeps(t, PopLong(t), e);
    } else {
      CollectValid(PopLong(t), e, r.(inLong := false), t.scan);
      PutBackKeeps(t, PopLong(t), LookLong(t), e, r.(inLong := false), t.scan, Batch);
    }
  }

  lemma QueueEmptied(t: Timers)
    requires Valid(t) && t.slotDone && t.Queue(t.scan) == []
    ensures Valid(t.(long := t.long - {t.scan}, scan := t.scan + 1, slotDone := false))
  {
    var t' := t.(long := t.long - {t.scan}, scan := t.scan + 1, slotDone := false);
    forall x ensures Located(t', x) {
      assert Located(t, x);
      assert forall i :: t'.Slot(i) == t.Slot(i);
      assert forall k: int :: t'.Queue(k) == t.Queue(k);
    }
    forall x | x in t'.due ensures Timely(t', x) {
      assert Timely(t, x) && Located(t, x);
      assert Times(t.Queue(t.scan), x) == 0;
    }
  }

  lemma {:induction false} DrainLongValid(t: Timers)
    requires Valid(t) && t.scan <= t.now && t.slotDone
    ensures var t' := DrainLong(t); Valid(t') && Keeps(t, t') && t'.scan == t.scan + 1 && !t'.slotDone
    decreases |t.Queue(t.scan)|
  {
    hide Valid, Keeps, LookLong;
    if t.Queue(t.scan) == [] {
      QueueEmptied(t);
      KeepsSelf(t, DrainLong(t));
    } else {
      LookLongValid(t);
      LookLongShorter(t);
      DrainLongValid(LookLong(t));
      KeepsTwice(t, LookLong(t), DrainLong(t));
    }
  }

  lemma LookLongShorter(t: Timers)
    requires t.Queue(t.scan) != []
    ensures |LookLong(t).Queue(LookLong(t).scan)| < |t.Queue(t.scan)|
  {
  }

  // ---------- the other critical sections

  lemma FireValid(t: Timers)
    requires Valid(t) && t.batch != []
    ensures Valid(Fire(t)) && Fire(t).due == t.due - {t.batch[0]}
    ensures var e := t.batch[0];
            e in t.due && Timely(t, e) && (t.PlaceOf(e).Doomed? || (t.PlaceOf(e).Batch? && t.Get(e).deadline <= t.now))
  {
    var e := t.batch[0];
    assert Located(t, e);
    assert Times(t.batch, e) > 0;
    var t' := Fire(t);
    assert Timely(t, e);
    forall x ensures Located(t', x) { FireLocated(t, x); }
    ForgetTimely(t, t', e);
  }

  lemma BeginValid(t: Timers, n: int)
    requires Valid(t) && Idle(t) && !t.slotDone && t.now <= n
    ensures Valid(Begin(t, n))
  {
    var t' := Begin(t, n);
    forall x ensures Located(t', x) {
      assert Located(t, x);
      assert forall i :: t'.Slot(i) == t.Slot(i);
      assert forall k: int :: t'.Queue(k) == t.Queue(k);
    }
    forall x | x in t'.due ensures Timely(t', x) {
      assert Timely(t, x) && Located(t, x);
    }
  }

  lemma SettleTimely(t: Timers, e: Id, x: Id)
    requires x in t.due && Timely(t, x)
    ensures x in Settle(t, e).due && Timely(Settle(t, e), x)
  {
  }

  lemma SettleLocated(t: Timers, e: Id, x: Id)
    requires Located(t, x)
    ensures Located(Settle(t, e), x)
  {
    var t' := Settle(t, e);
    assert forall i :: t'.Slot(i) == t.Slot(i);
    assert forall k: int :: t'.Queue(k) == t.Queue(k);
  }

  lemma SettleValid(t: Timers, e: Id)
    requires Valid(t)
    ensures Valid(Settle(t, e))
  {
    hide Timely, Located;
    var t' := Settle(t, e);
    forall x ensures Located(t', x) { SettleLocated(t, e, x); }
    forall x | x in t'.due ensures Timely(t', x) { SettleTimely(t, e, x); }
  }

  lemma RemoveLongValid(t: Timers, e: Id)
    requires Valid(t) && e in t.due && t.Get(e).inLong
    ensures Valid(RemoveLong(t, e)) && RemoveLong(t, e).due == t.due - {e}
  {
    assert Timely(t, e) && Located(t, e);
    var d := t.Get(e).deadline;
    assert Times(t.Queue(d), e) == 1;
    var t' := RemoveLong(t, e);
    forall x ensures Located(t', x) { RemoveLongLocated(t, e, x); }
    ForgetTimely(t, t', e);
  }

  lemma RenewLocated(t: Timers, e: Id, deadline: int, count: nat, x: Id)
    requires Clock(t) && Located(t, x) && Located(t, e)
    ensures Located(Renew(t, e, deadline, count), x)
  {
    var t' := Renew(t, e, deadline, count);
    assert forall i :: t'.Slot(i) == t.Slot(i);
    assert forall k: int :: t'.Queue(k) == t.Queue(k);
  }

  lemma RenewTimely(t: Timers, e: Id, deadline: int, count: nat, x: Id)
    requires Clock(t) && x in t.due && Timely(t, x) && e in t.due && Timely(t, e) && !t.Get(e).inLong
    requires t.PlaceOf(e).Visit? ==> 1 <= count <= MAX_WAIT
    ensures x in Renew(t, e, deadline, count).due && Timely(Renew(t, e, deadline, count), x)
  {
    RenewEffect(t, e, deadline, count);
    if x != e {
      hide Renew, Clock;
      RenewClock(t, e, deadline, count);
    }
  }

  lemma RenewClock(t: Timers, e: Id, deadline: int, count: nat)
    ensures var t' := Renew(t, e, deadline, count);
            && t'.now == t.now && t'.before == t.before && t'.scan == t.scan && t'.slotDone == t.slotDone
            && t'.checkTime == t.checkTime
  {
  }

  lemma RenewEffect(t: Timers, e: Id, deadline: int, count: nat)
    requires Clock(t) && e in t.due && Timely(t, e) && !t.Get(e).inLong
    ensures var t' := Renew(t, e, deadline, count);
            && Clock(t') && t'.due.Keys == t.due.Keys
            && t'.Get(e).deadline == deadline && t'.Get(e).done == t.Get(e).done
            && (forall x :: x in t.due && x != e ==>
                  t'.due[x] == t.due[x] && t'.Get(x) == t.Get(x) && t'.PlaceOf(x) == t.PlaceOf(x))
            && (match t.PlaceOf(e)
                case Visit(v) => t'.PlaceOf(e) == Visit(v) && t'.due[e] == (if deadline < v then v else deadline)
                case Batch => t'.PlaceOf(e) == Doomed
                case Doomed => t'.PlaceOf(e) == Doomed
                case _ => false)
  {
    assert e in t.entries;
  }

  /** A new deadline for a lock in a slot or in the batch. In a slot it is due at the deadline, or when it is looked at
      next if that is later; in the batch it is doomed. The other locks are not touched. */
  lemma RenewValid(t: Timers, e: Id, deadline: int, count: nat)
    requires Valid(t) && e in t.due && !t.Get(e).inLong && (t.PlaceOf(e).Visit? ==> 1 <= count <= MAX_WAIT)
    ensures var t' := Renew(t, e, deadline, count);
            && Valid(t') && t'.due.Keys == t.due.Keys
            && t'.Get(e).deadline == deadline && t'.Get(e).done == t.Get(e).done
            && (forall x :: x in t.due && x != e ==>
                  t'.due[x] == t.due[x] && t'.Get(x) == t.Get(x) && t'.PlaceOf(x) == t.PlaceOf(x))
            && (match t.PlaceOf(e)
                case Visit(v) => t'.PlaceOf(e) == Visit(v) && t'.due[e] == (if deadline < v then v else deadline)
                case Batch => t'.PlaceOf(e) == Doomed
                case Doomed => t'.PlaceOf(e) == Doomed
                case _ => false)
  {
    var t' := Renew(t, e, deadline, count);
    assert Timely(t, e) && Located(t, e);
    RenewEffect(t, e, deadline, count);
    hide Located, Timely, Renew;
    forall x ensures Located(t', x) { RenewLocated(t, e, deadline, count, x); }
    forall x | x in t'.due ensures Timely(t', x) { RenewTimely(t, e, deadline, count, x); }
  }

  /** Back-off. A lock that has been looked at fewer than nine times goes to one of 16 slots, to be looked at as many
      seconds from now as it has been counted, or at its deadline if that is earlier, but not before the next second;
      from the ninth time on it goes to the queue of its deadline, or of the next second if that has passed. */
  lemma BackOff(t: Timers, e: Id, r: Entry)
    requires |t.slots| == 16 && r.checkedCount >= 1
    ensures var t' := Add(t, e, r); var deadline := if r.deadline < t.checkTime then t.checkTime else r.deadline;
            var v := if t.checkTime + r.checkedCount <= r.deadline then t.checkTime + r.checkedCount else deadline;
            if r.checkedCount <= 8 then
              && t'.place == t.place[e := Visit(v)] && t'.entries == t.entries[e := r] && t'.long == t.long
              && t'.slots == t.slots[v % 16 := t.slots[v % 16] + [e]]
            else
              && t'.place == t.place[e := Long(deadline)] && t'.slots == t.slots
              && t'.entries == t.entries[e := r.(deadline := deadline, inLong := true)]
              && t'.long == t.long[deadline := (if deadline in t.long then t.long[deadline] else []) + [e]]
  {
  }

  /** A look at a waiting lock that is not due counts one more. */
  lemma LookCounts(t: Timers)
    requires Valid(t) && t.slots[t.scan % 16] != [] && !t.Get(t.slots[t.scan % 16][0]).done
    requires t.Get(t.slots[t.scan % 16][0]).deadline > t.now
    ensures var e := t.slots[t.scan % 16][0];
            && e in Look(t).entries && Look(t).entries[e].checkedCount == t.Get(e).checkedCount + 1
            && Look(t).batch == t.batch
  {
  }
}
