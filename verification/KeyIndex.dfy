/** The index of lock managers: one fast entry and a counter for every hash slot, backed by a map. */
module KeyIndex {
  import opened Protocol

  /** A lock key: 16 bytes. */
  type Key = k: seq<bv8> | |k| == 16 witness seq(16, _ => 0)

  /** The identity of a lock manager. */
  type Manager = nat

  datatype FastKeyValue = FastKeyValue(manager: Option<Manager>, count: nat, lock: nat)

  /** What a manager knows of its place: its key, whether it has been given back, and its slot. */
  datatype Record = Record(lockKey: Key, freed: bool, slot: Option<nat>)

  function Word(k: Key, i: nat): bv32
    requires i + 4 <= 16
  {
    (k[i] as bv32 << 24) | (k[i + 1] as bv32 << 16) | (k[i + 2] as bv32 << 8) | k[i + 3] as bv32
  }

  function Hash(k: Key): bv32 { Word(k, 0) ^ Word(k, 4) ^ Word(k, 8) ^ Word(k, 12) }

  function SlotOf(k: Key, n: nat): (s: nat)
    requires n > 0
    ensures s < n
  {
    Hash(k) as nat % n
  }

  // ---------- the plain map

  /** The keys of one slot. */
  function KeysAt(live: map<Key, Manager>, n: nat, s: nat): set<Key>
    requires n > 0
  {
    set k | k in live && SlotOf(k, n) == s
  }

  lemma KeysAtAdd(live: map<Key, Manager>, n: nat, s: nat, k: Key, m: Manager)
    requires n > 0 && k !in live
    ensures |KeysAt(live[k := m], n, s)| == |KeysAt(live, n, s)| + (if SlotOf(k, n) == s then 1 else 0)
  {
    if SlotOf(k, n) == s {
      assert KeysAt(live[k := m], n, s) == KeysAt(live, n, s) + {k};
    } else {
      assert KeysAt(live[k := m], n, s) == KeysAt(live, n, s);
    }
  }

  lemma KeysAtRemove(live: map<Key, Manager>, n: nat, s: nat, k: Key)
    requires n > 0 && k in live
    ensures |KeysAt(live, n, s)| == |KeysAt(live - {k}, n, s)| + (if SlotOf(k, n) == s then 1 else 0)
  {
    KeysAtAdd(live - {k}, n, s, k, live[k]);
    assert (live - {k})[k := live[k]] == live;
  }

  // ---------- agreement

  datatype State = State(
    slots: seq<FastKeyValue>,
    locks: map<Key, Manager>,
    managers: map<Manager, Record>,
    keyCount: int)

  /** A live manager is found under its key, in the map or in the fast entry of its slot, but not in both. */
  ghost predicate Found(st: State, live: map<Key, Manager>, k: Key)
    requires |st.slots| > 0 && k in live
  {
    var s := SlotOf(k, |st.slots|);
    && live[k] in st.managers && st.managers[live[k]] == Record(k, false, Some(s))
    && (st.slots[s].manager == Some(live[k]) <==> k !in st.locks)
    && (k in st.locks ==> st.locks[k] == live[k])
  }

  ghost predicate SlotOk(st: State, live: map<Key, Manager>, s: nat)
    requires |st.slots| > 0 && s < |st.slots|
  {
    var f := st.slots[s];
    && f.count == |KeysAt(live, |st.slots|, s)|
    && f.lock == (if f.manager.Some? then 1 else 0)
    && (f.manager.Some? ==>
          && f.manager.value in st.managers
          && var k := st.managers[f.manager.value].lockKey;
             k in live && live[k] == f.manager.value && SlotOf(k, |st.slots|) == s)
  }

  ghost predicate Agrees(st: State, live: map<Key, Manager>) {
    && |st.slots| > 0 && st.keyCount == |live|
    && (forall k :: k in live ==> Found(st, live, k))
    && (forall s :: 0 <= s < |st.slots| ==> SlotOk(st, live, s))
    && (forall k :: k in st.locks ==> k in live)
    && (forall m :: m in st.managers && st.managers[m].slot.Some? ==>
          st.managers[m].lockKey in live && live[st.managers[m].lockKey] == m)
  }

  lemma NoKeyNoCount(st: State, live: map<Key, Manager>, k: Key)
    requires Agrees(st, live) && k in live
    ensures st.slots[SlotOf(k, |st.slots|)].count > 0
  {
    var s := SlotOf(k, |st.slots|);
    assert SlotOk(st, live, s);
    assert k in KeysAt(live, |st.slots|, s);
  }

  // ---------- the changes

  /** A new key goes to the fast entry of an empty slot. */
  function WithFast(st: State, k: Key, m: Manager): State
    requires |st.slots| > 0
  {
    var s := SlotOf(k, |st.slots|);
    State(st.slots[s := FastKeyValue(Some(m), st.slots[s].count + 1, 1)], st.locks,
          st.managers[m := Record(k, false, Some(s))], st.keyCount + 1)
  }

  /** A new key goes to the map when its slot is in use. */
  function WithMapped(st: State, k: Key, m: Manager): State
    requires |st.slots| > 0
  {
    var s := SlotOf(k, |st.slots|);
    State(st.slots[s := st.slots[s].(count := st.slots[s].count + 1)], st.locks[k := m],
          st.managers[m := Record(k, false, Some(s))], st.keyCount + 1)
  }

  function Freed(r: Record): Record { r.(freed := true, slot := None) }

  function WithoutFast(st: State, m: Manager, s: nat): State
    requires m in st.managers && s < |st.slots| && st.slots[s].count > 0
  {
    State(st.slots[s := FastKeyValue(None, st.slots[s].count - 1, 0)], st.locks,
          st.managers[m := Freed(st.managers[m])], st.keyCount - 1)
  }

  function WithoutMapped(st: State, m: Manager, s: nat): State
    requires m in st.managers && s < |st.slots| && st.slots[s].count > 0
  {
    State(st.slots[s := st.slots[s].(count := st.slots[s].count - 1)], st.locks - {st.managers[m].lockKey},
          st.managers[m := Freed(st.managers[m])], st.keyCount - 1)
  }

  /** A key in a slot without count is not live. */
  lemma EmptySlot(st: State, live: map<Key, Manager>, k: Key)
    requires Agrees(st, live) && st.slots[SlotOf(k, |st.slots|)].count == 0
    ensures k !in live && k !in st.locks
    ensures forall x :: x in live ==> SlotOf(x, |st.slots|) != SlotOf(k, |st.slots|)
  {
    forall x | x in live ensures SlotOf(x, |st.slots|) != SlotOf(k, |st.slots|) {
      NoKeyNoCount(st, live, x);
    }
  }

  lemma OthersFound(st: State, st': State, live: map<Key, Manager>, live': map<Key, Manager>, x: Key)
    requires |st'.slots| == |st.slots| > 0 && x in live && x in live' && live'[x] == live[x] && Found(st, live, x)
    requires live[x] in st'.managers && st'.managers[live[x]] == st.managers[live[x]]
    requires x in st'.locks <==> x in st.locks
    requires x in st.locks ==> st'.locks[x] == st.locks[x]
    requires var s := SlotOf(x, |st.slots|);
             st'.slots[s].manager == Some(live[x]) <==> st.slots[s].manager == Some(live[x])
    ensures Found(st', live', x)
  {
  }

  lemma AddFast(st: State, live: map<Key, Manager>, k: Key, m: Manager)
    requires Agrees(st, live) && m !in st.managers && st.slots[SlotOf(k, |st.slots|)].count == 0
    ensures k !in live && Agrees(WithFast(st, k, m), live[k := m])
  {
    hide SlotOf, KeysAt, Found, SlotOk;
    EmptySlot(st, live, k);
    var st', live' := WithFast(st, k, m), live[k := m];
    forall x | x in live' ensures Found(st', live', x) {
      if x == k {
        FoundFast(st, live, k, m);
      } else {
        LiveRecord(st, live, x);
        OthersFound(st, st', live, live', x);
      }
    }
    forall i | 0 <= i < |st.slots| ensures SlotOk(st', live', i) {
      SlotAdd(st, st', live, i, k, m);
    }
  }

  lemma LiveRecord(st: State, live: map<Key, Manager>, x: Key)
    requires Agrees(st, live) && x in live
    ensures Found(st, live, x) && live[x] in st.managers && st.managers[live[x]].lockKey == x
    ensures st.managers[live[x]].slot == Some(SlotOf(x, |st.slots|))
  {
  }

  lemma FoundFast(st: State, live: map<Key, Manager>, k: Key, m: Manager)
    requires |st.slots| > 0 && k !in st.locks
    ensures Found(WithFast(st, k, m), live[k := m], k)
  {
  }

  lemma SlotAdd(st: State, st': State, live: map<Key, Manager>, i: nat, k: Key, m: Manager)
    requires Agrees(st, live) && i < |st.slots| && k !in live && m !in st.managers
    requires st' == WithMapped(st, k, m) || (st' == WithFast(st, k, m) && st.slots[SlotOf(k, |st.slots|)].count == 0)
    ensures SlotOk(st', live[k := m], i)
  {
    hide SlotOf, KeysAt, Found;
    assert SlotOk(st, live, i);
    KeysAtAdd(live, |st.slots|, i, k, m);
  }

  lemma FoundMapped(st: State, live: map<Key, Manager>, k: Key, m: Manager)
    requires Agrees(st, live) && k !in live && m !in st.managers
    ensures Found(WithMapped(st, k, m), live[k := m], k)
  {
    hide SlotOf, KeysAt;
    assert SlotOk(st, live, SlotOf(k, |st.slots|));
  }

  lemma AddMapped(st: State, live: map<Key, Manager>, k: Key, m: Manager)
    requires Agrees(st, live) && m !in st.managers && k !in live
    ensures Agrees(WithMapped(st, k, m), live[k := m])
  {
    hide SlotOf, KeysAt, Found, SlotOk;
    var st', live' := WithMapped(st, k, m), live[k := m];
    forall x | x in live' ensures Found(st', live', x) {
      if x == k {
        FoundMapped(st, live, k, m);
      } else {
        LiveRecord(st, live, x);
        OthersFound(st, st', live, live', x);
      }
    }
    forall i | 0 <= i < |st.slots| ensures SlotOk(st', live', i) {
      SlotAdd(st, st', live, i, k, m);
    }
  }

  /** What removing a live manager rests on. */
  lemma LiveManager(st: State, live: map<Key, Manager>, m: Manager)
    requires Agrees(st, live) && m in st.managers && st.managers[m].slot.Some?
    ensures var k, s := st.managers[m].lockKey, st.managers[m].slot.value;
            && k in live && live[k] == m && s == SlotOf(k, |st.slots|) < |st.slots| && st.slots[s].count > 0
            && !st.managers[m].freed && st.slots[s].lock == (if st.slots[s].manager.Some? then 1 else 0)
            && (st.slots[s].manager == Some(m) <==> k !in st.locks)
  {
    var k := st.managers[m].lockKey;
    NoKeyNoCount(st, live, k);
    assert Found(st, live, k) && SlotOk(st, live, SlotOf(k, |st.slots|));
  }

  lemma SlotRemove(st: State, st': State, live: map<Key, Manager>, i: nat, m: Manager)
    requires Agrees(st, live) && m in st.managers && st.managers[m].slot.Some? && i < |st.slots|
    requires var s := st.managers[m].slot.value; s < |st.slots| && st.slots[s].count > 0
    requires var s := st.managers[m].slot.value;
             st' == if st.slots[s].manager == Some(m) then WithoutFast(st, m, s) else WithoutMapped(st, m, s)
    ensures SlotOk(st', live - {st.managers[m].lockKey}, i)
  {
    hide SlotOf, KeysAt, Found;
    LiveManager(st, live, m);
    assert SlotOk(st, live, i);
    KeysAtRemove(live, |st.slots|, i, st.managers[m].lockKey);
  }

  lemma StaysFoundFast(st: State, live: map<Key, Manager>, m: Manager, s: nat, x: Key)
    requires Agrees(st, live) && m in st.managers && st.managers[m].slot == Some(s)
    requires s < |st.slots| && st.slots[s].count > 0 && st.slots[s].manager == Some(m)
    requires x in live && x != st.managers[m].lockKey
    ensures Found(WithoutFast(st, m, s), live - {st.managers[m].lockKey}, x)
  {
    hide SlotOf, KeysAt, SlotOk, Agrees;
    LiveRecord(st, live, x);
    OthersFound(st, WithoutFast(st, m, s), live, live - {st.managers[m].lockKey}, x);
  }

  lemma StaysFoundMapped(st: State, live: map<Key, Manager>, m: Manager, s: nat, x: Key)
    requires Agrees(st, live) && m in st.managers && st.managers[m].slot == Some(s)
    requires s < |st.slots| && st.slots[s].count > 0
    requires x in live && x != st.managers[m].lockKey
    ensures Found(WithoutMapped(st, m, s), live - {st.managers[m].lockKey}, x)
  {
    hide SlotOf, KeysAt, SlotOk, Agrees;
    LiveRecord(st, live, x);
    OthersFound(st, WithoutMapped(st, m, s), live, live - {st.managers[m].lockKey}, x);
  }

  lemma OneKeyLess(live: map<Key, Manager>, k: Key)
    requires k in live
    ensures |live - {k}| == |live| - 1
  {
    assert live.Keys == (live - {k}).Keys + {k};
  }

  /** The keys of the map and the slots of the managers, after a removal. */
  lemma OwnersStay(st: State, st': State, live: map<Key, Manager>, m: Manager)
    requires Agrees(st, live) && m in st.managers && st'.managers == st.managers[m := Freed(st.managers[m])]
    requires st.managers[m].lockKey in live && live[st.managers[m].lockKey] == m
    requires st'.locks == st.locks - {st.managers[m].lockKey}
    ensures var live' := live - {st.managers[m].lockKey};
            && (forall k :: k in st'.locks ==> k in live')
            && forall x :: x in st'.managers && st'.managers[x].slot.Some? ==>
                 st'.managers[x].lockKey in live' && live'[st'.managers[x].lockKey] == x
  {
    hide Found, SlotOk;
  }

  lemma RemoveFast(st: State, live: map<Key, Manager>, m: Manager, s: nat)
    requires Agrees(st, live) && m in st.managers && st.managers[m].slot == Some(s)
    requires s < |st.slots| && st.slots[s].count > 0 && st.slots[s].manager == Some(m)
    ensures Agrees(WithoutFast(st, m, s), live - {st.managers[m].lockKey})
  {
    hide SlotOf, KeysAt, Found, SlotOk;
    LiveManager(st, live, m);
    var k, st' := st.managers[m].lockKey, WithoutFast(st, m, s);
    assert st.locks - {k} == st.locks;
    OneKeyLess(live, k);
    OwnersStay(st, st', live, m);
    forall x | x in live - {k} ensures Found(st', live - {k}, x) { StaysFoundFast(st, live, m, s, x); }
    forall i | 0 <= i < |st.slots| ensures SlotOk(st', live - {k}, i) { SlotRemove(st, st', live, i, m); }
  }

  lemma RemoveMapped(st: State, live: map<Key, Manager>, m: Manager, s: nat)
    requires Agrees(st, live) && m in st.managers && st.managers[m].slot == Some(s)
    requires s < |st.slots| && st.slots[s].count > 0 && st.slots[s].manager != Some(m)
    ensures Agrees(WithoutMapped(st, m, s), live - {st.managers[m].lockKey})
  {
    hide SlotOf, KeysAt, Found, SlotOk;
    LiveManager(st, live, m);
    var k, st' := st.managers[m].lockKey, WithoutMapped(st, m, s);
    OneKeyLess(live, k);
    OwnersStay(st, st', live, m);
    forall x | x in live - {k} ensures Found(st', live - {k}, x) { StaysFoundMapped(st, live, m, s, x); }
    forall i | 0 <= i < |st.slots| ensures SlotOk(st', live - {k}, i) { SlotRemove(st, st', live, i, m); }
  }

  /** Removing a manager from the fast entry or from the map. */
  lemma RemoveAgrees(st: State, live: map<Key, Manager>, m: Manager)
    requires Agrees(st, live) && m in st.managers && st.managers[m].slot.Some?
    ensures var k, s := st.managers[m].lockKey, st.managers[m].slot.value;
            && s < |st.slots| && st.slots[s].count > 0
            && Agrees(if st.slots[s].manager == Some(m) then WithoutFast(st, m, s) else WithoutMapped(st, m, s),
                      live - {k})
  {
    hide Agrees, SlotOf, WithoutFast, WithoutMapped;
    LiveManager(st, live, m);
    var s := st.managers[m].slot.value;
    if st.slots[s].manager == Some(m) {
      RemoveFast(st, live, m, s);
    } else {
      RemoveMapped(st, live, m, s);
    }
  }

  /** The lookup through slot and map is the lookup in the plain map. */
  lemma LookupAgrees(st: State, live: map<Key, Manager>, k: Key)
    requires Agrees(st, live)
    ensures var f := st.slots[SlotOf(k, |st.slots|)];
            && (f.count == 0 ==> k !in live)
            && (f.manager.Some? ==> f.manager.value in st.managers)
            && (f.manager.Some? && st.managers[f.manager.value].lockKey == k ==>
              k in live && live[k] == f.manager.value)
            && (!(f.manager.Some? && st.managers[f.manager.value].lockKey == k) ==>
                  (k in live <==> k in st.locks) && (k in st.locks ==> st.locks[k] == live[k]))
  {
    hide KeysAt;
    var s := SlotOf(k, |st.slots|);
    assert SlotOk(st, live, s);
    if k in live {
      NoKeyNoCount(st, live, k);
      assert Found(st, live, k);
    }
  }

  // ---------- the index, updated in place; each call is atomic

  class ManagerIndex {
    const fastLocks: array<FastKeyValue>
    var locks: map<Key, Manager>
    var managers: map<Manager, Record>
    var keyCount: int
    // The plain map that the index stands for.
    ghost var live: map<Key, Manager>

    ghost function Value(): State
      reads this, fastLocks
    {
      State(fastLocks[..], locks, managers, keyCount)
    }

    ghost predicate Valid()
      reads this, fastLocks
    {
      fastLocks.Length > 0 && Agrees(Value(), live)
    }

    constructor (fastKeyCount: nat)
      requires fastKeyCount > 0
      ensures Valid() && live == map[] && fresh(fastLocks)
    {
      fastLocks := new FastKeyValue[fastKeyCount](_ => FastKeyValue(None, 0, 0));
      locks, managers, keyCount, live := map[], map[], 0, map[];
      new;
      hide SlotOf;
      assert forall s :: KeysAt(map[], fastKeyCount, s) == {};
    }

    /** The manager of a key, if there is one. */
    method GetLockManager(k: Key) returns (m: Option<Manager>)
      requires Valid()
      ensures m == if k in live then Some(live[k]) else None
    {
      hide Agrees, SlotOf;
      LookupAgrees(Value(), live, k);
      var fast := fastLocks[SlotOf(k, fastLocks.Length)];
      if fast.count == 0 {
        return None;
      }
      if fast.manager.Some? && managers[fast.manager.value].lockKey == k {
        return fast.manager;
      }
      m := if k in locks then Some(locks[k]) else None;
    }

    /** The manager of a key, which is the new manager `m` if there was none. */
    method GetOrNewLockManager(k: Key, m: Manager) returns (r: Manager)
      requires Valid() && m !in managers
      modifies this, fastLocks
      ensures Valid() && live == if k in old(live) then old(live) else old(live)[k := m]
      ensures k in live && r == live[k] && keyCount == |live|
    {
      hide Agrees, SlotOf, WithFast, WithMapped;
      LookupAgrees(Value(), live, k);
      var s := SlotOf(k, fastLocks.Length);
      var fast := fastLocks[s];
      if fast.count != 0 {
        if fast.manager.Some? && managers[fast.manager.value].lockKey == k {
          KeyCountIs(Value(), live);
          return fast.manager.value;
        }
      } else {
        AddFast(Value(), live, k, m);
        FreeSlot(Value(), live, s);
        if fast.lock == 0 {
          TakeFast(k, m);
          live := live[k := m];
          KeyCountIs(Value(), live);
          return m;
        }
      }
      if k in locks {
        KeyCountIs(Value(), live);
        return locks[k];
      }
      AddMapped(Value(), live, k, m);
      TakeMapped(k, m);
      live := live[k := m];
      KeyCountIs(Value(), live);
      return m;
    }

    method FreeFast(m: Manager, s: nat)
      requires m in managers && s < fastLocks.Length && fastLocks[s].count > 0
      modifies `managers, `keyCount, fastLocks
      ensures Value() == WithoutFast(old(Value()), m, s)
    {
      managers := managers[m := Freed(managers[m])];
      fastLocks[s] := FastKeyValue(None, fastLocks[s].count - 1, 0);
      keyCount := keyCount - 1;
    }

    method FreeMapped(m: Manager, s: nat)
      requires m in managers && s < fastLocks.Length && fastLocks[s].count > 0
      modifies `locks, `managers, `keyCount, fastLocks
      ensures Value() == WithoutMapped(old(Value()), m, s)
    {
      locks := locks - {managers[m].lockKey};
      managers := managers[m := Freed(managers[m])];
      fastLocks[s] := fastLocks[s].(count := fastLocks[s].count - 1);
      keyCount := keyCount - 1;
    }

    method TakeFast(k: Key, m: Manager)
      requires fastLocks.Length > 0
      modifies `managers, `keyCount, fastLocks
      ensures Value() == WithFast(old(Value()), k, m)
    {
      var s := SlotOf(k, fastLocks.Length);
      fastLocks[s] := FastKeyValue(Some(m), fastLocks[s].count + 1, 1);
      managers := managers[m := Record(k, false, Some(s))];
      keyCount := keyCount + 1;
    }

    method TakeMapped(k: Key, m: Manager)
      requires fastLocks.Length > 0
      modifies `locks, `managers, `keyCount, fastLocks
      ensures Value() == WithMapped(old(Value()), k, m)
    {
      var s := SlotOf(k, fastLocks.Length);
      locks := locks[k := m];
      fastLocks[s] := fastLocks[s].(count := fastLocks[s].count + 1);
      managers := managers[m := Record(k, false, Some(s))];
      keyCount := keyCount + 1;
    }

    /** A live manager gives its key back; for any other manager nothing happens. */
    method RemoveLockManager(m: Manager)
      requires Valid() && m in managers
      modifies this, fastLocks
      ensures Valid() && keyCount == |live|
      ensures var k := old(managers[m].lockKey);
              live == if k in old(live) && old(live)[k] == m then old(live) - {k} else old(live)
    {
      hide Agrees, SlotOf, WithoutFast, WithoutMapped;
      KeyCountIs(Value(), live);
      var record := managers[m];
      if record.slot.None? {
        NotLive(Value(), live, m);
        return;
      }
      LiveManager(Value(), live, m);
      RemoveAgrees(Value(), live, m);
      var s := record.slot.value;
      var fast := fastLocks[s];
      if fast.manager == Some(m) {
        if fast.lock != 1 {
          return;
        }
        FreeFast(m, s);
      } else {
        if record.freed || record.lockKey !in locks {
          return;
        }
        FreeMapped(m, s);
      }
      live := live - {record.lockKey};
      KeyCountIs(Value(), live);
    }
  }

  lemma KeyCountIs(st: State, live: map<Key, Manager>)
    requires Agrees(st, live)
    ensures st.keyCount == |live|
  {
  }

  lemma FreeSlot(st: State, live: map<Key, Manager>, s: nat)
    requires Agrees(st, live) && s < |st.slots| && st.slots[s].count == 0
    ensures st.slots[s].lock == 0
  {
    assert SlotOk(st, live, s);
    if st.slots[s].manager.Some? {
      NoKeyNoCount(st, live, st.managers[st.slots[s].manager.value].lockKey);
    }
  }

  lemma NotLive(st: State, live: map<Key, Manager>, m: Manager)
    requires Agrees(st, live) && m in st.managers && st.managers[m].slot.None?
    ensures st.managers[m].lockKey in live ==> live[st.managers[m].lockKey] != m
  {
    var k := st.managers[m].lockKey;
    if k in live { assert Found(st, live, k); }
  }
}
