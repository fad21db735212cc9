/** What the row of levels is for an ordered list of holds. */
module PlainLevels {
  import opened Protocol
  import opened KeySpec
  import opened KeyProofs
  import P = PlainMachine

  function LevelOf(h: Hold): P.Level { P.Level(h.request, h.lockId, h.count, h.rcount, h.expireTime) }

  function Copies(l: P.Level, n: nat): seq<P.Level> { if n == 0 then [] else [l] + Copies(l, n - 1) }

  /** Every hold as often as its depth says. */
  function Levels(hs: seq<Hold>): seq<P.Level> {
    if hs == [] then [] else Copies(LevelOf(hs[0]), hs[0].depth) + Levels(hs[1..])
  }

  function Plain(s: KeyState): P.Key { P.Key(Levels(s.holders), s.waiters, s.waited) }

  ghost predicate Deep(hs: seq<Hold>) { forall i :: 0 <= i < |hs| ==> 1 <= hs[i].depth <= MAX_DEPTH }

  ghost predicate Apart(hs: seq<Hold>) {
    forall i, j :: 0 <= i < j < |hs| ==> hs[i].request != hs[j].request
  }

  ghost predicate Absent(hs: seq<Hold>, c: nat) { forall i :: 0 <= i < |hs| ==> hs[i].request != c }

  // ---------- rows in two parts

  lemma {:induction false} DepthPlus(a: seq<P.Level>, b: seq<P.Level>, c: nat)
    ensures P.Depth(a + b, c) == P.Depth(a, c) + P.Depth(b, c)
  {
    if a == [] { assert a + b == b; } else { DepthPlus(a[1..], b, c); assert (a + b)[1..] == a[1..] + b; }
  }

  lemma {:induction false} FirstPlus(a: seq<P.Level>, b: seq<P.Level>, id: LockId)
    ensures P.First(a + b, id) == if P.First(a, id).Some? then P.First(a, id) else P.First(b, id)
  {
    if a == [] { assert a + b == b; } else { FirstPlus(a[1..], b, id); assert (a + b)[1..] == a[1..] + b; }
  }

  lemma {:induction false} FirstOfPlus(a: seq<P.Level>, b: seq<P.Level>, c: nat)
    ensures P.FirstOf(a + b, c) == if P.FirstOf(a, c).Some? then P.FirstOf(a, c) else P.FirstOf(b, c)
  {
    if a == [] { assert a + b == b; } else { FirstOfPlus(a[1..], b, c); assert (a + b)[1..] == a[1..] + b; }
  }

  lemma {:induction false} EndedPlus(a: seq<P.Level>, b: seq<P.Level>, c: nat)
    ensures P.Ended(a + b, c) == P.Ended(a, c) + P.Ended(b, c)
  {
    if a == [] {
      assert a + b == b;
    } else {
      EndedPlus(a[1..], b, c);
      assert (a + b)[0] == a[0] && (a + b)[1..] == a[1..] + b;
      var first := if a[0].request == c then [] else [a[0]];
      assert first + (P.Ended(a[1..], c) + P.Ended(b, c)) == first + P.Ended(a[1..], c) + P.Ended(b, c);
    }
  }

  lemma {:induction false} RenewedPlus(a: seq<P.Level>, b: seq<P.Level>, t: P.Level)
    ensures P.Renewed(a + b, t) == P.Renewed(a, t) + P.Renewed(b, t)
  {
    if a == [] { assert a + b == b; } else { RenewedPlus(a[1..], b, t); assert (a + b)[1..] == a[1..] + b; }
  }

  lemma {:induction false} LoweredPlus(a: seq<P.Level>, b: seq<P.Level>, c: nat)
    ensures P.Lowered(a + b, c) == if P.Depth(a, c) > 0 then P.Lowered(a, c) + b else a + P.Lowered(b, c)
  {
    if a == [] {
      assert a + b == b;
    } else {
      LoweredPlus(a[1..], b, c);
      assert (a + b)[1..] == a[1..] + b && a == [a[0]] + a[1..];
    }
  }

  lemma {:induction false} RaisedPlus(a: seq<P.Level>, b: seq<P.Level>, c: nat)
    ensures P.Raised(a + b, c) == if P.Depth(a, c) > 0 then P.Raised(a, c) + b else a + P.Raised(b, c)
  {
    if a == [] {
      assert a + b == b;
    } else {
      RaisedPlus(a[1..], b, c);
      assert (a + b)[1..] == a[1..] + b && a == [a[0]] + a[1..];
      assert [a[0]] + (a + b) == ([a[0]] + a) + b;
    }
  }

  // ---------- the levels of one hold

  lemma {:induction false} CopiesOf(l: P.Level, n: nat, c: nat, t: P.Level)
    ensures |Copies(l, n)| == n && P.Depth(Copies(l, n), c) == if l.request == c then n else 0
    ensures P.Ended(Copies(l, n), c) == if l.request == c then [] else Copies(l, n)
    ensures P.Renewed(Copies(l, n), t) == if l.request == t.request then Copies(t, n) else Copies(l, n)
    ensures P.FirstOf(Copies(l, n), c) == if l.request == c && n > 0 then Some(l) else None
  {
    if n > 0 { CopiesOf(l, n - 1, c, t); }
  }

  lemma {:induction false} CopiesFirst(l: P.Level, n: nat, id: LockId)
    ensures P.First(Copies(l, n), id) == if l.lockId == id && n > 0 then Some(l) else None
  {
    if n > 0 { CopiesFirst(l, n - 1, id); }
  }

  lemma CopiesMore(l: P.Level, n: nat)
    requires n > 0
    ensures P.Lowered(Copies(l, n), l.request) == Copies(l, n - 1)
    ensures P.Raised(Copies(l, n), l.request) == Copies(l, n + 1)
  {
  }

  // ---------- the whole row

  lemma {:induction false} LevelsCount(hs: seq<Hold>)
    ensures |Levels(hs)| == Locked(hs)
  {
    if hs != [] {
      CopiesOf(LevelOf(hs[0]), hs[0].depth, 0, LevelOf(hs[0]));
      LevelsCount(hs[1..]);
    }
  }

  lemma LevelsFirst(hs: seq<Hold>)
    requires Deep(hs)
    ensures Levels(hs) == [] <==> hs == []
    ensures hs != [] ==> Levels(hs)[0] == LevelOf(hs[0])
  {
  }

  lemma {:induction false} LevelsPlus(a: seq<Hold>, b: seq<Hold>)
    ensures Levels(a + b) == Levels(a) + Levels(b)
  {
    if a == [] {
      assert a + b == b;
    } else {
      LevelsPlus(a[1..], b);
      assert (a + b)[0] == a[0] && (a + b)[1..] == a[1..] + b;
      var first := Copies(LevelOf(a[0]), a[0].depth);
      assert first + (Levels(a[1..]) + Levels(b)) == first + Levels(a[1..]) + Levels(b);
    }
  }

  lemma LevelsOne(h: Hold)
    ensures Levels([h]) == Copies(LevelOf(h), h.depth)
  {
    assert [h][1..] == [];
  }

  /** A row without a hold is not changed by what happens to that hold. */
  lemma {:induction false} LevelsAbsent(hs: seq<Hold>, c: nat, t: P.Level)
    requires Absent(hs, c) && t.request == c
    ensures var ls := Levels(hs);
            P.Depth(ls, c) == 0 && P.Ended(ls, c) == ls && P.Renewed(ls, t) == ls && P.FirstOf(ls, c) == None
  {
    if hs != [] {
      var a, b := Copies(LevelOf(hs[0]), hs[0].depth), Levels(hs[1..]);
      CopiesOf(LevelOf(hs[0]), hs[0].depth, c, t);
      LevelsAbsent(hs[1..], c, t);
      DepthPlus(a, b, c);
      EndedPlus(a, b, c);
      RenewedPlus(a, b, t);
      FirstOfPlus(a, b, c);
    }
  }

  /** A hold and the row around it. */
  lemma LevelsAround(hs: seq<Hold>, i: nat, h: Hold)
    requires i < |hs|
    ensures Levels(hs[i := h]) == Levels(hs[..i]) + (Copies(LevelOf(h), h.depth) + Levels(hs[i + 1..]))
    ensures Levels(Without(hs, i)) == Levels(hs[..i]) + Levels(hs[i + 1..])
  {
    assert hs[i := h] == hs[..i] + ([h] + hs[i + 1..]);
    LevelsPlus(hs[..i], [h] + hs[i + 1..]);
    LevelsPlus([h], hs[i + 1..]);
    LevelsOne(h);
    LevelsPlus(hs[..i], hs[i + 1..]);
  }

  /** What the row says of one hold, and what it is when that hold ends or gets new terms. */
  lemma HoldInRow(hs: seq<Hold>, i: nat, t: P.Level)
    requires i < |hs| && Deep(hs) && Apart(hs) && t.request == hs[i].request
    ensures var ls, c := Levels(hs), hs[i].request;
            && P.Depth(ls, c) == hs[i].depth && P.FirstOf(ls, c) == Some(LevelOf(hs[i]))
            && P.Ended(ls, c) == Levels(Without(hs, i))
            && P.Renewed(ls, t) == Levels(hs[..i]) + (Copies(t, hs[i].depth) + Levels(hs[i + 1..]))
  {
    var h, c := hs[i], hs[i].request;
    var a, m, b := Levels(hs[..i]), Copies(LevelOf(h), h.depth), Levels(hs[i + 1..]);
    LevelsAround(hs, i, h);
    assert hs[i := h] == hs;
    LevelsAbsent(hs[..i], c, t);
    LevelsAbsent(hs[i + 1..], c, t);
    CopiesOf(LevelOf(h), h.depth, c, t);
    DepthPlus(a, m + b, c);
    DepthPlus(m, b, c);
    FirstOfPlus(a, m + b, c);
    FirstOfPlus(m, b, c);
    EndedPlus(a, m + b, c);
    EndedPlus(m, b, c);
    RenewedPlus(a, m + b, t);
    RenewedPlus(m, b, t);
    assert [] + b == b;
  }

  lemma HoldChanged(hs: seq<Hold>, i: nat, n: nat, h: Hold)
    requires i < |hs| && Deep(hs) && Apart(hs) && h.request == hs[i].request
    requires h == hs[i].(count := h.count, rcount := h.rcount, expireTime := h.expireTime, depth := n)
    ensures n == hs[i].depth ==> P.Renewed(Levels(hs), LevelOf(h)) == Levels(hs[i := h])
    ensures n == hs[i].depth + 1 ==>
              P.Raised(P.Renewed(Levels(hs), LevelOf(h)), h.request) == Levels(hs[i := h])
    ensures n + 1 == hs[i].depth && h == hs[i].(depth := n) ==>
              P.Lowered(Levels(hs), h.request) == Levels(hs[i := h])
  {
    var t, d, c := LevelOf(h), hs[i].depth, h.request;
    var a, m, b := Levels(hs[..i]), Copies(t, d), Levels(hs[i + 1..]);
    HoldInRow(hs, i, t);
    LevelsAround(hs, i, h);
    LevelsAround(hs, i, hs[i]);
    assert hs[i := hs[i]] == hs;
    LevelsAbsent(hs[..i], c, t);
    CopiesOf(t, d, c, t);
    CopiesMore(t, d);
    RaisedPlus(a, m + b, c);
    RaisedPlus(m, b, c);
    LoweredPlus(a, m + b, c);
    LoweredPlus(m, b, c);
  }
}
