/** What the parser does with chunks, and what it makes of what the printers print. */
module RespProofs {
  import opened Protocol
  import opened RespModel

  // ---------- the parser against the reference parser

  /** The reference parser reads data byte by byte. */
  lemma {:induction false} IdealData(s: Ideal, data: Text, rest: Text)
    requires data != [] && |data| <= Missing(s.parser) && s.parser.cargIndex >= 0
    requires s.parser.cargIndex > 0 ==> s.parser.args != []
    ensures IdealRun(s, data + rest)
            == IdealRun(Ideal(s.parser.(args := AddData(s.parser, data), cargIndex := s.parser.cargIndex + |data|),
                              data[|data| - 1] == CR), rest)
    decreases |data|
  {
    hide AddData, ByteStep;
    var p := s.parser;
    var input := data + rest;
    AddedSome(p, [data[0]]);
    var p1 := p.(args := AddData(p, [data[0]]), cargIndex := p.cargIndex + 1);
    assert input[0] == data[0] && input[1..] == data[1..] + rest;
    if |data| == 1 {
      assert data == [data[0]];
      assert input[1..] == rest;
    } else {
      IdealData(Ideal(p1, data[0] == CR), data[1..], rest);
      assert data == [data[0]] + data[1..];
      AddTwice(p, data[0], data[1..]);
    }
  }

  lemma AddTwice(p: Parser, b: Byte, data: Text)
    requires p.cargIndex >= 0 && (p.cargIndex > 0 ==> p.args != [])
    ensures AddData(p.(args := AddData(p, [b]), cargIndex := p.cargIndex + 1), data) == AddData(p, [b] + data)
  {
    if p.cargIndex > 0 {
      assert p.args[|p.args| - 1] + [b] + data == p.args[|p.args| - 1] + ([b] + data);
    }
  }

  /** The states that a parser can be in between calls. */
  predicate Sane(p: Parser) {
    p.cargIndex >= 0 && (p.cargIndex > 0 ==> p.args != [])
  }

  lemma StepSane(p: Parser, b: Byte, afterCr: bool)
    requires Sane(p) && (p.stage != 4 ==> p.cargIndex == 0)
    ensures var q := ByteStep(p, b, afterCr).parser;
            && Sane(q) && (q.stage != 4 ==> q.cargIndex == 0)
            && (p.stage != 4 && q.stage == 4 ==> q.cargIndex == 0)
            && (p.stage == 4 && q.stage == 4 ==> q == p)
  {
  }

  /** A parser that does not look at the byte before does the same, if the reference parser does not fail. */
  lemma LenientStep(p: Parser, b: Byte, afterCr: bool)
    requires ByteStep(p, b, afterCr).status != Failed
    ensures ByteStep(p, b, true) == ByteStep(p, b, afterCr)
  {
  }

  /** The result of the reference parser, as a position in the buffer. */
  predicate Matches(r: Result, t: IdealResult, buf: Text) {
    r.parser == t.state.parser && r.status == t.status && r.at <= |buf| && t.rest == buf[r.at..]
  }

  /** Looking for the end of an argument: what the parser has stored as the count does not matter if the line feed is in
      the buffer. */
  lemma {:induction false} EndIsIdeal(p: Parser, s: Ideal, buf: Text, i: nat)
    requires i <= |buf| && p.stage == 4 && Sane(s.parser) && Missing(s.parser) <= 0
    requires p == s.parser || (p == s.parser.(cargIndex := p.cargIndex) && LF in buf[i..])
    requires i > 0 ==> s.afterCr == (buf[i - 1] == CR)
    requires IdealRun(s, buf[i..]).status != Failed
    ensures Matches(Parse(p, buf, i, true), IdealRun(s, buf[i..]), buf)
    decreases |buf| - i, 0
  {
    if i < |buf| {
      var b := buf[i];
      assert buf[i..][0] == b && buf[i..][1..] == buf[i + 1..];
      var t := IdealStep(s, b);
      if b == LF {
        if t.status == More {
          ParseIsIdeal(t.parser, false, buf, i + 1);
        }
      } else {
        EndIsIdeal(p, Ideal(s.parser, b == CR), buf, i + 1);
      }
    }
  }

  /** One call of the parser is the reference parser, unless the buffer completes an argument without its line feed. */
  lemma {:induction false} ParseIsIdeal(p: Parser, afterCr: bool, buf: Text, i: nat)
    requires i <= |buf| && Sane(p) && (p.stage != 4 ==> p.cargIndex == 0) && !SplitsEnd(p, buf[i..])
    requires i > 0 ==> afterCr == (buf[i - 1] == CR)
    requires IdealRun(Ideal(p, afterCr), buf[i..]).status != Failed
    ensures Matches(Parse(p, buf, i, false), IdealRun(Ideal(p, afterCr), buf[i..]), buf)
    decreases |buf| - i, 2
  {
    if i < |buf| {
      if Missing(p) > 0 {
        DataIsIdeal(p, afterCr, buf, i);
      } else {
        ByteIsIdeal(p, afterCr, buf, i);
      }
    }
  }

  /** The slices of a buffer that the data of an argument is. */
  lemma DataSlices(p: Parser, buf: Text, i: nat, n: nat)
    requires i + n <= |buf| && n > 0
    ensures buf[i..] == buf[i..i + n] + buf[i + n..] && buf[i + n - 1] == buf[i..i + n][n - 1]
    ensures Missing(p) == n && 0 < p.cargIndex && !SplitsEnd(p, buf[i..]) ==> LF in buf[i + n..]
  {
    assert buf[i..][n..] == buf[i + n..];
  }

  lemma {:induction false} DataIsIdeal(p: Parser, afterCr: bool, buf: Text, i: nat)
    requires i < |buf| && Sane(p) && Missing(p) > 0 && !SplitsEnd(p, buf[i..])
    requires IdealRun(Ideal(p, afterCr), buf[i..]).status != Failed
    ensures Matches(Parse(p, buf, i, false), IdealRun(Ideal(p, afterCr), buf[i..]), buf)
    decreases |buf| - i, 1
  {
    hide IdealRun, Parse, AddData, Matches, SplitsEnd;
    var s := Ideal(p, afterCr);
    var n := Missing(p);
    ParseData(p, buf, i);
    if |buf| - i < n {
      var input := buf[i..];
      IdealData(s, input, []);
      assert input + [] == input;
      NothingLeft(Ideal(p.(args := AddData(p, input), cargIndex := p.cargIndex + |input|), input[|input| - 1] == CR),
        buf);
    } else {
      var data := buf[i..i + n];
      DataSlices(p, buf, i, n);
      IdealData(s, data, buf[i + n..]);
      var full := p.(args := AddData(p, data), cargIndex := p.cargIndex + n);
      AddedSome(p, data);
      EndIsIdeal(full.(cargIndex := n), Ideal(full, data[n - 1] == CR), buf, i + n);
    }
  }

  lemma ParseData(p: Parser, buf: Text, i: nat)
    requires i < |buf| && Missing(p) > 0
    ensures var n := Missing(p);
            Parse(p, buf, i, false)
            == if |buf| - i < n
               then Result(p.(args := AddData(p, buf[i..]), cargIndex := p.cargIndex + (|buf| - i)), |buf|, More)
               else Parse(p.(args := AddData(p, buf[i..i + n]), cargIndex := n), buf, i + n, true)
  {
  }

  lemma NothingLeft(s: Ideal, buf: Text)
    ensures Matches(Result(s.parser, |buf|, More), IdealRun(s, []), buf)
  {
  }

  lemma AddedSome(p: Parser, data: Text)
    ensures AddData(p, data) != []
  {
  }

  lemma {:induction false} ByteIsIdeal(p: Parser, afterCr: bool, buf: Text, i: nat)
    requires i < |buf| && Sane(p) && (p.stage != 4 ==> p.cargIndex == 0) && Missing(p) <= 0
    requires i > 0 ==> afterCr == (buf[i - 1] == CR)
    requires IdealRun(Ideal(p, afterCr), buf[i..]).status != Failed
    ensures Matches(Parse(p, buf, i, false), IdealRun(Ideal(p, afterCr), buf[i..]), buf)
    decreases |buf| - i, 1
  {
    hide ByteStep;
    var s := Ideal(p, afterCr);
    assert buf[i..][0] == buf[i] && buf[i..][1..] == buf[i + 1..];
    var t := ByteStep(p, buf[i], afterCr);
    StepSane(p, buf[i], afterCr);
    LenientStep(p, buf[i], afterCr);
    if t.status == More {
      if p.stage == 4 && t.parser.stage == 4 {
        EndIsIdeal(t.parser, Ideal(t.parser, buf[i] == CR), buf, i + 1);
      } else {
        ParseIsIdeal(t.parser, buf[i] == CR, buf, i + 1);
      }
    }
  }

  // ---------- numbers

  function Pow10(k: nat): nat { if k == 0 then 1 else 10 * Pow10(k - 1) }

  lemma {:induction false} DigitsRead(n: nat, k: nat)
    requires n < Pow10(k) && k > 0
    ensures 0 < |Digits(n)| <= k && (forall i :: 0 <= i < |Digits(n)| ==> IsDigit(Digits(n)[i]))
            && Numeral(Digits(n)) == n
  {
    if n >= 10 {
      DigitsRead(n / 10, k - 1);
      assert Digits(n)[..|Digits(n)| - 1] == Digits(n / 10);
    } else {
      assert [ZERO + n][..0] == [];
    }
  }

  /** A printed length is short and is read as itself. */
  lemma AtoiDigits(n: nat)
    requires n <= MAX_INT
    ensures 0 < |Digits(n)| <= 64 && (forall i :: 0 <= i < |Digits(n)| ==> IsDigit(Digits(n)[i]))
    ensures Atoi(Digits(n)) == Some(n)
  {
    assert Pow10(4) == 10000;
    assert Pow10(8) == 100000000;
    assert Pow10(12) == 1000000000000;
    assert Pow10(16) == 10000000000000000;
    assert Pow10(19) == 10000000000000000000;
    DigitsRead(n, 19);
    assert IsDigit(Digits(n)[0]);
  }

  lemma {:induction false} ReadDigits(s: Ideal, ds: Text, rest: Text)
    requires (s.parser.stage == 1 || s.parser.stage == 3) && |s.parser.digits| + |ds| <= 64
    requires forall i :: 0 <= i < |ds| ==> IsDigit(ds[i])
    ensures IdealRun(s, ds + rest)
            == IdealRun(Ideal(s.parser.(digits := s.parser.digits + ds), ds == [] && s.afterCr), rest)
    decreases |ds|
  {
    var p := s.parser;
    if ds == [] {
      assert ds + rest == rest && p.digits + ds == p.digits;
      assert s == Ideal(p, s.afterCr);
    } else {
      assert IsDigit(ds[0]);
      assert (ds + rest)[0] == ds[0] && (ds + rest)[1..] == ds[1..] + rest;
      ReadDigits(Ideal(p.(digits := p.digits + [ds[0]]), false), ds[1..], rest);
      assert p.digits + [ds[0]] + ds[1..] == p.digits + ds;
    }
  }

  lemma ReadEnd(s: Ideal, rest: Text)
    requires s.parser.stage == 1 || s.parser.stage == 3
    requires Atoi(s.parser.digits).Some?
    ensures IdealRun(s, CRLF + rest)
            == IdealRun(Ideal(NumberByte(s.parser, LF, true).parser, false), rest)
  {
    assert (CRLF + rest)[0] == CR && (CRLF + rest)[1..] == [LF] + rest;
    assert ([LF] + rest)[0] == LF && ([LF] + rest)[1..] == rest;
  }

  /** The parser behind a line with a number. */
  function Numbered(p: Parser, n: int): Parser {
    if p.stage == 1 then p.(stage := 2, argsCount := n, digits := [])
    else p.(stage := 4, cargLen := n, cargIndex := 0, digits := [])
  }

  lemma ReadNumber(s: Ideal, n: nat, rest: Text)
    requires (s.parser.stage == 1 || s.parser.stage == 3) && s.parser.digits == [] && n <= MAX_INT
    ensures IdealRun(s, Digits(n) + CRLF + rest) == IdealRun(Ideal(Numbered(s.parser, n), false), rest)
  {
    hide IdealRun, Digits, Atoi;
    AtoiDigits(n);
    var p := s.parser;
    assert Digits(n) + CRLF + rest == Digits(n) + (CRLF + rest);
    ReadDigits(s, Digits(n), CRLF + rest);
    assert p.digits + Digits(n) == Digits(n);
    ReadEnd(Ideal(p.(digits := Digits(n)), false), rest);
  }

  // ---------- arguments

  /** The parser behind an argument. */
  function Closed(p: Parser): Stepped { EndByte(p, LF, true) }

  lemma ReadClose(s: Ideal, rest: Text)
    requires s.parser.stage == 4 && Missing(s.parser) <= 0
    ensures IdealRun(s, CRLF + rest)
            == var t := Closed(s.parser);
               if t.status == More then IdealRun(Ideal(t.parser, false), rest)
               else IdealResult(Ideal(t.parser, false), rest, Done)
  {
    assert (CRLF + rest)[0] == CR && (CRLF + rest)[1..] == [LF] + rest;
    assert ([LF] + rest)[0] == LF && ([LF] + rest)[1..] == rest;
  }

  /** The data of an argument; nothing is stored for an empty one. */
  function Loaded(p: Parser, arg: Text): Parser {
    if arg == [] then p.(cargLen := 0, cargIndex := 0, stage := 4)
    else p.(cargLen := |arg|, cargIndex := |arg|, stage := 4, args := p.args + [arg])
  }

  lemma ReadData(s: Ideal, arg: Text, rest: Text)
    requires s.parser.stage == 4 && s.parser.cargIndex == 0 && s.parser.cargLen == |arg|
    ensures IdealRun(s, arg + rest) ==
            IdealRun(Ideal(Loaded(s.parser, arg), if arg == [] then s.afterCr else arg[|arg| - 1] == CR), rest)
  {
    hide IdealRun;
    if arg == [] {
      assert arg + rest == rest;
      assert s == Ideal(Loaded(s.parser, arg), s.afterCr);
    } else {
      IdealData(s, arg, rest);
    }
  }

  /** A bulk string behind its dollar sign. */
  lemma ReadBulk(s: Ideal, arg: Text, rest: Text)
    requires s.parser.stage == 3 && s.parser.digits == [] && s.parser.cargIndex == 0 && |arg| <= MAX_INT
    ensures IdealRun(s, Bulk(arg)[1..] + rest)
            == var t := Closed(Loaded(s.parser, arg));
               if t.status == More then IdealRun(Ideal(t.parser, false), rest)
               else IdealResult(Ideal(t.parser, false), rest, Done)
  {
    hide IdealRun, Digits;
    var p := s.parser;
    var tail := arg + (CRLF + rest);
    assert Bulk(arg)[1..] + rest == Digits(|arg|) + CRLF + tail;
    ReadNumber(s, |arg|, tail);
    var p1 := Numbered(p, |arg|);
    ReadData(Ideal(p1, false), arg, CRLF + rest);
    ReadClose(Ideal(Loaded(p1, arg), if arg == [] then false else arg[|arg| - 1] == CR), rest);
    assert Closed(Loaded(p1, arg)) == Closed(Loaded(p, arg));
  }
}
