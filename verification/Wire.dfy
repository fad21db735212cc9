/** The wire format, stated on bytes alone: an array is "*", a count, and that many bulk strings; a bulk string is
    "$", a length, and that many bytes; a line is "+" or "-" and a text. Numbers are decimal; every part ends with CR
    LF. (RESP2, sections "Arrays", "Bulk strings", "Simple strings" and "Simple errors".) */
module Wire {
  import opened Protocol
  import opened RespModel
  import opened RespProofs
  import opened RespRoundTrip
  import opened RespChunks
  import opened RespMessages

  // ---------- the format

  function Value(ds: Text): int {
    if ds == [] then 0 else 10 * Value(ds[..|ds| - 1]) + ds[|ds| - 1] - 48
  }

  /** A number of at most 64 digits that fits 64 bits. */
  predicate IsNumber(ds: Text, n: int) {
    && 0 < |ds| <= 64 && (forall i :: 0 <= i < |ds| ==> 48 <= ds[i] <= 57)
    && Value(ds) == n <= 9223372036854775807
  }

  ghost predicate IsBulk(bytes: Text, arg: Text) {
    exists ds: Text :: IsNumber(ds, |arg|) && bytes == [36] + ds + [13, 10] + arg + [13, 10]
  }

  ghost predicate IsBulks(bytes: Text, args: seq<Text>) {
    if args == [] then bytes == []
    else exists k: nat :: k <= |bytes| && IsBulk(bytes[..k], args[0]) && IsBulks(bytes[k..], args[1..])
  }

  ghost predicate IsArray(bytes: Text, args: seq<Text>) {
    exists ds: Text, rest: Text ::
      IsNumber(ds, |args|) && IsBulks(rest, args) && bytes == [42] + ds + [13, 10] + rest
  }

  predicate IsLine(bytes: Text, sign: Byte, text: Text) {
    bytes == [sign] + text + [13, 10]
  }

  datatype Item = Many(args: seq<Text>) | One(arg: Text) | Told(text: Text) | Failure(text: Text)

  ghost predicate IsItem(bytes: Text, item: Item) {
    match item
    case Many(args) => IsArray(bytes, args)
    case One(arg) => IsBulk(bytes, arg)
    case Told(text) => IsLine(bytes, 43, text)
    case Failure(text) => IsLine(bytes, 45, text)
  }

  ghost predicate IsStream(bytes: Text, items: seq<Item>) {
    if items == [] then bytes == []
    else exists k: nat :: k <= |bytes| && IsItem(bytes[..k], items[0]) && IsStream(bytes[k..], items[1..])
  }

  // ---------- what is printed is in the format

  lemma {:induction false} DigitsValue(n: nat, k: nat)
    requires n < Pow10(k) && k > 0
    ensures 0 < |Digits(n)| <= k && (forall i :: 0 <= i < |Digits(n)| ==> 48 <= Digits(n)[i] <= 57)
    ensures Value(Digits(n)) == n
  {
    if n >= 10 {
      DigitsValue(n / 10, k - 1);
      assert Digits(n)[..|Digits(n)| - 1] == Digits(n / 10);
    } else {
      assert [ZERO + n][..0] == [];
    }
  }

  lemma DigitsNumber(n: nat)
    requires n <= MAX_INT
    ensures IsNumber(Digits(n), n)
  {
    assert Pow10(4) == 10000;
    assert Pow10(8) == 100000000;
    assert Pow10(12) == 1000000000000;
    assert Pow10(16) == 10000000000000000;
    assert Pow10(19) == 10000000000000000000;
    DigitsValue(n, 19);
  }

  lemma BulkOnWire(arg: Text)
    requires |arg| <= MAX_INT
    ensures IsBulk(Bulk(arg), arg)
  {
    DigitsNumber(|arg|);
    assert Bulk(arg) == [36] + Digits(|arg|) + [13, 10] + arg + [13, 10];
  }

  lemma {:induction false} BulksOnWire(args: seq<Text>)
    requires Printable(args)
    ensures IsBulks(Bulks(args), args)
  {
    hide Bulk, IsBulk;
    if args != [] {
      BulkOnWire(args[0]);
      BulksOnWire(args[1..]);
      var k := |Bulk(args[0])|;
      assert Bulks(args)[..k] == Bulk(args[0]) && Bulks(args)[k..] == Bulks(args[1..]);
    }
  }

  lemma ArrayOnWire(args: seq<Text>)
    requires Printable(args)
    ensures IsArray(Array(args), args)
  {
    hide IsNumber, IsBulks;
    DigitsNumber(|args|);
    BulksOnWire(args);
    assert Array(args) == [42] + Digits(|args|) + [13, 10] + Bulks(args);
  }

  // ---------- what is in the format is read as what it says

  lemma {:induction false} ValueNumeral(ds: Text)
    requires forall i :: 0 <= i < |ds| ==> 48 <= ds[i] <= 57
    ensures (forall i :: 0 <= i < |ds| ==> IsDigit(ds[i])) && Numeral(ds) == Value(ds)
  {
    if ds != [] {
      ValueNumeral(ds[..|ds| - 1]);
    }
  }

  lemma ReadWireNumber(s: Ideal, ds: Text, n: nat, rest: Text)
    requires (s.parser.stage == 1 || s.parser.stage == 3) && s.parser.digits == [] && IsNumber(ds, n)
    ensures IdealRun(s, ds + CRLF + rest) == IdealRun(Ideal(Numbered(s.parser, n), false), rest)
  {
    hide IdealRun, Value, Numeral;
    var p := s.parser;
    ValueNumeral(ds);
    assert IsDigit(ds[0]);
    assert Atoi(ds) == Some(n);
    assert ds + CRLF + rest == ds + (CRLF + rest);
    ReadDigits(s, ds, CRLF + rest);
    assert p.digits + ds == ds;
    ReadEnd(Ideal(p.(digits := ds), false), rest);
  }

  /** A bulk string behind its dollar sign. */
  lemma ReadWireBulk(s: Ideal, bytes: Text, arg: Text, rest: Text)
    requires s.parser.stage == 3 && s.parser.digits == [] && s.parser.cargIndex == 0 && IsBulk(bytes, arg)
    ensures bytes != [] && bytes[0] == 36
    ensures IdealRun(s, bytes[1..] + rest)
            == var t := Closed(Loaded(s.parser, arg));
               if t.status == More then IdealRun(Ideal(t.parser, false), rest)
               else IdealResult(Ideal(t.parser, false), rest, Done)
  {
    hide IdealRun, IsNumber;
    var ds: Text :| IsNumber(ds, |arg|) && bytes == [36] + ds + [13, 10] + arg + [13, 10];
    var p := s.parser;
    var tail := arg + (CRLF + rest);
    assert bytes[1..] + rest == ds + CRLF + tail;
    ReadWireNumber(s, ds, |arg|, tail);
    var p1 := Numbered(p, |arg|);
    ReadData(Ideal(p1, false), arg, CRLF + rest);
    ReadClose(Ideal(Loaded(p1, arg), if arg == [] then false else arg[|arg| - 1] == CR), rest);
    assert Closed(Loaded(p1, arg)) == Closed(Loaded(p, arg));
  }

  lemma DollarStep(s: Ideal, bytes: Text, rest: Text)
    requires Waiting(s.parser) && bytes != [] && bytes[0] == 36
    ensures IdealRun(s, bytes + rest) == IdealRun(Ideal(s.parser.(stage := 3), false), bytes[1..] + rest)
  {
    assert (bytes + rest)[0] == 36 && (bytes + rest)[1..] == bytes[1..] + rest;
  }

  /** One argument of an array. */
  lemma ReadWireArg(s: Ideal, bytes: Text, arg: Text, rest: Text)
    requires Waiting(s.parser) && |s.parser.args| < s.parser.argsCount && IsBulk(bytes, arg) && arg != []
    ensures var p := s.parser.(args := s.parser.args + [arg]);
            IdealRun(s, bytes + rest)
            == if |p.args| < p.argsCount then IdealRun(Ideal(p, false), rest)
               else IdealResult(Ideal(p.(stage := 0), false), rest, Done)
  {
    hide IdealRun, IsBulk;
    ReadWireBulk(Ideal(s.parser.(stage := 3), false), bytes, arg, rest);
    DollarStep(s, bytes, rest);
  }

  lemma {:induction false} ReadWireArgs(s: Ideal, bytes: Text, args: seq<Text>, rest: Text)
    requires Waiting(s.parser) && AllFilled(args) && args != [] && IsBulks(bytes, args)
    requires |s.parser.args| + |args| == s.parser.argsCount
    ensures IdealRun(s, bytes + rest)
            == IdealResult(Ideal(s.parser.(stage := 0, args := s.parser.args + args), false), rest, Done)
    decreases |args|
  {
    hide IdealRun, IsBulk;
    var p := s.parser;
    var k: nat :| k <= |bytes| && IsBulk(bytes[..k], args[0]) && IsBulks(bytes[k..], args[1..]);
    assert bytes + rest == bytes[..k] + (bytes[k..] + rest);
    ReadWireArg(s, bytes[..k], args[0], bytes[k..] + rest);
    if |args| > 1 {
      var p1 := p.(args := p.args + [args[0]]);
      ReadWireArgs(Ideal(p1, false), bytes[k..], args[1..], rest);
      assert p1.args + args[1..] == p.args + args;
    } else {
      assert args == [args[0]] && args[1..] == [];
      assert bytes[k..] + rest == rest;
    }
  }

  lemma StarStep(s: Ideal, ds: Text, tail: Text, rest: Text)
    requires Fresh(s.parser)
    ensures var p := s.parser.(stage := 1, argType := if s.parser.client then 4 else s.parser.argType);
            IdealRun(s, [42] + ds + [13, 10] + tail + rest) == IdealRun(Ideal(p, false), ds + CRLF + (tail + rest))
  {
    var behind := ds + CRLF + (tail + rest);
    assert [42] + ds + [13, 10] + tail + rest == [42] + behind;
    assert ([42] + behind)[0] == 42 && ([42] + behind)[1..] == behind;
  }

  lemma ReadWireArray(s: Ideal, bytes: Text, args: seq<Text>, rest: Text)
    requires Fresh(s.parser) && IsArray(bytes, args) && args != [] && AllFilled(args)
    ensures var p := s.parser.(argsCount := |args|, argType := if s.parser.client then 4 else s.parser.argType);
            IdealRun(s, bytes + rest) == IdealResult(Ideal(p.(stage := 0, args := args), false), rest, Done)
  {
    hide IdealRun, IsNumber, IsBulks;
    var ds: Text, tail: Text :| IsNumber(ds, |args|) && IsBulks(tail, args) && bytes == [42] + ds + [13, 10] + tail;
    StarStep(s, ds, tail, rest);
    var p1 := s.parser.(stage := 1, argType := if s.parser.client then 4 else s.parser.argType);
    ReadWireNumber(Ideal(p1, false), ds, |args|, tail + rest);
    ReadWireArgs(Ideal(Numbered(p1, |args|), false), tail, args, rest);
    assert [] + args == args;
  }

  lemma ReadWireSingle(s: Ideal, bytes: Text, arg: Text, rest: Text)
    requires Fresh(s.parser) && s.parser.client && IsBulk(bytes, arg) && arg != []
    ensures IdealRun(s, bytes + rest)
            == IdealResult(Ideal(s.parser.(argType := 3, args := [arg]), false), rest, Done)
  {
    var p1 := FirstByte(s.parser, DOLLAR).parser;
    ReadWireBulk(Ideal(p1, false), bytes, arg, rest);
    assert (bytes + rest)[0] == DOLLAR && (bytes + rest)[1..] == bytes[1..] + rest;
    assert IdealRun(s, bytes + rest) == IdealRun(Ideal(p1, false), bytes[1..] + rest);
  }

  // ---------- streams

  /** What can come out as it is: arguments that are not empty, and ASCII lines. A server reads arrays only. */
  predicate Readable(client: bool, item: Item) {
    match item
    case Many(args) => args != [] && AllFilled(args)
    case One(arg) => client && arg != []
    case Told(text) => client && Plain(text)
    case Failure(text) => client && Plain(text)
  }

  predicate AllReadable(client: bool, items: seq<Item>) { forall i :: 0 <= i < |items| ==> Readable(client, items[i]) }

  /** The kinds that the client tells apart: 1 a simple string, 2 an error, 3 a bulk string, 4 an array. */
  function Meant(client: bool, item: Item): Command {
    match item
    case Many(args) => Command(if client then 4 else 0, args)
    case One(arg) => Command(3, [arg])
    case Told(text) => Command(1, [text])
    case Failure(text) => Command(2, [text])
  }

  function AllMeant(client: bool, items: seq<Item>): seq<Command> {
    if items == [] then [] else [Meant(client, items[0])] + AllMeant(client, items[1..])
  }

  lemma ReadItem(s: Ideal, bytes: Text, item: Item, rest: Text)
    requires Fresh(s.parser) && IsItem(bytes, item) && Readable(s.parser.client, item)
    ensures var r := IdealRun(s, bytes + rest);
            && r.status == Done && r.rest == rest && Complete(r.state.parser) == Meant(s.parser.client, item)
            && Fresh(Taken(r.state.parser)) && r.state.parser.client == s.parser.client
    ensures bytes != []
  {
    hide IdealRun, Plain, IsArray, IsBulk;
    match item {
      case Many(args) =>
        ReadWireArray(s, bytes, args, rest);
        ArrayStarts(bytes, args);
      case One(arg) =>
        ReadWireSingle(s, bytes, arg, rest);
        BulkStarts(bytes, arg);
      case Told(text) =>
        PlainOneLine(text);
        MessageRead(s, 43, text, rest);
        assert bytes == Message(43, text);
      case Failure(text) =>
        PlainOneLine(text);
        MessageRead(s, 45, text, rest);
        assert bytes == Message(45, text);
    }
  }

  lemma ArrayStarts(bytes: Text, args: seq<Text>)
    requires IsArray(bytes, args)
    ensures bytes != [] && bytes[0] == 42
  {
  }

  lemma BulkStarts(bytes: Text, arg: Text)
    requires IsBulk(bytes, arg)
    ensures bytes != [] && bytes[0] == 36
  {
  }

  lemma {:induction false} ReadStream(s: Ideal, bytes: Text, items: seq<Item>)
    requires Fresh(s.parser) && IsStream(bytes, items) && AllReadable(s.parser.client, items)
    ensures var d := IdealDrain(s, bytes);
            d.commands == AllMeant(s.parser.client, items) && !d.failed && Fresh(d.state.parser)
    decreases |items|
  {
    hide IdealRun, IsItem, Meant, Readable;
    if items != [] {
      var k: nat :| k <= |bytes| && IsItem(bytes[..k], items[0]) && IsStream(bytes[k..], items[1..]);
      assert Readable(s.parser.client, items[0]);
      assert bytes == bytes[..k] + bytes[k..];
      ReadItem(s, bytes[..k], items[0], bytes[k..]);
      var r := IdealRun(s, bytes);
      ReadStream(Ideal(Taken(r.state.parser), r.state.afterCr), bytes[k..], items[1..]);
    }
  }

  /** Any bytes in the format, from whatever printer, however they are cut into chunks: what they say is what comes out,
      if and only if no chunk completes an argument begun earlier without the line feed behind it. */
  lemma WireRead(client: bool, bytes: Text, items: seq<Item>, chunks: seq<Text>)
    requires IsStream(bytes, items) && AllReadable(client, items) && Concat(chunks) == bytes
    ensures var r := Feed(NewParser(client), chunks);
            r.commands == AllMeant(client, items) && !r.failed <==> Unsplit(NewParser(client), chunks)
  {
    hide IdealDrain, Feed, Unsplit, IsStream;
    var p := NewParser(client);
    ReadStream(Ideal(p, false), bytes, items);
    if Unsplit(p, chunks) {
      FeedIsIdeal(p, false, chunks);
    } else {
      SplitFails(p, false, chunks);
    }
  }

  // ---------- some bytes

  const PING: Text := [80, 73, 78, 71]
  const PING_BYTES: Text := [42, 49, 13, 10, 36, 52, 13, 10, 80, 73, 78, 71, 13, 10]
  const OK: Text := [79, 75]

  lemma OneChunk(client: bool, chunk: Text)
    ensures Unsplit(NewParser(client), [chunk]) && Concat([chunk]) == chunk
  {
    assert [chunk][1..] == [];
    assert chunk + [] == chunk;
  }

  /** One item in one chunk. */
  lemma OneRead(client: bool, bytes: Text, item: Item)
    requires IsItem(bytes, item) && Readable(client, item)
    ensures var r := Feed(NewParser(client), [bytes]); r.commands == [Meant(client, item)] && !r.failed
  {
    hide IsItem, Feed, Readable, Meant, Unsplit, Concat;
    var items := [item];
    assert items[1..] == [] && bytes[..|bytes|] == bytes && bytes[|bytes|..] == [];
    assert IsStream([], []);
    assert IsStream(bytes, items);
    OneChunk(client, bytes);
    WireRead(client, bytes, items, [bytes]);
    assert AllMeant(client, items) == [Meant(client, item)] + [];
  }

  lemma OneDigit(d: Text, n: int)
    requires |d| == 1 && 48 <= d[0] <= 57 && n == d[0] - 48
    ensures IsNumber(d, n)
  {
    assert d[..0] == [];
  }

  lemma PrintPing()
    ensures Array([PING]) == PING_BYTES
  {
    var args := [PING];
    assert args[1..] == [];
    assert Digits(1) == [49] && Digits(4) == [52];
    assert Bulk(PING) == [36, 52, 13, 10, 80, 73, 78, 71, 13, 10];
    hide Bulk;
    assert Bulks(args) == Bulk(PING) + [];
  }

  /** The command PING is printed as *1 $4 PING; a server reads these bytes as PING, and a client as an array of one. */
  lemma PingBytes()
    ensures Array([PING]) == PING_BYTES
    ensures var r := Feed(NewParser(false), [PING_BYTES]); r.commands == [Command(0, [PING])] && !r.failed
    ensures var r := Feed(NewParser(true), [PING_BYTES]); r.commands == [Command(4, [PING])] && !r.failed
  {
    PrintPing();
    hide Array, Feed, IsArray;
    ArrayOnWire([PING]);
    OneRead(false, PING_BYTES, Many([PING]));
    OneRead(true, PING_BYTES, Many([PING]));
  }

  /** +OK is a message. */
  lemma MessageBytes()
    ensures var r := Feed(NewParser(true), [[43, 79, 75, 13, 10]]); r.commands == [Command(1, [OK])] && !r.failed
  {
    hide Feed;
    OneRead(true, [43, 79, 75, 13, 10], Told(OK));
  }

  /** -ERR no is an error. */
  lemma ErrorBytes()
    ensures var r := Feed(NewParser(true), [[45, 69, 82, 82, 32, 110, 111, 13, 10]]);
            r.commands == [Command(2, [[69, 82, 82, 32, 110, 111]])] && !r.failed
  {
    hide Feed;
    OneRead(true, [45, 69, 82, 82, 32, 110, 111, 13, 10], Failure([69, 82, 82, 32, 110, 111]));
  }

  /** $2 OK is a single result. */
  lemma ResultBytes()
    ensures var r := Feed(NewParser(true), [[36, 50, 13, 10, 79, 75, 13, 10]]);
            r.commands == [Command(3, [OK])] && !r.failed
  {
    var bytes: Text := [36, 50, 13, 10, 79, 75, 13, 10];
    hide Feed;
    OneDigit([50], 2);
    hide IsNumber;
    assert bytes == [36] + [50] + [13, 10] + OK + [13, 10];
    assert IsBulk(bytes, OK);
    OneRead(true, bytes, One(OK));
  }

  /** A server refuses whatever does not begin with "*", at its first byte. */
  lemma FirstByteRefused(chunk: Text)
    requires chunk != [] && chunk[0] != 42
    ensures var r := Feed(NewParser(false), [chunk]); r.failed && r.commands == []
  {
    assert [chunk][1..] == [];
  }

  // ---------- what is refused

  predicate IsDecimal(ds: Text) { ds != [] && forall i :: 0 <= i < |ds| ==> 48 <= ds[i] <= 57 }

  lemma MagnitudeIs(ds: Text)
    ensures Magnitude(ds) == if IsDecimal(ds) then Some(Value(ds)) else None
  {
    hide Value, Numeral;
    if i :| 0 <= i < |ds| && !IsDigit(ds[i]) {
      assert !IsDecimal(ds);
    } else if ds != [] {
      assert forall i :: 0 <= i < |ds| ==> IsDigit(ds[i]);
      assert IsDecimal(ds);
      ValueNumeral(ds);
    }
  }

  /** A count or a length is read if and only if it is decimal, with a sign or without, within 64 bits. */
  lemma NumberIff(s: Text, n: int)
    ensures Atoi(s) == Some(n) <==>
              || (IsDecimal(s) && n == Value(s) <= 9223372036854775807)
              || (s != [] && s[0] == 43 && IsDecimal(s[1..]) && n == Value(s[1..]) <= 9223372036854775807)
              || (s != [] && s[0] == 45 && IsDecimal(s[1..]) && n == -Value(s[1..]) >= -9223372036854775808)
  {
    hide Value, Magnitude;
    MagnitudeIs(s);
    if s != [] {
      MagnitudeIs(s[1..]);
    }
  }

  /** A line feed must follow a carriage return, in a line with a number, behind an argument, and in a message; and a
      number has at most 64 bytes. */
  lemma StrayBytesRefused(p: Parser, afterCr: bool, b: Byte)
    ensures p.stage in {1, 3, 4, 5} && Missing(p) <= 0 && !afterCr ==> ByteStep(p, 10, afterCr).status == Failed
    ensures p.stage in {1, 3} && |p.digits| == 64 && b != 13 && b != 10 ==> ByteStep(p, b, afterCr).status == Failed
    ensures p.stage in {1, 3} && afterCr && Atoi(p.digits).None? ==> ByteStep(p, 10, afterCr).status == Failed
    ensures p.stage == 2 && b != 36 ==> ByteStep(p, b, afterCr).status == Failed
  {
  }
}
