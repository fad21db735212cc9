/** The text protocol (RESP2): printers, the incremental parser of both sides as values, and a byte-by-byte reference
    parser that knows nothing of buffers. */
module RespModel {
  import opened Protocol

  type Byte = x: int | 0 <= x < 256
  type Text = seq<Byte>

  const CR: Byte := 13
  const LF: Byte := 10
  const STAR: Byte := 42
  const PLUS: Byte := 43
  const MINUS: Byte := 45
  const DOLLAR: Byte := 36
  const ZERO: Byte := 48
  const CRLF: Text := [CR, LF]

  // ---------- numbers

  predicate IsDigit(b: Byte) { ZERO <= b <= ZERO + 9 }

  /** A number in decimal. */
  function Digits(n: nat): Text {
    if n < 10 then [ZERO + n] else Digits(n / 10) + [ZERO + n % 10]
  }

  function Numeral(ds: Text): nat
    requires forall i :: 0 <= i < |ds| ==> IsDigit(ds[i])
  {
    if ds == [] then 0
    else
      assert IsDigit(ds[|ds| - 1]);
      Numeral(ds[..|ds| - 1]) * 10 + (ds[|ds| - 1] - ZERO)
  }

  const MAX_INT: nat := 0x7fff_ffff_ffff_ffff

  /** Reads at least one digit. */
  function Magnitude(ds: Text): Option<int> {
    if ds == [] || exists i :: 0 <= i < |ds| && !IsDigit(ds[i]) then None else Some(Numeral(ds))
  }

  /** Reads an optional sign and at least one digit, within 64 bits. */
  function Atoi(s: Text): Option<int> {
    var signed := s != [] && (s[0] == MINUS || s[0] == PLUS);
    var n := Magnitude(if signed then s[1..] else s);
    if n.None? then None
    else if signed && s[0] == MINUS then (if n.value <= MAX_INT + 1 then Some(-n.value) else None)
    else if n.value <= MAX_INT then Some(n.value) else None
  }

  // ---------- printers

  function Bulk(arg: Text): Text { [DOLLAR] + Digits(|arg|) + CRLF + arg + CRLF }

  function Bulks(args: seq<Text>): Text {
    if args == [] then [] else Bulk(args[0]) + Bulks(args[1..])
  }

  function Array(args: seq<Text>): Text { [STAR] + Digits(|args|) + CRLF + Bulks(args) }

  // ---------- the parser

  /** `digits` is the number being read (stages 1 and 3); `cargIndex` counts the bytes of the argument being read
      (stage 4). */
  datatype Parser = Parser(
    client: bool,
    stage: nat,
    argType: nat,
    argsCount: int,
    digits: Text,
    cargIndex: int,
    cargLen: int,
    args: seq<Text>)

  datatype Status = More | Done | Failed

  /** After one byte. */
  datatype Stepped = Stepped(parser: Parser, status: Status)

  function NewParser(client: bool): Parser { Parser(client, 0, 0, 0, [], 0, 0, []) }

  /** A byte taken for a code point and encoded as UTF-8. */
  function Utf8(b: Byte): Text { if b < 0x80 then [b] else [0xc0 + b / 64, 0x80 + b % 64] }

  /** More bytes of the current argument. */
  function AddData(p: Parser, data: Text): seq<Text> {
    if p.cargIndex == 0 || p.args == [] then p.args + [data]
    else p.args[..|p.args| - 1] + [p.args[|p.args| - 1] + data]
  }

  function FirstByte(p: Parser, b: Byte): Stepped {
    if b == STAR then Stepped(p.(stage := 1, argType := if p.client then 4 else p.argType), More)
    else if !p.client then Stepped(p, Failed)
    else if b == DOLLAR then Stepped(p.(stage := 3, argType := 3), More)
    else if b == PLUS || b == MINUS then
      Stepped(p.(stage := 5, argType := if b == PLUS then 1 else 2, argsCount := 0, args := p.args + [[]]), More)
    else Stepped(p, Failed)
  }

  /** A byte of a line that holds a number. */
  function NumberByte(p: Parser, b: Byte, afterCr: bool): Stepped {
    if b == LF then
      var n := Atoi(p.digits);
      if !afterCr || n.None? then Stepped(p, Failed)
      else if p.stage == 1 then Stepped(p.(stage := 2, argsCount := n.value, digits := []), More)
      else Stepped(p.(stage := 4, cargLen := n.value, cargIndex := 0, digits := []), More)
    else if b == CR then Stepped(p, More)
    else if |p.digits| >= 64 then Stepped(p, Failed)
    else Stepped(p.(digits := p.digits + [b]), More)
  }

  /** A byte behind an argument. */
  function EndByte(p: Parser, b: Byte, afterCr: bool): Stepped {
    if b != LF then Stepped(p, More)
    else if !afterCr then Stepped(p, Failed)
    else
      var q := p.(cargIndex := 0, cargLen := 0);
      if |p.args| < p.argsCount then Stepped(q.(stage := 2), More) else Stepped(q.(stage := 0), Done)
  }

  function MessageByte(p: Parser, b: Byte, afterCr: bool): Stepped {
    if b == LF then (if !afterCr then Stepped(p, Failed) else Stepped(p.(stage := 0), Done))
    else if b == CR || p.args == [] then Stepped(p, More)
    else Stepped(p.(args := p.args[0 := p.args[0] + Utf8(b)]), More)
  }

  /** A byte that is not data of an argument. */
  function ByteStep(p: Parser, b: Byte, afterCr: bool): Stepped {
    if p.stage == 0 then FirstByte(p, b)
    else if p.stage == 1 || p.stage == 3 then NumberByte(p, b, afterCr)
    else if p.stage == 2 then (if b == DOLLAR then Stepped(p.(stage := 3), More) else Stepped(p, Failed))
    else if p.stage == 4 then EndByte(p, b, afterCr)
    else MessageByte(p, b, afterCr)
  }

  /** How many bytes of the current argument are missing, as the parser computes it. */
  function Missing(p: Parser): int { if p.stage == 4 then p.cargLen - p.cargIndex else 0 }

  datatype Result = Result(parser: Parser, at: nat, status: Status)

  /** Was the byte before position `i` a CR? At the start of a buffer it is not looked at. */
  predicate CrBefore(buf: Text, i: nat) { i == 0 || i > |buf| || buf[i - 1] == CR }

  /** One call of the parser on the buffer from position `i`; `behind` says that the data of an argument is complete and
      its end is being looked for. When data is complete, the parser stores what was missing as the count of bytes read,
      not the total. */
  function Parse(p: Parser, buf: Text, i: nat, behind: bool): Result
    requires i <= |buf|
    decreases |buf| - i, if behind then 0 else 1
  {
    if i == |buf| then Result(p, i, More)
    else if !behind && Missing(p) > 0 then
      var n := Missing(p);
      if |buf| - i < n then
        Result(p.(args := AddData(p, buf[i..]), cargIndex := p.cargIndex + (|buf| - i)), |buf|, More)
      else Parse(p.(args := AddData(p, buf[i..i + n]), cargIndex := n), buf, i + n, true)
    else
      var s := ByteStep(p, buf[i], CrBefore(buf, i));
      if s.status == More then Parse(s.parser, buf, i + 1, p.stage == 4 && s.parser.stage == 4)
      else Result(s.parser, if s.status == Done then i + 1 else i, s.status)
  }

  // ---------- the reference parser

  /** A parser that knows how many bytes it has read and whether the last one was a CR. */
  datatype Ideal = Ideal(parser: Parser, afterCr: bool)

  function IdealStep(s: Ideal, b: Byte): Stepped {
    if Missing(s.parser) > 0 then
      Stepped(s.parser.(args := AddData(s.parser, [b]), cargIndex := s.parser.cargIndex + 1), More)
    else ByteStep(s.parser, b, s.afterCr)
  }

  datatype IdealResult = IdealResult(state: Ideal, rest: Text, status: Status)

  /** Reads until a command is complete. */
  function IdealRun(s: Ideal, input: Text): IdealResult
    decreases |input|
  {
    if input == [] then IdealResult(s, [], More)
    else
      var t := IdealStep(s, input[0]);
      if t.status == More then IdealRun(Ideal(t.parser, input[0] == CR), input[1..])
      else IdealResult(Ideal(t.parser, input[0] == CR), if t.status == Done then input[1..] else input, t.status)
  }

  // ---------- a connection

  /** A complete command or reply, with the kind that the client goes by: 1 for a simple string, 2 for an error, 3 for a
      bulk string, 4 for an array. The server does not note a kind; it stays 0. */
  datatype Command = Command(kind: nat, args: seq<Text>)

  /** What is complete in a parser. */
  function Complete(p: Parser): Command { Command(p.argType, p.args) }

  /** The caller takes the command and resets the parser. */
  function Taken(p: Parser): Parser { p.(args := [], argsCount := 0) }

  /** Commands in order, the parser, and whether it failed. */
  datatype Read = Read(commands: seq<Command>, parser: Parser, failed: bool)

  function Then(command: Command, r: Read): Read { r.(commands := [command] + r.commands) }

  lemma {:induction false} ParseMoves(p: Parser, buf: Text, i: nat, behind: bool)
    requires i <= |buf|
    ensures var r := Parse(p, buf, i, behind);
            i <= r.at <= |buf| && (r.status == More ==> r.at == |buf|) && (r.status == Done ==> r.at > i)
    decreases |buf| - i, if behind then 0 else 1
  {
    if i < |buf| {
      if !behind && Missing(p) > 0 {
        var n := Missing(p);
        if |buf| - i >= n {
          ParseMoves(p.(args := AddData(p, buf[i..i + n]), cargIndex := n), buf, i + n, true);
        }
      } else {
        var s := ByteStep(p, buf[i], CrBefore(buf, i));
        if s.status == More {
          ParseMoves(s.parser, buf, i + 1, p.stage == 4 && s.parser.stage == 4);
        }
      }
    }
  }

  /** One buffer, parsed call after call until it is used up. */
  function Drain(p: Parser, buf: Text, i: nat): Read
    requires i <= |buf|
    decreases |buf| - i
  {
    if i == |buf| then Read([], p, false)
    else
      ParseMoves(p, buf, i, false);
      var r := Parse(p, buf, i, false);
      match r.status
      case More => Read([], r.parser, false)
      case Failed => Read([], r.parser, true)
      case Done => Then(Complete(r.parser), Drain(Taken(r.parser), buf, r.at))
  }

  /** A connection that delivers its bytes in chunks. */
  function Feed(p: Parser, chunks: seq<Text>): Read
    decreases |chunks|
  {
    if chunks == [] then Read([], p, false)
    else
      var r := Drain(p, chunks[0], 0);
      if r.failed then r
      else
        var rest := Feed(r.parser, chunks[1..]);
        rest.(commands := r.commands + rest.commands)
  }

  function Concat(chunks: seq<Text>): Text {
    if chunks == [] then [] else chunks[0] + Concat(chunks[1..])
  }

  /** The chunk completes an argument that began in an earlier chunk, but does not hold the line feed behind it. */
  predicate SplitsEnd(p: Parser, chunk: Text) {
    && p.stage == 4 && 0 < p.cargIndex < p.cargLen && p.cargLen - p.cargIndex <= |chunk|
    && LF !in chunk[p.cargLen - p.cargIndex..]
  }

  /** No chunk of a connection does that. */
  predicate Unsplit(p: Parser, chunks: seq<Text>)
    decreases |chunks|
  {
    chunks == [] || (!SplitsEnd(p, chunks[0]) && Unsplit(Drain(p, chunks[0], 0).parser, chunks[1..]))
  }
}
