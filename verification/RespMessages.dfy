/** Simple strings and errors: the client reads them as they were sent exactly when they are plain ASCII on one line,
    however they are cut into chunks; and they mix with other replies on one connection. */
module RespMessages {
  import opened RespModel
  import opened RespRoundTrip
  import opened RespChunks

  function Message(sign: Byte, text: Text): Text { [sign] + text + CRLF }

  predicate Plain(text: Text) { forall i :: 0 <= i < |text| ==> text[i] < 0x80 && text[i] != CR && text[i] != LF }

  predicate OneLine(text: Text) { CR !in text && LF !in text }

  /** What the client makes of the bytes of one line. */
  function Encoded(text: Text): Text {
    if text == [] then [] else Utf8(text[0]) + Encoded(text[1..])
  }

  lemma {:induction false} EncodedIff(text: Text)
    ensures |Encoded(text)| >= |text|
    ensures OneLine(text) ==> (Encoded(text) == text <==> Plain(text))
    ensures OneLine(text) && !Plain(text) ==> |Encoded(text)| > |text|
  {
    if text != [] {
      EncodedIff(text[1..]);
      assert text == [text[0]] + text[1..];
      assert OneLine(text) ==> OneLine(text[1..]);
      assert Plain(text) <==> Plain([text[0]]) && Plain(text[1..]) by {
        assert forall i :: 0 < i < |text| ==> text[i] == text[1..][i - 1];
      }
      assert text[0] in text;
    }
  }

  lemma LineByteStep(s: Ideal, b: Byte)
    requires s.parser.stage == 5 && |s.parser.args| == 1 && b != CR && b != LF
    ensures IdealStep(s, b) == Stepped(s.parser.(args := [s.parser.args[0] + Utf8(b)]), More)
  {
    hide Utf8;
    assert s.parser.args[0 := s.parser.args[0] + Utf8(b)] == [s.parser.args[0] + Utf8(b)];
  }

  lemma LineByte(s: Ideal, b: Byte, rest: Text)
    requires s.parser.stage == 5 && |s.parser.args| == 1 && b != CR && b != LF
    ensures IdealRun(s, [b] + rest)
            == IdealRun(Ideal(s.parser.(args := [s.parser.args[0] + Utf8(b)]), false), rest)
  {
    hide Utf8, IdealStep;
    LineByteStep(s, b);
    assert ([b] + rest)[0] == b && ([b] + rest)[1..] == rest;
  }

  lemma {:induction false} ReadLine(s: Ideal, line: Text, rest: Text)
    requires s.parser.stage == 5 && |s.parser.args| == 1 && OneLine(line)
    ensures IdealRun(s, line + rest)
            == IdealRun(Ideal(s.parser.(args := [s.parser.args[0] + Encoded(line)]), line == [] && s.afterCr), rest)
    decreases |line|
  {
    hide IdealRun, Utf8;
    var p := s.parser;
    if line == [] {
      assert line + rest == rest && p.args[0] + Encoded(line) == p.args[0];
      assert p.args == [p.args[0]] && s == Ideal(p, s.afterCr);
    } else {
      assert line[0] in line && OneLine(line[1..]);
      assert line + rest == [line[0]] + (line[1..] + rest);
      LineByte(s, line[0], line[1..] + rest);
      ReadLine(Ideal(p.(args := [p.args[0] + Utf8(line[0])]), false), line[1..], rest);
      Associative(p.args[0], Utf8(line[0]), Encoded(line[1..]));
    }
  }

  lemma MessageEnd(s: Ideal, rest: Text)
    requires s.parser.stage == 5
    ensures IdealRun(s, CRLF + rest) == IdealResult(Ideal(s.parser.(stage := 0), false), rest, Done)
  {
    assert (CRLF + rest)[0] == CR && (CRLF + rest)[1..] == [LF] + rest;
    assert ([LF] + rest)[0] == LF && ([LF] + rest)[1..] == rest;
  }

  /** Simple string or error. */
  function LineKind(sign: Byte): nat { if sign == PLUS then 1 else 2 }

  function MessageParser(p: Parser, sign: Byte): Parser {
    p.(stage := 5, argType := LineKind(sign), argsCount := 0, args := [[]])
  }

  lemma MessageStart(s: Ideal, sign: Byte, rest: Text)
    requires Fresh(s.parser) && s.parser.client && (sign == PLUS || sign == MINUS)
    ensures IdealRun(s, [sign] + rest) == IdealRun(Ideal(MessageParser(s.parser, sign), false), rest)
  {
    assert ([sign] + rest)[0] == sign && ([sign] + rest)[1..] == rest;
    assert s.parser.args + [[]] == [[]];
  }

  predicate IsSign(b: Byte) { b == PLUS || b == MINUS }

  /** A message of one line is read as its bytes taken for code points. */
  lemma MessageRead(s: Ideal, sign: Byte, text: Text, rest: Text)
    requires Fresh(s.parser) && s.parser.client && IsSign(sign) && OneLine(text)
    ensures IdealRun(s, Message(sign, text) + rest)
            == IdealResult(Ideal(MessageParser(s.parser, sign).(stage := 0, args := [Encoded(text)]), false), rest,
              Done)
  {
    hide IdealRun;
    var p := MessageParser(s.parser, sign);
    assert Message(sign, text) + rest == [sign] + (text + (CRLF + rest));
    MessageStart(s, sign, text + (CRLF + rest));
    ReadLine(Ideal(p, false), text, CRLF + rest);
    assert [] + Encoded(text) == Encoded(text);
    MessageEnd(Ideal(p.(args := [Encoded(text)]), false), rest);
  }

  // ---------- streams of replies

  /** What a server sends: results, or a message. */
  datatype Reply = Results(args: seq<Text>) | Line(sign: Byte, text: Text)

  function PrintReply(r: Reply): Text {
    match r
    case Results(args) => Print(true, args)
    case Line(sign, text) => Message(sign, text)
  }

  /** What the client makes of it. */
  function ReadAs(r: Reply): Command {
    match r
    case Results(args) => Command(KindOf(true, args), args)
    case Line(sign, text) => Command(LineKind(sign), [text])
  }

  predicate GoodReply(r: Reply) {
    match r
    case Results(args) => Good(args)
    case Line(sign, text) => IsSign(sign) && Plain(text)
  }

  function ReplyStream(rs: seq<Reply>): Text {
    if rs == [] then [] else PrintReply(rs[0]) + ReplyStream(rs[1..])
  }

  function AllRead(rs: seq<Reply>): seq<Command> {
    if rs == [] then [] else [ReadAs(rs[0])] + AllRead(rs[1..])
  }

  lemma PlainOneLine(text: Text)
    requires Plain(text)
    ensures OneLine(text) && Encoded(text) == text
  {
    EncodedIff(text);
  }

  lemma ReplyRead(s: Ideal, r: Reply, rest: Text)
    requires Fresh(s.parser) && s.parser.client && GoodReply(r)
    ensures var t := IdealRun(s, PrintReply(r) + rest);
            && t.status == Done && t.rest == rest && Complete(t.state.parser) == ReadAs(r)
            && Fresh(Taken(t.state.parser)) && t.state.parser.client
    ensures PrintReply(r) != []
  {
    hide IdealRun, Print, Plain;
    match r {
      case Results(args) => PrintRead(s, args, rest);
      case Line(sign, text) =>
        PlainOneLine(text);
        MessageRead(s, sign, text, rest);
    }
  }

  lemma {:induction false} RepliesRead(s: Ideal, rs: seq<Reply>)
    requires Fresh(s.parser) && s.parser.client && forall i :: 0 <= i < |rs| ==> GoodReply(rs[i])
    ensures var d := IdealDrain(s, ReplyStream(rs)); d.commands == AllRead(rs) && !d.failed && Fresh(d.state.parser)
    decreases |rs|
  {
    hide IdealRun, PrintReply, GoodReply, ReadAs;
    if rs != [] {
      var rest := ReplyStream(rs[1..]);
      ReplyRead(s, rs[0], rest);
      var t := IdealRun(s, PrintReply(rs[0]) + rest);
      RepliesRead(Ideal(Taken(t.state.parser), t.state.afterCr), rs[1..]);
    }
  }

  /** Messages, single results and arrays on one connection: whatever the replies and however the bytes are cut into
      chunks, the client reads exactly these replies if and only if no chunk completes an argument that began in an
      earlier chunk without holding the line feed behind it. */
  lemma ChunkedReplies(rs: seq<Reply>, chunks: seq<Text>)
    requires (forall i :: 0 <= i < |rs| ==> GoodReply(rs[i])) && Concat(chunks) == ReplyStream(rs)
    ensures var r := Feed(NewParser(true), chunks);
            r.commands == AllRead(rs) && !r.failed <==> Unsplit(NewParser(true), chunks)
  {
    hide IdealDrain, Feed, Unsplit;
    var p := NewParser(true);
    RepliesRead(Ideal(p, false), rs);
    if Unsplit(p, chunks) {
      FeedIsIdeal(p, false, chunks);
    } else {
      SplitFails(p, false, chunks);
    }
  }

  // ---------- one message in any chunks

  const START := Ideal(NewParser(true), false)

  /** In the middle of a one-line message, the parser is not reading an argument. */
  lemma PrefixStage(sign: Byte, text: Text, a: Text, b: Text)
    requires IsSign(sign) && OneLine(text) && a + b == Message(sign, text)
    ensures var d := IdealDrain(START, a); !d.failed && d.state.parser.stage != 4
  {
    hide IdealRun;
    DrainTurn(START, a);
    assert a == Message(sign, text)[..|a|] by { assert a == (a + b)[..|a|]; }
    if a == [] {
      EmptyDrain(START);
    } else if |a| <= 1 + |text| {
      var line := text[..|a| - 1];
      assert a == [sign] + (line + []);
      LineSoFar(sign, text, line, []);
      EmptyRun(Ideal(MessageParser(NewParser(true), sign).(args := [Encoded(line)]), false));
    } else if |a| == 2 + |text| {
      assert a == [sign] + (text + [CR]);
      LineSoFar(sign, text, text, [CR]);
      ReturnRead(Ideal(MessageParser(NewParser(true), sign).(args := [Encoded(text)]), false));
    } else {
      assert a == Message(sign, text) + [];
      MessageRead(START, sign, text, []);
      EmptyDrain(Ideal(Taken(MessageParser(NewParser(true), sign).(stage := 0, args := [Encoded(text)])), false));
    }
  }

  lemma LineSoFar(sign: Byte, text: Text, line: Text, rest: Text)
    requires IsSign(sign) && OneLine(text) && |line| <= |text| && line == text[..|line|]
    ensures IdealRun(START, [sign] + (line + rest))
            == IdealRun(Ideal(MessageParser(NewParser(true), sign).(args := [Encoded(line)]), false), rest)
  {
    hide IdealRun;
    MessageStart(START, sign, line + rest);
    ReadLine(Ideal(MessageParser(NewParser(true), sign), false), line, rest);
    assert [] + Encoded(line) == Encoded(line);
  }

  lemma EmptyRun(s: Ideal)
    ensures IdealRun(s, []) == IdealResult(s, [], More)
  {
  }

  lemma ReturnRead(s: Ideal)
    requires s.parser.stage == 5
    ensures IdealRun(s, [CR]) == IdealResult(Ideal(s.parser, true), [], More)
  {
    var cr: Text := [CR];
    assert cr[1..] == [];
  }

  lemma {:induction false} MessageUnsplit(sign: Byte, text: Text, a: Text, chunks: seq<Text>)
    requires IsSign(sign) && OneLine(text) && a + Concat(chunks) == Message(sign, text)
    ensures !IdealDrain(START, a).failed && Unsplit(IdealDrain(START, a).state.parser, chunks)
    decreases |chunks|
  {
    hide IdealDrain, Drain;
    PrefixStage(sign, text, a, Concat(chunks));
    if chunks != [] {
      var d, c, rest := IdealDrain(START, a), chunks[0], Concat(chunks[1..]);
      assert a + (c + rest) == (a + c) + rest;
      PrefixStage(sign, text, a + c, rest);
      IdealDrainSplit(START, a, c);
      DrainSteady(START, a);
      assert c[0..] == c;
      DrainIsIdeal(d.state.parser, d.state.afterCr, c, 0);
      MessageUnsplit(sign, text, a + c, chunks[1..]);
    }
  }

  /** No CR and no LF gets into a message in the parser either, which may look at less than the reference parser. */
  predicate InLine(p: Parser) { p.stage == 5 && |p.args| == 1 && OneLine(p.args[0]) }

  lemma LineStep(p: Parser, b: Byte, afterCr: bool)
    requires InLine(p)
    ensures var t := ByteStep(p, b, afterCr);
            |t.parser.args| == 1 && OneLine(t.parser.args[0]) && (t.status == More ==> t.parser.stage == 5)
  {
  }

  lemma {:induction false} LineParse(p: Parser, buf: Text, i: nat)
    requires InLine(p) && i <= |buf|
    ensures var r := Parse(p, buf, i, false);
            |r.parser.args| == 1 && OneLine(r.parser.args[0]) && (r.status == More ==> r.parser.stage == 5)
    decreases |buf| - i
  {
    hide ByteStep;
    if i < |buf| {
      LineStep(p, buf[i], CrBefore(buf, i));
      var t := ByteStep(p, buf[i], CrBefore(buf, i));
      if t.status == More {
        LineParse(t.parser, buf, i + 1);
      }
    }
  }

  predicate FirstInLine(r: Read) {
    if r.commands == [] then r.failed || InLine(r.parser)
      else |r.commands[0].args| == 1 && OneLine(r.commands[0].args[0])
  }

  lemma LineDrain(p: Parser, buf: Text)
    requires InLine(p)
    ensures FirstInLine(Drain(p, buf, 0))
  {
    hide Parse;
    LineParse(p, buf, 0);
    ParseMoves(p, buf, 0, false);
  }

  lemma {:induction false} LineFeed(p: Parser, chunks: seq<Text>)
    requires InLine(p)
    ensures FirstInLine(Feed(p, chunks))
    decreases |chunks|
  {
    hide Drain;
    if chunks != [] {
      LineDrain(p, chunks[0]);
      var r := Drain(p, chunks[0], 0);
      if !r.failed && r.commands == [] {
        LineFeed(r.parser, chunks[1..]);
      }
    }
  }

  lemma StartDrain(sign: Byte, buf: Text)
    requires IsSign(sign) && buf != [] && buf[0] == sign
    ensures FirstInLine(Drain(NewParser(true), buf, 0))
  {
    var p := FirstByte(NewParser(true), sign).parser;
    assert p.args == [[]] && Parse(NewParser(true), buf, 0, false) == Parse(p, buf, 1, false);
    hide Parse;
    LineParse(p, buf, 1);
    ParseMoves(NewParser(true), buf, 0, false);
  }

  lemma {:induction false} StartFeed(sign: Byte, rest: Text, chunks: seq<Text>)
    requires IsSign(sign) && Concat(chunks) == [sign] + rest
    ensures FirstInLine(Feed(NewParser(true), chunks))
    decreases |chunks|
  {
    hide Drain;
    if chunks[0] == [] {
      NothingDrained(NewParser(true));
      StartFeed(sign, rest, chunks[1..]);
    } else {
      assert chunks[0][0] == Concat(chunks)[0];
      StartDrain(sign, chunks[0]);
      var r := Drain(NewParser(true), chunks[0], 0);
      if !r.failed && r.commands == [] {
        LineFeed(r.parser, chunks[1..]);
      }
    }
  }

  lemma MessageDrained(sign: Byte, text: Text)
    requires IsSign(sign) && OneLine(text)
    ensures var d := IdealDrain(START, Message(sign, text));
            d.commands == [Command(LineKind(sign), [Encoded(text)])] && !d.failed
  {
    hide IdealRun;
    assert Message(sign, text) + [] == Message(sign, text);
    MessageRead(START, sign, text, []);
    DrainTurn(START, Message(sign, text));
    EmptyDrain(Ideal(Taken(MessageParser(NewParser(true), sign).(stage := 0, args := [Encoded(text)])), false));
  }

  /** A simple string or an error, in any chunks, comes out of the client as it was sent if and only if it is plain. */
  lemma MessageIff(sign: Byte, text: Text, chunks: seq<Text>)
    requires IsSign(sign) && Concat(chunks) == Message(sign, text)
    ensures var r := Feed(NewParser(true), chunks);
            r.commands == [Command(LineKind(sign), [text])] && !r.failed <==> Plain(text)
  {
    hide IdealDrain, Feed, Unsplit;
    EncodedIff(text);
    if OneLine(text) {
      MessageDrained(sign, text);
      assert [] + Concat(chunks) == Message(sign, text);
      MessageUnsplit(sign, text, [], chunks);
      EmptyDrain(START);
      FeedIsIdeal(NewParser(true), false, chunks);
    } else {
      NotPlain(text);
      assert Message(sign, text) == [sign] + (text + CRLF);
      StartFeed(sign, text + CRLF, chunks);
    }
  }

  lemma NotPlain(text: Text)
    requires !OneLine(text)
    ensures !Plain(text)
  {
  }
}
