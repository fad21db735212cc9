/** Chunking: a connection may deliver its bytes in any chunks, as long as the chunk that completes an argument begun
    earlier also holds the line feed behind it; with any other chunking the commands come out wrong. */
module RespChunks {
  import opened RespModel
  import opened RespProofs
  import opened RespRoundTrip

  // ---------- the reference parser does not see chunks

  lemma {:induction false} IdealSplit(s: Ideal, a: Text, b: Text)
    ensures var r := IdealRun(s, a);
            IdealRun(s, a + b) == if r.status == More then IdealRun(r.state, b) else r.(rest := r.rest + b)
    decreases |a|
  {
    if a == [] {
      assert a + b == b;
    } else {
      assert (a + b)[0] == a[0] && (a + b)[1..] == a[1..] + b;
      var t := IdealStep(s, a[0]);
      if t.status == More {
        IdealSplit(Ideal(t.parser, a[0] == CR), a[1..], b);
      }
    }
  }

  function Joined(a: IdealRead, b: IdealRead): IdealRead { b.(commands := a.commands + b.commands) }

  lemma DrainTurn(s: Ideal, input: Text)
    ensures var r := IdealRun(s, input);
            match r.status
            case More => IdealDrain(s, input) == IdealRead([], r.state, false)
            case Failed => IdealDrain(s, input) == IdealRead([], r.state, true)
            case Done =>
              var d := IdealDrain(Ideal(Taken(r.state.parser), r.state.afterCr), r.rest);
              |r.rest| < |input| && IdealDrain(s, input) == d.(commands := [Complete(r.state.parser)] + d.commands)
  {
    IdealMoves(s, input);
  }

  lemma {:induction false} IdealDrainSplit(s: Ideal, a: Text, b: Text)
    requires !IdealDrain(s, a).failed
    ensures IdealDrain(s, a + b) == Joined(IdealDrain(s, a), IdealDrain(IdealDrain(s, a).state, b))
    decreases |a|
  {
    hide IdealRun, IdealDrain;
    IdealSplit(s, a, b);
    DrainTurn(s, a);
    DrainTurn(s, a + b);
    var r := IdealRun(s, a);
    if r.status == More {
      DrainTurn(r.state, b);
      var d := IdealDrain(r.state, b);
      assert [] + d.commands == d.commands;
    } else {
      var next := Ideal(Taken(r.state.parser), r.state.afterCr);
      IdealDrainSplit(next, r.rest, b);
      var d, e := IdealDrain(next, r.rest), IdealDrain(IdealDrain(s, a).state, b);
      Associative([Complete(r.state.parser)], d.commands, e.commands);
    }
  }

  // ---------- one buffer

  predicate Steady(p: Parser) { Sane(p) && (p.stage != 4 ==> p.cargIndex == 0) }

  lemma {:induction false} RunSteady(s: Ideal, input: Text)
    requires Steady(s.parser)
    ensures Steady(IdealRun(s, input).state.parser)
    ensures IdealRun(s, input).status == Done ==> IdealRun(s, input).state.parser.stage == 0
    decreases |input|
  {
    if input != [] {
      var t := IdealStep(s, input[0]);
      if Missing(s.parser) > 0 {
        AddedSome(s.parser, [input[0]]);
      } else {
        StepSane(s.parser, input[0], s.afterCr);
      }
      if t.status == More {
        RunSteady(Ideal(t.parser, input[0] == CR), input[1..]);
      }
    }
  }

  lemma {:induction false} DrainSteady(s: Ideal, input: Text)
    requires Steady(s.parser)
    ensures Steady(IdealDrain(s, input).state.parser)
    decreases |input|
  {
    hide IdealRun, IdealDrain;
    DrainTurn(s, input);
    RunSteady(s, input);
    var r := IdealRun(s, input);
    if r.status == Done {
      DrainSteady(Ideal(Taken(r.state.parser), r.state.afterCr), r.rest);
    }
  }

  lemma {:induction false} DrainIsIdeal(p: Parser, afterCr: bool, buf: Text, i: nat)
    requires i <= |buf| && Steady(p) && !SplitsEnd(p, buf[i..])
    requires i > 0 ==> afterCr == (buf[i - 1] == CR)
    requires !IdealDrain(Ideal(p, afterCr), buf[i..]).failed
    ensures var d := IdealDrain(Ideal(p, afterCr), buf[i..]);
            Drain(p, buf, i) == Read(d.commands, d.state.parser, false)
    decreases |buf| - i
  {
    hide IdealRun, IdealDrain, Parse, SplitsEnd;
    var s := Ideal(p, afterCr);
    DrainTurn(s, buf[i..]);
    if i < |buf| {
      var t := IdealRun(s, buf[i..]);
      ParseIsIdeal(p, afterCr, buf, i);
      ParseMoves(p, buf, i, false);
      RunSteady(s, buf[i..]);
      IdealMoves(s, buf[i..]);
      var r := Parse(p, buf, i, false);
      if r.status == Done {
        FreshUnsplit(Taken(r.parser), buf[r.at..]);
        DrainIsIdeal(Taken(r.parser), t.state.afterCr, buf, r.at);
      }
    } else {
      assert buf[i..] == [];
      EmptyDrain(s);
    }
  }

  lemma EmptyDrain(s: Ideal)
    ensures IdealDrain(s, []) == IdealRead([], s, false)
  {
  }

  lemma FreshUnsplit(p: Parser, buf: Text)
    requires p.stage == 0
    ensures !SplitsEnd(p, buf)
  {
  }

  // ---------- chunks that respect the line feeds

  /** What the reference parser makes of the first chunk and of the others. */
  lemma FirstChunk(s: Ideal, chunks: seq<Text>)
    requires chunks != [] && !IdealDrain(s, Concat(chunks)).failed
    ensures !IdealDrain(s, chunks[0]).failed
    ensures var d := IdealDrain(s, chunks[0]);
            IdealDrain(s, Concat(chunks)) == Joined(d, IdealDrain(d.state, Concat(chunks[1..])))
  {
    if IdealDrain(s, chunks[0]).failed {
      StaysFailed(s, chunks[0], Concat(chunks[1..]));
    }
    IdealDrainSplit(s, chunks[0], Concat(chunks[1..]));
  }

  lemma {:induction false} StaysFailed(s: Ideal, a: Text, b: Text)
    requires IdealDrain(s, a).failed
    ensures IdealDrain(s, a + b).failed
    decreases |a|
  {
    hide IdealRun, IdealDrain;
    IdealSplit(s, a, b);
    DrainTurn(s, a);
    DrainTurn(s, a + b);
    var r := IdealRun(s, a);
    if r.status == Done {
      StaysFailed(Ideal(Taken(r.state.parser), r.state.afterCr), r.rest, b);
    }
  }

  lemma {:induction false} FeedIsIdeal(p: Parser, afterCr: bool, chunks: seq<Text>)
    requires Steady(p) && Unsplit(p, chunks) && !IdealDrain(Ideal(p, afterCr), Concat(chunks)).failed
    ensures var d := IdealDrain(Ideal(p, afterCr), Concat(chunks));
            Feed(p, chunks) == Read(d.commands, d.state.parser, false)
    decreases |chunks|
  {
    hide IdealDrain, Drain, SplitsEnd;
    var s := Ideal(p, afterCr);
    if chunks == [] {
      EmptyDrain(s);
    } else {
      FirstChunk(s, chunks);
      var d := IdealDrain(s, chunks[0]);
      assert chunks[0][0..] == chunks[0];
      DrainIsIdeal(p, afterCr, chunks[0], 0);
      DrainSteady(s, chunks[0]);
      FeedIsIdeal(d.state.parser, d.state.afterCr, chunks[1..]);
    }
  }

  // ---------- arguments only grow

  predicate Longer(args: seq<Text>, i: nat, n: nat) { i < |args| && |args[i]| > n }

  lemma StepGrows(p: Parser, b: Byte, afterCr: bool, i: nat, n: nat)
    requires Longer(p.args, i, n)
    ensures Longer(ByteStep(p, b, afterCr).parser.args, i, n)
  {
  }

  lemma {:induction false} ParseGrows(p: Parser, buf: Text, at: nat, behind: bool, i: nat, n: nat)
    requires at <= |buf| && Longer(p.args, i, n)
    ensures Longer(Parse(p, buf, at, behind).parser.args, i, n)
    decreases |buf| - at, if behind then 0 else 1
  {
    hide ByteStep;
    if at < |buf| {
      if !behind && Missing(p) > 0 {
        var k := Missing(p);
        if |buf| - at >= k {
          ParseGrows(p.(args := AddData(p, buf[at..at + k]), cargIndex := k), buf, at + k, true, i, n);
        }
      } else {
        var s := ByteStep(p, buf[at], CrBefore(buf, at));
        StepGrows(p, buf[at], CrBefore(buf, at), i, n);
        if s.status == More {
          ParseGrows(s.parser, buf, at + 1, p.stage == 4 && s.parser.stage == 4, i, n);
        }
      }
    }
  }

  /** The next command, if there is one, has a longer argument too. */
  predicate NextLonger(r: Read, i: nat, n: nat) {
    if r.commands == [] then r.failed || Longer(r.parser.args, i, n) else Longer(r.commands[0].args, i, n)
  }

  lemma DrainGrows(p: Parser, buf: Text, i: nat, n: nat)
    requires Longer(p.args, i, n)
    ensures NextLonger(Drain(p, buf, 0), i, n)
  {
    hide Parse;
    ParseGrows(p, buf, 0, false, i, n);
    ParseMoves(p, buf, 0, false);
  }

  lemma {:induction false} FeedGrows(p: Parser, chunks: seq<Text>, i: nat, n: nat)
    requires Longer(p.args, i, n)
    ensures NextLonger(Feed(p, chunks), i, n)
    decreases |chunks|
  {
    hide Drain;
    if chunks != [] {
      DrainGrows(p, chunks[0], i, n);
      var r := Drain(p, chunks[0], 0);
      if !r.failed && r.commands == [] {
        FeedGrows(r.parser, chunks[1..], i, n);
      }
    }
  }

  // ---------- chunks that do not

  /** The parser has lost count: the argument is complete, but it waits for more of it. */
  predicate Lost(p: Parser, i: nat, n: nat) {
    p.stage == 4 && 0 < p.cargIndex < p.cargLen && |p.args| == i + 1 && |p.args[i]| == n
  }

  lemma LostData(p: Parser, buf: Text, i: nat, n: nat)
    requires Lost(p, i, n) && buf != []
    ensures NextLonger(Drain(p, buf, 0), i, n)
  {
    hide Parse;
    ParseData(p, buf, 0);
    var k := Missing(p);
    if |buf| >= k {
      ParseGrows(p.(args := AddData(p, buf[0..0 + k]), cargIndex := k), buf, k, true, i, n);
    }
    ParseMoves(p, buf, 0, false);
  }

  lemma {:induction false} LostFeed(p: Parser, chunks: seq<Text>, i: nat, n: nat)
    requires Lost(p, i, n)
    ensures var r := Feed(p, chunks); r.commands == [] || Longer(r.commands[0].args, i, n)
    decreases |chunks|
  {
    hide Drain;
    if chunks != [] {
      var r := Drain(p, chunks[0], 0);
      if chunks[0] == [] {
        NothingDrained(p);
        LostFeed(p, chunks[1..], i, n);
      } else {
        LostData(p, chunks[0], i, n);
        if !r.failed && r.commands == [] {
          FeedGrows(r.parser, chunks[1..], i, n);
        }
      }
    }
  }

  lemma NothingDrained(p: Parser)
    ensures Drain(p, [], 0) == Read([], p, false)
  {
  }

  /** The parser behind a chunk that completes an argument without its line feed. */
  function Confused(p: Parser, chunk: Text): Parser
    requires SplitsEnd(p, chunk)
  {
    p.(args := AddData(p, chunk[..Missing(p)]), cargIndex := Missing(p))
  }

  lemma {:induction false} NoLineFeed(p: Parser, buf: Text, i: nat)
    requires i <= |buf| && p.stage == 4 && LF !in buf[i..]
    ensures Parse(p, buf, i, true) == Result(p, |buf|, More)
    decreases |buf| - i
  {
    if i < |buf| {
      assert buf[i] == buf[i..][0] && buf[i + 1..] == buf[i..][1..];
      NoLineFeed(p, buf, i + 1);
    }
  }

  lemma SplitDrain(p: Parser, chunk: Text)
    requires SplitsEnd(p, chunk) && Steady(p)
    ensures Drain(p, chunk, 0) == Read([], Confused(p, chunk), false)
    ensures Lost(Confused(p, chunk), |p.args| - 1, |p.args[|p.args| - 1]| + Missing(p))
  {
    hide Parse;
    ParseData(p, chunk, 0);
    NoLineFeed(Confused(p, chunk), chunk, Missing(p));
  }

  /** An argument that the reference parser has read stays as it is. */
  predicate Kept(p: Parser, i: nat, arg: Text) {
    && 1 <= p.stage <= 4 && i < |p.args| && p.args[i] == arg
    && (i + 1 < |p.args| || Missing(p) <= 0 || p.cargIndex == 0)
  }

  lemma StepKeeps(s: Ideal, b: Byte, i: nat, arg: Text)
    requires Kept(s.parser, i, arg) && Steady(s.parser)
    ensures var t := IdealStep(s, b);
            && (t.status == More ==> Kept(t.parser, i, arg) && Steady(t.parser))
            && (t.status == Done ==> i < |t.parser.args| && t.parser.args[i] == arg)
  {
  }

  lemma {:induction false} RunKeeps(s: Ideal, input: Text, i: nat, arg: Text)
    requires Kept(s.parser, i, arg) && Steady(s.parser)
    ensures var r := IdealRun(s, input);
            r.status != Failed ==> i < |r.state.parser.args| && r.state.parser.args[i] == arg
    decreases |input|
  {
    hide IdealStep;
    if input != [] {
      var t := IdealStep(s, input[0]);
      StepKeeps(s, input[0], i, arg);
      if t.status == More {
        RunKeeps(Ideal(t.parser, input[0] == CR), input[1..], i, arg);
      }
    }
  }

  /** What should have come out of such a chunk: a command with the argument as it was complete. */
  lemma SplitExpected(p: Parser, afterCr: bool, chunk: Text, rest: Text)
    requires SplitsEnd(p, chunk) && Steady(p)
    requires var d := IdealDrain(Ideal(p, afterCr), chunk + rest); !d.failed && Fresh(d.state.parser)
    ensures var d := IdealDrain(Ideal(p, afterCr), chunk + rest); var i := |p.args| - 1;
            d.commands != [] && i < |d.commands[0].args| && |d.commands[0].args[i]| == |p.args[i]| + Missing(p)
  {
    hide IdealRun, IdealDrain;
    var s := Ideal(p, afterCr);
    var n, i := Missing(p), |p.args| - 1;
    var data, tail := chunk[..n], chunk[n..] + rest;
    assert data + tail == chunk + rest;
    IdealData(s, data, tail);
    var full := p.(args := AddData(p, data), cargIndex := p.cargIndex + n);
    RunKeeps(Ideal(full, data[n - 1] == CR), tail, i, p.args[i] + data);
    DrainTurn(s, chunk + rest);
  }

  lemma {:induction false} SplitFails(p: Parser, afterCr: bool, chunks: seq<Text>)
    requires Steady(p) && !Unsplit(p, chunks)
    requires var d := IdealDrain(Ideal(p, afterCr), Concat(chunks)); !d.failed && Fresh(d.state.parser)
    ensures Feed(p, chunks).commands != IdealDrain(Ideal(p, afterCr), Concat(chunks)).commands
    decreases |chunks|
  {
    hide IdealDrain, Drain, SplitsEnd;
    var s := Ideal(p, afterCr);
    var rest := Concat(chunks[1..]);
    if SplitsEnd(p, chunks[0]) {
      SplitDrain(p, chunks[0]);
      SplitExpected(p, afterCr, chunks[0], rest);
      LostFeed(Confused(p, chunks[0]), chunks[1..], |p.args| - 1, |p.args[|p.args| - 1]| + Missing(p));
    } else {
      FirstChunk(s, chunks);
      var d := IdealDrain(s, chunks[0]);
      assert chunks[0][0..] == chunks[0];
      DrainIsIdeal(p, afterCr, chunks[0], 0);
      DrainSteady(s, chunks[0]);
      SplitFails(d.state.parser, d.state.afterCr, chunks[1..]);
      SamePrefix(d.commands, Feed(d.state.parser, chunks[1..]).commands, IdealDrain(d.state, rest).commands);
    }
  }

  lemma SamePrefix<T>(a: seq<T>, b: seq<T>, c: seq<T>)
    requires b != c
    ensures a + b != a + c
  {
    assert (a + b)[|a|..] == b && (a + c)[|a|..] == c;
  }

  /** Round trip over a connection, for both sides: whatever list of commands (lists of non-empty arguments) is printed
      and however the bytes are cut into chunks, the parser delivers exactly these commands if and only if no chunk
      completes an argument that began in an earlier chunk without holding the line feed behind it. */
  lemma ChunkedRoundTrip(client: bool, commands: seq<seq<Text>>, chunks: seq<Text>)
    requires AllGood(commands) && Concat(chunks) == Stream(client, commands)
    ensures var r := Feed(NewParser(client), chunks);
            r.commands == Sent(client, commands) && !r.failed <==> Unsplit(NewParser(client), chunks)
  {
    hide IdealDrain, Feed, Unsplit;
    var p := NewParser(client);
    StreamRead(Ideal(p, false), commands);
    if Unsplit(p, chunks) {
      FeedIsIdeal(p, false, chunks);
    } else {
      SplitFails(p, false, chunks);
    }
  }

  // ---------- a chunking that fails

  const AB: Text := [65, 66]

  /** The header of the command `["AB"]` and the first byte of its argument. */
  function Head(): Text { [STAR] + Digits(1) + CRLF + ([DOLLAR] + (Digits(2) + CRLF + [AB[0]])) }

  lemma HeadRead()
    ensures IdealDrain(Ideal(NewParser(false), false), Head())
            == IdealRead([], Ideal(Parser(false, 4, 0, 1, [], 1, 2, [[AB[0]]]), false), false)
  {
    var s := Ideal(NewParser(false), false);
    var data: Text := [AB[0]];
    var tail := Digits(2) + CRLF + data;
    hide Digits;
    ReadStar(s, 1, [DOLLAR] + tail);
    var p := s.parser.(stage := 2, argsCount := 1);
    assert ([DOLLAR] + tail)[0] == DOLLAR && ([DOLLAR] + tail)[1..] == tail;
    assert IdealRun(Ideal(p, false), [DOLLAR] + tail) == IdealRun(Ideal(p.(stage := 3), false), tail);
    ReadNumber(Ideal(p.(stage := 3), false), 2, data);
    var q := p.(stage := 4, cargLen := 2);
    IdealData(Ideal(q, false), data, []);
    assert data + [] == data;
    assert AddData(q, data) == [data];
    DrainTurn(s, Head());
  }

  lemma ConcatThree(a: Text, b: Text, c: Text)
    ensures Concat([a, b, c]) == a + b + c
  {
    var chunks := [a, b, c];
    assert chunks[1..] == [b, c] && [b, c][1..] == [c];
    var last := [c];
    assert last[1..] == [];
    assert Concat(last) == c && Concat([b, c]) == b + c && Concat(chunks) == a + (b + c);
  }

  lemma StreamOfAB()
    ensures Concat([Head(), [AB[1]], CRLF]) == Stream(false, [[AB]])
  {
    hide Digits;
    ConcatThree(Head(), [AB[1]], CRLF);
    var commands: seq<seq<Text>> := [[AB]];
    var args: seq<Text> := [AB];
    assert commands[1..] == [] && args[1..] == [];
    assert Stream(false, commands) == Array(args) + [];
    assert Bulks(args) == Bulk(AB) + [];
  }

  lemma SplitHappens()
    ensures !Unsplit(NewParser(false), [Head(), [AB[1]], CRLF])
  {
    hide Parse, IdealRun, Head;
    var chunks: seq<Text> := [Head(), [AB[1]], CRLF];
    HeadRead();
    FreshUnsplit(NewParser(false), Head());
    assert Head()[0..] == Head();
    DrainIsIdeal(NewParser(false), false, Head(), 0);
    assert chunks[1..][0] == [AB[1]];
    var p := Parser(false, 4, 0, 1, [], 1, 2, [[AB[0]]]);
    assert SplitsEnd(p, [AB[1]]);
  }

  /** The argument in two chunks and its line end in a third: the command does not come out. */
  lemma SplitReached()
    ensures var chunks := [Head(), [AB[1]], CRLF];
            && Concat(chunks) == Stream(false, [[AB]]) && AllGood([[AB]])
            && Feed(NewParser(false), chunks).commands != Sent(false, [[AB]])
  {
    hide Digits, Feed, Drain, Stream, Concat, Unsplit, IdealDrain, Head;
    StreamOfAB();
    SplitHappens();
    StreamRead(Ideal(NewParser(false), false), [[AB]]);
    SplitFails(NewParser(false), false, [Head(), [AB[1]], CRLF]);
  }
}
