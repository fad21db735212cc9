/** Round trips: the parser recovers what the printers print, command after command, for every chunking but one kind. */
module RespRoundTrip {
  import opened RespModel
  import opened RespProofs

  /** Lengths are 64-bit numbers. */
  predicate Printable(args: seq<Text>) {
    |args| <= MAX_INT && forall i :: 0 <= i < |args| ==> |args[i]| <= MAX_INT
  }

  predicate AllFilled(args: seq<Text>) { forall i :: 0 <= i < |args| ==> args[i] != [] }

  /** The arguments that are not empty. */
  function Filled(args: seq<Text>): seq<Text> {
    if args == [] then [] else (if args[0] == [] then [] else [args[0]]) + Filled(args[1..])
  }

  lemma {:induction false} FilledIff(args: seq<Text>)
    ensures |Filled(args)| <= |args| && (|Filled(args)| == |args| <==> AllFilled(args))
    ensures AllFilled(args) ==> Filled(args) == args
  {
    if args != [] {
      FilledIff(args[1..]);
      if AllFilled(args) {
        assert AllFilled(args[1..]);
        assert args == [args[0]] + args[1..];
      }
      if |Filled(args)| == |args| {
        assert args[0] != [] && AllFilled(args[1..]);
        assert forall i :: 0 <= i < |args| ==> args[i] == if i == 0 then args[0] else args[1..][i - 1];
      }
    }
  }

  /** The parser waits for the next argument. */
  predicate Waiting(p: Parser) {
    p.stage == 2 && p.digits == [] && p.cargIndex == 0 && p.cargLen == 0
  }

  lemma ReadDollar(s: Ideal, arg: Text, rest: Text)
    requires Waiting(s.parser)
    ensures IdealRun(s, Bulk(arg) + rest) == IdealRun(Ideal(s.parser.(stage := 3), false), Bulk(arg)[1..] + rest)
  {
    assert (Bulk(arg) + rest)[0] == DOLLAR && (Bulk(arg) + rest)[1..] == Bulk(arg)[1..] + rest;
  }

  /** One argument of an array. */
  lemma ReadArg(s: Ideal, arg: Text, rest: Text)
    requires Waiting(s.parser) && |s.parser.args| < s.parser.argsCount && |arg| <= MAX_INT
    ensures var p := s.parser.(args := s.parser.args + Filled([arg]));
            IdealRun(s, Bulk(arg) + rest)
            == if |p.args| < p.argsCount then IdealRun(Ideal(p, false), rest)
               else IdealResult(Ideal(p.(stage := 0), false), rest, Done)
  {
    hide IdealRun, Bulk;
    ReadDollar(s, arg, rest);
    ReadBulk(Ideal(s.parser.(stage := 3), false), arg, rest);
    assert Filled([arg]) == if arg == [] then [] else [arg];
    assert s.parser.args + [] == s.parser.args;
  }

  lemma FilledParts(args: seq<Text>)
    requires args != []
    ensures Filled(args) == Filled([args[0]]) + Filled(args[1..])
    ensures |args| == 1 ==> Filled([args[0]]) == Filled(args)
  {
    var first := [args[0]];
    assert first[1..] == [];
    assert Filled(first[1..]) == [];
    if |args| == 1 {
      assert args == first;
    }
  }

  lemma Associative<T>(a: seq<T>, b: seq<T>, c: seq<T>)
    ensures a + b + c == a + (b + c)
  {
  }

  lemma BulksParts(args: seq<Text>, rest: Text)
    requires args != []
    ensures Bulks(args) + rest == Bulk(args[0]) + (Bulks(args[1..]) + rest)
    ensures |args| == 1 ==> Bulks(args[1..]) + rest == rest
  {
    hide Bulk;
    assert Bulks(args) == Bulk(args[0]) + Bulks(args[1..]);
    Associative(Bulk(args[0]), Bulks(args[1..]), rest);
    if |args| == 1 {
      assert args[1..] == [];
    }
  }

  /** The arguments of an array: empty ones are lost, and the command is complete when as many as announced were
      stored. */
  lemma {:induction false} ReadArgs(s: Ideal, args: seq<Text>, rest: Text)
    requires Waiting(s.parser) && Printable(args) && |s.parser.args| + |args| <= s.parser.argsCount && args != []
    ensures var p := s.parser.(args := s.parser.args + Filled(args));
            IdealRun(s, Bulks(args) + rest)
            == if |p.args| < p.argsCount then IdealRun(Ideal(p, false), rest)
               else IdealResult(Ideal(p.(stage := 0), false), rest, Done)
    decreases |args|
  {
    hide IdealRun, Bulk, Bulks, Filled;
    var p := s.parser;
    var first := [args[0]];
    FilledParts(args);
    BulksParts(args, rest);
    ReadArg(s, args[0], Bulks(args[1..]) + rest);
    FilledIff(first);
    if |args| > 1 {
      var p1 := p.(args := p.args + Filled(first));
      ReadArgs(Ideal(p1, false), args[1..], rest);
      FilledIff(args[1..]);
      assert p.args + Filled(first) + Filled(args[1..]) == p.args + (Filled(first) + Filled(args[1..]));
    }
  }

  /** The parser is at the start of a command. */
  predicate Fresh(p: Parser) {
    (p.client || p.argType == 0) && p.stage == 0 && p.argsCount == 0 && p.digits == [] && p.cargIndex == 0
      && p.cargLen == 0 && p.args == []
  }

  lemma ReadStar(s: Ideal, n: nat, rest: Text)
    requires Fresh(s.parser) && n <= MAX_INT
    ensures var p := s.parser.(stage := 2, argsCount := n, argType := if s.parser.client then 4 else s.parser.argType);
            IdealRun(s, [STAR] + Digits(n) + CRLF + rest) == IdealRun(Ideal(p, false), rest)
  {
    var tail := Digits(n) + CRLF + rest;
    assert [STAR] + Digits(n) + CRLF + rest == [STAR] + tail;
    assert ([STAR] + tail)[0] == STAR && ([STAR] + tail)[1..] == tail;
    var p1 := FirstByte(s.parser, STAR).parser;
    assert IdealRun(s, [STAR] + tail) == IdealRun(Ideal(p1, false), tail);
    ReadNumber(Ideal(p1, false), n, rest);
  }

  function ArrayState(p: Parser, args: seq<Text>): Parser {
    p.(argsCount := |args|, argType := if p.client then 4 else p.argType, args := Filled(args))
  }

  /** A printed array, for every list of arguments: it is read as the arguments that are not empty, and the command is
      complete if and only if there are arguments and none is empty. */
  lemma ArrayRead(s: Ideal, args: seq<Text>, rest: Text)
    requires Fresh(s.parser) && Printable(args)
    ensures var p := ArrayState(s.parser, args);
            IdealRun(s, Array(args) + rest)
            == if args != [] && AllFilled(args) then IdealResult(Ideal(p.(stage := 0), false), rest, Done)
               else IdealRun(Ideal(p.(stage := 2), false), rest)
  {
    hide IdealRun, Digits;
    assert Array(args) + rest == [STAR] + Digits(|args|) + CRLF + (Bulks(args) + rest);
    ReadStar(s, |args|, Bulks(args) + rest);
    FilledIff(args);
    var p := s.parser.(stage := 2, argsCount := |args|, argType := if s.parser.client then 4 else s.parser.argType);
    if args != [] {
      ReadArgs(Ideal(p, false), args, rest);
      assert p.args + Filled(args) == Filled(args);
    } else {
      assert Bulks(args) + rest == rest;
    }
  }

  // ---------- the reference parser on a stream

  datatype IdealRead = IdealRead(commands: seq<Command>, state: Ideal, failed: bool)

  lemma {:induction false} IdealMoves(s: Ideal, input: Text)
    ensures var r := IdealRun(s, input);
            && |r.rest| <= |input| && r.rest == input[|input| - |r.rest|..]
            && (r.status == Done ==>
                  |r.rest| < |input| && r.state.afterCr == (input[|input| - |r.rest| - 1] == CR))
            && (r.status == More ==> r.rest == [] && (input != [] ==> r.state.afterCr == (input[|input| - 1] == CR)))
    decreases |input|
  {
    hide IdealStep;
    if input != [] {
      var t := IdealStep(s, input[0]);
      if t.status == More {
        IdealMoves(Ideal(t.parser, input[0] == CR), input[1..]);
      }
    }
  }

  function IdealDrain(s: Ideal, input: Text): IdealRead
    decreases |input|
  {
    if input == [] then IdealRead([], s, false)
    else
      IdealMoves(s, input);
      var r := IdealRun(s, input);
      match r.status
      case More => IdealRead([], r.state, false)
      case Failed => IdealRead([], r.state, true)
      case Done =>
        var d := IdealDrain(Ideal(Taken(r.state.parser), r.state.afterCr), r.rest);
        d.(commands := [Complete(r.state.parser)] + d.commands)
  }

  /** A bulk string on its own, as the server sends a single result: it is read as itself, and as nothing at all when it
      is empty. */
  lemma BulkRead(s: Ideal, arg: Text, rest: Text)
    requires Fresh(s.parser) && s.parser.client && |arg| <= MAX_INT
    ensures IdealRun(s, Bulk(arg) + rest)
            == IdealResult(Ideal(s.parser.(argType := 3, args := Filled([arg])), false), rest, Done)
  {
    assert (Bulk(arg) + rest)[0] == DOLLAR && (Bulk(arg) + rest)[1..] == Bulk(arg)[1..] + rest;
    var p1 := FirstByte(s.parser, DOLLAR).parser;
    assert IdealRun(s, Bulk(arg) + rest) == IdealRun(Ideal(p1, false), Bulk(arg)[1..] + rest);
    hide IdealRun, Bulk;
    ReadBulk(Ideal(p1, false), arg, rest);
    assert Filled([arg]) == if arg == [] then [] else [arg];
  }

  // ---------- streams

  /** A client sends arrays; a server sends a single result as a bulk string. */
  function Print(toClient: bool, args: seq<Text>): Text {
    if toClient && |args| == 1 then Bulk(args[0]) else Array(args)
  }

  /** The stream of a list of commands or replies. */
  function Stream(toClient: bool, commands: seq<seq<Text>>): Text {
    if commands == [] then [] else Print(toClient, commands[0]) + Stream(toClient, commands[1..])
  }

  /** The kind that the parser notes for it. */
  function KindOf(toClient: bool, args: seq<Text>): nat {
    if !toClient then 0 else if |args| == 1 then 3 else 4
  }

  /** What comes out of the parser for a stream. */
  function Sent(toClient: bool, commands: seq<seq<Text>>): seq<Command> {
    if commands == [] then []
    else [Command(KindOf(toClient, commands[0]), commands[0])] + Sent(toClient, commands[1..])
  }

  predicate Good(args: seq<Text>) { args != [] && AllFilled(args) && Printable(args) }

  predicate AllGood(commands: seq<seq<Text>>) { forall i :: 0 <= i < |commands| ==> Good(commands[i]) }

  /** Every list of non-empty arguments is recovered, and the parser is ready for the next one. */
  lemma PrintRead(s: Ideal, args: seq<Text>, rest: Text)
    requires Fresh(s.parser) && Good(args)
    ensures var r := IdealRun(s, Print(s.parser.client, args) + rest);
            && r.status == Done && r.rest == rest
            && Complete(r.state.parser) == Command(KindOf(s.parser.client, args), args)
            && Fresh(Taken(r.state.parser)) && r.state.parser.client == s.parser.client
    ensures Print(s.parser.client, args) != []
  {
    hide IdealRun, Digits;
    FilledIff(args);
    if s.parser.client && |args| == 1 {
      assert args == [args[0]];
      BulkRead(s, args[0], rest);
    } else {
      ArrayRead(s, args, rest);
    }
  }

  /** One command per call on pipelined input. */
  lemma {:induction false} StreamRead(s: Ideal, commands: seq<seq<Text>>)
    requires Fresh(s.parser) && AllGood(commands)
    ensures var d := IdealDrain(s, Stream(s.parser.client, commands));
            d.commands == Sent(s.parser.client, commands) && !d.failed && Fresh(d.state.parser)
    decreases |commands|
  {
    hide IdealRun, Print;
    if commands != [] {
      assert Good(commands[0]);
      var rest := Stream(s.parser.client, commands[1..]);
      PrintRead(s, commands[0], rest);
      var r := IdealRun(s, Print(s.parser.client, commands[0]) + rest);
      StreamRead(Ideal(Taken(r.state.parser), r.state.afterCr), commands[1..]);
    }
  }
}
