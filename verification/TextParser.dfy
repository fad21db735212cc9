/** The incremental parser of both sides and the printers, updated in place. */
module TextParser {
  import Wire
  import opened RespModel
  import opened RespProofs
  import opened RespRoundTrip
  import opened RespMessages

  const CARG_SIZE: nat := 64

  /** One step of the parser that is not data of an argument. */
  lemma ParseByte(p: Parser, buf: Text, i: nat, behind: bool)
    requires i < |buf| && (behind || Missing(p) <= 0)
    ensures var s := ByteStep(p, buf[i], CrBefore(buf, i));
            Parse(p, buf, i, behind)
            == if s.status == More then Parse(s.parser, buf, i + 1, p.stage == 4 && s.parser.stage == 4)
               else Result(s.parser, if s.status == Done then i + 1 else i, s.status)
  {
  }

  lemma ParseEnd(p: Parser, buf: Text, behind: bool)
    ensures Parse(p, buf, |buf|, behind) == Result(p, |buf|, More)
  {
  }

  lemma SliceOfPrefix(s: Text, n: nat, i: nat, j: nat)
    requires i <= j <= n <= |s|
    ensures s[..n][i..j] == s[i..j]
    ensures j == n ==> s[..n][i..] == s[i..j]
  {
  }

  class TextProtocolParser {
    const client: bool
    const buf: array<Byte>
    const carg: array<Byte>
    var args: seq<Text>
    var argType: nat
    var bufIndex: nat
    var bufLen: nat
    var stage: nat
    var argsCount: int
    var cargIndex: int
    var cargLen: int

    ghost predicate Valid()
      reads this
    {
      && carg.Length == CARG_SIZE && buf != carg && bufIndex <= bufLen <= buf.Length && cargIndex >= 0
      && stage <= 5 && (stage == 1 || stage == 3 ==> cargIndex <= CARG_SIZE)
      && (stage != 1 && stage != 3 && stage != 4 ==> cargIndex == 0)
    }

    ghost function View(): Parser
      requires Valid()
      reads this, carg
    {
      Parser(client, stage, argType, argsCount, if stage == 1 || stage == 3 then carg[..cargIndex] else [],
             if stage == 4 then cargIndex else 0, cargLen, args)
    }

    ghost function Buffer(): Text
      requires bufLen <= buf.Length
      reads this, buf
    {
      buf[..bufLen]
    }

    constructor (client: bool, size: nat)
      ensures Valid() && View() == NewParser(client) && fresh(buf) && fresh(carg) && buf.Length == size
    {
      this.client := client;
      buf := new Byte[size](_ => 0);
      carg := new Byte[CARG_SIZE](_ => 0);
      args, argType, bufIndex, bufLen, stage, argsCount, cargIndex, cargLen := [], 0, 0, 0, 0, 0, 0, 0;
    }

    /** What a call must still do. */
    ghost function Rest(behind: bool): Result
      requires Valid()
      reads this, carg, buf
    {
      Parse(View(), Buffer(), bufIndex, behind)
    }

    /** The first byte of a command or reply, and the dollar sign of an argument. */
    method ReadSign() returns (ok: bool)
      requires Valid() && (stage == 0 || stage == 2) && bufIndex < bufLen
      modifies `stage, `argType, `args, `argsCount, `bufIndex
      ensures Valid() && bufLen == old(bufLen)
      ensures if ok then Rest(false) == old(Rest(false)) && bufIndex > old(bufIndex)
              else old(Rest(false)) == Result(View(), bufIndex, Failed)
    {
      ParseByte(View(), Buffer(), bufIndex, false);
      var b := buf[bufIndex];
      if stage == 2 {
        if b != DOLLAR {
          return false;
        }
        stage := 3;
      } else if b == STAR {
        argType := if client then 4 else argType;
        stage := 1;
      } else if client && (b == PLUS || b == MINUS) {
        args := args + [[]];
        argsCount, argType := 0, if b == PLUS then 1 else 2;
        stage := 5;
      } else if client && b == DOLLAR {
        argType, stage := 3, 3;
      } else {
        return false;
      }
      bufIndex := bufIndex + 1;
      return true;
    }

    /** One byte of a line with a number; `over` when the line is over. */
    method ReadNumberByte() returns (ok: bool, over: bool)
      requires Valid() && (stage == 1 || stage == 3) && bufIndex < bufLen
      modifies `stage, `argsCount, `cargLen, `cargIndex, `bufIndex, carg
      ensures Valid() && bufLen == old(bufLen) && Buffer() == old(Buffer())
      ensures if ok then Rest(false) == old(Rest(false)) && bufIndex == old(bufIndex) + 1
              else old(Rest(false)) == Result(View(), bufIndex, Failed)
      ensures ok ==> (over <==> stage != old(stage))
    {
      hide Atoi, Parse;
      ParseByte(View(), Buffer(), bufIndex, false);
      var b := buf[bufIndex];
      assert b == Buffer()[bufIndex];
      if b == LF {
        if bufIndex > 0 && buf[bufIndex - 1] != CR {
          return false, false;
        }
        var n := Atoi(carg[..cargIndex]);
        if n.None? {
          return false, false;
        }
        if stage == 1 {
          argsCount, stage := n.value, 2;
        } else {
          cargLen, stage := n.value, 4;
        }
        cargIndex := 0;
        bufIndex := bufIndex + 1;
        return true, true;
      }
      if b != CR {
        if cargIndex >= CARG_SIZE {
          return false, false;
        }
        carg[cargIndex] := b;
        cargIndex := cargIndex + 1;
        assert carg[..cargIndex] == old(carg[..cargIndex]) + [b];
      }
      bufIndex := bufIndex + 1;
      return true, false;
    }

    method ReadNumber() returns (ok: bool)
      requires Valid() && (stage == 1 || stage == 3) && bufIndex < bufLen
      modifies `stage, `argsCount, `cargLen, `cargIndex, `bufIndex, carg
      ensures Valid() && bufLen == old(bufLen) && Buffer() == old(Buffer())
      ensures if ok then Rest(false) == old(Rest(false)) && bufIndex > old(bufIndex)
              else old(Rest(false)) == Result(View(), bufIndex, Failed)
    {
      hide Parse;
      ok := true;
      var over := false;
      while !over && bufIndex < bufLen
        invariant Valid() && bufLen == old(bufLen) && Buffer() == old(Buffer())
        invariant ok && bufIndex >= old(bufIndex) && (!over ==> stage == old(stage))
        invariant Rest(false) == old(Rest(false))
        invariant bufIndex > old(bufIndex) || !over
        decreases bufLen - bufIndex
      {
        ok, over := ReadNumberByte();
        if !ok {
          return;
        }
      }
    }

    /** Bytes of an argument, as many as are missing or as there are; `enough` when none is missing any more. */
    method ReadData() returns (enough: bool)
      requires Valid() && stage == 4 && bufIndex < bufLen && cargLen - cargIndex > 0
      modifies `args, `cargIndex, `bufIndex
      ensures Valid() && bufLen == old(bufLen) && stage == 4
      ensures if enough then Rest(true) == old(Rest(false)) && bufIndex > old(bufIndex)
              else old(Rest(false)) == Result(View(), bufIndex, More)
    {
      hide Parse;
      ParseData(View(), Buffer(), bufIndex);
      var n := cargLen - cargIndex;
      enough := bufLen - bufIndex >= n;
      var end := if enough then bufIndex + n else bufLen;
      var data := buf[bufIndex..end];
      SliceOfPrefix(buf[..], bufLen, bufIndex, end);
      assert data == buf[..][bufIndex..end] && Buffer() == buf[..][..bufLen];
      if cargIndex == 0 || args == [] {
        args := args + [data];
      } else {
        args := args[..|args| - 1] + [args[|args| - 1] + data];
      }
      cargIndex := if enough then n else cargIndex + (end - bufIndex);
      bufIndex := end;
    }

    /** Looks for the line end behind an argument. */
    method ReadEnd(behind: bool) returns (status: Status)
      requires Valid() && stage == 4 && (behind || cargLen - cargIndex <= 0) && bufIndex <= bufLen
      requires behind || bufIndex < bufLen
      modifies `stage, `cargLen, `cargIndex, `bufIndex
      ensures Valid() && bufLen == old(bufLen)
      ensures status == More && stage == 2 ==> Rest(false) == old(Rest(behind)) && bufIndex > old(bufIndex)
      ensures !(status == More && stage == 2) ==> old(Rest(behind)) == Result(View(), bufIndex, status)
      ensures status == Done ==> stage == 0
    {
      hide Parse;
      ghost var scanning := behind;
      while bufIndex < bufLen
        invariant Valid() && bufLen == old(bufLen) && stage == 4 && cargIndex == old(cargIndex)
                  && cargLen == old(cargLen)
        invariant bufIndex >= old(bufIndex) && (scanning || cargLen - cargIndex <= 0) && (scanning || bufIndex < bufLen)
        invariant Rest(scanning) == old(Rest(behind))
      {
        ParseByte(View(), Buffer(), bufIndex, scanning);
        assert Buffer()[bufIndex] == buf[bufIndex];
        scanning := true;
        if buf[bufIndex] == LF {
          if bufIndex > 0 && buf[bufIndex - 1] != CR {
            return Failed;
          }
          cargIndex, cargLen := 0, 0;
          bufIndex := bufIndex + 1;
          if |args| < argsCount {
            stage := 2;
            return More;
          }
          stage := 0;
          return Done;
        }
        bufIndex := bufIndex + 1;
      }
      ParseEnd(View(), Buffer(), scanning);
      return More;
    }

    /** The text of a simple string or an error. */
    method ReadMessage() returns (status: Status)
      requires Valid() && stage == 5 && bufIndex < bufLen
      modifies `stage, `args, `bufIndex
      ensures Valid() && bufLen == old(bufLen)
      ensures old(Rest(false)) == Result(View(), bufIndex, status) && (status == Done ==> stage == 0)
    {
      hide Parse;
      while bufIndex < bufLen
        invariant Valid() && bufLen == old(bufLen) && stage == 5 && Rest(false) == old(Rest(false))
      {
        ParseByte(View(), Buffer(), bufIndex, false);
        assert Buffer()[bufIndex] == buf[bufIndex];
        var b := buf[bufIndex];
        if b == LF {
          if bufIndex > 0 && buf[bufIndex - 1] != CR {
            return Failed;
          }
          bufIndex := bufIndex + 1;
          stage := 0;
          return Done;
        }
        if b != CR && args != [] {
          args := args[0 := args[0] + Utf8(b)];
        }
        bufIndex := bufIndex + 1;
      }
      ParseEnd(View(), Buffer(), false);
      return More;
    }

    /** One call of the parser: it goes on until the buffer is used up, a command is complete, or the input is wrong. */
    method ParseBuffer() returns (ok: bool)
      requires Valid()
      modifies this, carg
      ensures Valid() && bufLen == old(bufLen) && Buffer() == old(Buffer())
      ensures var r := old(Rest(false));
              View() == r.parser && bufIndex == r.at && (ok <==> r.status != Failed)
                && (r.status == Done ==> stage == 0)
    {
      hide Parse;
      ok := true;
      while bufIndex < bufLen
        invariant Valid() && bufLen == old(bufLen) && Buffer() == old(Buffer()) && ok
        invariant Rest(false) == old(Rest(false))
        decreases bufLen - bufIndex
      {
        if stage == 0 || stage == 2 {
          ok := ReadSign();
          if !ok { return; }
        } else if stage == 1 || stage == 3 {
          ok := ReadNumber();
          if !ok { return; }
        } else if stage == 4 {
          var behind := cargLen - cargIndex > 0;
          if behind {
            var enough := ReadData();
            if !enough { return; }
          }
          var status := ReadEnd(behind);
          if status != More || stage != 2 { return status != Failed; }
        } else {
          var status := ReadMessage();
          return status != Failed;
        }
      }
      ParseEnd(View(), Buffer(), false);
    }

    method Fill(chunk: Text)
      requires Valid() && |chunk| <= buf.Length
      modifies `bufIndex, `bufLen, buf
      ensures Valid() && Buffer() == chunk && bufIndex == 0 && View() == old(View())
    {
      for i := 0 to |chunk|
        invariant buf[..i] == chunk[..i] && carg[..] == old(carg[..])
      {
        buf[i] := chunk[i];
      }
      bufIndex, bufLen := 0, |chunk|;
    }

    /** A chunk arrives: the parser is called until the buffer is used up, and every complete command is taken. */
    method Receive(chunk: Text) returns (commands: seq<Command>, ok: bool)
      requires Valid() && |chunk| <= buf.Length
      modifies this, buf, carg
      ensures Valid() && Read(commands, View(), !ok) == Drain(old(View()), chunk, 0)
    {
      hide Parse, Drain;
      Fill(chunk);
      commands, ok := [], true;
      ghost var whole := Drain(old(View()), chunk, 0);
      assert [] + whole.commands == whole.commands;
      while bufIndex < bufLen
        invariant Valid() && Buffer() == chunk && bufLen == |chunk| && ok
        invariant var rest := Drain(View(), chunk, bufIndex); whole == rest.(commands := commands + rest.commands)
        decreases bufLen - bufIndex
      {
        DrainStep(View(), chunk, bufIndex);
        ghost var start := View();
        ghost var at := bufIndex;
        ok := ParseBuffer();
        ghost var r := Parse(start, chunk, at, false);
        if !ok {
          return;
        }
        if r.status == More {
          MoreInside(start, chunk, at, false);
          DrainEnd(View(), chunk);
        } else {
          Associative(commands, [Command(argType, args)], Drain(Taken(View()), chunk, bufIndex).commands);
        }
        if stage == 0 {
          commands := commands + [Command(argType, args)];
          args, argsCount := [], 0;
        }
      }
      DrainEnd(View(), chunk);
    }
  }

  lemma DrainStep(p: Parser, buf: Text, i: nat)
    requires i < |buf|
    ensures var r := Parse(p, buf, i, false);
            && r.at <= |buf| && (r.status == Done ==> r.at > i) && (r.status == More ==> r.at == |buf|)
            && Drain(p, buf, i) == match r.status
                                   case More => Read([], r.parser, false)
                                   case Failed => Read([], r.parser, true)
                                   case Done => Then(Complete(r.parser), Drain(Taken(r.parser), buf, r.at))
  {
    ParseMoves(p, buf, i, false);
  }

  lemma MoreStep(p: Parser, b: Byte, afterCr: bool)
    requires ByteStep(p, b, afterCr).status == More
    ensures ByteStep(p, b, afterCr).parser.stage != 0
  {
  }

  /** In the middle of a command the parser is not in its first stage. */
  lemma {:induction false} MoreInside(p: Parser, buf: Text, i: nat, behind: bool)
    requires i <= |buf| && (i < |buf| || p.stage != 0) && Parse(p, buf, i, behind).status == More
    ensures Parse(p, buf, i, behind).parser.stage != 0
    decreases |buf| - i, if behind then 0 else 1
  {
    hide ByteStep;
    if i < |buf| {
      if !behind && Missing(p) > 0 {
        var n := Missing(p);
        if |buf| - i >= n {
          MoreInside(p.(args := AddData(p, buf[i..i + n]), cargIndex := n), buf, i + n, true);
        }
      } else {
        var s := ByteStep(p, buf[i], CrBefore(buf, i));
        if s.status == More {
          MoreStep(p, buf[i], CrBefore(buf, i));
          MoreInside(s.parser, buf, i + 1, p.stage == 4 && s.parser.stage == 4);
        }
      }
    }
  }

  lemma DrainEnd(p: Parser, buf: Text)
    ensures Drain(p, buf, |buf|) == Read([], p, false)
  {
  }

  // ---------- printers

  /** What a client sends. */
  method BuildCommand(args: seq<Text>) returns (buf: Text)
    ensures buf == Array(args) && (Printable(args) ==> Wire.IsArray(buf, args))
  {
    buf := [STAR] + Digits(|args|) + CRLF;
    ghost var header := buf;
    assert header + Bulks([]) == header;
    for i := 0 to |args|
      invariant buf == header + Bulks(args[..i])
    {
      BulksPlus(args, i);
      buf := buf + Bulk(args[i]);
    }
    assert args[..|args|] == args;
    if Printable(args) {
      Wire.ArrayOnWire(args);
    }
  }

  lemma {:induction false} BulksPlus(args: seq<Text>, i: nat)
    requires i < |args|
    ensures Bulks(args[..i + 1]) == Bulks(args[..i]) + Bulk(args[i])
    decreases i
  {
    hide Bulk;
    if i == 0 {
      var first := args[..1];
      assert first[1..] == [];
      assert Bulks(first) == Bulk(args[0]) + [];
    } else {
      BulksPlus(args[1..], i - 1);
      assert args[..i + 1][1..] == args[1..][..i] && args[..i][1..] == args[1..][..i - 1];
    }
  }

  const ERR: Text := [69, 82, 82, 32]

  /** What a server sends: an error, a message, a single result or an array of results. */
  method BuildReply(success: bool, text: Text, results: seq<Text>) returns (buf: Text)
    ensures buf == if !success then Message(MINUS, ERR + text)
                   else if results == [] then Message(PLUS, text)
                   else Print(true, results)
    ensures !success ==> Wire.IsLine(buf, 45, [69, 82, 82, 32] + text)
    ensures success && results == [] ==> Wire.IsLine(buf, 43, text)
    ensures success && |results| == 1 && Printable(results) ==> Wire.IsBulk(buf, results[0])
    ensures success && |results| > 1 && Printable(results) ==> Wire.IsArray(buf, results)
  {
    if !success {
      return [MINUS] + (ERR + text) + CRLF;
    }
    if results == [] {
      return [PLUS] + text + CRLF;
    }
    if |results| == 1 {
      if Printable(results) {
        Wire.BulkOnWire(results[0]);
      }
      return Bulk(results[0]);
    }
    buf := BuildCommand(results);
  }
}
