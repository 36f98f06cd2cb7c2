/** A client of the server and the parser of its requests: networking.c. */
module Networking {
  import opened Options
  import opened Bytes
  import opened Resp
  import opened RespParser

  datatype Step = Go | Wait | Fail

  class RedisClient {
    const env: Env
    var querybuf: Text
    var reqtype: Kind
    var multibulklen: nat
    var bulklen: int
    var argv: Argv
    var closeAfterReply: bool
    var blocked: bool
    var executed: seq<Argv>

    function View(): Client
      reads this
    {
      Client(querybuf, reqtype, multibulklen, bulklen, argv, closeAfterReply, blocked, executed)
    }

    constructor (env: Env)
      ensures this.env == env && View() == Client([], Unknown, 0, -1, [], false, false, []) && Resting(View())
    {
      this.env := env;
      querybuf, reqtype, multibulklen, bulklen, argv := [], Unknown, 0, -1, [];
      closeAfterReply, blocked, executed := false, false, [];
    }

    method SetProtocolError(pos: nat)
      requires pos <= |querybuf|
      modifies this
      ensures View() == old(View()).(closing := true, buf := old(querybuf)[pos..])
    {
      closeAfterReply := true;
      querybuf := querybuf[pos..];
    }

    /** What parsing the rest of the request, from pos on, comes to. */
    function Ahead(pos: nat): Parse
      requires pos <= |querybuf|
      reads this
    {
      Args(querybuf[..pos], querybuf[pos..], multibulklen, bulklen, argv)
    }

    /** Reading the length of the next argument. */
    method ReadBulkLength(pos: nat) returns (step: Step, next: nat)
      requires pos <= |querybuf| && multibulklen > 0 && bulklen == -1 && !closeAfterReply
      modifies this
      ensures step == Go ==>
        && next <= |querybuf| && bulklen >= 0 && Ahead(next) == old(Ahead(pos))
        && View() == old(View()).(buf := querybuf, len := bulklen)
      ensures step == Wait ==>
        && next == pos && View() == old(View())
        && Ahead(pos) == Parse(More, querybuf[..pos], querybuf[pos..], multibulklen, -1, argv)
      ensures step == Fail ==>
        && View() == old(View()).(closing := true, buf := old(Ahead(pos)).Kept())
        && old(Ahead(pos)).status in {TooBig, Malformed}
        && old(Ahead(pos)).left == multibulklen && old(Ahead(pos)).len == -1 && old(Ahead(pos)).argv == argv
    {
      ghost var before, s := querybuf[..pos], querybuf[pos..];
      assert before + s == querybuf && s[0..] == s;
      next := pos;
      var newline := Find(querybuf[pos..], CR);
      if newline < 0 {
        if |querybuf| > INLINE_MAX {
          SetProtocolError(0);
          return Fail, pos;
        }
        return Wait, pos;
      }
      newline := pos + newline;
      if newline > |querybuf| - 2 { return Wait, pos; }
      if querybuf[pos] != DOLLAR {
        SetProtocolError(pos);
        return Fail, pos;
      }
      assert querybuf[pos + 1..newline] == s[1..newline - pos];
      var ll := BulkLength(querybuf[pos + 1..newline]);
      if ll < 0 {
        SetProtocolError(pos);
        return Fail, pos;
      }
      next := newline + 2;
      assert querybuf[next..] == s[next - pos..] && querybuf[..next] == before + s[..next - pos];
      if ll >= BIG_ARG {
        querybuf := querybuf[next..];
        next := 0;
      }
      bulklen := ll;
      return Go, next;
    }

    /** Taking the next argument out of the buffer. */
    method TakeBulk(pos: nat) returns (next: nat)
      requires pos <= |querybuf| && multibulklen > 0 && bulklen >= 0 && |querybuf| - pos >= bulklen + 2
      modifies this
      ensures next <= |querybuf| && Ahead(next) == old(Ahead(pos)) && multibulklen == old(multibulklen) - 1
      ensures View() == old(View()).(buf := querybuf, left := multibulklen, len := -1, argv := argv)
    {
      BulkTaken(querybuf, pos, multibulklen, bulklen, argv);
      if pos == 0 && bulklen >= BIG_ARG && |querybuf| == bulklen + 2 {
        AddArgument(querybuf[..|querybuf| - 2]);
        querybuf := [];
        next := 0;
        assert querybuf[..0] == [] && querybuf[0..] == [];
      } else {
        next := pos + bulklen + 2;
        AddArgument(querybuf[pos..pos + bulklen]);
      }
    }

    method AddArgument(arg: Text)
      requires multibulklen > 0
      modifies this`argv, this`bulklen, this`multibulklen
      ensures argv == old(argv) + [arg] && bulklen == -1 && multibulklen == old(multibulklen) - 1
    {
      argv := argv + [arg];
      bulklen := -1;
      multibulklen := multibulklen - 1;
    }

    /** processMultibulkBuffer once the number of arguments is known. */
    method ReadArguments(pos0: nat) returns (ok: bool)
      requires pos0 <= |querybuf| && bulklen >= -1 && (bulklen >= 0 ==> multibulklen > 0) && !closeAfterReply
      modifies this
      ensures var p := old(Ahead(pos0));
        && View() == old(View()).(buf := p.Kept(), left := p.left, len := p.len, argv := p.argv,
                                  closing := p.status in {TooBig, Malformed})
        && ok == (p.status == Ready)
    {
      ghost var p := Ahead(pos0);
      var pos: nat := pos0;
      while multibulklen > 0
        invariant pos <= |querybuf| && bulklen >= -1 && (bulklen >= 0 ==> multibulklen > 0)
        invariant View() == old(View()).(buf := querybuf, left := multibulklen, len := bulklen, argv := argv)
        invariant Ahead(pos) == p
      {
        if bulklen == -1 {
          var step;
          step, pos := ReadBulkLength(pos);
          if step == Fail { return false; }
          if step == Wait { break; }
        }
        if |querybuf| - pos < bulklen + 2 { break; }
        pos := TakeBulk(pos);
      }
      if pos > 0 { querybuf := querybuf[pos..]; }
      return multibulklen == 0;
    }

    /** Reading the number of arguments; zero or less makes a request without any. */
    method ReadCount() returns (step: Step, pos: nat)
      requires multibulklen == 0 && bulklen == -1 && argv == [] && !closeAfterReply
      requires querybuf != [] && querybuf[0] == STAR
      modifies this
      ensures step == Go ==>
        && pos <= |querybuf| && Ahead(pos) == Count(old(querybuf)) && multibulklen > 0
        && View() == old(View()).(left := multibulklen)
      ensures step == Wait ==>
        && View() == old(View()).(buf := querybuf) && Count(old(querybuf)).left == 0
        && Count(old(querybuf)).len == -1 && Count(old(querybuf)).argv == []
        && Count(old(querybuf)).Kept() == querybuf
        && Count(old(querybuf)).status == (if pos == 0 then More else Ready)
      ensures step == Fail ==>
        && View() == old(View()).(closing := true)
        && Count(old(querybuf)) == Parse(Count(old(querybuf)).status, [], querybuf, 0, -1, [])
        && Count(old(querybuf)).status in {TooBig, Malformed}
    {
      var newline := Find(querybuf, CR);
      if newline < 0 {
        if |querybuf| > INLINE_MAX {
          SetProtocolError(0);
          return Fail, 0;
        }
        return Wait, 0;
      }
      StarIsNoLine(querybuf);
      if newline > |querybuf| - 2 { return Wait, 0; }
      var n := Number(querybuf[1..newline]);
      if n.None? || n.value > MAX_ARGS {
        SetProtocolError(0);
        return Fail, 0;
      }
      pos := newline + 2;
      if n.value <= 0 {
        querybuf := querybuf[pos..];
        return Wait, pos;
      }
      multibulklen := n.value;
      return Go, pos;
    }

    lemma StarIsNoLine(s: Text)
      requires s != [] && s[0] == STAR
      ensures Find(s, CR) != 0
    {
    }

    /** processMultibulkBuffer. */
    method ProcessMultibulkBuffer() returns (ok: bool)
      requires Resting(View()) && !closeAfterReply && reqtype == Multibulk && querybuf != []
      modifies this
      ensures var p := old(Request(env, View()));
        && View() == old(View()).(buf := p.Kept(), left := p.left, len := p.len, argv := p.argv,
                                  closing := p.status in {TooBig, Malformed})
        && ok == (p.status == Ready)
    {
      var pos := 0;
      if multibulklen == 0 {
        var step;
        step, pos := ReadCount();
        if step == Fail { return false; }
        if step == Wait { return pos > 0; }
      } else {
        assert querybuf[..0] == [] && querybuf[0..] == querybuf;
      }
      ok := ReadArguments(pos);
    }

    /** processInlineBuffer. */
    method ProcessInlineBuffer() returns (ok: bool)
      requires Resting(View()) && !closeAfterReply && reqtype == Inline && querybuf != []
      modifies this
      ensures var p := old(Request(env, View()));
        && View() == old(View()).(buf := p.Kept(), left := p.left, len := p.len, argv := p.argv,
                                  closing := p.status in {TooBig, Malformed})
        && ok == (p.status == Ready)
    {
      assert multibulklen == 0 && bulklen == -1 && argv == [];
      assert Request(env, View()) == InlineLine(env, querybuf);
      var newline := Find(querybuf, LF);
      if newline < 0 {
        if |querybuf| > INLINE_MAX { SetProtocolError(0); }
        return false;
      }
      ok := ReadLine(newline);
    }

    /** Splitting the line that ends at a line feed, and cutting it off. */
    method ReadLine(feed: nat) returns (ok: bool)
      requires feed < |querybuf| && multibulklen == 0 && bulklen == -1 && argv == [] && !closeAfterReply
      modifies this
      ensures var p := old(LineAt(env, querybuf, feed));
        && View() == old(View()).(buf := p.Kept(), left := p.left, len := p.len, argv := p.argv,
                                  closing := p.status in {TooBig, Malformed})
        && ok == (p.status == Ready)
    {
      var newline := feed;
      if newline != 0 && querybuf[newline - 1] == CR { newline := newline - 1; }
      var words := env.split(querybuf[..newline]);
      if words.None? {
        SetProtocolError(0);
        return false;
      }
      querybuf := if newline + 2 <= |querybuf| then querybuf[newline + 2..] else [];
      argv := KeepNonEmpty(words.value);
      return true;
    }

    method KeepNonEmpty(words: Argv) returns (kept: Argv)
      ensures kept == NonEmptyArgs(words)
    {
      kept := [];
      for j := 0 to |words|
        invariant kept + NonEmptyArgs(words[j..]) == NonEmptyArgs(words)
      {
        assert words[j..][1..] == words[j + 1..];
        if words[j] != [] {
          kept := kept + [words[j]];
        }
      }
      assert words[|words|..] == [] && kept + [] == kept;
    }

    method ResetClient()
      modifies this
      ensures View() == Reset(old(View()))
    {
      argv := [];
      reqtype := Unknown;
      multibulklen := 0;
      bulklen := -1;
    }

    /** processCommand as the parser sees it: the command is executed, and whether it was QUIT. */
    method ProcessCommand() returns (ok: bool)
      modifies this
      ensures View() == old(View()).(done := old(executed) + [argv],
                                     blocked := old(blocked) || env.control(argv) == Block,
                                     closing := old(closeAfterReply) || env.control(argv) == Quit)
      ensures ok == (env.control(argv) != Quit)
    {
      executed := executed + [argv];
      match env.control(argv)
      case Continue => ok := true;
      case Block => blocked, ok := true, true;
      case Quit => closeAfterReply, ok := true, false;
    }

    /** The parser for the kind of request that the buffer holds. */
    method ParseRequest() returns (ok: bool)
      requires Resting(View()) && !closeAfterReply && querybuf != []
      modifies this
      ensures var p := old(Request(env, View()));
        && View() == old(View()).(kind := old(KindOf(View())), buf := p.Kept(), left := p.left, len := p.len,
                                  argv := p.argv,
                                  closing := p.status in {TooBig, Malformed})
        && ok == (p.status == Ready)
    {
      if reqtype == Unknown {
        reqtype := if querybuf[0] == STAR then Multibulk else Inline;
      }
      if reqtype == Inline {
        ok := ProcessInlineBuffer();
      } else {
        ok := ProcessMultibulkBuffer();
      }
    }

    /** Executing what was parsed. */
    method ExecuteRequest()
      modifies this
      ensures View() == if old(argv) == [] then Reset(old(View())) else Executed(env, old(View()))
    {
      if argv == [] {
        ResetClient();
      } else {
        var ok := ProcessCommand();
        if ok { ResetClient(); }
      }
    }

    /** One turn of processInputBuffer's loop. */
    method ProcessRequest() returns (more: bool)
      requires Resting(View()) && !closeAfterReply && querybuf != []
      modifies this
      ensures View() == Turn(env, old(View())) && Resting(View())
      ensures more == (old(Request(env, View())).status == Ready)
    {
      TurnRests(env, View());
      more := ParseRequest();
      if more { ExecuteRequest(); }
    }

    /** processInputBuffer. */
    method ProcessInputBuffer()
      requires Resting(View())
      modifies this
      ensures View() == Input(env, old(View())) && Resting(View())
    {
      while querybuf != []
        invariant Resting(View()) && Input(env, View()) == Input(env, old(View()))
        decreases |querybuf|
      {
        if blocked || closeAfterReply { return; }
        InputTurns(env, View());
        var more := ProcessRequest();
        if !more { return; }
      }
    }

    /** What beforeSleep does for a client that was just unblocked. */
    method ProcessUnblocked()
      requires Resting(View())
      modifies this
      ensures View() == Input(env, old(View()).(blocked := false)) && Resting(View())
    {
      blocked := false;
      if |querybuf| > 0 {
        ProcessInputBuffer();
      }
    }

    /** readQueryFromClient when read returned some bytes, no more than were asked for. */
    method ReadQuery(text: Text)
      requires Resting(View()) && text != []
      modifies this
      ensures View() == Input(env, old(View()).(buf := old(querybuf) + text)) && Resting(View())
    {
      querybuf := querybuf + text;
      ProcessInputBuffer();
    }
  }
}
