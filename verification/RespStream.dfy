/** Streams of commands through the request parser, in any chunks. */
module RespStream {
  import opened Options
  import opened Bytes
  import opened Resp
  import opened RespParser

  // ----- header lines

  /** A header that is there as a whole is read. */
  lemma WholeHeader(c: Byte, n: nat, rest: Text)
    requires c != 0 && c != CR && n <= MAX
    ensures var s := Header(c, n) + rest; var nl := Find(s, CR);
      && nl == |Header(c, n)| - 2 && s[0] == c && Number(s[1..nl]) == Some(n)
      && s[..nl + 2] == Header(c, n) && s[nl + 2..] == rest
  {
    var d := Digits(n);
    var s := Header(c, n) + rest;
    assert s == ([c] + d) + ([CR] + ([LF] + rest));
    FindAt([c] + d, CR, [LF] + rest);
    assert s[1..1 + |d|] == d;
    NumberOfDigits(n);
  }

  /** A header that is cut short is waited for. */
  lemma PartHeader(c: Byte, n: nat, s: Text)
    requires c != 0 && c != CR && s < Header(c, n)
    ensures var nl := Find(s, CR); nl == -1 || nl == |s| - 1
  {
    var u := [c] + Digits(n);
    assert Header(c, n) == u + [CR, LF];
    if |s| <= |u| {
      assert s == u[..|s|];
      FindAt(s, CR, []);
    } else {
      assert s == u + ([CR] + []);
      FindAt(u, CR, []);
    }
  }

  // ----- the arguments of one command

  predicate Sendable(argv: Argv) {
    |argv| <= MAX_ARGS && forall i :: 0 <= i < |argv| ==> |argv[i]| <= MAX_BULK
  }

  /** What a client in the middle of a command still expects of it. */
  function Resume(len: int, rest: Argv): Text {
    if len < 0 || rest == [] then Bulks(rest) else rest[0] + ([CR, LF] + Bulks(rest[1..]))
  }

  /** The bytes at hand are not enough for the next piece: a header line, or an argument. */
  predicate Short(len: int, rest: Argv, s: Text) {
    && rest != []
    && if len < 0 then len == -1 && |s| < |Header(DOLLAR, |rest[0]|)| else len == |rest[0]| && |s| < len + 2
  }

  /** How parsing comes out when the buffer holds the first part of the expected bytes and wire the
      others: all arguments and only those, or a wait for a piece that is not all there, or a
      buffer over its limit; never any other error. */
  predicate Follows(p: Parse, size: nat, argv: Argv, rest: Argv, after: Text, wire: Text) {
    match p.status
    case Ready => p.argv == argv + rest && p.rest + wire == after && p.left == 0 && p.len == -1
    case More =>
      && 0 < p.left <= |rest|
      && p.argv == argv + rest[..|rest| - p.left]
      && Short(p.len, rest[|rest| - p.left..], p.rest)
      && p.rest + wire == Resume(p.len, rest[|rest| - p.left..]) + after
    case TooBig => size > INLINE_MAX && wire != []
    case Malformed => false
  }

  lemma FollowsNext(p: Parse, size: nat, size': nat, argv: Argv, arg: Text, more: Argv, rest: Argv,
          after: Text, wire: Text)
    requires rest == [arg] + more && size' <= size && Follows(p, size', argv + [arg], more, after, wire)
    ensures Follows(p, size, argv, rest, after, wire)
  {
    assert (argv + [arg]) + more == argv + rest;
    if p.status == More {
      var k := |rest| - p.left;
      assert more[k - 1..] == rest[k..];
      assert (argv + [arg]) + more[..k - 1] == argv + rest[..k];
    }
  }

  lemma SplitAt(s: Text, wire: Text, a: Text, b: Text)
    requires s + wire == a + b && |s| >= |a|
    ensures s[..|a|] == a && s[|a|..] + wire == b && s == a + s[|a|..]
  {
    assert (s + wire)[..|a|] == s[..|a|];
    assert (a + b)[|a|..] == b;
    assert (s + wire)[|a|..] == s[|a|..] + wire;
  }

  lemma ShortOf(s: Text, wire: Text, a: Text, b: Text)
    requires s + wire == a + b && |s| < |a|
    ensures s < a && wire != []
  {
    assert (s + wire)[..|s|] == s;
    assert |s + wire| == |a + b|;
  }

  lemma {:induction false} ArgsFollow(before: Text, s: Text, len: int, argv: Argv, rest: Argv, after: Text, wire: Text)
    requires s + wire == Resume(len, rest) + after && Sendable(rest)
    requires len == -1 || (rest != [] && len == |rest[0]|)
    ensures Follows(Args(before, s, |rest|, len, argv), |before| + |s|, argv, rest, after, wire)
    decreases |rest|, if len < 0 then 1 else 0
  {
    if rest == [] {
      assert argv + rest == argv && Resume(len, rest) + after == after;
    } else if len < 0 {
      HeaderFollows(before, s, argv, rest, after, wire);
    } else {
      BulkFollows(before, s, len, argv, rest, after, wire);
    }
  }

  lemma ArgsHeader(before: Text, n: nat, s: Text, left: nat, argv: Argv)
    requires left > 0 && n <= MAX_BULK
    ensures Args(before, Header(DOLLAR, n) + s, left, -1, argv)
      == Args(if n >= BIG_ARG then [] else before + Header(DOLLAR, n), s, left, n, argv)
  {
    WholeHeader(DOLLAR, n, s);
  }

  lemma ArgsPartHeader(before: Text, n: nat, s: Text, left: nat, argv: Argv)
    requires left > 0 && s < Header(DOLLAR, n)
    ensures var p := Args(before, s, left, -1, argv); p == Parse(p.status, before, s, left, -1, argv)
    ensures var p := Args(before, s, left, -1, argv);
      p.status == More || (p.status == TooBig && |before| + |s| > INLINE_MAX)
  {
    PartHeader(DOLLAR, n, s);
  }

  lemma FivePieces(h: Text, a: Text, e: Text, m: Text, f: Text)
    ensures ((h + (a + e)) + m) + f == h + ((a + (e + m)) + f)
  {
  }

  lemma HeaderPieces(s: Text, rest: Argv, after: Text, wire: Text)
    requires rest != [] && s + wire == Resume(-1, rest) + after
    ensures s + wire == Header(DOLLAR, |rest[0]|) + (Resume(|rest[0]|, rest) + after)
  {
    FivePieces(Header(DOLLAR, |rest[0]|), rest[0], [CR, LF], Bulks(rest[1..]), after);
  }

  lemma HeaderShort(before: Text, s: Text, argv: Argv, rest: Argv, after: Text, wire: Text)
    requires rest != [] && |s| < |Header(DOLLAR, |rest[0]|)| && s + wire == Resume(-1, rest) + after
    requires s < Header(DOLLAR, |rest[0]|) && wire != []
    ensures Follows(Args(before, s, |rest|, -1, argv), |before| + |s|, argv, rest, after, wire)
  {
    ArgsPartHeader(before, |rest[0]|, s, |rest|, argv);
    assert rest[0..] == rest && argv + rest[..0] == argv;
  }

  lemma HeaderFollows(before: Text, s: Text, argv: Argv, rest: Argv, after: Text, wire: Text)
    requires rest != [] && s + wire == Resume(-1, rest) + after && Sendable(rest)
    ensures Follows(Args(before, s, |rest|, -1, argv), |before| + |s|, argv, rest, after, wire)
    decreases |rest|, 1, 0
  {
    var n, h := |rest[0]|, Header(DOLLAR, |rest[0]|);
    var tail := Resume(n, rest) + after;
    HeaderPieces(s, rest, after, wire);
    if |s| < |h| {
      ShortOf(s, wire, h, tail);
      HeaderShort(before, s, argv, rest, after, wire);
    } else {
      SplitAt(s, wire, h, tail);
      var t := s[|h|..];
      ArgsHeader(before, n, t, |rest|, argv);
      ArgsFollow(if n >= BIG_ARG then [] else before + h, t, n, argv, rest, after, wire);
    }
  }

  lemma BulkCut(s: Text, wire: Text, a: Text, more: Text)
    requires s + wire == a + ([CR, LF] + more) && |s| >= |a| + 2
    ensures s[..|a|] == a && s[|a| + 2..] + wire == more
  {
    var bulk := a + [CR, LF];
    assert a + ([CR, LF] + more) == bulk + more;
    SplitAt(s, wire, bulk, more);
    assert s[..|a|] == bulk[..|a|];
  }

  lemma ArgsBulk(before: Text, s: Text, left: nat, len: nat, argv: Argv)
    requires left > 0 && |s| >= len + 2
    ensures Args(before, s, left, len, argv)
      == Args(AfterBulk(before, s, len), s[len + 2..], left - 1, -1, argv + [s[..len]])
  {
  }

  lemma BulkShort(before: Text, s: Text, argv: Argv, rest: Argv, after: Text, wire: Text)
    requires rest != [] && |s| < |rest[0]| + 2 && s + wire == Resume(|rest[0]|, rest) + after
    ensures Follows(Args(before, s, |rest|, |rest[0]|, argv), |before| + |s|, argv, rest, after, wire)
  {
    assert rest[0..] == rest && argv + rest[..0] == argv;
  }

  /** The next argument is all there: what the buffer holds behind it begins the other arguments. */
  lemma BulkPieces(s: Text, rest: Argv, after: Text, wire: Text)
    requires rest != [] && s + wire == Resume(|rest[0]|, rest) + after && |s| >= |rest[0]| + 2
    ensures s[..|rest[0]|] == rest[0] && s[|rest[0]| + 2..] + wire == Resume(-1, rest[1..]) + after
  {
    var more := Bulks(rest[1..]) + after;
    assert Resume(|rest[0]|, rest) + after == rest[0] + ([CR, LF] + more);
    BulkCut(s, wire, rest[0], more);
  }

  lemma BulkFollows(before: Text, s: Text, len: int, argv: Argv, rest: Argv, after: Text, wire: Text)
    requires rest != [] && len == |rest[0]| && s + wire == Resume(len, rest) + after && Sendable(rest)
    ensures Follows(Args(before, s, |rest|, len, argv), |before| + |s|, argv, rest, after, wire)
    decreases |rest|, 0, 0
  {
    if |s| < len + 2 {
      BulkShort(before, s, argv, rest, after, wire);
    } else {
      BulkPieces(s, rest, after, wire);
      var r, t, arg, more := AfterBulk(before, s, len), s[len + 2..], rest[0], rest[1..];
      ArgsBulk(before, s, |rest|, len, argv);
      ArgsFollow(r, t, -1, argv + [arg], more, after, wire);
      FollowsNext(Args(r, t, |more|, -1, argv + [arg]), |before| + |s|, |r| + |t|, argv, arg, more, rest, after, wire);
    }
  }

  // ----- whole streams

  predicate AllSendable(cmds: seq<Argv>) { forall i :: 0 <= i < |cmds| ==> Sendable(cmds[i]) }

  /** The client has consumed a stream up to some point in todo[0]: its buffer and the bytes still on
      the wire are what remains. */
  predicate Synced(c: Client, todo: seq<Argv>, wire: Text) {
    && !c.closing && c.kind != Inline && AllSendable(todo)
    && if c.left == 0 then
         c.len == -1 && c.argv == [] && (c.kind == Unknown || c.buf != []) && c.buf + wire == Wires(todo)
       else
         && todo != [] && c.kind == Multibulk && c.left <= |todo[0]|
         && var k := |todo[0]| - c.left;
            && c.argv == todo[0][..k]
            && (c.len == -1 || c.len == |todo[0][k]|)
            && c.buf + wire == Resume(c.len, todo[0][k..]) + Wires(todo[1..])
  }

  /** The client waits for bytes of todo[0] that are on the wire. */
  predicate Waits(c: Client, todo: seq<Argv>, wire: Text) {
    && Synced(c, todo, wire) && wire != [] && todo != []
    && if c.left == 0 then |c.buf| < |Header(STAR, |todo[0]|)|
       else Short(c.len, todo[0][|todo[0]| - c.left..], c.buf)
  }

  /** The commands that are executed: one without arguments is skipped. */
  function NonEmpty(cmds: seq<Argv>): seq<Argv> {
    if cmds == [] then [] else (if cmds[0] == [] then [] else [cmds[0]]) + NonEmpty(cmds[1..])
  }

  /** How the parse of a request from its start comes out: as above, or a wait for its first line. */
  predicate Counted(s: Text, p: Parse, cmd: Argv, after: Text, wire: Text) {
    if p.status == More && p.left == 0
    then p == Parse(More, [], s, 0, -1, []) && |s| < |Header(STAR, |cmd|)| && wire != [] && s != [] && s[0] == STAR
    else Follows(p, |s|, [], cmd, after, wire)
  }

  /** A request from its start. */
  lemma CountFollows(s: Text, cmd: Argv, after: Text, wire: Text)
    requires s != [] && s + wire == Wire(cmd) + after && Sendable(cmd)
    ensures Counted(s, Count(s), cmd, after, wire)
  {
    var h := Header(STAR, |cmd|);
    var tail := Bulks(cmd) + after;
    assert s + wire == h + tail;
    DigitsFit(|cmd|);
    if |s| < |h| {
      ShortOf(s, wire, h, tail);
      PartHeader(STAR, |cmd|, s);
    } else {
      SplitAt(s, wire, h, tail);
      var t := s[|h|..];
      WholeHeader(STAR, |cmd|, t);
      if cmd == [] {
        assert tail == after && [] + cmd == [];
      } else {
        ArgsFollow(h, t, -1, [], cmd, after, wire);
      }
    }
  }

  lemma SyncedRest(c: Client, todo: seq<Argv>, wire: Text)
    requires Synced(c, todo, wire) && c.left > 0
    ensures var rest := todo[0][|todo[0]| - c.left..];
      && |rest| == c.left && Sendable(rest) && (c.len == -1 || c.len == |rest[0]|)
      && c.buf + wire == Resume(c.len, rest) + Wires(todo[1..])
  {
  }

  /** A request that was begun in an earlier buffer. */
  lemma ResumeFollows(c: Client, todo: seq<Argv>, wire: Text)
    requires Synced(c, todo, wire) && c.left > 0
    ensures var k := |todo[0]| - c.left;
      Follows(Args([], c.buf, c.left, c.len, c.argv), |c.buf|, c.argv, todo[0][k..], Wires(todo[1..]), wire)
  {
    SyncedRest(c, todo, wire);
    ArgsFollow([], c.buf, c.len, c.argv, todo[0][|todo[0]| - c.left..], Wires(todo[1..]), wire);
  }

  lemma MoreWaits(c: Client, p: Parse, todo: seq<Argv>, wire: Text, k: nat)
    requires todo != [] && AllSendable(todo) && !c.closing && c.kind == Multibulk && k <= |todo[0]|
    requires p.status == More && p.left > 0 && wire != []
    requires Follows(p, |c.buf|, todo[0][..k], todo[0][k..], Wires(todo[1..]), wire)
    ensures Waits(c.(buf := p.rest, left := p.left, len := p.len, argv := p.argv), todo, wire)
  {
    var m := |todo[0]| - k - p.left;
    assert todo[0][k..][m..] == todo[0][k + m..];
    assert todo[0][..k] + todo[0][k..][..m] == todo[0][..k + m];
  }

  lemma ShortLacks(p: Parse, size: nat, argv: Argv, rest: Argv, after: Text, wire: Text)
    requires Follows(p, size, argv, rest, after, wire) && p.status == More
    ensures wire != []
  {
    ResumeLong(p.len, rest[|rest| - p.left..], p.rest);
    assert p.rest + [] == p.rest;
  }

  lemma ResumeLong(len: int, rest: Argv, s: Text)
    requires Short(len, rest, s)
    ensures |s| < |Resume(len, rest)|
  {
  }

  /** How one turn of a client that is in step with its stream comes out. */
  ghost predicate TurnOutcome(env: Env, c: Client, todo: seq<Argv>, wire: Text)
    requires todo != []
  {
    match Request(env, c).status
    case Ready => Request(env, c).argv == todo[0] && Request(env, c).rest + wire == Wires(todo[1..])
    case More => Waits(Turn(env, c), todo, wire)
    case TooBig => |c.buf| > INLINE_MAX
    case Malformed => false
  }

  lemma CountedOutcome(c: Client, p: Parse, todo: seq<Argv>, wire: Text)
    requires Synced(c, todo, wire) && c.buf != [] && c.left == 0 && todo != []
    requires Counted(c.buf, p, todo[0], Wires(todo[1..]), wire)
    ensures p.status == Ready ==> p.argv == todo[0] && p.rest + wire == Wires(todo[1..])
    ensures p.status == More ==>
              Waits(c.(kind := Multibulk, buf := p.rest, left := p.left, len := p.len, argv := p.argv), todo, wire)
    ensures p.status == TooBig ==> |c.buf| > INLINE_MAX
    ensures p.status != Malformed
  {
    assert [] + todo[0] == todo[0] && todo[0][..0] == [] && todo[0][0..] == todo[0];
    if p.status == More && p.left > 0 {
      ShortLacks(p, |c.buf|, [], todo[0], Wires(todo[1..]), wire);
      MoreWaits(c.(kind := Multibulk), p, todo, wire, 0);
    }
  }

  lemma FirstTurn(env: Env, c: Client, todo: seq<Argv>, wire: Text)
    requires Synced(c, todo, wire) && c.buf != [] && c.left == 0
    ensures todo != [] && KindOf(c) == Multibulk && TurnOutcome(env, c, todo, wire)
  {
    BufferStarts(c, todo, wire);
    CountFollows(c.buf, todo[0], Wires(todo[1..]), wire);
    CountedOutcome(c, Count(c.buf), todo, wire);
    assert Request(env, c) == Count(c.buf);
  }

  lemma LaterTurn(env: Env, c: Client, todo: seq<Argv>, wire: Text)
    requires Synced(c, todo, wire) && c.buf != [] && c.left > 0
    ensures todo != [] && KindOf(c) == Multibulk && TurnOutcome(env, c, todo, wire)
  {
    var k := |todo[0]| - c.left;
    var p := Args([], c.buf, c.left, c.len, c.argv);
    assert Request(env, c) == p;
    ResumeFollows(c, todo, wire);
    assert todo[0][..k] + todo[0][k..] == todo[0];
    if p.status == More {
      ShortLacks(p, |c.buf|, c.argv, todo[0][k..], Wires(todo[1..]), wire);
      MoreWaits(c, p, todo, wire, k);
    }
  }

  /** One turn of a client that is in step with its stream. */
  lemma TurnFollows(env: Env, c: Client, todo: seq<Argv>, wire: Text)
    requires Synced(c, todo, wire) && c.buf != []
    ensures todo != [] && KindOf(c) == Multibulk && TurnOutcome(env, c, todo, wire)
  {
    if c.left == 0 { FirstTurn(env, c, todo, wire); } else { LaterTurn(env, c, todo, wire); }
  }

  lemma BufferStarts(c: Client, todo: seq<Argv>, wire: Text)
    requires Synced(c, todo, wire) && c.buf != [] && c.left == 0
    ensures todo != [] && c.buf[0] == STAR && c.buf + wire == Wire(todo[0]) + Wires(todo[1..])
  {
    assert (c.buf + wire)[0] == c.buf[0];
    assert |c.buf + wire| > 0;
    assert Wires(todo)[0] == Wire(todo[0])[0];
  }

  predicate NeverQuits(env: Env, cmds: seq<Argv>) {
    forall i :: 0 <= i < |cmds| ==> env.control(cmds[i]) != Quit
  }

  predicate NeverBlocks(env: Env, cmds: seq<Argv>) {
    forall i :: 0 <= i < |cmds| ==> env.control(cmds[i]) != Block
  }

  /** Being through with a command, whatever it was. */
  lemma ResetSyncs(c: Client, todo: seq<Argv>, wire: Text)
    requires !c.closing && AllSendable(todo) && c.buf + wire == Wires(todo)
    ensures Synced(Reset(c), todo, wire) && Reset(c).done == c.done && Reset(c).blocked == c.blocked
    ensures Synced(Reset(c).(blocked := true), todo, wire)
  {
  }

  lemma DoneCounts(done: seq<Argv>, todo: seq<Argv>)
    requires todo != []
    ensures (if todo[0] == [] then done else done + [todo[0]]) + NonEmpty(todo[1..]) == done + NonEmpty(todo)
  {
    assert (done + [todo[0]]) + NonEmpty(todo[1..]) == done + ([todo[0]] + NonEmpty(todo[1..]));
    assert [] + NonEmpty(todo[1..]) == NonEmpty(todo[1..]);
  }

  /** A whole command was read: it is executed, unless empty, and the client is at the next one. */
  lemma TurnDone(env: Env, c: Client, todo: seq<Argv>, wire: Text)
    requires Synced(c, todo, wire) && c.buf != [] && Request(env, c).status == Ready && NeverQuits(env, todo)
    ensures todo != []
    ensures var d := Turn(env, c);
      && Synced(d, todo[1..], wire)
      && d.done + NonEmpty(todo[1..]) == c.done + NonEmpty(todo)
      && (d.blocked ==> c.blocked || env.control(todo[0]) == Block)
  {
    TurnFollows(env, c, todo, wire);
    DoneCounts(c.done, todo);
    var p := Request(env, c);
    var d := c.(kind := KindOf(c), buf := p.rest, left := p.left, len := p.len, argv := p.argv);
    ResetSyncs(d, todo[1..], wire);
    ResetSyncs(d.(done := c.done + [todo[0]]), todo[1..], wire);
  }

  /** In step, and at the end of what it could process. */
  predicate AtRest(c: Client, todo: seq<Argv>, wire: Text) {
    Synced(c, todo, wire) && (c.blocked || c.buf == [] || Waits(c, todo, wire))
  }

  // ----- the one way to be refused

  /** The guard in front of the errors for headers that are too big: a header line is not all there,
      and the buffer, with what was read but not yet cut off, is over its limit. */
  predicate HeaderOverflows(p: Parse) {
    && p.status in {More, TooBig} && p.len < 0
    && Find(p.rest, CR) < 0 && |p.before| + |p.rest| > INLINE_MAX
  }

  lemma {:induction false} ArgsOverflow(before: Text, s: Text, left: nat, len: int, argv: Argv)
    ensures var p := Args(before, s, left, len, argv); p.status == TooBig <==> HeaderOverflows(p)
    decreases left, if len < 0 then 1 else 0
  {
    if left > 0 && len < 0 {
      var nl := Find(s, CR);
      if 0 <= nl <= |s| - 2 && s[0] == DOLLAR && BulkLength(s[1..nl]) >= 0 {
        var n := BulkLength(s[1..nl]);
        ArgsOverflow(if n >= BIG_ARG then [] else before + s[..nl + 2], s[nl + 2..], left, n, argv);
      }
    } else if left > 0 && |s| >= len + 2 {
      ArgsOverflow(AfterBulk(before, s, len), s[len + 2..], left - 1, -1, argv + [s[..len]]);
    }
  }

  /** A client that sends multibulk requests gets that error exactly when the guard holds. */
  lemma TooBigIsOverflow(env: Env, c: Client)
    requires KindOf(c) != Inline
    ensures Request(env, c).status == TooBig <==> HeaderOverflows(Request(env, c))
  {
    if c.left > 0 {
      ArgsOverflow([], c.buf, c.left, c.len, c.argv);
    } else {
      var nl := Find(c.buf, CR);
      if 0 < nl <= |c.buf| - 2 {
        var n := Number(c.buf[1..nl]);
        if n.Some? && 0 < n.value <= MAX_ARGS {
          ArgsOverflow(c.buf[..nl + 2], c.buf[nl + 2..], n.value, -1, []);
        }
      }
    }
  }

  /** The guard holds for one of the requests, whole ones or a last one cut short, in the buffer. */
  predicate Refused(env: Env, c: Client)
    decreases |c.buf|
  {
    && c.buf != [] && !c.blocked && !c.closing
    && (HeaderOverflows(Request(env, c)) || (Request(env, c).status == Ready && Refused(env, Turn(env, c))))
  }

  /** A turn that does not read a whole command closes the client exactly when the guard holds. */
  lemma TurnStops(env: Env, c: Client, todo: seq<Argv>, wire: Text)
    requires Synced(c, todo, wire) && c.buf != [] && Request(env, c).status != Ready
    ensures var d := Turn(env, c);
      && d.closing == HeaderOverflows(Request(env, c)) && d.done == c.done && d.blocked == c.blocked
      && (d.closing ==> |c.buf| > INLINE_MAX)
      && (!d.closing ==> Waits(d, todo, wire))
  {
    TurnFollows(env, c, todo, wire);
    TooBigIsOverflow(env, c);
  }

  predicate Suffix<T(==)>(rest: seq<T>, todo: seq<T>) {
    |rest| <= |todo| && rest == todo[|todo| - |rest|..]
  }

  lemma SuffixTransitive<T>(a: seq<T>, b: seq<T>, c: seq<T>)
    requires Suffix(a, b) && Suffix(b, c)
    ensures Suffix(a, c)
  {
  }

  /** Client c, at the commands todo, has become d, at the commands rest, having executed those in
      between; it is closed exactly when it was refused. */
  predicate Processed(c: Client, d: Client, todo: seq<Argv>, rest: seq<Argv>, wire: Text, refused: bool) {
    && d.closing == refused && (refused ==> |c.buf| > INLINE_MAX)
    && d.done + NonEmpty(rest) == c.done + NonEmpty(todo) && Suffix(rest, todo)
    && (!refused ==> AtRest(d, rest, wire))
  }

  /** From e, which is client c after one command, to d. */
  lemma ProcessedMore(c: Client, e: Client, d: Client, todo: seq<Argv>, rest: seq<Argv>, wire: Text, refused: bool)
    requires todo != [] && |e.buf| <= |c.buf| && e.done + NonEmpty(todo[1..]) == c.done + NonEmpty(todo)
    requires Processed(e, d, todo[1..], rest, wire, refused)
    ensures Processed(c, d, todo, rest, wire, refused)
  {
    SuffixTransitive(rest, todo[1..], todo);
  }

  /** One whole request out of a buffer that is processed. */
  lemma {:induction false} InputStep(env: Env, c: Client, todo: seq<Argv>, wire: Text) returns (d: Client)
    requires Synced(c, todo, wire) && NeverQuits(env, todo)
    requires c.buf != [] && !c.blocked && Request(env, c).status == Ready
    ensures todo != [] && |d.buf| < |c.buf| && Synced(d, todo[1..], wire)
    ensures d.done + NonEmpty(todo[1..]) == c.done + NonEmpty(todo)
    ensures Input(env, c) == Input(env, d) && Refused(env, c) == Refused(env, d) && NeverQuits(env, todo[1..])
    ensures NeverBlocks(env, todo) ==> NeverBlocks(env, todo[1..]) && !d.blocked
  {
    TurnDone(env, c, todo, wire);
    d := Turn(env, c);
  }

  /** Processing a buffer leaves the client in step with the stream. It is refused exactly when the
      guard holds on the way. */
  lemma {:induction false} InputFollows(env: Env, c: Client, todo: seq<Argv>, wire: Text) returns (rest: seq<Argv>)
    requires Synced(c, todo, wire) && NeverQuits(env, todo)
    ensures Processed(c, Input(env, c), todo, rest, wire, Refused(env, c)) && NeverQuits(env, rest)
    ensures NeverBlocks(env, todo) && !c.blocked ==> NeverBlocks(env, rest) && !Input(env, c).blocked
    decreases |c.buf|
  {
    rest := todo;
    if c.buf != [] && !c.blocked {
      if Request(env, c).status == Ready {
        var d := InputStep(env, c, todo, wire);
        rest := InputFollows(env, d, todo[1..], wire);
        ProcessedMore(c, d, Input(env, d), todo, rest, wire, Refused(env, d));
      } else {
        TurnStops(env, c, todo, wire);
      }
    }
  }

  // ----- runs of reads

  /** Bytes arrive from the socket, or a blocked client is released. */
  datatype Event = Read(text: Text) | Unblock

  function Arrived(c: Client, e: Event): Client {
    match e
    case Read(text) => c.(buf := c.buf + text)
    case Unblock => c.(blocked := false)
  }

  function Run(env: Env, c: Client, es: seq<Event>): Client
    decreases |es|
  {
    if es == [] then c else Run(env, Input(env, Arrived(c, es[0])), es[1..])
  }

  /** All bytes that arrive. */
  function Stream(es: seq<Event>): Text {
    if es == [] then [] else (if es[0].Read? then es[0].text else []) + Stream(es[1..])
  }

  function Idle(): Client { Client([], Unknown, 0, -1, [], false, false, []) }

  /** At some point of the run the guard holds. */
  predicate SomeRefused(env: Env, c: Client, es: seq<Event>)
    decreases |es|
  {
    es != [] && (Refused(env, Arrived(c, es[0])) || SomeRefused(env, Input(env, Arrived(c, es[0])), es[1..]))
  }

  lemma ArrivedSyncs(c: Client, e: Event, todo: seq<Argv>, tail: Text)
    requires Synced(c, todo, (if e.Read? then e.text else []) + tail)
    ensures Synced(Arrived(c, e), todo, tail)
  {
    if e.Read? {
      assert (c.buf + e.text) + tail == c.buf + (e.text + tail);
    } else {
      assert [] + tail == tail;
    }
  }

  /** Nothing happens any more to a client that is being closed. */
  lemma {:induction false} ClosingStays(env: Env, c: Client, es: seq<Event>)
    requires c.closing
    ensures Run(env, c, es).closing && Run(env, c, es).done == c.done
    decreases |es|
  {
    if es != [] {
      ClosingStays(env, Input(env, Arrived(c, es[0])), es[1..]);
    }
  }

  lemma EventFollows(env: Env, c: Client, e: Event, todo: seq<Argv>, tail: Text) returns (rest: seq<Argv>)
    requires Synced(c, todo, (if e.Read? then e.text else []) + tail) && NeverQuits(env, todo)
    ensures var d := Arrived(c, e);
      Processed(d, Input(env, d), todo, rest, tail, Refused(env, d)) && d.done == c.done && NeverQuits(env, rest)
  {
    ArrivedSyncs(c, e, todo, tail);
    rest := InputFollows(env, Arrived(c, e), todo, tail);
  }

  lemma {:induction false} RunFollows(env: Env, c: Client, es: seq<Event>, todo: seq<Argv>, wire: Text)
    returns (rest: seq<Argv>)
    requires AtRest(c, todo, Stream(es) + wire) && NeverQuits(env, todo)
    ensures var d := Run(env, c, es);
      && d.closing == SomeRefused(env, c, es)
      && d.done + NonEmpty(rest) == c.done + NonEmpty(todo) && Suffix(rest, todo)
      && (!d.closing ==> AtRest(d, rest, wire))
    decreases |es|
  {
    if es == [] {
      assert [] + wire == wire;
      rest := todo;
    } else {
      var tail := Stream(es[1..]) + wire;
      assert Stream(es) + wire == (if es[0].Read? then es[0].text else []) + tail;
      rest := EventFollows(env, c, es[0], todo, tail);
      var d := Input(env, Arrived(c, es[0]));
      if d.closing {
        ClosingStays(env, d, es[1..]);
      } else {
        var now := rest;
        rest := RunFollows(env, d, es[1..], now, wire);
        SuffixTransitive(rest, now, todo);
      }
    }
  }

  // ----- how much of a stream has arrived

  /** How many commands of a stream are all there in its first n bytes. */
  function WholeOf(cmds: seq<Argv>, n: nat): (k: nat)
    ensures k <= |cmds|
  {
    if cmds == [] || n < |Wire(cmds[0])| then 0 else 1 + WholeOf(cmds[1..], n - |Wire(cmds[0])|)
  }

  /** Commands that begin within the first n bytes and end behind them are not all there. */
  lemma {:induction false} WholeIs(cmds: seq<Argv>, n: nat, k: nat)
    requires k <= |cmds| && |Wires(cmds)| <= n + |Wires(cmds[k..])|
    requires k < |cmds| ==> n + |Wires(cmds[k + 1..])| < |Wires(cmds)|
    ensures WholeOf(cmds, n) == k
    decreases |cmds|
  {
    if k > 0 {
      assert cmds[1..][k - 1..] == cmds[k..] && (k < |cmds| ==> cmds[1..][k..] == cmds[k + 1..]);
      WiresShrink(cmds[1..], k - 1);
      WholeIs(cmds[1..], n - |Wire(cmds[0])|, k - 1);
    } else {
      assert cmds[0..] == cmds;
    }
  }

  lemma {:induction false} WiresShrink(cmds: seq<Argv>, k: nat)
    requires k <= |cmds|
    ensures |Wires(cmds[k..])| <= |Wires(cmds)|
  {
    if k > 0 {
      assert cmds[1..][k - 1..] == cmds[k..];
      WiresShrink(cmds[1..], k - 1);
    } else {
      assert cmds[0..] == cmds;
    }
  }

  lemma {:induction false} BulksShrink(argv: Argv, k: nat)
    requires k <= |argv|
    ensures |Bulks(argv[k..])| <= |Bulks(argv)|
  {
    if k > 0 {
      assert argv[1..][k - 1..] == argv[k..];
      BulksShrink(argv[1..], k - 1);
    } else {
      assert argv[0..] == argv;
    }
  }

  lemma ResumeBelow(len: int, rest: Argv)
    ensures |Resume(len, rest)| <= |Bulks(rest)| && (rest != [] ==> |Resume(len, rest)| > 0)
  {
  }

  /** What is on the wire belongs to the commands that were not executed. */
  lemma WireWithin(c: Client, todo: seq<Argv>, wire: Text)
    requires Synced(c, todo, wire)
    ensures |wire| <= |Wires(todo)|
  {
    if c.left > 0 {
      var k := |todo[0]| - c.left;
      ResumeBelow(c.len, todo[0][k..]);
      BulksShrink(todo[0], k);
      assert |c.buf + wire| == |c.buf| + |wire|;
    } else {
      assert |c.buf + wire| == |c.buf| + |wire|;
    }
  }

  /** When a client has processed all it can, the next command is not all there. */
  lemma NextNotWhole(c: Client, todo: seq<Argv>, wire: Text)
    requires AtRest(c, todo, wire) && !c.blocked && todo != []
    ensures |Wires(todo[1..])| < |wire|
  {
    assert |c.buf + wire| == |c.buf| + |wire|;
    if c.left > 0 {
      var rest := todo[0][|todo[0]| - c.left..];
      ResumeBelow(c.len, rest);
      if c.buf != [] { ResumeLong(c.len, rest, c.buf); }
    } else {
      assert |Wires(todo)| == |Header(STAR, |todo[0]|)| + |Bulks(todo[0])| + |Wires(todo[1..])|;
    }
  }

  lemma {:induction false} NonEmptyAppend(a: seq<Argv>, b: seq<Argv>)
    ensures NonEmpty(a + b) == NonEmpty(a) + NonEmpty(b)
    decreases |a|
  {
    if a == [] {
      assert a + b == b;
    } else {
      assert (a + b)[1..] == a[1..] + b;
      NonEmptyAppend(a[1..], b);
    }
  }

  /** What was executed when the commands rest are left. */
  lemma CancelRight(a: seq<Argv>, b: seq<Argv>, c: seq<Argv>)
    requires a + c == b + c
    ensures a == b
  {
    assert |a| == |b|;
    assert a == (a + c)[..|a|] && b == (b + c)[..|b|];
  }

  lemma DoneIsFirst(done: seq<Argv>, cmds: seq<Argv>, rest: seq<Argv>)
    requires Suffix(rest, cmds) && done + NonEmpty(rest) == NonEmpty(cmds)
    ensures done == NonEmpty(cmds[..|cmds| - |rest|])
  {
    var first := cmds[..|cmds| - |rest|];
    assert cmds == first + rest;
    NonEmptyAppend(first, rest);
    CancelRight(done, NonEmpty(first), NonEmpty(rest));
  }

  /** Any chunks of the beginning of a stream of commands, with clients blocked and released in
      between. What was executed is always a beginning of what was sent, and exactly the commands that
      arrived whole once the client is not blocked; the client is closed exactly when, at some point,
      a header line was not all there while the buffer was over its limit. */
  lemma AnyChunks(env: Env, cmds: seq<Argv>, es: seq<Event>, wire: Text)
    requires AllSendable(cmds) && NeverQuits(env, cmds) && Stream(es) + wire == Wires(cmds)
    ensures var d := Run(env, Idle(), es);
      && d.done <= NonEmpty(cmds)
      && d.closing == SomeRefused(env, Idle(), es)
      && (!d.closing && !d.blocked ==> d.done == NonEmpty(cmds[..WholeOf(cmds, |Stream(es)|)]))
      && (!d.closing && !d.blocked && wire == [] ==> d.done == NonEmpty(cmds) && d.buf == [])
  {
    assert [] + Wires(cmds) == Wires(cmds);
    var rest := RunFollows(env, Idle(), es, cmds, wire);
    var d := Run(env, Idle(), es);
    assert [] + NonEmpty(cmds) == NonEmpty(cmds);
    if !d.closing && !d.blocked {
      RestIsExact(d, cmds, rest, wire, |Stream(es)|);
    }
  }

  lemma RestIsExact(d: Client, cmds: seq<Argv>, rest: seq<Argv>, wire: Text, n: nat)
    requires AtRest(d, rest, wire) && !d.blocked && Suffix(rest, cmds) && n + |wire| == |Wires(cmds)|
    requires d.done + NonEmpty(rest) == NonEmpty(cmds)
    ensures d.done == NonEmpty(cmds[..WholeOf(cmds, n)])
    ensures wire == [] ==> d.done == NonEmpty(cmds) && d.buf == []
  {
    var k := |cmds| - |rest|;
    WireWithin(d, rest, wire);
    if rest != [] {
      NextNotWhole(d, rest, wire);
      assert rest[1..] == cmds[k + 1..];
    } else {
      assert d.buf + wire == [];
    }
    WholeIs(cmds, n, k);
    DoneIsFirst(d.done, cmds, rest);
    if wire == [] { assert cmds[..k] == cmds; }
  }

  // ----- the read policy

  /** How much readQueryFromClient asks for: no more than the end of a big argument. */
  function ReadLength(c: Client): int {
    if c.kind == Multibulk && c.left != 0 && c.len != -1 && c.len >= BIG_ARG && c.len + 2 - |c.buf| < IOBUF
    then c.len + 2 - |c.buf| else IOBUF
  }

  /** Between reads a buffer holds less than the piece that is waited for. */
  predicate Small(c: Client) {
    if c.left == 0 || c.len == -1 then |c.buf| < 64 else |c.buf| < c.len + 2
  }

  lemma WaitsSmall(c: Client, todo: seq<Argv>, wire: Text)
    requires Synced(c, todo, wire) && (c.buf == [] || Waits(c, todo, wire))
    ensures Small(c)
  {
    if c.buf != [] {
      if c.left == 0 {
        DigitsFit(|todo[0]|);
      } else if c.len == -1 {
        DigitsFit(|todo[0][|todo[0]| - c.left]|);
      }
    }
  }

  /** A buffer that ends no later than a big argument it is waiting for is never over its limit. */
  lemma BigArgument(env: Env, c: Client, todo: seq<Argv>, wire: Text)
    requires Synced(c, todo, wire) && NeverQuits(env, todo)
    requires c.left > 0 && c.len >= BIG_ARG && |c.buf| <= c.len + 2
    ensures !Input(env, c).closing
  {
    if c.buf != [] && !c.blocked {
      TurnFollows(env, c, todo, wire);
      var p := Request(env, c);
      if |c.buf| == c.len + 2 {
        var argv := c.argv + [c.buf[..c.len]];
        assert c.buf[c.len + 2..] == [];
        assert p == Args([], [], c.left - 1, -1, argv);
        assert Find([], CR) == -1;
      }
      if p.status == Ready {
        TurnDone(env, c, todo, wire);
        assert Turn(env, c).buf == [];
      }
    }
  }

  /** One read of no more than the policy allows. */
  lemma ReadIsSafe(env: Env, c: Client, text: Text, todo: seq<Argv>, wire: Text)
    requires Synced(c, todo, text + wire) && NeverQuits(env, todo) && Small(c)
    requires |text| <= ReadLength(c)
    ensures !Input(env, c.(buf := c.buf + text)).closing
  {
    var d := Arrived(c, Read(text));
    ArrivedSyncs(c, Read(text), todo, wire);
    if c.left > 0 && c.len >= BIG_ARG {
      BigArgument(env, d, todo, wire);
    } else {
      var rest := InputFollows(env, d, todo, wire);
    }
  }

  /** Every read brings at least one byte and at most what the policy allows, and only a client that
      is blocked is released. */
  predicate Obeys(env: Env, c: Client, es: seq<Event>)
    decreases |es|
  {
    es != [] ==>
      && (if es[0].Read? then 1 <= |es[0].text| <= ReadLength(c) else c.blocked)
      && Obeys(env, Input(env, Arrived(c, es[0])), es[1..])
  }

  /** One of these reads. */
  lemma ReadFollows(env: Env, c: Client, text: Text, todo: seq<Argv>, tail: Text) returns (rest: seq<Argv>)
    requires Synced(c, todo, text + tail) && NeverQuits(env, todo) && NeverBlocks(env, todo) && !c.blocked
    requires (c.buf == [] || Waits(c, todo, text + tail)) && |text| <= ReadLength(c)
    ensures var d := Arrived(c, Read(text));
      && !Refused(env, d) && AtRest(Input(env, d), rest, tail) && !Input(env, d).blocked
      && NeverQuits(env, rest) && NeverBlocks(env, rest)
  {
    WaitsSmall(c, todo, text + tail);
    ReadIsSafe(env, c, text, todo, tail);
    ArrivedSyncs(c, Read(text), todo, tail);
    rest := InputFollows(env, Arrived(c, Read(text)), todo, tail);
  }

  lemma {:induction false} ObeyedStep(env: Env, c: Client, es: seq<Event>, todo: seq<Argv>, wire: Text)
    returns (d: Client, rest: seq<Argv>)
    requires Synced(c, todo, Stream(es) + wire) && NeverQuits(env, todo) && NeverBlocks(env, todo) && !c.blocked
    requires Obeys(env, c, es) && (c.buf == [] || Waits(c, todo, Stream(es) + wire)) && es != []
    ensures Synced(d, rest, Stream(es[1..]) + wire) && NeverQuits(env, rest) && NeverBlocks(env, rest) && !d.blocked
    ensures Obeys(env, d, es[1..]) && (d.buf == [] || Waits(d, rest, Stream(es[1..]) + wire))
    ensures Run(env, c, es) == Run(env, d, es[1..]) && SomeRefused(env, c, es) == SomeRefused(env, d, es[1..])
  {
    var text, tail := es[0].text, Stream(es[1..]) + wire;
    RunNext(env, c, es);
    StreamFirst(es, text, wire, tail);
    rest := ReadFollows(env, c, text, todo, tail);
    d := Input(env, Arrived(c, es[0]));
  }

  lemma {:induction false} RunNext(env: Env, c: Client, es: seq<Event>)
    requires es != []
    ensures var d := Input(env, Arrived(c, es[0]));
      && Run(env, c, es) == Run(env, d, es[1..])
      && (SomeRefused(env, c, es) <==> Refused(env, Arrived(c, es[0])) || SomeRefused(env, d, es[1..]))
      && (Obeys(env, c, es) ==> Obeys(env, d, es[1..]))
  {
  }

  lemma {:induction false} StreamFirst(es: seq<Event>, text: Text, wire: Text, tail: Text)
    requires es != [] && es[0] == Read(text) && tail == Stream(es[1..]) + wire
    ensures Stream(es) + wire == text + tail
  {
    assert (text + Stream(es[1..])) + wire == text + (Stream(es[1..]) + wire);
  }

  lemma {:induction false} ObeyedFollows(env: Env, c: Client, es: seq<Event>, todo: seq<Argv>, wire: Text)
    requires Synced(c, todo, Stream(es) + wire) && NeverQuits(env, todo) && NeverBlocks(env, todo) && !c.blocked
    requires Obeys(env, c, es) && (c.buf == [] || Waits(c, todo, Stream(es) + wire))
    ensures !SomeRefused(env, c, es) && !Run(env, c, es).blocked
    decreases |es|
  {
    if es != [] {
      var d, rest := ObeyedStep(env, c, es, todo, wire);
      ObeyedFollows(env, d, es[1..], rest, wire);
    }
  }

  /** However the reads of readQueryFromClient cut up the beginning of a stream of commands, every
      command with arguments that arrived whole is executed, once and in order, and there is never a
      protocol error. */
  lemma ReadsExecuteStream(env: Env, cmds: seq<Argv>, es: seq<Event>, wire: Text)
    requires AllSendable(cmds) && NeverQuits(env, cmds) && NeverBlocks(env, cmds)
    requires Stream(es) + wire == Wires(cmds) && Obeys(env, Idle(), es)
    ensures var d := Run(env, Idle(), es);
      && !d.closing && d.done == NonEmpty(cmds[..WholeOf(cmds, |Stream(es)|)])
      && (wire == [] ==> d.done == NonEmpty(cmds) && d.buf == [])
  {
    assert [] + Wires(cmds) == Wires(cmds);
    ObeyedFollows(env, Idle(), es, cmds, wire);
    AnyChunks(env, cmds, es, wire);
  }

  /** A long argument and the first byte of the next header, in one read. */
  function LongRead(a: Text): Text {
    Header(STAR, 2) + (Header(DOLLAR, |a|) + (a + ([CR, LF] + [DOLLAR])))
  }

  lemma LongReadBegins(a: Text)
    ensures LongRead(a) <= Wire([a, a])
  {
    var h := Header(DOLLAR, |a|);
    var first, second := Bulk(a), Bulk(a);
    assert [a, a][1..] == [a] && [a][1..] == [];
    assert Bulks([a]) == second + Bulks([]) == second;
    assert Bulks([a, a]) == first + second;
    assert second == [DOLLAR] + second[1..];
    assert Wire([a, a]) == LongRead(a) + second[1..];
  }

  lemma LongReadParses(a: Text)
    requires INLINE_MAX <= |a| <= MAX_BULK
    ensures Count(LongRead(a)).status == TooBig
  {
    var s := a + ([CR, LF] + [DOLLAR]);
    WholeHeader(STAR, 2, Header(DOLLAR, |a|) + s);
    ArgsHeader(Header(STAR, 2), |a|, s, 2, []);
    assert s[..|a|] == a && s[|a| + 2..] == [DOLLAR];
    PartHeader(DOLLAR, |a|, [DOLLAR]);
    assert |AfterBulk([], s, |a|)| == |a| + 2;
  }

  /** A client at the start of a request whose buffer holds a long argument and just the first byte
      of the next header is cut off, although that is the beginning of a correct request. */
  lemma LongReadIsRefused(env: Env, c: Client, a: Text)
    requires INLINE_MAX <= |a| <= MAX_BULK
    requires !c.closing && !c.blocked && c.kind == Unknown && c.left == 0 && c.buf == LongRead(a)
    ensures Input(env, c).closing && LongRead(a) <= Wire([a, a])
  {
    LongReadBegins(a);
    LongReadParses(a);
    assert LongRead(a)[0] == STAR;
  }

  // ----- blocked clients

  /** The reads that bring t to a client at the start of a request. */
  function Pieces(t: Text): (es: seq<Event>)
    ensures Stream(es) == t
    decreases |t|
  {
    if t == [] then []
    else if |t| <= IOBUF then
      assert t + [] == t;
      [Read(t)]
    else
      assert t == t[..IOBUF] + t[IOBUF..];
      [Read(t[..IOBUF])] + Pieces(t[IOBUF..])
  }

  /** A blocked client only collects what it reads; released, it parses all of it at once. */
  lemma {:induction false} BlockedCollects(env: Env, c: Client, t: Text)
    requires c.blocked && c.left == 0
    ensures var es := Pieces(t) + [Unblock];
      Obeys(env, c, es) && Run(env, c, es) == Input(env, c.(buf := c.buf + t, blocked := false))
    decreases |t|
  {
    var es := Pieces(t) + [Unblock];
    if t == [] {
      assert es == [Unblock] && c.buf + t == c.buf && es[1..] == [];
      assert Arrived(c, Unblock) == c.(blocked := false);
    } else {
      var n := if |t| <= IOBUF then |t| else IOBUF;
      var d := c.(buf := c.buf + t[..n]);
      assert t[..n] + t[n..] == t && (c.buf + t[..n]) + t[n..] == c.buf + t;
      assert es == [Read(t[..n])] + (Pieces(t[n..]) + [Unblock]);
      assert es[1..] == Pieces(t[n..]) + [Unblock];
      assert Arrived(c, es[0]) == d && Input(env, d) == d;
      BlockedCollects(env, d, t[n..]);
    }
  }

  /** The client after it has sent nothing but a command that blocks it. */
  function Suspended(b: Argv): Client { Idle().(blocked := true, done := [b]) }

  lemma BlockingCommand(env: Env, b: Argv)
    requires Sendable(b) && b != [] && env.control(b) == Block && |Wire(b)| <= INLINE_MAX
    ensures Input(env, Idle().(buf := Wire(b))) == Suspended(b)
  {
    var c := Idle().(buf := Wire(b));
    assert [b][1..] == [] && Wires([]) == [] && Wire(b) + [] == Wire(b);
    assert Wires([b]) == Wire(b);
    assert Synced(c, [b], []);
    TurnFollows(env, c, [b], []);
    var p := Request(env, c);
    assert p.status == Ready;
    assert p.rest + [] == p.rest;
    assert c.done + [b] == [b];
    assert Turn(env, c) == Suspended(b);
  }

  /** The failing case, with reads as short as the policy wants them: a client blocks on its first
      command, sends the beginning of another one meanwhile, and is cut off when it is released. */
  lemma BlockedClientIsRefused(env: Env, b: Argv, a: Text)
    requires Sendable(b) && b != [] && env.control(b) == Block && |Wire(b)| <= IOBUF
    requires INLINE_MAX <= |a| <= MAX_BULK
    ensures var es := [Read(Wire(b))] + (Pieces(LongRead(a)) + [Unblock]);
      && Obeys(env, Idle(), es) && Stream(es) <= Wires([b, [a, a]]) && Run(env, Idle(), es).closing
  {
    var tail := Pieces(LongRead(a)) + [Unblock];
    var es := [Read(Wire(b))] + tail;
    assert es[1..] == tail;
    assert [] + Wire(b) == Wire(b) && Arrived(Idle(), es[0]) == Idle().(buf := Wire(b));
    BlockingCommand(env, b);
    BlockedCollects(env, Suspended(b), LongRead(a));
    assert Suspended(b).buf + LongRead(a) == LongRead(a);
    LongReadIsRefused(env, Suspended(b).(buf := LongRead(a), blocked := false), a);
    BlockedStream(b, a);
  }

  lemma BlockedStream(b: Argv, a: Text)
    ensures Stream([Read(Wire(b))] + (Pieces(LongRead(a)) + [Unblock])) <= Wires([b, [a, a]])
  {
    var tail := Pieces(LongRead(a)) + [Unblock];
    StreamOfPieces(LongRead(a));
    assert ([Read(Wire(b))] + tail)[1..] == tail;
    LongReadBegins(a);
    WiresOfTwo(b, [a, a]);
  }

  lemma WiresOfTwo(b: Argv, c: Argv)
    ensures Wires([b, c]) == Wire(b) + Wire(c)
  {
    assert [b, c][1..] == [c] && [c][1..] == [];
    assert Wires([c]) == Wire(c) + [] == Wire(c);
  }

  lemma {:induction false} StreamOfPieces(t: Text)
    ensures Stream(Pieces(t) + [Unblock]) == t
    decreases |t|
  {
    var es := Pieces(t) + [Unblock];
    if t == [] {
      assert es == [Unblock] && es[1..] == [];
    } else {
      var n := if |t| <= IOBUF then |t| else IOBUF;
      assert t[..n] + t[n..] == t;
      assert es == [Read(t[..n])] + (Pieces(t[n..]) + [Unblock]);
      assert es[1..] == Pieces(t[n..]) + [Unblock];
      StreamOfPieces(t[n..]);
    }
  }

  // ----- inline requests

  /** An inline request that ends with a carriage return and a line feed leaves what follows it in
      the buffer; one that ends with a line feed alone takes the next byte along. */
  lemma InlineLeaves(env: Env, u: Text, rest: Text)
    requires env.split(u).Some? && forall i :: 0 <= i < |u| ==> u[i] != 0 && u[i] != CR && u[i] != LF
    ensures var p := InlineLine(env, u + ([CR, LF] + rest)); p.status == Ready && p.rest == rest
    ensures var p := InlineLine(env, u + ([LF] + rest));
            p.status == Ready && p.rest == if rest == [] then [] else rest[1..]
  {
    var s := u + ([CR, LF] + rest);
    assert s == (u + [CR]) + ([LF] + rest);
    FindAt(u + [CR], LF, rest);
    assert s[..|u|] == u && s[|u| + 2..] == rest;
    var t := u + ([LF] + rest);
    FindAt(u, LF, rest);
    assert t[..|u|] == u;
    if rest != [] { assert t[|u| + 2..] == rest[1..]; }
  }
}
