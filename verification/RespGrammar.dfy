/** The requests that the parser of networking.c accepts, told by their bytes. */
module RespGrammar {
  import opened Options
  import opened Bytes
  import opened Resp
  import opened RespParser

  // ----- the grammar

  /** A header line: its kind, a number, a carriage return, and one byte of which the parser does not ask
      what it is. */
  predicate HeaderLine(h: Text, c: Byte, n: int) {
    && |h| >= 3 && h[0] == c && h[|h| - 2] == CR && (forall i :: 0 <= i < |h| - 2 ==> h[i] != CR && h[i] != 0)
    && Number(h[1..|h| - 2]) == Some(n)
  }

  /** An argument stands behind a header line with its length, and before two bytes of which the parser
      does not ask what they are. */
  predicate ArgParts(a: Text, h: Text, arg: Text, e: Text) {
    HeaderLine(h, DOLLAR, |arg|) && |e| == 2 && a == h + (arg + e)
  }

  ghost predicate EncodesArg(a: Text, arg: Text) { |arg| <= MAX_BULK && exists h, e :: ArgParts(a, h, arg, e) }

  /** The text is the given arguments, one behind the other. */
  ghost predicate EncodesArgs(t: Text, args: Argv)
    decreases |args|
  {
    if args == [] then t == []
    else exists a, b :: EncodesArg(a, args[0]) && EncodesArgs(b, args[1..]) && t == a + b
  }

  /** A whole request: the number of its arguments, at most a million, and these; a number below one stands
      for none. */
  ghost predicate EncodesRequest(t: Text, argv: Argv) {
    exists h, n: int, b :: RequestParts(t, h, n, b, argv)
  }

  ghost predicate RequestParts(t: Text, h: Text, n: int, b: Text, argv: Argv) {
    && HeaderLine(h, STAR, n) && n <= MAX_ARGS && |argv| == (if n <= 0 then 0 else n)
    && EncodesArgs(b, argv) && t == h + b
  }

  // ----- header lines

  lemma LineFound(h: Text, c: Byte, n: int, rest: Text)
    requires HeaderLine(h, c, n)
    ensures var s := h + rest;
      Find(s, CR) == |h| - 2 && s[1..|h| - 2] == h[1..|h| - 2] && s[..|h|] == h && s[|h|..] == rest
  {
    var u := h[..|h| - 2];
    FindAt(u, CR, h[|h| - 1..] + rest);
    assert h + rest == u + ([CR] + (h[|h| - 1..] + rest));
  }

  lemma {:induction false} FindStops(s: Text)
    ensures var k := Find(s, CR);
      k >= 0 ==> s[k] == CR && forall i :: 0 <= i < k ==> s[i] != CR && s[i] != 0
    decreases |s|
  {
    if s != [] && s[0] != 0 && s[0] != CR {
      FindStops(s[1..]);
      assert forall i :: 1 <= i < |s| ==> s[i] == s[1..][i - 1];
    }
  }

  /** The line that the parser finds at the front of its buffer. */
  lemma LineOf(s: Text, n: int) returns (h: Text, u: Text)
    requires var nl := Find(s, CR); 1 <= nl <= |s| - 2 && Number(s[1..nl]) == Some(n)
    ensures s == h + u && HeaderLine(h, s[0], n) && |h| == Find(s, CR) + 2
  {
    var nl := Find(s, CR);
    h, u := s[..nl + 2], s[nl + 2..];
    FindStops(s);
    assert h[1..nl] == s[1..nl];
  }

  // ----- one argument

  lemma {:induction false} TakeHeader(before: Text, h: Text, n: nat, u: Text, left: nat, argv: Argv) returns (b: Text)
    requires left > 0 && n <= MAX_BULK && HeaderLine(h, DOLLAR, n)
    ensures Args(before, h + u, left, -1, argv) == Args(b, u, left, n, argv)
  {
    LineFound(h, DOLLAR, n, u);
    b := if n >= BIG_ARG then [] else before + h;
  }

  lemma {:induction false} TakeBulk(before: Text, arg: Text, e: Text, u: Text, left: nat, argv: Argv)
    returns (b: Text)
    requires left > 0 && |e| == 2
    ensures Args(before, arg + (e + u), left, |arg|, argv) == Args(b, u, left - 1, -1, argv + [arg])
  {
    var s := arg + (e + u);
    assert s[..|arg|] == arg && s[|arg| + 2..] == u;
    b := AfterBulk(before, s, |arg|);
  }

  lemma Associate(h: Text, a: Text, e: Text, u: Text)
    ensures (h + (a + e)) + u == h + (a + (e + u))
  {
  }

  /** p is what parsing comes to before and behind one argument. */
  lemma {:induction false} OneArgument(p: Parse, before: Text, s: Text, a: Text, u: Text, left: nat, argv: Argv,
          arg: Text)
    returns (b: Text)
    requires left > 0 && EncodesArg(a, arg) && s == a + u && p == Args(before, s, left, -1, argv)
    ensures p == Args(b, u, left - 1, -1, argv + [arg])
  {
    var h, e :| ArgParts(a, h, arg, e);
    Associate(h, arg, e, u);
    b := TakeHeader(before, h, |arg|, arg + (e + u), left, argv);
    b := TakeBulk(b, arg, e, u, left, argv);
  }

  /** The first argument of those that were accepted. */
  lemma {:induction false} FirstArgument(before: Text, s: Text, left: nat, argv: Argv)
    returns (a: Text, arg: Text, u: Text)
    requires left > 0 && Args(before, s, left, -1, argv).status == Ready
    ensures s == a + u && EncodesArg(a, arg)
  {
    var n := BulkLength(s[1..Find(s, CR)]);
    var h, v := LineOf(s, n);
    var b := TakeHeader(before, h, n, v, left, argv);
    var e;
    arg, e, u := BulkThere(b, v, left, n, argv);
    a := h + (arg + e);
    Associate(h, arg, e, u);
    assert ArgParts(a, h, arg, e);
  }

  lemma {:induction false} BulkThere(b: Text, v: Text, left: nat, n: nat, argv: Argv)
    returns (arg: Text, e: Text, u: Text)
    requires left > 0 && Args(b, v, left, n, argv).status != More
    ensures v == arg + (e + u) && |arg| == n && |e| == 2
  {
    arg, e, u := v[..n], v[n..n + 2], v[n + 2..];
  }

  // ----- all arguments

  /** A parse that is complete, with these arguments behind those known before. */
  predicate Accepts(p: Parse, argv: Argv, args: Argv, rest: Text) {
    p.status == Ready && p.argv == argv + args && p.rest == rest
  }

  lemma AcceptsNext(p: Parse, argv: Argv, arg: Text, args: Argv, rest: Text)
    ensures Accepts(p, argv + [arg], args, rest) <==> Accepts(p, argv, [arg] + args, rest)
  {
    assert (argv + [arg]) + args == argv + ([arg] + args);
  }

  lemma Join(a: Text, b: Text, c: Text)
    ensures (a + b) + c == a + (b + c)
  {
  }

  /** p is what parsing comes to before and behind arguments that are encoded. */
  lemma {:induction false} ArgsPrefix(p: Parse, before: Text, t: Text, args: Argv, rest: Text, m: nat, argv: Argv)
    returns (b: Text)
    requires EncodesArgs(t, args) && p == Args(before, t + rest, |args| + m, -1, argv)
    ensures p == Args(b, rest, m, -1, argv + args)
    decreases |args|
  {
    if args == [] {
      b := before;
      assert t + rest == rest && argv + args == argv;
    } else {
      var a, arg, c, more := FrontEncoded(t, args);
      Join(a, c, rest);
      b := OneArgument(p, before, t + rest, a, c + rest, |args| + m, argv, arg);
      b := ArgsPrefix(p, b, c, more, rest, m, argv + [arg]);
      assert (argv + [arg]) + more == argv + args;
    }
  }

  /** What is encoded is accepted. */
  lemma {:induction false} ArgsComplete(p: Parse, before: Text, t: Text, args: Argv, rest: Text, argv: Argv)
    requires EncodesArgs(t, args) && p == Args(before, t + rest, |args|, -1, argv)
    ensures Accepts(p, argv, args, rest)
  {
    var b := ArgsPrefix(p, before, t, args, rest, 0, argv);
  }

  lemma {:induction false} FrontEncoded(t: Text, args: Argv) returns (a: Text, arg: Text, b: Text, more: Argv)
    requires EncodesArgs(t, args) && args != []
    ensures EncodesArg(a, arg) && EncodesArgs(b, more) && t == a + b && args == [arg] + more
  {
    arg, more := args[0], args[1..];
    a, b :| EncodesArg(a, arg) && EncodesArgs(b, more) && t == a + b;
  }

  lemma {:induction false} EncodesMore(a: Text, arg: Text, b: Text, more: Argv, t: Text, args: Argv)
    requires EncodesArg(a, arg) && EncodesArgs(b, more) && t == a + b && args == [arg] + more
    ensures EncodesArgs(t, args)
  {
    assert args[0] == arg && args[1..] == more;
  }

  /** What is accepted is encoded. */
  lemma {:induction false} ArgsSound(p: Parse, before: Text, s: Text, left: nat, argv: Argv)
    returns (t: Text, args: Argv, rest: Text)
    requires p == Args(before, s, left, -1, argv) && p.status == Ready
    ensures s == t + rest && Accepts(p, argv, args, rest) && |args| == left && EncodesArgs(t, args)
    decreases left
  {
    if left == 0 {
      t, args, rest := [], [], s;
      assert argv + [] == argv;
    } else {
      var a, arg, u := FirstArgument(before, s, left, argv);
      var b := OneArgument(p, before, s, a, u, left, argv, arg);
      var t', args', rest' := ArgsSound(p, b, u, left - 1, argv + [arg]);
      t, args, rest := a + t', [arg] + args', rest';
      EncodesMore(a, arg, t', args', t, args);
      AcceptsNext(p, argv, arg, args', rest);
      Join(a, t', rest);
    }
  }

  // ----- requests

  /** The parser accepts exactly what is encoded, takes it off the front of the buffer and leaves the
      rest. */
  lemma RequestIff(s: Text, argv: Argv, rest: Text)
    ensures s != [] && s[0] == STAR && Accepts(Count(s), [], argv, rest)
      <==> exists t :: EncodesRequest(t, argv) && s == t + rest
  {
    if t :| EncodesRequest(t, argv) && s == t + rest {
      RequestComplete(t, argv, rest);
    }
    if s != [] && s[0] == STAR && Accepts(Count(s), [], argv, rest) {
      var t := RequestSound(s, argv, rest);
    }
  }

  lemma {:induction false} RequestComplete(t: Text, argv: Argv, rest: Text)
    requires EncodesRequest(t, argv)
    ensures Accepts(Count(t + rest), [], argv, rest) && t != [] && t[0] == STAR
  {
    var h, n: int, b :| RequestParts(t, h, n, b, argv);
    Join(h, b, rest);
    LineFound(h, STAR, n, b + rest);
    if n > 0 {
      ArgsComplete(Count(t + rest), h, b, argv, rest, []);
    } else {
      assert b + rest == rest;
    }
  }

  lemma {:induction false} RequestSound(s: Text, argv: Argv, rest: Text) returns (t: Text)
    requires s != [] && s[0] == STAR && Accepts(Count(s), [], argv, rest)
    ensures s == t + rest && EncodesRequest(t, argv)
  {
    var n := Number(s[1..Find(s, CR)]).value;
    var h, u := LineOf(s, n);
    LineFound(h, STAR, n, u);
    if n <= 0 {
      t := h;
      assert h + [] == h && RequestParts(t, h, n, [], []);
    } else {
      var b, args, rest' := ArgsSound(Count(s), h, u, n, []);
      t := h + b;
      Join(h, b, rest);
      assert [] + args == args && [] + argv == argv;
      assert RequestParts(t, h, n, b, args);
    }
  }

  /** What clients send is encoded in this sense. */
  lemma {:induction false} WireEncodes(argv: Argv)
    requires |argv| <= MAX_ARGS && forall i :: 0 <= i < |argv| ==> |argv[i]| <= MAX_BULK
    ensures EncodesRequest(Wire(argv), argv)
  {
    HeaderIsLine(STAR, |argv|);
    BulksEncode(argv);
    assert RequestParts(Wire(argv), Header(STAR, |argv|), |argv|, Bulks(argv), argv);
  }

  lemma {:induction false} HeaderIsLine(c: Byte, n: nat)
    requires n <= MAX && c != CR && c != 0
    ensures HeaderLine(Header(c, n), c, n)
  {
    var h := Header(c, n);
    NumberOfDigits(n);
    assert h[1..|h| - 2] == Digits(n);
  }

  lemma {:induction false} BulksEncode(argv: Argv)
    requires forall i :: 0 <= i < |argv| ==> |argv[i]| <= MAX_BULK
    ensures EncodesArgs(Bulks(argv), argv)
    decreases |argv|
  {
    if argv != [] {
      var arg, more := argv[0], argv[1..];
      BulksEncode(more);
      HeaderIsLine(DOLLAR, |arg|);
      assert ArgParts(Bulk(arg), Header(DOLLAR, |arg|), arg, [CR, LF]);
      EncodesMore(Bulk(arg), arg, Bulks(more), more, Bulks(argv), argv);
    }
  }

  /** What becomes of a request that is encoded at the front of the buffer: it is executed, once; a command
      that blocks or quits is the last to be executed, and what is behind it stays in the buffer. */
  lemma RequestRuns(env: Env, c: Client, t: Text, argv: Argv, rest: Text)
    requires c.kind == Unknown && c.left == 0 && c.len == -1 && c.argv == [] && !c.closing && !c.blocked
    requires EncodesRequest(t, argv) && c.buf == t + rest
    ensures var d := Input(env, c);
      if argv == [] then d == Input(env, c.(buf := rest))
      else
        var ran := c.(buf := rest, done := c.done + [argv]);
        match env.control(argv)
        case Continue => d == Input(env, ran)
        case Block => d == ran.(blocked := true)
        case Quit => d.closing && d.done == ran.done && d.buf == rest
  {
    RequestComplete(t, argv, rest);
    CountRests(c.buf);
    assert [] + argv == argv;
    TurnRuns(env, c, argv, rest);
    InputTurns(env, c);
  }

  lemma CountRests(s: Text)
    ensures Count(s).status == Ready ==> Count(s).left == 0 && Count(s).len == -1
  {
  }

  lemma {:induction false} TurnRuns(env: Env, c: Client, argv: Argv, rest: Text)
    requires c.kind == Unknown && c.left == 0 && c.len == -1 && c.argv == [] && c.buf != [] && c.buf[0] == STAR
    requires var p := Count(c.buf); p.status == Ready && p.argv == argv && p.rest == rest && p.left == 0 && p.len == -1
    ensures Request(env, c).status == Ready
    ensures var d := Turn(env, c);
      if argv == [] then d == c.(buf := rest)
      else
        var ran := c.(buf := rest, done := c.done + [argv]);
        match env.control(argv)
        case Continue => d == ran
        case Block => d == ran.(blocked := true)
        case Quit => d == ran.(kind := Multibulk, argv := argv, closing := true)
  {
  }

  // ----- refusals

  /** A line that is all there, whatever is on it. */
  predicate Line(h: Text) {
    |h| >= 2 && h[|h| - 2] == CR && forall i :: 0 <= i < |h| - 2 ==> h[i] != CR && h[i] != 0
  }

  /** The number on a header line is in range. */
  predicate CountOk(h: Text) {
    Line(h) && |h| >= 3 && Number(h[1..|h| - 2]).Some? && Number(h[1..|h| - 2]).value <= MAX_ARGS
  }

  predicate LengthOk(h: Text) {
    && Line(h) && |h| >= 3 && h[0] == DOLLAR
    && Number(h[1..|h| - 2]).Some? && 0 <= Number(h[1..|h| - 2]).value <= MAX_BULK
  }

  /** Where an argument should begin, there is a line that is none of its header. */
  ghost predicate BadLength(s: Text) { exists h, u :: Line(h) && !LengthOk(h) && s == h + u }

  /** The request begins with a line that does not say how many arguments it has, or with one that says so,
      then fewer arguments, and then a bad line. */
  ghost predicate BadRequest(s: Text) {
    || (exists h, u :: Line(h) && !CountOk(h) && s == h + u)
    || (exists h, n: int, t, args, bad :: BadParts(s, h, n, t, args, bad))
  }

  ghost predicate BadParts(s: Text, h: Text, n: int, t: Text, args: Argv, bad: Text) {
    && HeaderLine(h, STAR, n) && n <= MAX_ARGS && EncodesArgs(t, args) && |args| < n
    && BadLength(bad) && s == h + (t + bad)
  }

  lemma LineIsFound(h: Text, u: Text)
    requires Line(h)
    ensures var s := h + u; Find(s, CR) == |h| - 2 && s[..|h|] == h && s[|h|..] == u
    ensures |h| >= 3 ==> (h + u)[1..|h| - 2] == h[1..|h| - 2]
  {
    var v := h[..|h| - 2];
    FindAt(v, CR, h[|h| - 1..] + u);
    assert h + u == v + ([CR] + (h[|h| - 1..] + u));
  }

  lemma FoundIsLine(s: Text) returns (h: Text, u: Text)
    requires 0 <= Find(s, CR) <= |s| - 2
    ensures Line(h) && s == h + u && |h| == Find(s, CR) + 2
  {
    FindStops(s);
    h, u := s[..Find(s, CR) + 2], s[Find(s, CR) + 2..];
  }

  lemma {:induction false} BadLengthRefused(p: Parse, before: Text, s: Text, left: nat, argv: Argv)
    requires left > 0 && BadLength(s) && p == Args(before, s, left, -1, argv)
    ensures p.status == Malformed
  {
    var h, u :| Line(h) && !LengthOk(h) && s == h + u;
    LineIsFound(h, u);
  }

  /** Parsing that ends with an error ends here, or there is an argument in front. */
  lemma {:induction false} FrontOf(before: Text, s: Text, left: nat, argv: Argv)
    returns (here: bool, a: Text, arg: Text, u: Text)
    requires left > 0 && Args(before, s, left, -1, argv).status == Malformed
    ensures if here then BadLength(s) else s == a + u && EncodesArg(a, arg)
  {
    var h, v := FoundIsLine(s);
    LineIsFound(h, v);
    here, a, arg, u := !LengthOk(h), [], [], [];
    if !here { a, arg, u := ArgumentBehind(before, h, v, left, argv); }
  }

  /** What stands in front of the line at which parsing ends with an error. */
  lemma {:induction false} ArgsMalformed(p: Parse, before: Text, s: Text, left: nat, argv: Argv)
    returns (t: Text, args: Argv, bad: Text)
    requires p == Args(before, s, left, -1, argv) && p.status == Malformed
    ensures s == t + bad && EncodesArgs(t, args) && |args| < left && BadLength(bad)
    decreases left
  {
    var here, a, arg, u := FrontOf(before, s, left, argv);
    if here {
      t, args, bad := [], [], s;
      assert [] + s == s;
    } else {
      var b := OneArgument(p, before, s, a, u, left, argv, arg);
      var t', args', bad' := ArgsMalformed(p, b, u, left - 1, argv + [arg]);
      t, args, bad := a + t', [arg] + args', bad';
      EncodesMore(a, arg, t', args', t, args);
      Join(a, t', bad);
    }
  }

  /** Behind a header the argument is there when the parser stops with an error later on. */
  lemma {:induction false} ArgumentBehind(before: Text, h: Text, v: Text, left: nat, argv: Argv)
    returns (a: Text, arg: Text, u: Text)
    requires left > 0 && LengthOk(h) && Args(before, h + v, left, -1, argv).status == Malformed
    ensures h + v == a + u && EncodesArg(a, arg)
  {
    var n := Number(h[1..|h| - 2]).value;
    var b := TakeHeader(before, h, n, v, left, argv);
    var e;
    arg, e, u := BulkThere(b, v, left, n, argv);
    a := h + (arg + e);
    Associate(h, arg, e, u);
    assert ArgParts(a, h, arg, e);
  }

  /** The parser refuses a request as malformed if and only if it has seen a line that cannot stand where
      it stands. */
  lemma MalformedIff(s: Text)
    requires s != [] && s[0] == STAR
    ensures Count(s).status == Malformed <==> BadRequest(s)
  {
    if BadRequest(s) { BadRefused(s); }
    if Count(s).status == Malformed { RefusedBad(s); }
  }

  lemma {:induction false} BadRefused(s: Text)
    requires s != [] && s[0] == STAR && BadRequest(s)
    ensures Count(s).status == Malformed
  {
    if h, u :| Line(h) && !CountOk(h) && s == h + u {
      BadCountRefused(h, u);
    } else {
      var h, n: int, t, args, bad :| BadParts(s, h, n, t, args, bad);
      CountBehind(h, n, t + bad);
      BadPartsRefused(Count(s), s, h, n, t, args, bad);
    }
  }

  lemma {:induction false} BadCountRefused(h: Text, u: Text)
    requires Line(h) && !CountOk(h) && h[0] == STAR
    ensures Count(h + u).status == Malformed
  {
    LineIsFound(h, u);
  }

  lemma {:induction false} BadPartsRefused(p: Parse, s: Text, h: Text, n: int, t: Text, args: Argv, bad: Text)
    requires BadParts(s, h, n, t, args, bad) && p == Args(h, t + bad, n, -1, [])
    ensures p.status == Malformed
  {
    var m := n - |args|;
    var b := ArgsPrefix(p, h, t, args, bad, m, []);
    BadLengthRefused(p, b, bad, m, [] + args);
  }

  lemma {:induction false} CountBehind(h: Text, n: int, u: Text)
    requires HeaderLine(h, STAR, n) && 0 < n <= MAX_ARGS
    ensures Count(h + u) == Args(h, u, n, -1, [])
  {
    LineFound(h, STAR, n, u);
  }

  lemma {:induction false} RefusedBad(s: Text)
    requires s != [] && s[0] == STAR && Count(s).status == Malformed
    ensures BadRequest(s)
  {
    var h, u := FoundIsLine(s);
    LineIsFound(h, u);
    if CountOk(h) {
      var n := Number(h[1..|h| - 2]).value;
      var t, args, bad := ArgsMalformed(Count(s), h, u, n, []);
      assert BadParts(s, h, n, t, args, bad);
    }
  }

  // ----- numbers

  /** A number as it is printed: no leading zeros, no plus sign. */
  function Decimal(v: int): Text { if v >= 0 then Digits(v) else [45] + Digits(-v) }

  lemma {:induction false} DigitsNext(acc: nat, b: Byte)
    requires acc > 0 && IsDigit(b)
    ensures Digits(10 * acc + (b - 48)) == Digits(acc) + [b]
  {
    var n := 10 * acc + (b - 48);
    assert n / 10 == acc && n % 10 == b - 48;
  }

  lemma {:induction false} DigitsOfRun(s: Text, acc: nat)
    requires acc > 0 && DigitRun(s, acc).1 == |s|
    ensures Digits(DigitRun(s, acc).0) == Digits(acc) + s
    decreases |s|
  {
    if s != [] {
      DigitsOfRun(s[1..], 10 * acc + (s[0] - 48));
      DigitsNext(acc, s[0]);
      assert s == [s[0]] + s[1..];
    } else {
      assert Digits(acc) + s == Digits(acc);
    }
  }

  lemma {:induction false} DigitsOfAll(s: Text)
    requires s != [] && s[0] != 48 && DigitRun(s, 0).1 == |s|
    ensures s == Digits(DigitRun(s, 0).0) && DigitRun(s, 0).0 > 0
  {
    var d := s[0] - 48;
    DigitsOfRun(s[1..], d);
    assert Digits(d) == [s[0]] && s == [s[0]] + s[1..];
    PositiveRun(s[1..], d);
  }

  lemma {:induction false} PositiveRun(s: Text, acc: nat)
    requires acc > 0
    ensures DigitRun(s, acc).0 > 0
    decreases |s|
  {
    if s != [] && IsDigit(s[0]) { PositiveRun(s[1..], 10 * acc + (s[0] - 48)); }
  }

  /** The numbers that are read are the ones of 64 bits as they are printed, and no other texts. */
  lemma NumberIff(s: Text, v: int)
    ensures Number(s) == Some(v) <==> s == Decimal(v) && -MAX - 1 <= v <= MAX
  {
    if Number(s) == Some(v) { NumberIsDecimal(s, v); }
    if s == Decimal(v) && -MAX - 1 <= v <= MAX { DecimalIsNumber(v); }
  }

  lemma {:induction false} NumberIsDecimal(s: Text, v: int)
    requires Number(s) == Some(v)
    ensures s == Decimal(v)
  {
    if s[0] == 45 {
      DigitsOfAll(s[1..]);
      assert s == [45] + s[1..];
    } else if s[0] != 48 {
      DigitsOfAll(s);
    }
  }

  lemma {:induction false} DecimalIsNumber(v: int)
    requires -MAX - 1 <= v <= MAX
    ensures Number(Decimal(v)) == Some(v)
  {
    if v >= 0 {
      NumberOfDigits(v);
    } else {
      var d := Digits(-v);
      DigitRunOfDigits(-v, []);
      assert d + [] == d && ([45] + d)[1..] == d;
    }
  }

  // ----- inline requests

  /** The words that are kept are those that are not empty, in their order: kept[i] is words[at[i]]. */
  ghost predicate Keeps(words: Argv, kept: Argv, at: seq<nat>) {
    && |at| == |kept| && (forall i :: 0 <= i < |at| ==> at[i] < |words| && kept[i] == words[at[i]] != [])
    && (forall i, j :: 0 <= i < j < |at| ==> at[i] < at[j])
    && (forall j: nat :: j < |words| && words[j] != [] ==> j in at)
  }

  lemma {:induction false} KeptAre(words: Argv) returns (at: seq<nat>)
    ensures Keeps(words, NonEmptyArgs(words), at)
    decreases |words|
  {
    if words == [] {
      at := [];
    } else {
      var behind := KeptAre(words[1..]);
      at := KeptMore(words[0], words[1..], NonEmptyArgs(words[1..]), behind);
      assert [words[0]] + words[1..] == words;
    }
  }

  /** The words behind the first one, one place further on. */
  lemma KeptBehind(word: Text, tail: Argv, more: Argv, behind: seq<nat>) returns (up: seq<nat>)
    requires Keeps(tail, more, behind)
    ensures var words := [word] + tail;
      && |up| == |more| && (forall i :: 0 <= i < |up| ==> 0 < up[i] < |words| && more[i] == words[up[i]] != [])
      && (forall i, j :: 0 <= i < j < |up| ==> up[i] < up[j])
      && (forall j: nat :: 0 < j < |words| && words[j] != [] ==> j in up)
  {
    var words := [word] + tail;
    up := seq(|behind|, i requires 0 <= i < |behind| => behind[i] + 1);
    forall j: nat | 0 < j < |words| && words[j] != [] ensures j in up {
      assert tail[j - 1] == words[j];
      var i :| 0 <= i < |behind| && behind[i] == j - 1;
      assert up[i] == j;
    }
  }

  lemma KeptMore(word: Text, tail: Argv, more: Argv, behind: seq<nat>) returns (at: seq<nat>)
    requires Keeps(tail, more, behind)
    ensures Keeps([word] + tail, (if word == [] then [] else [word]) + more, at)
  {
    var up := KeptBehind(word, tail, more, behind);
    if word == [] {
      at := up;
      assert [] + more == more;
    } else {
      at := [0] + up;
      FirstKept([word] + tail, more, up, at);
    }
  }

  lemma FirstKept(words: Argv, more: Argv, up: seq<nat>, at: seq<nat>)
    requires words != [] && words[0] != [] && |up| == |more| && at == [0] + up
    requires forall i :: 0 <= i < |up| ==> 0 < up[i] < |words| && more[i] == words[up[i]] != []
    requires forall i, j :: 0 <= i < j < |up| ==> up[i] < up[j]
    requires forall j: nat :: 0 < j < |words| && words[j] != [] ==> j in up
    ensures Keeps(words, [words[0]] + more, at)
  {
    var kept := [words[0]] + more;
    forall i | 0 <= i < |at| ensures at[i] < |words| && kept[i] == words[at[i]] != [] {
      if i > 0 { assert at[i] == up[i - 1] && kept[i] == more[i - 1]; }
    }
    forall i, j | 0 <= i < j < |at| ensures at[i] < at[j] {
      assert at[j] == up[j - 1];
      if i > 0 { assert at[i] == up[i - 1]; }
    }
    assert at[0] == 0;
    forall j: nat | j in up ensures j in at { }
  }

  /** An inline request: the line, without its end, is split into words; those that are not empty are
      executed as one command. */
  lemma InlineExecutes(env: Env, c: Client, line: Text, crlf: bool, rest: Text)
    requires c.kind == Unknown && !c.closing && (line != [] ==> line[0] != STAR && line[|line| - 1] != CR)
    requires forall i :: 0 <= i < |line| ==> line[i] != 0 && line[i] != LF
    requires c.buf == line + ((if crlf then [CR, LF] else [LF]) + rest)
    ensures var d := Turn(env, c); var words := env.split(line);
      if words.None? then d.closing && d.done == c.done && d.buf == c.buf
      else
        && d.done == c.done + (if NonEmptyArgs(words.value) == [] then [] else [NonEmptyArgs(words.value)])
        && d.buf == (if crlf then rest else if rest == [] then [] else rest[1..])
  {
    InlineParsed(env, line, crlf, rest);
    InlineTurn(env, c);
  }

  /** What an inline request comes to in the parser. */
  lemma {:induction false} InlineParsed(env: Env, line: Text, crlf: bool, rest: Text)
    requires line != [] ==> line[|line| - 1] != CR
    requires forall i :: 0 <= i < |line| ==> line[i] != 0 && line[i] != LF
    ensures var s := line + ((if crlf then [CR, LF] else [LF]) + rest);
      var p, words := InlineLine(env, s), env.split(line);
      if words.None? then p == Parse(Malformed, [], s, 0, -1, [])
      else
        var after := if crlf then rest else if rest == [] then [] else rest[1..];
        p == Parse(Ready, [], after, 0, -1, NonEmptyArgs(words.value))
  {
    var s := line + ((if crlf then [CR, LF] else [LF]) + rest);
    var u := if crlf then line + [CR] else line;
    assert s == u + ([LF] + rest);
    FindAt(u, LF, rest);
    LineCut(env, s, line, crlf, rest);
  }

  lemma {:induction false} LineCut(env: Env, s: Text, line: Text, crlf: bool, rest: Text)
    requires line != [] ==> line[|line| - 1] != CR
    requires s == line + ((if crlf then [CR, LF] else [LF]) + rest)
    ensures var p, words := LineAt(env, s, if crlf then |line| + 1 else |line|), env.split(line);
      if words.None? then p == Parse(Malformed, [], s, 0, -1, [])
      else
        var after := if crlf then rest else if rest == [] then [] else rest[1..];
        p == Parse(Ready, [], after, 0, -1, NonEmptyArgs(words.value))
  {
    assert s[..|line|] == line && (line != [] ==> s[|line| - 1] == line[|line| - 1]);
    if |line| + 2 <= |s| { assert s[|line| + 2..] == if crlf then rest else rest[1..]; }
  }

  lemma {:induction false} InlineTurn(env: Env, c: Client)
    requires c.kind == Unknown && !c.closing && c.buf != [] && c.buf[0] != STAR
    ensures var d, p := Turn(env, c), InlineLine(env, c.buf);
      (p.status == Malformed ==> d.closing && d.done == c.done && d.buf == p.rest)
      && (p.status == Ready ==> d.done == c.done + (if p.argv == [] then [] else [p.argv]) && d.buf == p.rest)
  {
    assert c.done + [] == c.done;
  }
}
