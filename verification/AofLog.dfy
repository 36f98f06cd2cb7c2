/** Reading an append only file back: aof.c, loadAppendOnlyFile. */
module AofLog {
  import opened Options
  import opened Bytes
  import opened Resp

  // ----- lines and numbers, as fgets and atoi read them

  const LINE := 127

  /** Length of the line that fgets takes from s into a buffer with room for max characters. */
  function LineEnd(s: Text, max: nat): (n: nat)
    ensures n <= |s| && n <= max && (s != [] && max > 0 ==> n > 0)
    decreases max
  {
    if s == [] || max == 0 then 0
    else if s[0] == LF then 1
    else 1 + LineEnd(s[1..], max - 1)
  }

  predicate IsSpace(b: Byte) { b == 32 || 9 <= b <= 13 }

  /** atoi and strtol. */
  function Atoi(s: Text): int
    decreases s
  {
    if s == [] then 0
    else if IsSpace(s[0]) then Atoi(s[1..])
    else
      var v: int := DigitRun(if s[0] == 45 || s[0] == 43 then s[1..] else s, 0).0;
      if s[0] == 45 then -v else v
  }

  // ----- commands

  datatype Parsed = Bad | Parsed(argv: Argv, rest: Text)

  /** n arguments, and the text after them. A line that is too short for its argument, or an
      argument cut off by the end of the file, is an error. */
  function ParseArgs(s: Text, n: nat): (r: Parsed)
    ensures r.Parsed? ==> |r.argv| == n && |r.rest| <= |s|
    decreases n
  {
    if n == 0 then Parsed([], s)
    else
      match ParseArg(s)
      case Bad => Bad
      case Parsed(a, t) =>
        match ParseArgs(t, n - 1)
        case Bad => Bad
        case Parsed(more, rest) => Parsed(a + more, rest)
  }

  /** One argument: its length in a line of its own, its bytes, and two more that are skipped. */
  function ParseArg(s: Text): (r: Parsed)
    ensures r.Parsed? ==> |r.argv| == 1 && |r.rest| < |s|
  {
    if s == [] || s[0] != DOLLAR then Bad else ArgBehind(s, LineEnd(s, LINE))
  }

  /** The argument behind its header line, which is the first k bytes. */
  function ArgBehind(s: Text, k: nat): (r: Parsed)
    requires 1 <= k <= |s|
    ensures r.Parsed? ==> |r.argv| == 1 && |r.rest| < |s|
  {
    var len := Atoi(s[1..k]);
    var t := s[k..];
    if len < 0 || |t| < len + 2 then Bad else Parsed([t[..len]], t[len + 2..])
  }

  function ParseCommand(s: Text): (r: Parsed)
    ensures r.Parsed? ==> |r.argv| >= 1 && |r.rest| < |s|
  {
    if s == [] || s[0] != STAR then Bad else CommandBehind(s, LineEnd(s, LINE))
  }

  function CommandBehind(s: Text, k: nat): (r: Parsed)
    requires 1 <= k <= |s|
    ensures r.Parsed? ==> |r.argv| >= 1 && |r.rest| < |s|
  {
    var argc := Atoi(s[1..k]);
    if argc < 1 then Bad else ParseArgs(s[k..], argc)
  }

  /** The commands of a file, None when it does not end right behind one. */
  function Commands(s: Text): (r: Option<seq<Argv>>)
    decreases |s|
  {
    if s == [] then Some([])
    else
      match ParseCommand(s)
      case Bad => None
      case Parsed(argv, rest) => Prepend(argv, Commands(rest))
  }

  function Prepend(argv: Argv, more: Option<seq<Argv>>): Option<seq<Argv>> {
    if more.None? then None else Some([argv] + more.value)
  }

  function Joined(a: seq<Argv>, more: Option<seq<Argv>>): Option<seq<Argv>> {
    if more.None? then None else Some(a + more.value)
  }

  lemma CommandsFirst(s: Text, argv: Argv, rest: Text)
    requires ParseCommand(s) == Parsed(argv, rest)
    ensures Commands(s) == Prepend(argv, Commands(rest))
  {
  }

  // ----- what follows does not change what was read

  lemma {:induction false} LineEndStable(s: Text, y: Text, max: nat)
    requires LineEnd(s, max) < |s|
    ensures LineEnd(s + y, max) == LineEnd(s, max)
    decreases max
  {
    if s != [] && max > 0 && s[0] != LF {
      assert (s + y)[1..] == s[1..] + y;
      LineEndStable(s[1..], y, max - 1);
    }
  }

  lemma SliceStable(s: Text, y: Text, k: nat)
    requires 1 <= k <= |s|
    ensures (s + y)[1..k] == s[1..k] && (s + y)[k..] == s[k..] + y
  {
  }

  lemma CutStable(t: Text, y: Text, n: nat)
    requires n + 2 <= |t|
    ensures (t + y)[n + 2..] == t[n + 2..] + y && (t + y)[..n] == t[..n]
  {
  }

  lemma ArgBehindStable(s: Text, y: Text, k: nat)
    requires 1 <= k <= |s| && ArgBehind(s, k).Parsed?
    ensures ArgBehind(s + y, k) == Parsed(ArgBehind(s, k).argv, ArgBehind(s, k).rest + y)
  {
    SliceStable(s, y, k);
    CutStable(s[k..], y, Atoi(s[1..k]));
  }

  lemma ParseArgStable(s: Text, y: Text)
    requires ParseArg(s).Parsed?
    ensures ParseArg(s + y) == Parsed(ParseArg(s).argv, ParseArg(s).rest + y)
  {
    var k := LineEnd(s, LINE);
    ArgBehindRoom(s, k);
    LineEndStable(s, y, LINE);
    ArgBehindStable(s, y, k);
    assert (s + y)[0] == s[0];
  }

  /** What is parsed does not end with the line. */
  lemma ArgBehindRoom(s: Text, k: nat)
    requires 1 <= k <= |s| && ArgBehind(s, k).Parsed?
    ensures k < |s|
  {
    assert |s[k..]| == |s| - k;
  }

  lemma ParseMore(s: Text, n: nat, a: Text, t: Text, more: Argv, rest: Text)
    requires n > 0 && ParseArg(s) == Parsed([a], t) && ParseArgs(t, n - 1) == Parsed(more, rest)
    ensures ParseArgs(s, n) == Parsed([a] + more, rest)
  {
  }

  lemma ParseParts(s: Text, n: nat)
    requires n > 0 && ParseArgs(s, n).Parsed?
    ensures ParseArg(s).Parsed? && ParseArgs(ParseArg(s).rest, n - 1).Parsed?
    ensures var a, more := ParseArg(s), ParseArgs(ParseArg(s).rest, n - 1);
      ParseArgs(s, n) == Parsed([a.argv[0]] + more.argv, more.rest) && a == Parsed([a.argv[0]], a.rest)
  {
  }

  lemma {:induction false} MoreStable(s: Text, n: nat, t: Text, more: Parsed, y: Text)
    requires n > 0 && ParseArg(s).Parsed? && ParseArg(s).rest == t && ParseArg(s) == Parsed([ParseArg(s).argv[0]], t)
    requires more.Parsed? && ParseArgs(t + y, n - 1) == Parsed(more.argv, more.rest + y)
    ensures ParseArgs(s + y, n) == Parsed([ParseArg(s).argv[0]] + more.argv, more.rest + y)
  {
    ParseArgStable(s, y);
    ParseMore(s + y, n, ParseArg(s).argv[0], t + y, more.argv, more.rest + y);
  }

  lemma {:induction false} ParseArgsStable(s: Text, n: nat, y: Text)
    requires ParseArgs(s, n).Parsed?
    ensures ParseArgs(s + y, n) == Parsed(ParseArgs(s, n).argv, ParseArgs(s, n).rest + y)
    decreases n
  {
    if n > 0 {
      ParseParts(s, n);
      ParseArgsStable(ParseArg(s).rest, n - 1, y);
      MoreStable(s, n, ParseArg(s).rest, ParseArgs(ParseArg(s).rest, n - 1), y);
    }
  }

  lemma CommandBehindStable(s: Text, y: Text, k: nat)
    requires 1 <= k <= |s| && CommandBehind(s, k).Parsed?
    ensures k < |s| && CommandBehind(s + y, k) == Parsed(CommandBehind(s, k).argv, CommandBehind(s, k).rest + y)
  {
    SliceStable(s, y, k);
    ParseParts(s[k..], Atoi(s[1..k]));
    ParseArgsStable(s[k..], Atoi(s[1..k]), y);
  }

  lemma ParseCommandStable(s: Text, y: Text)
    requires ParseCommand(s).Parsed?
    ensures ParseCommand(s + y) == Parsed(ParseCommand(s).argv, ParseCommand(s).rest + y)
  {
    var k := LineEnd(s, LINE);
    CommandBehindStable(s, y, k);
    LineEndStable(s, y, LINE);
    assert (s + y)[0] == s[0];
  }

  /** A file that reads in full, followed by more, reads as its own commands and then the rest. */
  lemma {:induction false} CommandsAppend(s: Text, y: Text)
    requires Commands(s).Some?
    ensures Commands(s + y) == Joined(Commands(s).value, Commands(y))
    decreases |s|
  {
    if s == [] {
      assert s + y == y;
      if Commands(y).Some? { assert [] + Commands(y).value == Commands(y).value; }
    } else {
      var c := ParseCommand(s);
      ParseCommandStable(s, y);
      CommandsAppend(c.rest, y);
      PrependJoined(c.argv, Commands(c.rest).value, Commands(y));
    }
  }

  lemma PrependJoined(argv: Argv, a: seq<Argv>, more: Option<seq<Argv>>)
    ensures Prepend(argv, Joined(a, more)) == Joined([argv] + a, more)
  {
    if more.Some? { assert [argv] + (a + more.value) == ([argv] + a) + more.value; }
  }

  // ----- what was written is read back

  lemma {:induction false} LineEndOfLine(u: Text, rest: Text, max: nat)
    requires |u| < max && forall i :: 0 <= i < |u| ==> u[i] != LF
    ensures LineEnd(u + ([LF] + rest), max) == |u| + 1
    decreases max
  {
    var s := u + ([LF] + rest);
    if u != [] {
      assert s[1..] == u[1..] + ([LF] + rest);
      LineEndOfLine(u[1..], rest, max - 1);
    }
  }

  /** A header line is read as one line whose number is the one written. */
  lemma HeaderReads(c: Byte, n: nat, rest: Text)
    requires n <= MAX && c != LF
    ensures var s := Header(c, n) + rest; var k := LineEnd(s, LINE);
      k == |Header(c, n)| && Atoi(s[1..k]) == n && s[k..] == rest
  {
    var d := Digits(n);
    var s := Header(c, n) + rest;
    var u := [c] + (d + [CR]);
    DigitsFit(n);
    assert s == u + ([LF] + rest);
    LineEndOfLine(u, rest, LINE);
    var k := |u| + 1;
    assert k == |Header(c, n)|;
    assert s[1..k] == d + [CR, LF];
    DigitRunOfDigits(n, [CR, LF]);
    assert s[k..] == rest;
  }

  /** Sizes that the C types hold. */
  predicate Fits(argv: Argv) {
    && 1 <= |argv| <= MAX
    && forall i :: 0 <= i < |argv| ==> |argv[i]| <= MAX
  }

  predicate AllFit(cmds: seq<Argv>) { forall i :: 0 <= i < |cmds| ==> Fits(cmds[i]) }

  lemma ArgReads(a: Text, after: Text)
    requires |a| <= MAX
    ensures ParseArg(Bulk(a) + after) == Parsed([a], after)
  {
    var t := a + ([CR, LF] + after);
    assert Bulk(a) + after == Header(DOLLAR, |a|) + t;
    HeaderReads(DOLLAR, |a|, t);
    assert t[..|a|] == a && t[|a| + 2..] == after;
  }

  lemma {:induction false} ArgsRead(argv: Argv, rest: Text)
    requires forall i :: 0 <= i < |argv| ==> |argv[i]| <= MAX
    ensures ParseArgs(Bulks(argv) + rest, |argv|) == Parsed(argv, rest)
  {
    if argv == [] {
      assert Bulks(argv) + rest == rest;
    } else {
      var after := Bulks(argv[1..]) + rest;
      assert Bulks(argv) + rest == Bulk(argv[0]) + after;
      ArgReads(argv[0], after);
      ArgsRead(argv[1..], rest);
      ParseMore(Bulks(argv) + rest, |argv|, argv[0], after, argv[1..], rest);
      assert [argv[0]] + argv[1..] == argv;
    }
  }

  lemma CommandReads(argv: Argv)
    requires Fits(argv)
    ensures ParseCommand(Wire(argv)) == Parsed(argv, [])
  {
    var t := Bulks(argv);
    HeaderReads(STAR, |argv|, t);
    ArgsRead(argv, []);
    assert t + [] == t;
  }

  lemma WireReads(argv: Argv)
    requires Fits(argv)
    ensures Commands(Wire(argv)) == Some([argv])
  {
    CommandReads(argv);
    CommandsFirst(Wire(argv), argv, []);
    assert [argv] + [] == [argv];
  }

  lemma {:induction false} WiresRead(cmds: seq<Argv>)
    requires AllFit(cmds)
    ensures Commands(Wires(cmds)) == Some(cmds)
  {
    if cmds != [] {
      WireReads(cmds[0]);
      CommandsAppend(Wire(cmds[0]), Wires(cmds[1..]));
      WiresRead(cmds[1..]);
      assert [cmds[0]] + cmds[1..] == cmds;
    }
  }

  // ----- replaying

  /** The client on whose behalf a file is replayed. */
  datatype Player<D> = Player(data: D, db: int, multi: bool)

  /** What commands do to the data, the commands that rebuild it, and how many databases there are. */
  datatype Rules<!D> = Rules(apply: (D, int, Argv) -> D, empty: D, dump: D -> seq<Argv>, dbnum: nat)

  function Lower(b: Byte): Byte { if 65 <= b <= 90 then b + 32 else b }

  predicate Named(argv: Argv, name: Text) {
    |argv| >= 1 && |argv[0]| == |name| && forall i :: 0 <= i < |name| ==> Lower(argv[0][i]) == Lower(name[i])
  }

  const SELECT: Text := [83, 69, 76, 69, 67, 84]
  const MULTI: Text := [77, 85, 76, 84, 73]
  const EXEC: Text := [69, 88, 69, 67]

  /** Commands about the log itself; all others are commands about the data. */
  predicate Control(argv: Argv) { Named(argv, SELECT) || Named(argv, MULTI) || Named(argv, EXEC) }

  /** One command of the file. The loader calls the command itself, so nothing is queued
      between MULTI and EXEC, and an EXEC without MULTI is an error that changes nothing. */
  function Play<D>(u: Rules<D>, p: Player<D>, argv: Argv): Player<D> {
    if Named(argv, SELECT) then
      if |argv| == 2 && Number(argv[1]).Some? && 0 <= Number(argv[1]).value < u.dbnum
      then p.(db := Number(argv[1]).value) else p
    else if Named(argv, MULTI) then p.(multi := true)
    else if Named(argv, EXEC) then p.(multi := false)
    else p.(data := u.apply(p.data, p.db, argv))
  }

  function Replay<D>(u: Rules<D>, p: Player<D>, cmds: seq<Argv>): Player<D>
    decreases |cmds|
  {
    if cmds == [] then p else Replay(u, Play(u, p, cmds[0]), cmds[1..])
  }

  lemma {:induction false} ReplayAppend<D>(u: Rules<D>, p: Player<D>, a: seq<Argv>, b: seq<Argv>)
    ensures Replay(u, p, a + b) == Replay(u, Replay(u, p, a), b)
    decreases |a|
  {
    if a == [] {
      assert a + b == b;
    } else {
      assert (a + b)[0] == a[0] && (a + b)[1..] == a[1..] + b;
      ReplayAppend(u, Play(u, p, a[0]), a[1..], b);
    }
  }

  function Fresh<D>(u: Rules<D>): Player<D> { Player(u.empty, 0, false) }

  /** Where replaying a file leaves the player, None when the file does not read. */
  function Played<D>(u: Rules<D>, file: Text): Option<Player<D>> {
    match Commands(file)
    case None => None
    case Some(cmds) => Some(Replay(u, Fresh(u), cmds))
  }

  /** What a server loads from a file; one that ends inside MULTI is refused. */
  function Load<D>(u: Rules<D>, file: Text): Option<D> {
    match Played(u, file)
    case None => None
    case Some(p) => if p.multi then None else Some(p.data)
  }

  /** One more command in the file is one more command replayed. */
  lemma PlayedMore<D>(u: Rules<D>, file: Text, argv: Argv)
    requires Played(u, file).Some? && Fits(argv)
    ensures Played(u, file + Wire(argv)) == Some(Play(u, Played(u, file).value, argv))
  {
    CommandsAppend(file, Wire(argv));
    WireReads(argv);
    var cmds := Commands(file).value;
    ReplayAppend(u, Fresh(u), cmds, [argv]);
    var p := Replay(u, Fresh(u), cmds);
    assert Replay(u, p, [argv]) == Replay(u, Play(u, p, argv), []);
  }

  lemma PlayedTwoMore<D>(u: Rules<D>, file: Text, a: Argv, b: Argv)
    requires Played(u, file).Some? && Fits(a) && Fits(b)
    ensures Played(u, file + (Wire(a) + Wire(b))) == Some(Play(u, Play(u, Played(u, file).value, a), b))
  {
    PlayedMore(u, file, a);
    PlayedMore(u, file + Wire(a), b);
    Assoc(file, Wire(a), Wire(b));
  }

  lemma Assoc(a: Text, b: Text, c: Text)
    ensures (a + b) + c == a + (b + c)
  {
  }
}
