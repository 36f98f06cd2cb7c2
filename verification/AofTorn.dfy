/** Files that a short write left in the middle of something: when the loader still takes them. */
module AofTorn {
  import opened Options
  import opened Bytes
  import opened Resp
  import opened AofLog
  import opened AofModel

  // ----- a command that is cut short does not read

  lemma {:induction false} WholeLine(s: Text, max: nat)
    requires |s| <= max && forall i :: 0 <= i < |s| ==> s[i] != LF
    ensures LineEnd(s, max) == |s|
    decreases max
  {
    if s != [] { WholeLine(s[1..], max - 1); }
  }

  /** A header line that is cut short takes the rest of the file with it. */
  lemma CutHeader(c: Byte, k: nat, s: Text)
    requires k <= MAX && c != LF && s < Header(c, k)
    ensures s[LineEnd(s, LINE)..] == []
  {
    DigitsFit(k);
    var u := [c] + (Digits(k) + [CR]);
    assert Header(c, k) == u + [LF];
    assert s == u[..|s|];
    WholeLine(s, LINE);
  }

  lemma CutArg(a: Text, s: Text)
    requires |a| <= MAX && s < Header(DOLLAR, |a|) + (a + [CR, LF])
    ensures ParseArg(s).Bad?
  {
    var h := Header(DOLLAR, |a|);
    if |s| < |h| {
      assert s == h[..|s|];
      CutHeader(DOLLAR, |a|, s);
    } else {
      var t := s[|h|..];
      assert s == h + t;
      HeaderReads(DOLLAR, |a|, t);
    }
  }

  lemma {:induction false} CutArgs(argv: Argv, s: Text)
    requires (forall i :: 0 <= i < |argv| ==> |argv[i]| <= MAX) && s < Bulks(argv)
    ensures ParseArgs(s, |argv|).Bad?
    decreases |argv|
  {
    var a := argv[0];
    var first, more := Header(DOLLAR, |a|) + (a + [CR, LF]), Bulks(argv[1..]);
    assert Bulks(argv) == first + more;
    if |s| < |first| {
      assert s == first[..|s|];
      CutArg(a, s);
    } else {
      var t := s[|first|..];
      assert s == first + t && t == more[..|t|];
      ArgsRead([a], t);
      BulksOfOne(a);
      assert ParseArgs(s, 1) == Parsed([a], t);
      CutArgs(argv[1..], t);
      OneArg(s, |argv|, a, t);
    }
  }

  lemma BulksOfOne(a: Text)
    ensures Bulks([a]) == Header(DOLLAR, |a|) + (a + [CR, LF])
  {
    var b := Bulk(a);
    assert [a][1..] == [];
    assert b + Bulks([]) == b;
  }

  lemma OneArg(s: Text, n: nat, a: Text, t: Text)
    requires n > 0 && ParseArgs(s, 1) == Parsed([a], t) && ParseArgs(t, n - 1).Bad?
    ensures ParseArgs(s, n).Bad?
  {
    assert ParseArg(s).Parsed? && ParseArgs(ParseArg(s).rest, 0) == Parsed([], ParseArg(s).rest);
  }

  lemma CutCommand(argv: Argv, s: Text)
    requires Fits(argv) && s < Wire(argv)
    ensures ParseCommand(s).Bad?
  {
    var h := Header(STAR, |argv|);
    if |s| < |h| {
      assert s == h[..|s|];
      CutHeader(STAR, |argv|, s);
      assert forall n :: n > 0 ==> ParseArgs([], n).Bad?;
    } else {
      var t := s[|h|..];
      assert s == h + t && t == Bulks(argv)[..|t|];
      HeaderReads(STAR, |argv|, t);
      CutArgs(argv, t);
    }
  }

  // ----- a log that is cut short

  /** How many commands the first n bytes of a log hold, if they end right behind one. */
  function WholeCommands(cmds: seq<Argv>, n: nat): (k: Option<nat>)
    ensures k.Some? ==> k.value <= |cmds|
  {
    if n == 0 then Some(0)
    else if cmds == [] || n < |Wire(cmds[0])| then None
    else
      match WholeCommands(cmds[1..], n - |Wire(cmds[0])|)
      case None => None
      case Some(k) => Some(k + 1)
  }

  function FirstOf(cmds: seq<Argv>, k: Option<nat>): Option<seq<Argv>>
    requires k.Some? ==> k.value <= |cmds|
  {
    match k
    case None => None
    case Some(n) => Some(cmds[..n])
  }

  lemma CommandsBehind(argv: Argv, y: Text)
    requires Fits(argv)
    ensures Commands(Wire(argv) + y) == Prepend(argv, Commands(y))
  {
    WireReads(argv);
    CommandsAppend(Wire(argv), y);
  }

  lemma CommandsOfCut(argv: Argv, s: Text)
    requires Fits(argv) && [] < s < Wire(argv)
    ensures Commands(s).None?
  {
    CutCommand(argv, s);
  }

  lemma CutSum(w: Text, more: Text, n: nat)
    requires n <= |w| + |more|
    ensures if n < |w| then (w + more)[..n] == w[..n] else (w + more)[..n] == w + more[..n - |w|]
  {
  }

  lemma CutShape(cmds: seq<Argv>, n: nat)
    requires cmds != [] && n <= |Wires(cmds)|
    ensures var w, more := Wire(cmds[0]), Wires(cmds[1..]);
      if n < |w| then Wires(cmds)[..n] == w[..n]
      else n - |w| <= |more| && Wires(cmds)[..n] == w + more[..n - |w|]
  {
    CutSum(Wire(cmds[0]), Wires(cmds[1..]), n);
  }

  lemma FirstMore(cmds: seq<Argv>, k: Option<nat>)
    requires cmds != [] && (k.Some? ==> k.value < |cmds|)
    ensures Prepend(cmds[0], FirstOf(cmds[1..], k)) == FirstOf(cmds, if k.None? then None else Some(k.value + 1))
  {
    if k.Some? {
      assert [cmds[0]] + cmds[1..][..k.value] == cmds[..k.value + 1];
    }
  }

  /** The first n bytes of a log read if and only if they end right behind a command. */
  lemma {:induction false} CutReads(cmds: seq<Argv>, n: nat)
    requires AllFit(cmds) && n <= |Wires(cmds)|
    ensures Commands(Wires(cmds)[..n]) == FirstOf(cmds, WholeCommands(cmds, n))
    decreases |cmds|
  {
    if n == 0 {
      assert Wires(cmds)[..0] == [] && cmds[..0] == [];
    } else {
      var w, more := Wire(cmds[0]), Wires(cmds[1..]);
      CutShape(cmds, n);
      if n < |w| {
        CommandsOfCut(cmds[0], w[..n]);
      } else {
        CommandsBehind(cmds[0], more[..n - |w|]);
        CutReads(cmds[1..], n - |w|);
        FirstMore(cmds, WholeCommands(cmds[1..], n - |w|));
      }
    }
  }

  /** What a short write that could not be undone makes of a file that reads: it still reads if and
      only if the write ended right behind a command, and then to what the commands before that
      point make of the data. */
  lemma TornFilePlays<D>(u: Rules<D>, s: Aof<D>, cmds: seq<Argv>, d: Disk)
    requires Played(u, s.file).Some? && s.buf == Wires(cmds) && AllFit(cmds)
    requires Possible(s, d) && 0 <= d.written < |s.buf| && !d.truncates
    ensures Played(u, Undone(s, d).file)
      == match WholeCommands(cmds, d.written)
         case None => None
         case Some(k) => Some(Replay(u, Played(u, s.file).value, cmds[..k]))
  {
    CutReads(cmds, d.written);
    CommandsAppend(s.file, s.buf[..d.written]);
    var k := WholeCommands(cmds, d.written);
    if k.Some? {
      ReplayAppend(u, Fresh(u), Commands(s.file).value, cmds[..k.value]);
    }
  }

  /** When such a file loads: the write has to end right behind a command, and not inside MULTI. */
  lemma TornFileLoads<D>(u: Rules<D>, s: Aof<D>, cmds: seq<Argv>, d: Disk)
    requires Played(u, s.file).Some? && s.buf == Wires(cmds) && AllFit(cmds)
    requires Possible(s, d) && 0 <= d.written < |s.buf| && !d.truncates
    ensures Load(u, Undone(s, d).file).Some?
      <==> var k := WholeCommands(cmds, d.written);
           k.Some? && !Replay(u, Played(u, s.file).value, cmds[..k.value]).multi
  {
    TornFilePlays(u, s, cmds, d);
  }

  // ----- the file and the buffer of every run are a log and commands behind it

  /** The file is base, which reads, and the first m bytes of the commands; aof_buf holds the others. */
  predicate IsLog<D>(s: Aof<D>, base: Text, cmds: seq<Argv>, m: nat) {
    && Commands(base).Some? && AllFit(cmds) && m <= |Wires(cmds)|
    && s.file == base + Wires(cmds)[..m] && (!s.exited ==> s.buf == Wires(cmds)[m..])
  }

  lemma {:induction false} WiresAppend(a: seq<Argv>, b: seq<Argv>)
    ensures Wires(a + b) == Wires(a) + Wires(b)
    decreases |a|
  {
    if a == [] {
      assert a + b == b;
    } else {
      assert (a + b)[1..] == a[1..] + b;
      WiresAppend(a[1..], b);
    }
  }

  /** The commands of which Fed is the text. */
  function FedCommands(selected: int, db: nat, argv: Argv): (cmds: seq<Argv>) {
    if db != selected then [SelectCommand(db), argv] else [argv]
  }

  lemma FedIsWires(selected: int, db: nat, argv: Argv)
    ensures Wires(FedCommands(selected, db, argv)) == Fed(selected, db, argv)
  {
    var w := Wire(argv);
    assert [argv][1..] == [] && w + Wires([]) == w;
    if db != selected {
      assert [SelectCommand(db), argv][1..] == [argv];
    }
  }

  lemma CutBehind(w: Text, f: Text, m: nat)
    requires m <= |w|
    ensures (w + f)[..m] == w[..m] && (w + f)[m..] == w[m..] + f
  {
  }

  lemma FeedIsLog<D>(u: Rules<D>, s: Aof<D>, db: nat, argv: Argv, base: Text, cmds: seq<Argv>, m: nat)
    requires IsLog(s, base, cmds, m) && s.mode == On && !s.exited && db < u.dbnum <= MAX && Fits(argv)
    ensures IsLog(Feed(s, db, argv), base, cmds + FedCommands(s.selected, db, argv), m)
  {
    SelectPlays(u, Fresh(u), db);
    var more := FedCommands(s.selected, db, argv);
    FedIsWires(s.selected, db, argv);
    WiresAppend(cmds, more);
    CutBehind(Wires(cmds), Wires(more), m);
  }

  lemma CutFurther(w: Text, m: nat, n: nat)
    requires m <= |w| && n <= |w| - m
    ensures w[..m] + w[m..][..n] == w[..m + n] && w[m..][n..] == w[m + n..]
  {
  }

  /** n bytes have moved from aof_buf to the file. */
  predicate Moved<D>(s: Aof<D>, t: Aof<D>, n: nat) {
    n <= |s.buf| && t.file == s.file + s.buf[..n] && (!t.exited ==> t.buf == s.buf[n..])
  }

  lemma MovedIsLog<D>(s: Aof<D>, t: Aof<D>, n: nat, base: Text, cmds: seq<Argv>, m: nat)
    requires IsLog(s, base, cmds, m) && !s.exited && Moved(s, t, n)
    ensures IsLog(t, base, cmds, m + n)
  {
    CutFurther(Wires(cmds), m, n);
    Assoc(base, Wires(cmds)[..m], Wires(cmds)[m..][..n]);
  }

  /** What a write that was not complete leaves. */
  lemma ShortMoves<D>(policy: Policy, s: Aof<D>, d: Disk)
    requires Possible(s, d) && s.size == |s.file| && !s.exited
    ensures Kept(d) <= |s.buf| && Moved(s, Blame(policy, Undone(s, d), Kept(d)), Kept(d))
  {
    assert s.file + s.buf[..0] == s.file;
    if d.written >= 0 {
      Resplit(s.file, s.buf, d.written);
    }
  }

  /** A flush moves bytes from the front of aof_buf to the end of the file, maybe none. */
  lemma FlushMoves<D>(policy: Policy, s: Aof<D>, force: bool, d: Disk) returns (n: nat)
    requires Possible(s, d) && s.size == |s.file| && !s.exited
    ensures Moved(s, Flush(policy, s, force, d), n)
  {
    n := 0;
    assert s.file + s.buf[..0] == s.file && s.buf[0..] == s.buf;
    if s.buf != [] && !Postpones(policy, s, force, d) {
      if d.written == |s.buf| {
        n := |s.buf|;
        assert s.buf[..n] == s.buf && s.buf[n..] == [];
      } else {
        n := Kept(d);
        ShortMoves(policy, s.(postponed := 0), d);
      }
    }
  }

  /** While the log is on, it is one. */
  predicate LogWhenOn<D>(s: Aof<D>, base: Text, cmds: seq<Argv>, m: nat) {
    s.mode == On ==> IsLog(s, base, cmds, m)
  }

  lemma FedLog<D>(u: Rules<D>, s: Aof<D>, db: nat, argv: Argv, base: Text, cmds: seq<Argv>, m: nat)
    requires !s.exited && db < u.dbnum <= MAX && Fits(argv) && LogWhenOn(s, base, cmds, m)
    ensures LogWhenOn(Feed(s, db, argv), base, cmds + FedCommands(s.selected, db, argv), m)
  {
    if s.mode == On { FeedIsLog(u, s, db, argv, base, cmds, m); }
  }

  lemma CalledLog<D>(u: Rules<D>, s: Aof<D>, db: nat, argv: Argv, base: Text, cmds: seq<Argv>, m: nat)
    requires !s.exited && db < u.dbnum <= MAX && Fits(argv) && LogWhenOn(s, base, cmds, m)
    ensures LogWhenOn(Call(u, s, db, argv), base, cmds + FedCommands(s.selected, db, argv), m)
  {
    FedLog(u, s.(data := u.apply(s.data, db, argv)), db, argv, base, cmds, m);
  }

  lemma MarkedLog<D>(u: Rules<D>, s: Aof<D>, db: nat, base: Text, cmds: seq<Argv>, m: nat)
    requires !s.exited && db < u.dbnum <= MAX && LogWhenOn(s, base, cmds, m)
    ensures LogWhenOn(Begin(s, db), base, cmds + FedCommands(s.selected, db, [MULTI]), m)
    ensures LogWhenOn(End(s, db), base, cmds + FedCommands(s.selected, db, [EXEC]), m)
  {
    FedLog(u, s.(txn := true), db, [MULTI], base, cmds, m);
    FedLog(u, s.(txn := false), db, [EXEC], base, cmds, m);
  }

  lemma MovedLog<D>(s: Aof<D>, t: Aof<D>, n: nat, base: Text, cmds: seq<Argv>, m: nat)
    requires LogWhenOn(s, base, cmds, m) && !s.exited && SameRest(s, t)
    requires s.mode == On ==> Moved(s, t, n)
    ensures LogWhenOn(t, base, cmds, m + n)
  {
    if s.mode == On { MovedIsLog(s, t, n, base, cmds, m); }
  }

  lemma FlushedLog<D>(u: Rules<D>, policy: Policy, s: Aof<D>, force: bool, d: Disk,
          base: Text, cmds: seq<Argv>, m: nat) returns (m': nat)
    requires Inv(u, s) && !s.exited && Possible(s, d) && LogWhenOn(s, base, cmds, m)
    ensures LogWhenOn(Flush(policy, s, force, d), base, cmds, m')
  {
    var n := 0;
    if s.mode == On { n := FlushMoves(policy, s, force, d); }
    FlushLeaves(policy, s, force, d);
    MovedLog(s, Flush(policy, s, force, d), n, base, cmds, m);
    m' := m + n;
  }

  lemma StoppedLog<D>(u: Rules<D>, policy: Policy, s: Aof<D>, d: Disk, base: Text, cmds: seq<Argv>, m: nat)
    returns (m': nat)
    requires Inv(u, s) && !s.exited && s.mode != Off && Possible(s, d) && LogWhenOn(s, base, cmds, m)
    ensures LogWhenOn(Stop(policy, s, d), base, cmds, m')
  {
    m' := FlushedLog(u, policy, s, true, d, base, cmds, m);
  }

  lemma DoneLog<D>(u: Rules<D>, s: Aof<D>, succeeds: bool, base: Text, cmds: seq<Argv>, m: nat)
    returns (base': Text, cmds': seq<Argv>, m': nat)
    requires Inv(u, s) && s.child.Some? && LogWhenOn(s, base, cmds, m)
    ensures LogWhenOn(Done(u, s, succeeds), base', cmds', m')
  {
    base', cmds', m' := base, cmds, m;
    if succeeds && s.mode != Off {
      base', cmds', m' := Dump(u, s.child.value) + s.diff, [], 0;
      assert base' + [] == base';
    }
  }

  lemma QuietLog<D>(s: Aof<D>, forks: bool, opens: bool, base: Text, cmds: seq<Argv>, m: nat)
    requires LogWhenOn(s, base, cmds, m)
    ensures LogWhenOn(Rewrite(s, forks), base, cmds, m)
    ensures s.mode == Off ==> LogWhenOn(Start(s, opens, forks), base, cmds, m)
  {
  }

  /** What a step makes of the log, given by its new parts. */
  lemma StepIsLog<D>(u: Rules<D>, policy: Policy, s: Aof<D>, e: Event, base: Text, cmds: seq<Argv>, m: nat)
    returns (base': Text, cmds': seq<Argv>, m': nat)
    requires Inv(u, s) && !s.exited && Allowed(u, s, e) && u.dbnum <= MAX && LogWhenOn(s, base, cmds, m)
    ensures LogWhenOn(Step(u, policy, s, e), base', cmds', m')
  {
    base', cmds', m' := base, cmds, m;
    match e
    case Called(db, argv) =>
      cmds' := cmds + FedCommands(s.selected, db, argv);
      CalledLog(u, s, db, argv, base, cmds, m);
    case Began(db) =>
      cmds' := cmds + FedCommands(s.selected, db, [MULTI]);
      MarkedLog(u, s, db, base, cmds, m);
    case Ended(db) =>
      cmds' := cmds + FedCommands(s.selected, db, [EXEC]);
      MarkedLog(u, s, db, base, cmds, m);
    case Flushed(force, d) => m' := FlushedLog(u, policy, s, force, d, base, cmds, m);
    case Forked(forks) => QuietLog(s, forks, false, base, cmds, m);
    case ChildDone(succeeds) => base', cmds', m' := DoneLog(u, s, succeeds, base, cmds, m);
    case Started(opens, forks) => QuietLog(s, forks, opens, base, cmds, m);
    case Stopped(d) => m' := StoppedLog(u, policy, s, d, base, cmds, m);
  }

  lemma {:induction false} RunIsLog<D(!new)>(u: Rules<D>, policy: Policy, s: Aof<D>, es: seq<Event>,
          base: Text, cmds: seq<Argv>, m: nat)
    returns (base': Text, cmds': seq<Argv>, m': nat)
    requires Lawful(u) && Inv(u, s) && AllAllowed(u, policy, s, es)
    requires LogWhenOn(s, base, cmds, m)
    ensures LogWhenOn(Run(u, policy, s, es), base', cmds', m')
    decreases |es|
  {
    base', cmds', m' := base, cmds, m;
    if es != [] && !s.exited {
      StepKeeps(u, policy, s, es[0]);
      base', cmds', m' := StepIsLog(u, policy, s, es[0], base, cmds, m);
      base', cmds', m' := RunIsLog(u, policy, Step(u, policy, s, es[0]), es[1..], base', cmds', m');
    }
  }

  /** When a file that is cut short loads. */
  lemma CutLogLoads<D>(u: Rules<D>, base: Text, cmds: seq<Argv>, m: nat)
    requires Commands(base).Some? && AllFit(cmds) && m <= |Wires(cmds)|
    ensures var k, p := WholeCommands(cmds, m), Played(u, base).value;
      Load(u, base + Wires(cmds)[..m])
      == if k.Some? && !Replay(u, p, cmds[..k.value]).multi then Some(Replay(u, p, cmds[..k.value]).data) else None
  {
    CutReads(cmds, m);
    CommandsAppend(base, Wires(cmds)[..m]);
    var k := WholeCommands(cmds, m);
    if k.Some? {
      ReplayAppend(u, Fresh(u), Commands(base).value, cmds[..k.value]);
    }
  }

  /** The file of every run, torn or not, while the log is on: it is a text that reads, then the first
      m bytes of whole commands, whose other bytes are in aof_buf; and it loads if and only if these m
      bytes end right behind a command and not inside MULTI. */
  lemma RunLoads<D(!new)>(u: Rules<D>, policy: Policy, file: Text, es: seq<Event>)
    returns (base: Text, cmds: seq<Argv>, m: nat)
    requires Lawful(u) && Load(u, file).Some? && AllAllowed(u, policy, Boot(u, file), es)
    requires Run(u, policy, Boot(u, file), es).mode == On
    ensures var s := Run(u, policy, Boot(u, file), es);
      && IsLog(s, base, cmds, m)
      && (Load(u, s.file).Some?
          <==> var k := WholeCommands(cmds, m);
               k.Some? && !Replay(u, Played(u, base).value, cmds[..k.value]).multi)
  {
    BootInv(u, file);
    assert Wires([]) == [] && file + [] == file;
    base, cmds, m := RunIsLog(u, policy, Boot(u, file), es, file, [], 0);
    CutLogLoads(u, base, cmds, m);
  }

  // ----- runs that leave a file that does not load

  /** The first write of a new log stops short: the file loads if and only if it stopped right behind
      the SELECT in front of the command. */
  lemma TornRunLoads<D>(u: Rules<D>, policy: Policy, argv: Argv, n: nat)
    requires 0 < u.dbnum <= MAX && Fits(argv) && !Control(argv)
    requires 0 < n < |Fed(-1, 0, argv)|
    ensures var es := [Called(0, argv), Flushed(true, Disk(n, false, false, 0))];
      && Load(u, []).Some? && AllAllowed(u, policy, Boot(u, []), es)
      && var s := Run(u, policy, Boot(u, []), es);
         s.torn && (Load(u, s.file).Some? <==> n == |Wire(SelectCommand(0))|)
  {
    var e, f := Called(0, argv), Flushed(true, Disk(n, false, false, 0));
    var es := [e, f];
    assert Commands([]) == Some([]);
    var s := Boot(u, []);
    var t := Step(u, policy, s, e);
    var cmds := FedCommands(-1, 0, argv);
    FedIsWires(-1, 0, argv);
    assert t.buf == Wires(cmds) by { assert [] + Fed(-1, 0, argv) == Fed(-1, 0, argv); }
    assert es[1..] == [f] && [f][1..] == [];
    assert Possible(t, f.disk);
    var r := Step(u, policy, t, f);
    assert r.file == Undone(t.(postponed := 0), f.disk).file;
    SelectPlays(u, Fresh(u), 0);
    TornFileLoads(u, t.(postponed := 0), cmds, f.disk);
    FirstOfTwo(SelectCommand(0), argv, n);
    SelectAlone(u);
    assert Run(u, policy, s, es) == Run(u, policy, t, [f]) == r;
  }

  lemma FirstOfTwo(a: Argv, b: Argv, n: nat)
    requires 0 < n < |Wires([a, b])|
    ensures WholeCommands([a, b], n) == if n == |Wire(a)| then Some(1) else None
    ensures [a, b][..1] == [a]
  {
    var w := Wire(b);
    assert [a, b][1..] == [b] && [b][1..] == [];
    assert Wires([b]) == w + [] == w;
  }

  lemma SelectAlone<D>(u: Rules<D>)
    requires 0 < u.dbnum <= MAX
    ensures !Replay(u, Fresh(u), [SelectCommand(0)]).multi
  {
    SelectPlays(u, Fresh(u), 0);
    var one := [SelectCommand(0)];
    assert one[1..] == [];
    assert Replay(u, Fresh(u), one) == Replay(u, Play(u, Fresh(u), one[0]), one[1..]);
  }

  /** The end of a command is not enough: the first write stops right behind the MULTI of a
      transaction, and the file reads but does not load. */
  lemma TornInsideMulti<D>(u: Rules<D>, policy: Policy, argv: Argv)
    requires 0 < u.dbnum <= MAX && Fits(argv) && !Control(argv)
    ensures var n := |Wire(SelectCommand(0)) + Wire([MULTI])|;
      var es := [Began(0), Called(0, argv), Ended(0), Flushed(true, Disk(n, false, false, 0))];
      && Load(u, []).Some? && AllAllowed(u, policy, Boot(u, []), es)
      && var s := Run(u, policy, Boot(u, []), es);
         s.torn && Played(u, s.file).Some? && Load(u, s.file).None?
  {
    var w := Wire(SelectCommand(0)) + Wire([MULTI]);
    var d := Disk(|w|, false, false, 0);
    assert Commands([]) == Some([]);
    var s0 := Boot(u, []);
    var s1 := Begin(s0, 0);
    var s2 := Call(u, s1, 0, argv);
    var s3 := End(s2, 0);
    TransactionFed(u, argv);
    assert s3.buf[..|w|] == w && [] + w == w;
    var s4 := Flush(policy, s3, true, d);
    ShortFlush(policy, s3, d);
    var a, b, c, f := Began(0), Called(0, argv), Ended(0), Flushed(true, d);
    RunOne(u, policy, s3, f, []);
    RunOne(u, policy, s2, c, [f]);
    RunOne(u, policy, s1, b, [c, f]);
    RunOne(u, policy, s0, a, [b, c, f]);
    assert [c] + [f] == [c, f] && [b] + [c, f] == [b, c, f] && [a] + [b, c, f] == [a, b, c, f] && [f] + [] == [f];
    SelectPlays(u, Fresh(u), 0);
    FedMarkPlays(u);
    assert s4.file == w;
  }

  lemma ShortFlush<D>(policy: Policy, s: Aof<D>, d: Disk)
    requires Possible(s, d) && 0 < d.written < |s.buf| && !d.truncates
    ensures var t := Flush(policy, s, true, d); t.file == s.file + s.buf[..d.written] && t.torn
  {
    var t := s.(postponed := 0);
    assert Undone(t, d).file == s.file + s.buf[..d.written] && Undone(t, d).torn;
  }

  lemma TransactionFed<D>(u: Rules<D>, argv: Argv)
    requires 0 < u.dbnum <= MAX && Load(u, []).Some?
    ensures var w := Wire(SelectCommand(0)) + Wire([MULTI]);
      var s := End(Call(u, Begin(Boot(u, []), 0), 0, argv), 0);
      && !s.txn && s.mode == On && s.file == [] && s.child.None? && !s.exited
      && |s.buf| > |w| && s.buf[..|w|] == w
  {
    var w, a, e := Wire(SelectCommand(0)) + Wire([MULTI]), Wire(argv), Wire([EXEC]);
    var s := Begin(Boot(u, []), 0);
    assert s.buf == w by { assert [] + w == w; }
    var t := Call(u, s, 0, argv);
    assert t.buf == w + a by { assert [] + a == a; }
    var r := End(t, 0);
    assert r.buf == (w + a) + e by { assert [] + e == e; }
  }

  lemma RunOne<D>(u: Rules<D>, policy: Policy, s: Aof<D>, e: Event, es: seq<Event>)
    requires !s.exited && Allowed(u, s, e) && AllAllowed(u, policy, Step(u, policy, s, e), es)
    ensures AllAllowed(u, policy, s, [e] + es)
    ensures Run(u, policy, s, [e] + es) == Run(u, policy, Step(u, policy, s, e), es)
  {
    assert ([e] + es)[1..] == es;
  }

  lemma FedMarkPlays<D>(u: Rules<D>)
    requires 0 < u.dbnum <= MAX
    ensures var p := Played(u, Wire(SelectCommand(0)) + Wire([MULTI])); p.Some? && p.value.multi
  {
    var w := Wire(SelectCommand(0)) + Wire([MULTI]);
    assert Commands([]) == Some([]) && [] + w == w;
    SelectPlays(u, Fresh(u), 0);
    PlayedTwoMore(u, [], SelectCommand(0), [MULTI]);
  }
}
