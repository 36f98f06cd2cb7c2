/** The line editor of CONFIG REWRITE on values: config.c. */
module ConfigModel {
  import opened Bytes
  import opened Options

  /** Which option a line sets, in lower case: None for one whose arguments do not parse. */
  type Syntax = Text -> Option<Text>

  const HASH: Byte := 35
  /** The comment that begins the generated part of a file, and the one put before lines that do not
      parse. */
  const SIGNATURE: Text := [35, 32, 71, 101, 110, 101, 114, 97, 116, 101, 100, 32, 98, 121, 32,
                            67, 79, 78, 70, 73, 71, 32, 82, 69, 87, 82, 73, 84, 69]
  const UNKNOWN: Text := [35, 32, 63, 63, 63, 32]

  /** A line, the option that it sets if any, and whether this rewrite put it there. */
  datatype Entry = Entry(text: Text, owner: Option<Text>, made: bool)

  /** struct rewriteConfigState. */
  datatype State = State(entries: seq<Entry>, index: map<Text, seq<nat>>, rewritten: set<Text>, hasTail: bool)

  function Empty(): State { State([], map[], {}, false) }

  // ----- reading the old file

  /** The white space that sdstrim removes; its strchr finds a zero byte in any set. */
  predicate IsSpace(b: Byte) { b in {0, 9, 10, 13, 32} }

  function TrimLeft(t: Text): Text { if t != [] && IsSpace(t[0]) then TrimLeft(t[1..]) else t }

  function TrimRight(t: Text): Text
    decreases |t|
  {
    if t != [] && IsSpace(t[|t| - 1]) then TrimRight(t[..|t| - 1]) else t
  }

  function Trim(t: Text): Text { TrimRight(TrimLeft(t)) }

  predicate IsComment(line: Text) { line == [] || line[0] == HASH || line[0] == 0 }

  function Lines(index: map<Text, seq<nat>>, o: Text): seq<nat> { if o in index then index[o] else [] }

  /** What becomes of a line: comments and empty lines stay, and a line that does not parse is
      turned into a comment. */
  function Read(x: Syntax, raw: Text): (e: Entry)
    ensures !e.made
  {
    var line := Trim(raw);
    if IsComment(line) then Entry(line, None, false)
    else
      match x(line)
      case None => Entry(UNKNOWN + line, None, false)
      case Some(o) => Entry(line, Some(o), false)
  }

  /** One line of rewriteConfigReadOldFile. */
  function ReadLine(x: Syntax, s: State, raw: Text): State {
    var e := Read(x, raw);
    s.(entries := s.entries + [e],
       index := Listed(s.index, e.owner, |s.entries|),
       hasTail := s.hasTail || Trim(raw) == SIGNATURE)
  }

  /** rewriteConfigAddLineNumberToOption. */
  function Listed(index: map<Text, seq<nat>>, o: Option<Text>, n: nat): map<Text, seq<nat>> {
    if o.None? then index else index[o.value := Lines(index, o.value) + [n]]
  }

  function ReadFile(x: Syntax, file: seq<Text>): State
    decreases |file|
  {
    if file == [] then Empty() else ReadLine(x, ReadFile(x, file[..|file| - 1]), file[|file| - 1])
  }

  // ----- rewriting

  /** rewriteConfigRewriteLine. */
  function RewriteLine(s: State, o: Text, line: Text, force: bool): State {
    var t := s.(rewritten := s.rewritten + {o});
    if Lines(s.index, o) != [] then Reused(t, o, line)
    else if force then Appended(t, o, line)
    else t
  }

  /** The option's next old line takes the new text. */
  function Reused(s: State, o: Text, line: Text): State {
    var l := Lines(s.index, o);
    if l == [] || l[0] >= |s.entries| then s
    else
      s.(entries := s.entries[l[0] := Entry(line, Some(o), true)],
         index := if |l| == 1 then s.index - {o} else s.index[o := l[1..]])
  }

  /** A new line, at the end, where the generated part begins if there was none. */
  function Appended(s: State, o: Text, line: Text): State {
    var es := if s.hasTail then s.entries else s.entries + [Entry(SIGNATURE, None, true)];
    s.(entries := es + [Entry(line, Some(o), true)], hasTail := true)
  }

  /** A line for an option; or, when its value is the default one that needs no line, the mark that the
      option was processed. */
  datatype Call = Line(option: Text, line: Text, force: bool) | Mark(option: Text)

  /** rewriteConfigRewriteLine and rewriteConfigMarkAsProcessed. */
  function Do(s: State, c: Call): State {
    match c
    case Line(o, line, force) => RewriteLine(s, o, line, force)
    case Mark(o) => s.(rewritten := s.rewritten + {o})
  }

  function RewriteAll(s: State, calls: seq<Call>): State
    decreases |calls|
  {
    if calls == [] then s
    else RewriteAll(Do(s, calls[0]), calls[1..])
  }

  /** rewriteConfigRemoveOrphaned: what is left of the old lines of processed options is blanked. */
  function Blanked(e: Entry, rewritten: set<Text>): Entry {
    if e.owner.Some? && e.owner.value in rewritten && !e.made then e.(text := []) else e
  }

  function RemoveOrphaned(s: State): seq<Entry> {
    seq(|s.entries|, i requires 0 <= i < |s.entries| => Blanked(s.entries[i], s.rewritten))
  }

  // ----- what the index says

  /** The old lines of an option that were not used yet, in order. */
  function Unused(es: seq<Entry>, o: Text): (l: seq<nat>)
    ensures forall i :: 0 <= i < |l| ==> l[i] < |es| && es[l[i]].owner == Some(o) && !es[l[i]].made
    decreases |es|
  {
    if es == [] then []
    else
      var n := |es| - 1;
      Unused(es[..n], o) + if es[n].owner == Some(o) && !es[n].made then [n] else []
  }

  /** The lines that this rewrite made for an option, in order. */
  function Written(es: seq<Entry>, o: Text): seq<Text>
    decreases |es|
  {
    if es == [] then []
    else
      var n := |es| - 1;
      Written(es[..n], o) + if es[n].owner == Some(o) && es[n].made then [es[n].text] else []
  }

  /** An option's used lines come before its unused ones. */
  predicate InOrder(es: seq<Entry>) {
    forall i, j :: 0 <= i < j < |es| && es[i].owner.Some? && es[i].owner == es[j].owner && es[j].made ==> es[i].made
  }

  ghost predicate Indexed(s: State) {
    && (forall o :: o in s.index ==> s.index[o] != [])
    && (forall o :: Lines(s.index, o) == Unused(s.entries, o))
  }

  ghost predicate Ok(s: State) { InOrder(s.entries) && Indexed(s) }

  lemma {:induction false} UnusedSnoc(es: seq<Entry>, e: Entry, o: Text)
    ensures Unused(es + [e], o) == Unused(es, o) + if e.owner == Some(o) && !e.made then [|es|] else []
    ensures Written(es + [e], o) == Written(es, o) + if e.owner == Some(o) && e.made then [e.text] else []
  {
    assert (es + [e])[..|es|] == es;
  }

  lemma {:induction false} ReadLineKeeps(x: Syntax, s: State, raw: Text)
    requires Ok(s) && forall i :: 0 <= i < |s.entries| ==> !s.entries[i].made
    ensures Ok(ReadLine(x, s, raw)) && forall i :: 0 <= i <= |s.entries| ==> !ReadLine(x, s, raw).entries[i].made
  {
    var e := Read(x, raw);
    forall o ensures Lines(Listed(s.index, e.owner, |s.entries|), o) == Unused(s.entries + [e], o) {
      assert Lines(s.index, o) == Unused(s.entries, o);
      UnusedSnoc(s.entries, e, o);
    }
  }

  /** Using the first unused line of an option: it is no longer among the unused. */
  lemma {:induction false} UseFirst(es: seq<Entry>, k: nat, o: Text, line: Text)
    requires k < |es| && es[k].owner == Some(o) && !es[k].made
    requires forall j :: 0 <= j < k && es[j].owner == Some(o) ==> es[j].made
    ensures Unused(es, o) == [k] + Unused(es[k := Entry(line, Some(o), true)], o)
    decreases |es|
  {
    var n := |es| - 1;
    var t := es[k := Entry(line, Some(o), true)];
    if k < n {
      UseFirst(es[..n], k, o, line);
      assert t[..n] == es[..n][k := Entry(line, Some(o), true)] && t[n] == es[n];
    } else {
      assert t[..n] == es[..n] && t[n] == Entry(line, Some(o), true);
      NoneUnused(es[..n], o);
    }
  }

  /** It is the last of the written, as used lines come first. */
  lemma {:induction false} WriteLast(es: seq<Entry>, k: nat, o: Text, line: Text)
    requires k < |es| && es[k].owner == Some(o) && !es[k].made
    requires forall j :: k < j < |es| && es[j].owner == Some(o) ==> !es[j].made
    ensures Written(es[k := Entry(line, Some(o), true)], o) == Written(es, o) + [line]
    decreases |es|
  {
    var n := |es| - 1;
    var t := es[k := Entry(line, Some(o), true)];
    if k < n {
      WriteLast(es[..n], k, o, line);
      assert t[..n] == es[..n][k := Entry(line, Some(o), true)] && t[n] == es[n];
    } else {
      assert t[..n] == es[..n] && t[n] == Entry(line, Some(o), true);
    }
  }

  lemma {:induction false} UseOther(es: seq<Entry>, k: nat, o: Text, line: Text, q: Text)
    requires k < |es| && es[k].owner == Some(o) && q != o
    ensures var t := es[k := Entry(line, Some(o), true)];
      Unused(t, q) == Unused(es, q) && Written(t, q) == Written(es, q)
    decreases |es|
  {
    var n := |es| - 1;
    var t := es[k := Entry(line, Some(o), true)];
    if k < n {
      UseOther(es[..n], k, o, line, q);
      assert t[..n] == es[..n][k := Entry(line, Some(o), true)] && t[n] == es[n];
    } else {
      assert t[..n] == es[..n] && t[n] == Entry(line, Some(o), true);
    }
  }

  lemma {:induction false} NoneUnused(es: seq<Entry>, o: Text)
    requires forall j :: 0 <= j < |es| && es[j].owner == Some(o) ==> es[j].made
    ensures Unused(es, o) == []
    decreases |es|
  {
    if es != [] { NoneUnused(es[..|es| - 1], o); }
  }

  lemma {:induction false} SomeUnused(es: seq<Entry>, o: Text, j: nat)
    requires j < |es| && es[j].owner == Some(o) && !es[j].made
    ensures Unused(es, o) != [] && Unused(es, o)[0] <= j
    decreases |es|
  {
    var n := |es| - 1;
    if j < n {
      SomeUnused(es[..n], o, j);
    } else if Unused(es[..n], o) != [] {
      assert Unused(es[..n], o)[0] < n;
    }
  }

  /** An option's lines, used and unused ones, are the same. */
  predicate SameLines(s: State, t: State, q: Text) {
    Unused(t.entries, q) == Unused(s.entries, q) && Written(t.entries, q) == Written(s.entries, q)
  }

  /** What one call does to every option's lines. */
  lemma {:induction false} RewriteLineKeeps(s: State, o: Text, line: Text, force: bool)
    requires Ok(s)
    ensures var t := RewriteLine(s, o, line, force);
      && Ok(t) && o in t.rewritten
      && (forall q :: q != o ==> SameLines(s, t, q))
      && Written(t.entries, o) == Written(s.entries, o) + (if Unused(s.entries, o) != [] || force then [line] else [])
      && |Unused(t.entries, o)| == (if Unused(s.entries, o) != [] then |Unused(s.entries, o)| - 1 else 0)
  {
    var l := Unused(s.entries, o);
    assert Lines(s.index, o) == l;
    if l != [] {
      FirstLine(s, o, line, force);
    } else if force {
      AppendedLine(s, o, line);
    } else {
      SameEntries(s, RewriteLine(s, o, line, force));
    }
  }

  lemma {:induction false} SameEntries(s: State, t: State)
    requires Ok(s) && t.entries == s.entries && t.index == s.index
    ensures Ok(t)
  {
  }

  lemma {:induction false} FirstLine(s: State, o: Text, line: Text, force: bool)
    requires Ok(s) && Unused(s.entries, o) != []
    ensures var t := RewriteLine(s, o, line, force);
      && Ok(t) && o in t.rewritten
      && (forall q :: q != o ==> SameLines(s, t, q))
      && Written(t.entries, o) == Written(s.entries, o) + [line]
      && |Unused(t.entries, o)| == |Unused(s.entries, o)| - 1
  {
    var es := s.entries;
    var l := Unused(es, o);
    assert Lines(s.index, o) == l;
    var k, t := l[0], RewriteLine(s, o, line, force);
    forall j | 0 <= j < k && es[j].owner == Some(o) ensures es[j].made {
      if !es[j].made { SomeUnused(es, o, j); }
    }
    UseFirst(es, k, o, line);
    WriteLast(es, k, o, line);
    forall q ensures Lines(t.index, q) == Unused(t.entries, q)
      && (q != o ==> Unused(t.entries, q) == Unused(es, q) && Written(t.entries, q) == Written(es, q))
      && l == [k] + Unused(t.entries, o) && Written(t.entries, o) == Written(es, o) + [line]
    {
      assert Lines(s.index, q) == Unused(es, q);
      if q != o { UseOther(es, k, o, line, q); }
    }
    assert InOrder(t.entries);
  }

  lemma {:induction false} AppendedLine(s: State, o: Text, line: Text)
    requires Ok(s) && Unused(s.entries, o) == []
    ensures var t := RewriteLine(s, o, line, true);
      && Ok(t) && o in t.rewritten
      && (forall q :: q != o ==> SameLines(s, t, q))
      && Written(t.entries, o) == Written(s.entries, o) + [line] && Unused(t.entries, o) == []
  {
    var es, t := s.entries, RewriteLine(s, o, line, true);
    assert Lines(s.index, o) == [];
    var mid := if s.hasTail then es else es + [Entry(SIGNATURE, None, true)];
    assert t.entries == mid + [Entry(line, Some(o), true)];
    forall q ensures Lines(t.index, q) == Unused(t.entries, q)
      && Unused(t.entries, q) == Unused(es, q)
      && Written(t.entries, q) == Written(es, q) + if q == o then [line] else []
    {
      assert Lines(s.index, q) == Unused(es, q);
      AppendedFor(es, s.hasTail, o, line, q);
    }
    AppendedInOrder(es, mid, o, line);
  }

  lemma {:induction false} AppendedFor(es: seq<Entry>, tail: bool, o: Text, line: Text, q: Text)
    ensures var r := (if tail then es else es + [Entry(SIGNATURE, None, true)]) + [Entry(line, Some(o), true)];
      Unused(r, q) == Unused(es, q) && Written(r, q) == Written(es, q) + if q == o then [line] else []
  {
    var mid := if tail then es else es + [Entry(SIGNATURE, None, true)];
    UnusedSnoc(es, Entry(SIGNATURE, None, true), q);
    UnusedSnoc(mid, Entry(line, Some(o), true), q);
  }

  lemma {:induction false} AppendedInOrder(es: seq<Entry>, mid: seq<Entry>, o: Text, line: Text)
    requires InOrder(es) && Unused(es, o) == [] && (mid == es || mid == es + [Entry(SIGNATURE, None, true)])
    ensures InOrder(mid + [Entry(line, Some(o), true)])
  {
    forall i | 0 <= i < |mid| && mid[i].owner == Some(o) ensures mid[i].made {
      if !mid[i].made { SomeUnused(es, o, i); }
    }
  }

  // ----- whole rewrites

  /** The lines that a sequence of calls leaves for an option that had k lines: all of its calls', in
      their order, but for unforced ones made when no old line remained. */
  function Accepted(calls: seq<Call>, o: Text, k: nat): seq<Text>
    decreases |calls|
  {
    if calls == [] then []
    else if calls[0].option != o || calls[0].Mark? then Accepted(calls[1..], o, k)
    else if k > 0 then [calls[0].line] + Accepted(calls[1..], o, k - 1)
    else if calls[0].force then [calls[0].line] + Accepted(calls[1..], o, 0)
    else Accepted(calls[1..], o, 0)
  }

  /** How many old lines of o are unused, and what was written for it, before a call and after. */
  predicate Moves(c: Call, o: Text, k: nat, w: seq<Text>, k': nat, w': seq<Text>) {
    if c.option != o || c.Mark? then k' == k && w' == w
    else k' == (if k > 0 then k - 1 else 0) && w' == if k > 0 || c.force then w + [c.line] else w
  }

  /** What one call of either kind keeps. */
  lemma DoKeeps(s: State, c: Call)
    requires Ok(s)
    ensures Ok(Do(s, c)) && c.option in Do(s, c).rewritten
    ensures forall q :: q != c.option || c.Mark? ==> SameLines(s, Do(s, c), q)
  {
    if c.Line? {
      RewriteLineKeeps(s, c.option, c.line, c.force);
    } else {
      SameEntries(s, Do(s, c));
    }
  }

  lemma {:induction false} CallMoves(s: State, c: Call, o: Text)
    requires Ok(s)
    ensures var t := Do(s, c);
      Ok(t) && Moves(c, o, |Unused(s.entries, o)|, Written(s.entries, o), |Unused(t.entries, o)|, Written(t.entries, o))
  {
    DoKeeps(s, c);
    if c.option != o || c.Mark? {
      assert SameLines(s, Do(s, c), o);
    } else {
      RewriteLineKeeps(s, c.option, c.line, c.force);
      assert Written(s.entries, o) + [] == Written(s.entries, o);
    }
  }

  lemma {:induction false} CallsKeep(s: State, calls: seq<Call>)
    requires Ok(s)
    ensures Ok(RewriteAll(s, calls))
    decreases |calls|
  {
    if calls != [] {
      var c := calls[0];
      DoKeeps(s, c);
      CallsKeep(Do(s, c), calls[1..]);
    }
  }

  /** The lines written for an option are those of its accepted calls. */
  lemma {:induction false} CallsWrite(s: State, calls: seq<Call>, o: Text, k: nat, w: seq<Text>)
    requires Ok(s) && k == |Unused(s.entries, o)| && w == Written(s.entries, o)
    ensures Written(RewriteAll(s, calls).entries, o) == w + Accepted(calls, o, k)
    decreases |calls|
  {
    if calls == [] {
      assert w + [] == w;
    } else {
      var t := Do(s, calls[0]);
      var k', w' := |Unused(t.entries, o)|, Written(t.entries, o);
      CallMoves(s, calls[0], o);
      CallsWrite(t, calls[1..], o, k', w');
      AcceptedStep(calls, o, k, w, k', w');
    }
  }

  lemma AcceptedStep(calls: seq<Call>, o: Text, k: nat, w: seq<Text>, k': nat, w': seq<Text>)
    requires calls != [] && Moves(calls[0], o, k, w, k', w')
    ensures w + Accepted(calls, o, k) == w' + Accepted(calls[1..], o, k')
  {
    var c, rest := calls[0], Accepted(calls[1..], o, k');
    if c.Line? { assert (w + [c.line]) + rest == w + ([c.line] + rest); }
  }

  predicate Processed(calls: seq<Call>, o: Text) { exists i :: 0 <= i < |calls| && calls[i].option == o }

  lemma {:induction false} RewrittenAre(s: State, calls: seq<Call>, o: Text)
    ensures o in RewriteAll(s, calls).rewritten <==> o in s.rewritten || Processed(calls, o)
    decreases |calls|
  {
    if calls != [] {
      RewrittenAre(Do(s, calls[0]), calls[1..], o);
      assert forall i :: 0 <= i < |calls| - 1 ==> calls[1..][i] == calls[i + 1];
      if Processed(calls, o) && calls[0].option != o {
        var i :| 0 <= i < |calls| && calls[i].option == o;
        assert calls[1..][i - 1].option == o;
      }
    }
  }

  lemma {:induction false} ProcessedLater(calls: seq<Call>, o: Text)
    requires calls != []
    ensures Processed(calls[1..], o) ==> Processed(calls, o)
  {
    if Processed(calls[1..], o) {
      var k :| 0 <= k < |calls| - 1 && calls[1..][k].option == o;
      assert calls[k + 1].option == o;
    }
  }

  /** Old lines that calls leave alone: those of no option, and of options not called for. */
  predicate Untouched(e: Entry, calls: seq<Call>) {
    e.owner.None? || !Processed(calls, e.owner.value)
  }

  lemma OtherStays(s: State, c: Call, i: nat)
    requires Ok(s) && i < |s.entries| && s.entries[i].owner != Some(c.option)
    ensures var t := Do(s, c); i < |t.entries| && t.entries[i] == s.entries[i]
  {
    assert Lines(s.index, c.option) == Unused(s.entries, c.option);
  }

  lemma {:induction false} OthersStay(s: State, calls: seq<Call>, i: nat)
    requires Ok(s) && i < |s.entries| && Untouched(s.entries[i], calls)
    ensures var t := RewriteAll(s, calls); i < |t.entries| && t.entries[i] == s.entries[i]
    decreases |calls|
  {
    if calls != [] {
      var c, e := calls[0], s.entries[i];
      var t := Do(s, c);
      DoKeeps(s, c);
      OtherStays(s, c, i);
      if e.owner.Some? { ProcessedLater(calls, e.owner.value); }
      OthersStay(t, calls[1..], i);
    }
  }

  lemma {:induction false} ReadFileOk(x: Syntax, file: seq<Text>)
    ensures var s := ReadFile(x, file);
      && Ok(s) && |s.entries| == |file| && s.rewritten == {}
      && forall i :: 0 <= i < |file| ==> s.entries[i] == Read(x, file[i])
    decreases |file|
  {
    if file != [] {
      var g := file[..|file| - 1];
      ReadFileOk(x, g);
      ReadLineKeeps(x, ReadFile(x, g), file[|file| - 1]);
    }
  }

  lemma {:induction false} NothingWritten(es: seq<Entry>, o: Text)
    requires forall i :: 0 <= i < |es| ==> !es[i].made
    ensures Written(es, o) == []
    decreases |es|
  {
    if es != [] { NothingWritten(es[..|es| - 1], o); }
  }

  /** The lines of an option that are left, in order: blanked ones do not count. */
  function Left(es: seq<Entry>, rewritten: set<Text>, o: Text): seq<Text>
    decreases |es|
  {
    if es == [] then []
    else
      var n := |es| - 1;
      Left(es[..n], rewritten, o) +
      if es[n].owner == Some(o) && (es[n].made || o !in rewritten) then [es[n].text] else []
  }

  lemma {:induction false} LeftIsWritten(es: seq<Entry>, rewritten: set<Text>, o: Text)
    requires o in rewritten
    ensures Left(es, rewritten, o) == Written(es, o)
    decreases |es|
  {
    if es != [] { LeftIsWritten(es[..|es| - 1], rewritten, o); }
  }

  /** CONFIG REWRITE as a whole: reading, the calls, removing orphans. */
  function Rewritten(x: Syntax, file: seq<Text>, calls: seq<Call>): seq<Entry> {
    RemoveOrphaned(RewriteAll(ReadFile(x, file), calls))
  }

  /** Comments, and lines of options that the rewrite does not process, keep their place and their
      trimmed text. */
  lemma UnprocessedLinesStay(x: Syntax, file: seq<Text>, calls: seq<Call>, i: nat)
    requires i < |file| && Untouched(Read(x, file[i]), calls)
    ensures i < |Rewritten(x, file, calls)| && Rewritten(x, file, calls)[i] == Read(x, file[i])
  {
    var s := ReadFile(x, file);
    ReadFileOk(x, file);
    OthersStay(s, calls, i);
    var e := Read(x, file[i]);
    if e.owner.Some? { RewrittenAre(s, calls, e.owner.value); }
  }

  /** The lines left for a processed option are those of its calls, in call order, minus unforced
      calls made when no old line remained; all other lines of the option are blank. */
  lemma ProcessedLinesAreTheCalls(x: Syntax, file: seq<Text>, calls: seq<Call>, o: Text)
    requires Processed(calls, o)
    ensures var t := RewriteAll(ReadFile(x, file), calls);
      && Left(t.entries, t.rewritten, o) == Accepted(calls, o, |Unused(ReadFile(x, file).entries, o)|)
      && forall i :: 0 <= i < |t.entries| && t.entries[i].owner == Some(o) && !t.entries[i].made ==>
           Rewritten(x, file, calls)[i].text == []
  {
    var s := ReadFile(x, file);
    var t := RewriteAll(s, calls);
    ReadFileOk(x, file);
    CallsWrite(s, calls, o, |Unused(s.entries, o)|, Written(s.entries, o));
    RewrittenAre(s, calls, o);
    NothingWritten(s.entries, o);
    LeftIsWritten(t.entries, t.rewritten, o);
    assert [] + Accepted(calls, o, |Unused(s.entries, o)|) == Accepted(calls, o, |Unused(s.entries, o)|);
  }

  // ----- the content of the new file

  const NEWLINE: Text := [10]

  /** rewriteConfigGetContentFromState: every cluster of empty lines becomes one. */
  function Kept(lines: seq<Text>): seq<Text>
    decreases |lines|
  {
    if lines == [] then []
    else
      var n := |lines| - 1;
      Kept(lines[..n]) + if lines[n] == [] && n > 0 && lines[n - 1] == [] then [] else [lines[n]]
  }

  lemma KeptMore(lines: seq<Text>, j: nat)
    requires j < |lines|
    ensures Kept(lines[..j + 1]) ==
      if lines[j] == [] && j > 0 && lines[j - 1] == [] then Kept(lines[..j]) else Kept(lines[..j]) + [lines[j]]
  {
    var p := lines[..j + 1];
    assert p[..j] == lines[..j] && p[j] == lines[j];
    assert j > 0 ==> p[j - 1] == lines[j - 1];
    assert Kept(lines[..j]) + [] == Kept(lines[..j]);
  }

  function Joined(lines: seq<Text>): Text
    decreases |lines|
  {
    if lines == [] then [] else Joined(lines[..|lines| - 1]) + (lines[|lines| - 1] + NEWLINE)
  }

  function NonBlank(lines: seq<Text>): seq<Text>
    decreases |lines|
  {
    if lines == [] then []
    else NonBlank(lines[..|lines| - 1]) + if lines[|lines| - 1] == [] then [] else [lines[|lines| - 1]]
  }

  predicate NoTwoBlank(lines: seq<Text>) {
    forall i :: 0 < i < |lines| ==> lines[i - 1] != [] || lines[i] != []
  }

  /** No line with text is lost or moved, and no two empty lines follow each other. */
  lemma {:induction false} KeptLines(lines: seq<Text>)
    ensures NonBlank(Kept(lines)) == NonBlank(lines) && NoTwoBlank(Kept(lines))
    ensures (lines == [] <==> Kept(lines) == [])
    ensures lines != [] ==> Kept(lines)[|Kept(lines)| - 1] == lines[|lines| - 1]
    decreases |lines|
  {
    if lines != [] {
      var n := |lines| - 1;
      KeptLines(lines[..n]);
      var k := Kept(lines[..n]);
      assert (k + [lines[n]])[..|k|] == k;
      if lines[n] == [] && n > 0 && lines[n - 1] == [] {
        assert Kept(lines) == k + [] == k;
        assert lines[..n][n - 1] == lines[n - 1];
      } else {
        assert Kept(lines) == k + [lines[n]];
        assert n > 0 ==> k[|k| - 1] == lines[..n][n - 1] == lines[n - 1];
      }
    }
  }
}
