/** What CONFIG REWRITE makes of a file, read off the old and the new file alone. */
module ConfigFile {
  import opened Bytes
  import opened Options
  import opened ConfigModel

  // ----- trimming

  lemma {:induction false} TrimRightShape(t: Text)
    ensures TrimRight(t) <= t
    ensures TrimRight(t) != [] ==> !IsSpace(TrimRight(t)[|TrimRight(t)| - 1])
    ensures t != [] && !IsSpace(t[0]) ==> TrimRight(t) != [] && TrimRight(t)[0] == t[0]
    decreases |t|
  {
    if t != [] && IsSpace(t[|t| - 1]) {
      TrimRightShape(t[..|t| - 1]);
    }
  }

  lemma {:induction false} TrimLeftShape(t: Text)
    ensures TrimLeft(t) == [] || !IsSpace(TrimLeft(t)[0])
  {
    if t != [] && IsSpace(t[0]) {
      TrimLeftShape(t[1..]);
    }
  }

  /** A trimmed line stays as it is when it is read again. */
  lemma TrimTwice(t: Text)
    ensures Trim(Trim(t)) == Trim(t)
  {
    TrimLeftShape(t);
    TrimRightShape(TrimLeft(t));
    assert TrimLeft(Trim(t)) == Trim(t);
  }

  lemma CommentStays(t: Text)
    requires t != [] && t[0] == HASH
    ensures IsComment(Trim(t))
  {
    TrimRightShape(t);
    assert TrimLeft(t) == t;
  }

  // ----- the option of a line

  /** The option that a line of a file sets. */
  function Sets(x: Syntax, line: Text): Option<Text> { Read(x, line).owner }

  /** The lines of a file that set an option, in order, as they are read. */
  function LinesOf(x: Syntax, file: seq<Text>, o: Text): seq<Text>
    decreases |file|
  {
    if file == [] then []
    else
      var n := |file| - 1;
      LinesOf(x, file[..n], o) + if Sets(x, file[n]) == Some(o) then [Trim(file[n])] else []
  }

  /** The line sets the option it is meant for, and needs no trimming. */
  predicate Proper(x: Syntax, c: Call) {
    c.Line? ==> Sets(x, c.line) == Some(c.option) && Trim(c.line) == c.line
  }

  /** An entry's line, when it is read again, belongs to the entry's option. */
  predicate Faithful(x: Syntax, e: Entry) { Sets(x, e.text) == e.owner && (e.owner.Some? ==> Trim(e.text) == e.text) }

  predicate AllFaithful(x: Syntax, es: seq<Entry>) { forall i :: 0 <= i < |es| ==> Faithful(x, es[i]) }

  lemma ReadIsFaithful(x: Syntax, raw: Text)
    ensures Faithful(x, Read(x, raw))
  {
    TrimTwice(raw);
    var line := Trim(raw);
    if !IsComment(line) && x(line).None? {
      CommentStays(UNKNOWN + line);
    }
  }

  lemma RewriteIsFaithful(x: Syntax, s: State, c: Call)
    requires AllFaithful(x, s.entries) && Proper(x, c)
    ensures AllFaithful(x, Do(s, c).entries)
  {
    CommentStays(SIGNATURE);
    assert Faithful(x, Entry(SIGNATURE, None, true));
    if c.Line? { assert Faithful(x, Entry(c.line, Some(c.option), true)); }
  }

  lemma {:induction false} CallsAreFaithful(x: Syntax, s: State, calls: seq<Call>)
    requires AllFaithful(x, s.entries) && forall i :: 0 <= i < |calls| ==> Proper(x, calls[i])
    ensures AllFaithful(x, RewriteAll(s, calls).entries)
    decreases |calls|
  {
    if calls != [] {
      RewriteIsFaithful(x, s, calls[0]);
      CallsAreFaithful(x, Do(s, calls[0]), calls[1..]);
    }
  }

  // ----- the lines of an option in the new file

  function Texts(es: seq<Entry>): (r: seq<Text>)
    ensures |r| == |es| && forall i :: 0 <= i < |es| ==> r[i] == es[i].text
  {
    seq(|es|, i requires 0 <= i < |es| => es[i].text)
  }

  function BlankedAll(es: seq<Entry>, rewritten: set<Text>): (r: seq<Entry>)
    ensures |r| == |es| && forall i :: 0 <= i < |es| ==> r[i] == Blanked(es[i], rewritten)
  {
    seq(|es|, i requires 0 <= i < |es| => Blanked(es[i], rewritten))
  }

  /** The lines that set a processed option are those that were written for it. */
  lemma {:induction false} WrittenAreLeft(x: Syntax, es: seq<Entry>, rewritten: set<Text>, o: Text)
    requires AllFaithful(x, es) && o in rewritten
    ensures LinesOf(x, Texts(BlankedAll(es, rewritten)), o) == Written(es, o)
    decreases |es|
  {
    if es != [] {
      var n := |es| - 1;
      WrittenAreLeft(x, es[..n], rewritten, o);
      assert Texts(BlankedAll(es, rewritten))[..n] == Texts(BlankedAll(es[..n], rewritten));
      assert Faithful(x, es[n]);
    }
  }

  /** The lines that entries hold for an option. */
  function Owned(es: seq<Entry>, o: Text): seq<Text>
    decreases |es|
  {
    if es == [] then []
    else Owned(es[..|es| - 1], o) + if es[|es| - 1].owner == Some(o) then [es[|es| - 1].text] else []
  }

  lemma {:induction false} OwnedAreLeft(x: Syntax, es: seq<Entry>, rewritten: set<Text>, o: Text)
    requires AllFaithful(x, es) && o !in rewritten
    ensures LinesOf(x, Texts(BlankedAll(es, rewritten)), o) == Owned(es, o)
    decreases |es|
  {
    if es != [] {
      var n := |es| - 1;
      OwnedAreLeft(x, es[..n], rewritten, o);
      assert Texts(BlankedAll(es, rewritten))[..n] == Texts(BlankedAll(es[..n], rewritten));
      assert Faithful(x, es[n]);
    }
  }

  lemma {:induction false} OwnedByOther(es: seq<Entry>, k: nat, e: Entry, q: Text)
    requires k < |es| && es[k].owner != Some(q) && e.owner != Some(q)
    ensures Owned(es[k := e], q) == Owned(es, q)
    decreases |es|
  {
    var n := |es| - 1;
    if k < n {
      OwnedByOther(es[..n], k, e, q);
      assert es[k := e][..n] == es[..n][k := e];
    } else {
      assert es[k := e][..n] == es[..n];
    }
  }

  lemma OwnedSnoc(es: seq<Entry>, e: Entry, q: Text)
    requires e.owner != Some(q)
    ensures Owned(es + [e], q) == Owned(es, q)
  {
    assert (es + [e])[..|es|] == es;
    assert Owned(es, q) + [] == Owned(es, q);
  }

  lemma RewriteLeavesOwned(s: State, c: Call, q: Text)
    requires Ok(s) && q != c.option
    ensures Owned(Do(s, c).entries, q) == Owned(s.entries, q)
  {
    if c.Line? {
      var l, e := Lines(s.index, c.option), Entry(c.line, Some(c.option), true);
      assert l == Unused(s.entries, c.option);
      if l != [] {
        OwnedByOther(s.entries, l[0], e, q);
      } else if c.force {
        var sign := Entry(SIGNATURE, None, true);
        OwnedSnoc(s.entries, sign, q);
        OwnedSnoc(if s.hasTail then s.entries else s.entries + [sign], e, q);
      }
    }
  }

  lemma {:induction false} CallsLeaveOwned(s: State, calls: seq<Call>, q: Text)
    requires Ok(s) && !Processed(calls, q)
    ensures Owned(RewriteAll(s, calls).entries, q) == Owned(s.entries, q)
    decreases |calls|
  {
    if calls != [] {
      var c := calls[0];
      DoKeeps(s, c);
      RewriteLeavesOwned(s, c, q);
      ProcessedLater(calls, q);
      CallsLeaveOwned(Do(s, c), calls[1..], q);
    }
  }

  // ----- the old file

  lemma OwnedReads(x: Syntax, es: seq<Entry>, raw: Text, o: Text)
    requires AllFaithful(x, es)
    ensures var fs := es + [Read(x, raw)];
      && AllFaithful(x, fs) && Owned(fs, o) == Owned(es, o) + (if Sets(x, raw) == Some(o) then [Trim(raw)] else [])
      && |Unused(fs, o)| == |Unused(es, o)| + if Sets(x, raw) == Some(o) then 1 else 0
  {
    ReadIsFaithful(x, raw);
    assert (es + [Read(x, raw)])[..|es|] == es;
    UnusedSnoc(es, Read(x, raw), o);
  }

  lemma {:induction false} ReadsLinesOf(x: Syntax, file: seq<Text>, o: Text)
    ensures var es := ReadFile(x, file).entries;
      && AllFaithful(x, es) && Owned(es, o) == LinesOf(x, file, o) && |Unused(es, o)| == |LinesOf(x, file, o)|
    decreases |file|
  {
    if file != [] {
      var n := |file| - 1;
      ReadsLinesOf(x, file[..n], o);
      OwnedReads(x, ReadFile(x, file[..n]).entries, file[n], o);
      assert ReadFile(x, file).entries == ReadFile(x, file[..n]).entries + [Read(x, file[n])];
    }
  }

  /** Dropping blank lines drops no line of an option. */
  lemma {:induction false} KeptLinesOf(x: Syntax, lines: seq<Text>, o: Text)
    ensures LinesOf(x, Kept(lines), o) == LinesOf(x, lines, o)
    decreases |lines|
  {
    if lines != [] {
      var n := |lines| - 1;
      KeptLinesOf(x, lines[..n], o);
      var k := Kept(lines[..n]);
      if lines[n] == [] && n > 0 && lines[n - 1] == [] {
        assert Kept(lines) == k + [] == k;
        assert Sets(x, []).None?;
      } else {
        assert Kept(lines) == k + [lines[n]] && (k + [lines[n]])[..|k|] == k;
      }
    }
  }

  /** The lines of the new file. */
  function NewFile(x: Syntax, file: seq<Text>, calls: seq<Call>): seq<Text> {
    Kept(Texts(Rewritten(x, file, calls)))
  }

  lemma AllWritten(s: State, calls: seq<Call>, o: Text)
    requires Ok(s) && forall i :: 0 <= i < |s.entries| ==> !s.entries[i].made
    ensures Written(RewriteAll(s, calls).entries, o) == Accepted(calls, o, |Unused(s.entries, o)|)
  {
    NothingWritten(s.entries, o);
    CallsWrite(s, calls, o, |Unused(s.entries, o)|, []);
    EmptyFront(Accepted(calls, o, |Unused(s.entries, o)|));
  }

  lemma EmptyFront(l: seq<Text>)
    ensures [] + l == l
  {
  }

  lemma ProcessedOption(x: Syntax, s: State, calls: seq<Call>, o: Text)
    requires Ok(s) && AllFaithful(x, RewriteAll(s, calls).entries) && Processed(calls, o)
    requires forall i :: 0 <= i < |s.entries| ==> !s.entries[i].made
    ensures var t := RewriteAll(s, calls);
      LinesOf(x, Texts(BlankedAll(t.entries, t.rewritten)), o) == Accepted(calls, o, |Unused(s.entries, o)|)
  {
    RewrittenAre(s, calls, o);
    AllWritten(s, calls, o);
    WrittenAreLeft(x, RewriteAll(s, calls).entries, RewriteAll(s, calls).rewritten, o);
  }

  lemma OtherOption(x: Syntax, s: State, calls: seq<Call>, o: Text)
    requires Ok(s) && AllFaithful(x, RewriteAll(s, calls).entries) && !Processed(calls, o) && o !in s.rewritten
    ensures var t := RewriteAll(s, calls);
      LinesOf(x, Texts(BlankedAll(t.entries, t.rewritten)), o) == Owned(s.entries, o)
  {
    var t := RewriteAll(s, calls);
    RewrittenAre(s, calls, o);
    OwnedAreLeft(x, t.entries, t.rewritten, o);
    CallsLeaveOwned(s, calls, o);
  }

  /** The whole effect of CONFIG REWRITE on an option, as reading the new file shows it. A processed
      option is set by the lines of its calls, in call order, minus unforced calls made after the old
      file's lines for it were used up, and by none when it was only marked; any other
      option is set by the same lines as before. */
  lemma NewFileSets(x: Syntax, file: seq<Text>, calls: seq<Call>, o: Text)
    requires forall i :: 0 <= i < |calls| ==> Proper(x, calls[i])
    ensures LinesOf(x, NewFile(x, file, calls), o)
      == if Processed(calls, o) then Accepted(calls, o, |LinesOf(x, file, o)|) else LinesOf(x, file, o)
  {
    var s := ReadFile(x, file);
    var t := RewriteAll(s, calls);
    ReadFileOk(x, file);
    ReadsLinesOf(x, file, o);
    CallsAreFaithful(x, s, calls);
    assert Rewritten(x, file, calls) == BlankedAll(t.entries, t.rewritten);
    KeptLinesOf(x, Texts(Rewritten(x, file, calls)), o);
    if Processed(calls, o) {
      ProcessedOption(x, s, calls, o);
    } else {
      OtherOption(x, s, calls, o);
    }
  }
}
