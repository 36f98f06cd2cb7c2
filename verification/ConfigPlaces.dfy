/** Where the lines of a rewritten configuration stand: config.c. */
module ConfigPlaces {
  import opened Bytes
  import opened Options
  import opened ConfigModel

  // ----- what is read of a line

  predicate AllSpace(t: Text) { forall i :: 0 <= i < |t| ==> t[i] in {0, 9, 10, 13, 32} }

  /** u is t without the white space at its ends. */
  ghost predicate Trimmed(t: Text, u: Text) {
    && (exists a, b :: AllSpace(a) && AllSpace(b) && t == a + (u + b))
    && (u != [] ==> u[0] !in {0, 9, 10, 13, 32} && u[|u| - 1] !in {0, 9, 10, 13, 32})
  }

  lemma {:induction false} LeftTrimmed(t: Text) returns (a: Text)
    ensures AllSpace(a) && t == a + TrimLeft(t) && (TrimLeft(t) != [] ==> !IsSpace(TrimLeft(t)[0]))
    decreases |t|
  {
    a := [];
    if t != [] && IsSpace(t[0]) {
      var b := LeftTrimmed(t[1..]);
      a := [t[0]] + b;
      assert t == [t[0]] + t[1..];
    }
  }

  lemma {:induction false} RightTrimmed(t: Text) returns (b: Text)
    ensures AllSpace(b) && t == TrimRight(t) + b && TrimRight(t) <= t
    ensures TrimRight(t) != [] ==> !IsSpace(TrimRight(t)[|TrimRight(t)| - 1])
    decreases |t|
  {
    b := [];
    if t != [] && IsSpace(t[|t| - 1]) {
      var c := RightTrimmed(t[..|t| - 1]);
      b := c + [t[|t| - 1]];
      assert t == t[..|t| - 1] + [t[|t| - 1]];
    }
  }

  lemma TrimIs(t: Text)
    ensures Trimmed(t, Trim(t))
  {
    var a := LeftTrimmed(t);
    var b := RightTrimmed(TrimLeft(t));
    assert t == a + (Trim(t) + b);
  }

  /** A line is kept but for white space at its ends; one that is empty, or begins with a hash sign, or does
      not parse, belongs to no option, and the last kind is made a comment. */
  lemma ReadIs(x: Syntax, raw: Text) returns (line: Text)
    ensures Trimmed(raw, line)
    ensures var e := Read(x, raw);
      if line == [] || line[0] == 35 then e.text == line && e.owner == None
      else if x(line) == None then e.text == [35, 32, 63, 63, 63, 32] + line && e.owner == None
      else e.text == line && e.owner == x(line)
  {
    line := Trim(raw);
    TrimIs(raw);
  }

  // ----- old lines are used where they stand

  /** Lines that were there keep their owners. */
  predicate SameOwners(es: seq<Entry>, fs: seq<Entry>) {
    |es| <= |fs| && forall i :: 0 <= i < |es| ==> fs[i].owner == es[i].owner
  }

  lemma DoOwners(s: State, c: Call)
    requires Ok(s)
    ensures SameOwners(s.entries, Do(s, c).entries)
  {
    if c.Line? { assert Lines(s.index, c.option) == Unused(s.entries, c.option); }
  }

  lemma {:induction false} OwnersStay(s: State, calls: seq<Call>)
    requires Ok(s)
    ensures SameOwners(s.entries, RewriteAll(s, calls).entries)
    decreases |calls|
  {
    if calls != [] {
      var t := Do(s, calls[0]);
      DoKeeps(s, calls[0]);
      DoOwners(s, calls[0]);
      OwnersStay(t, calls[1..]);
    }
  }

  /** How many of the first i lines set the option. */
  function Rank(es: seq<Entry>, i: nat, o: Text): nat
    requires i <= |es|
  {
    if i == 0 then 0 else Rank(es, i - 1, o) + if es[i - 1].owner == Some(o) then 1 else 0
  }

  lemma {:induction false} SameRank(es: seq<Entry>, fs: seq<Entry>, i: nat, o: Text)
    requires SameOwners(es, fs) && i <= |es|
    ensures Rank(es, i, o) == Rank(fs, i, o)
  {
    if i > 0 { SameRank(es, fs, i - 1, o); }
  }

  /** If all lines of the option are made, they are the written ones; in any case there are no more. */
  lemma {:induction false} WrittenRank(es: seq<Entry>, i: nat, o: Text)
    requires i <= |es|
    ensures |Written(es[..i], o)| <= Rank(es, i, o)
    ensures (forall j :: 0 <= j < i && es[j].owner == Some(o) ==> es[j].made) ==>
      |Written(es[..i], o)| == Rank(es, i, o)
    decreases i
  {
    if i > 0 {
      WrittenRank(es, i - 1, o);
      assert es[..i][..i - 1] == es[..i - 1];
    }
  }

  /** What is written further on comes behind. */
  lemma {:induction false} WrittenPrefix(es: seq<Entry>, i: nat, o: Text)
    requires i <= |es|
    ensures Written(es[..i], o) <= Written(es, o)
    ensures (forall j :: i <= j < |es| && es[j].owner == Some(o) ==> !es[j].made) ==>
      Written(es[..i], o) == Written(es, o)
    decreases |es|
  {
    if i == |es| {
      assert es[..i] == es;
    } else {
      var n := |es| - 1;
      WrittenPrefix(es[..n], i, o);
      assert es[..n][..i] == es[..i];
    }
  }

  /** The line of rank r holds the text of the r-th written line, or is not made. */
  lemma WrittenAt(es: seq<Entry>, i: nat, o: Text)
    requires InOrder(es) && i < |es| && es[i].owner == Some(o)
    ensures var r, w := Rank(es, i, o), Written(es, o);
      if es[i].made then r < |w| && es[i].text == w[r] else |w| <= r
  {
    WrittenRank(es, i, o);
    if es[i].made {
      WrittenNext(es, i, o);
      WrittenPrefix(es, i + 1, o);
    } else {
      WrittenPrefix(es, i, o);
    }
  }

  lemma WrittenNext(es: seq<Entry>, i: nat, o: Text)
    requires i < |es| && es[i].owner == Some(o) && es[i].made
    ensures Written(es[..i + 1], o) == Written(es[..i], o) + [es[i].text]
  {
    assert es[..i + 1][..i] == es[..i];
  }

  /** The old lines of a processed option stay where they are: the r-th of them holds the r-th line of the
      option's calls, or is blank when there are not that many. */
  lemma OldLinesAreUsed(x: Syntax, file: seq<Text>, calls: seq<Call>, o: Text, i: nat)
    requires Processed(calls, o) && i < |file| && Read(x, file[i]).owner == Some(o)
    ensures var es := ReadFile(x, file).entries;
      |es| == |file| && i < |Rewritten(x, file, calls)| &&
      var r, lines := Rank(es, i, o), Accepted(calls, o, Rank(es, |es|, o));
      Rewritten(x, file, calls)[i].text == if r < |lines| then lines[r] else []
  {
    var s := ReadFile(x, file);
    var t := RewriteAll(s, calls);
    ReadFileOk(x, file);
    CallsKeep(s, calls);
    OwnersStay(s, calls);
    SameRank(s.entries, t.entries, i, o);
    WrittenAt(t.entries, i, o);
    RewrittenAre(s, calls, o);
    CallsWrite(s, calls, o, |Unused(s.entries, o)|, Written(s.entries, o));
    NothingWritten(s.entries, o);
    AllUnused(s.entries, o);
    assert [] + Accepted(calls, o, |Unused(s.entries, o)|) == Accepted(calls, o, |Unused(s.entries, o)|);
  }

  lemma {:induction false} AllUnused(es: seq<Entry>, o: Text)
    requires forall i :: 0 <= i < |es| ==> !es[i].made
    ensures |Unused(es, o)| == Rank(es, |es|, o)
    decreases |es|
  {
    if es != [] {
      var n := |es| - 1;
      AllUnused(es[..n], o);
      SameRank(es[..n], es, n, o);
    }
  }

  // ----- new lines come at the end

  /** How many lines were asked for, for an option. */
  function Asked(calls: seq<Call>, o: Text): nat
    decreases |calls|
  {
    if calls == [] then 0
    else
      var c := calls[|calls| - 1];
      Asked(calls[..|calls| - 1], o) + if c.Line? && c.option == o then 1 else 0
  }

  /** The lines that find no old one to use and are to be there all the same, in call order. */
  function Surplus(es: seq<Entry>, calls: seq<Call>): seq<Text>
    decreases |calls|
  {
    if calls == [] then []
    else
      var before, c := calls[..|calls| - 1], calls[|calls| - 1];
      Surplus(es, before) +
        if c.Line? && c.force && Asked(before, c.option) >= Rank(es, |es|, c.option) then [c.line] else []
  }

  /** The generated part of the file: it is announced once, by a comment, unless there was one. */
  function Generated(s: State, lines: seq<Text>): seq<Text> {
    (if lines != [] && !s.hasTail then [SIGNATURE] else []) + lines
  }

  lemma {:induction false} AllSnoc(s: State, calls: seq<Call>, c: Call)
    ensures RewriteAll(s, calls + [c]) == Do(RewriteAll(s, calls), c)
    decreases |calls|
  {
    if calls == [] {
      assert calls + [c] == [c] && [c][1..] == [];
    } else {
      assert (calls + [c])[0] == calls[0] && (calls + [c])[1..] == calls[1..] + [c];
      AllSnoc(Do(s, calls[0]), calls[1..], c);
    }
  }

  function Minus(a: nat, b: nat): nat { if a > b then a - b else 0 }

  /** The texts from line n on, all of them made by this rewrite. */
  ghost predicate MadeFrom(es: seq<Entry>, n: nat, lines: seq<Text>) {
    |es| == n + |lines| && forall i :: n <= i < |es| ==> es[i].made && es[i].text == lines[i - n]
  }

  /** How far the calls have come: what is behind the old lines, and how many old ones are left. */
  ghost predicate Grown(s: State, calls: seq<Call>, t: State) {
    && MadeFrom(t.entries, |s.entries|, Generated(s, Surplus(s.entries, calls)))
    && (t.hasTail <==> s.hasTail || Surplus(s.entries, calls) != [])
    && forall o :: |Unused(t.entries, o)| == Minus(Rank(s.entries, |s.entries|, o), Asked(calls, o))
  }

  lemma SurplusMore(es: seq<Entry>, calls: seq<Call>, c: Call)
    ensures Surplus(es, calls + [c]) == Surplus(es, calls) +
      if c.Line? && c.force && Asked(calls, c.option) >= Rank(es, |es|, c.option) then [c.line] else []
    ensures forall o :: Asked(calls + [c], o) == Asked(calls, o) + if c.Line? && c.option == o then 1 else 0
  {
    assert (calls + [c])[..|calls|] == calls;
  }

  /** Adding a line puts it behind those that were added, and announces the first. */
  lemma AppendedGrows(s: State, lines: seq<Text>, t: State, o: Text, line: Text)
    requires MadeFrom(t.entries, |s.entries|, Generated(s, lines)) && (t.hasTail <==> s.hasTail || lines != [])
    ensures var u := Appended(t, o, line);
      MadeFrom(u.entries, |s.entries|, Generated(s, lines + [line])) && u.hasTail
  {
    var u, n := Appended(t, o, line), |s.entries|;
    var before, after := Generated(s, lines), Generated(s, lines + [line]);
    if t.hasTail {
      assert after == before + [line];
    } else {
      assert lines == [] && before == [] && after == [SIGNATURE, line];
    }
  }

  /** An old line that is used is none of the new ones. */
  lemma ReusedGrows(n: nat, lines: seq<Text>, t: State, o: Text, line: Text)
    requires MadeFrom(t.entries, n, lines) && Ok(t) && Unused(t.entries, o) != []
    ensures MadeFrom(Reused(t, o, line).entries, n, lines)
  {
    assert Lines(t.index, o) == Unused(t.entries, o);
    var k := Unused(t.entries, o)[0];
    assert !t.entries[k].made;
  }

  lemma CallGrows(s: State, calls: seq<Call>, t: State, c: Call)
    requires Grown(s, calls, t) && Ok(t)
    ensures Grown(s, calls + [c], Do(t, c))
  {
    var es, o := s.entries, c.option;
    SurplusMore(es, calls, c);
    assert |Unused(t.entries, o)| == Minus(Rank(es, |es|, o), Asked(calls, o));
    CallLines(s, Surplus(es, calls), t, c);
    forall q ensures |Unused(Do(t, c).entries, q)| == Minus(Rank(es, |es|, q), Asked(calls + [c], q)) {
      assert |Unused(t.entries, q)| == Minus(Rank(es, |es|, q), Asked(calls, q));
      CallMoves(t, c, q);
    }
  }

  lemma CallLines(s: State, lines: seq<Text>, t: State, c: Call)
    requires MadeFrom(t.entries, |s.entries|, Generated(s, lines)) && (t.hasTail <==> s.hasTail || lines != []) && Ok(t)
    ensures var more := lines + if c.Line? && c.force && Unused(t.entries, c.option) == [] then [c.line] else [];
      && MadeFrom(Do(t, c).entries, |s.entries|, Generated(s, more))
      && (Do(t, c).hasTail <==> s.hasTail || more != [])
  {
    assert Lines(t.index, c.option) == Unused(t.entries, c.option);
    assert lines + [] == lines;
    if c.Line? {
      var u := t.(rewritten := t.rewritten + {c.option});
      if Unused(t.entries, c.option) != [] {
        ReusedGrows(|s.entries|, Generated(s, lines), u, c.option, c.line);
      } else if c.force {
        AppendedGrows(s, lines, u, c.option, c.line);
      }
    }
  }

  lemma {:induction false} CallsGrow(s: State, calls: seq<Call>)
    requires Ok(s) && forall i :: 0 <= i < |s.entries| ==> !s.entries[i].made
    ensures Grown(s, calls, RewriteAll(s, calls))
    decreases |calls|
  {
    if calls == [] {
      forall o ensures |Unused(s.entries, o)| == Rank(s.entries, |s.entries|, o) { AllUnused(s.entries, o); }
    } else {
      var before, c := calls[..|calls| - 1], calls[|calls| - 1];
      assert calls == before + [c];
      CallsGrow(s, before);
      CallsKeep(s, before);
      AllSnoc(s, before, c);
      CallGrows(s, before, RewriteAll(s, before), c);
    }
  }

  /** Behind the old lines stand the lines that found none to use, in call order, behind a comment that
      announces them unless the old file had it. */
  lemma NewLinesAreLast(x: Syntax, file: seq<Text>, calls: seq<Call>)
    ensures var s := ReadFile(x, file);
      && |s.entries| == |file| && (s.hasTail <==> exists i :: 0 <= i < |file| && Trim(file[i]) == SIGNATURE)
      && MadeFrom(Rewritten(x, file, calls), |file|, Generated(s, Surplus(s.entries, calls)))
  {
    var s := ReadFile(x, file);
    ReadFileOk(x, file);
    TailIs(x, file);
    CallsGrow(s, calls);
    MadeStay(RewriteAll(s, calls), |file|, Generated(s, Surplus(s.entries, calls)));
  }

  /** What this rewrite made is not blanked. */
  lemma MadeStay(t: State, n: nat, lines: seq<Text>)
    requires MadeFrom(t.entries, n, lines)
    ensures MadeFrom(RemoveOrphaned(t), n, lines)
  {
  }

  lemma {:induction false} TailIs(x: Syntax, file: seq<Text>)
    ensures ReadFile(x, file).hasTail <==> exists i :: 0 <= i < |file| && Trim(file[i]) == SIGNATURE
    decreases |file|
  {
    if file != [] {
      var g := file[..|file| - 1];
      TailIs(x, g);
      assert forall i :: 0 <= i < |g| ==> g[i] == file[i];
      if ReadFile(x, g).hasTail {
        var i :| 0 <= i < |g| && Trim(g[i]) == SIGNATURE;
        assert Trim(file[i]) == SIGNATURE;
      }
    }
  }
}
