/** CONFIG REWRITE as it edits its array of lines: config.c. */
module Config {
  import opened Bytes
  import opened Options
  import opened ConfigModel
  import opened ConfigFile

  /** Lines with what is known about them. */
  function Zip(lines: seq<Text>, owners: seq<Option<Text>>, made: seq<bool>): (es: seq<Entry>)
    requires |lines| == |owners| == |made|
    ensures |es| == |lines|
    ensures forall i :: 0 <= i < |lines| ==> es[i] == Entry(lines[i], owners[i], made[i])
  {
    seq(|lines|, i requires 0 <= i < |lines| => Entry(lines[i], owners[i], made[i]))
  }

  lemma {:induction false} UnusedMembers(es: seq<Entry>, o: Text, i: nat)
    ensures i in Unused(es, o) <==> i < |es| && es[i].owner == Some(o) && !es[i].made
    decreases |es|
  {
    if es != [] { UnusedMembers(es[..|es| - 1], o, i); }
  }

  class RewriteState {
    const syntax: Syntax
    var lines: seq<Text>
    var optionToLine: map<Text, seq<nat>>
    var rewritten: set<Text>
    var hasTail: bool
    ghost var owners: seq<Option<Text>>
    ghost var made: seq<bool>

    ghost predicate Sized()
      reads this
    {
      |lines| == |owners| == |made|
    }

    ghost function View(): State
      requires Sized()
      reads this
    {
      State(Zip(lines, owners, made), optionToLine, rewritten, hasTail)
    }

    ghost predicate Valid()
      reads this
    {
      Sized() && Ok(View())
    }

    /** rewriteConfigReadOldFile: file is what fgets returns, line by line. */
    constructor (syntax: Syntax, file: seq<Text>)
      ensures Valid() && this.syntax == syntax && View() == ReadFile(syntax, file)
    {
      this.syntax := syntax;
      lines, optionToLine, rewritten, hasTail, owners, made := [], map[], {}, false, [], [];
      new;
      for j := 0 to |file|
        invariant Sized() && View() == ReadFile(syntax, file[..j])
      {
        assert file[..j + 1][..j] == file[..j];
        ReadOneLine(file[j]);
      }
      assert file[..|file|] == file;
      ReadFileOk(syntax, file);
    }

    method ReadOneLine(raw: Text)
      requires Sized()
      modifies this
      ensures Sized() && View() == ReadLine(syntax, old(View()), raw)
    {
      ghost var es := View().entries;
      var line := Trim(raw);
      var n := |lines|;
      ghost var owner: Option<Text> := None;
      if IsComment(line) {
        if !hasTail && line == SIGNATURE { hasTail := true; }
        lines := lines + [line];
      } else {
        var option := syntax(line);
        if option.None? {
          lines := lines + [UNKNOWN + line];
        } else {
          lines := lines + [line];
          optionToLine := optionToLine[option.value := Lines(optionToLine, option.value) + [n]];
          owner := option;
        }
      }
      owners := owners + [owner];
      made := made + [false];
      assert View().entries == es + [Read(syntax, raw)];
    }

    /** rewriteConfigMarkAsProcessed. */
    method MarkAsProcessed(option: Text)
      requires Valid()
      modifies this`rewritten
      ensures Valid() && View() == Do(old(View()), Mark(option))
    {
      SameEntries(View(), Do(View(), Mark(option)));
      rewritten := rewritten + {option};
    }

    /** rewriteConfigRewriteLine. */
    method RewriteLine(option: Text, line: Text, force: bool)
      requires Valid()
      modifies this
      ensures Sized() && View() == ConfigModel.RewriteLine(old(View()), option, line, force)
      ensures Valid()
    {
      RewriteLineKeeps(View(), option, line, force);
      assert Lines(optionToLine, option) == Unused(View().entries, option);
      MarkAsProcessed(option);
      var l := Lines(optionToLine, option);
      if |l| > 0 {
        ReuseLine(option, line);
      } else if force {
        AppendNew(option, line);
      }
    }

    /** An old line of the option is used again. */
    method ReuseLine(option: Text, line: Text)
      requires Sized() && Lines(optionToLine, option) != [] && Lines(optionToLine, option)[0] < |lines|
      requires owners[Lines(optionToLine, option)[0]] == Some(option)
      modifies this`lines, this`made, this`optionToLine
      ensures Sized() && View() == Reused(old(View()), option, line)
    {
      ghost var es := View().entries;
      var l := Lines(optionToLine, option);
      var linenum := l[0];
      optionToLine := if |l| == 1 then optionToLine - {option} else optionToLine[option := l[1..]];
      lines := lines[linenum := line];
      made := made[linenum := true];
      assert View().entries == es[linenum := Entry(line, Some(option), true)];
    }

    method AppendNew(option: Text, line: Text)
      requires Sized()
      modifies this`lines, this`owners, this`made, this`hasTail
      ensures Sized() && View() == Appended(old(View()), option, line)
    {
      if !hasTail {
        AppendLine(SIGNATURE, None);
        hasTail := true;
      }
      AppendLine(line, Some(option));
    }

    /** rewriteConfigAppendLine. */
    method AppendLine(line: Text, ghost owner: Option<Text>)
      requires Sized()
      modifies this`lines, this`owners, this`made
      ensures Sized() && View() == old(View()).(entries := old(View()).entries + [Entry(line, owner, true)])
    {
      ghost var es := View().entries;
      lines := lines + [line];
      owners := owners + [owner];
      made := made + [true];
      assert View().entries == es + [Entry(line, owner, true)];
    }

    /** rewriteConfigRemoveOrphaned. */
    method RemoveOrphaned()
      requires Valid()
      modifies this`lines
      ensures Sized() && Zip(lines, owners, made) == ConfigModel.RemoveOrphaned(old(View()))
    {
      ghost var s := View();
      var todo := optionToLine.Keys;
      forall i | 0 <= i < |lines| ensures lines[i] == Orphaned(s, rewritten - todo, i) {
        NotListed(s, i);
      }
      while todo != {}
        invariant Sized() && todo <= optionToLine.Keys
        invariant forall i :: 0 <= i < |lines| ==> lines[i] == Orphaned(s, rewritten - todo, i)
        decreases |todo|
      {
        var option :| option in todo;
        if option in rewritten {
          BlankAll(s, optionToLine[option], option, rewritten - todo);
        }
        todo := todo - {option};
      }
      forall i | 0 <= i < |lines| ensures Zip(lines, owners, made)[i] == ConfigModel.RemoveOrphaned(s)[i] {
      }
    }

    /** The lines of one processed option that are left. */
    method BlankAll(ghost s: State, l: seq<nat>, option: Text, ghost done: set<Text>)
      requires Sized() && |lines| == |s.entries| && l == Unused(s.entries, option)
      requires forall i :: 0 <= i < |lines| ==> lines[i] == Orphaned(s, done, i)
      modifies this`lines
      ensures Sized() && |lines| == |s.entries|
      ensures forall i :: 0 <= i < |lines| ==> lines[i] == Orphaned(s, done + {option}, i)
    {
      for j := 0 to |l|
        invariant |lines| == |s.entries|
        invariant forall i :: 0 <= i < |lines| ==> lines[i] == if i in l[..j] then [] else Orphaned(s, done, i)
      {
        assert l[..j + 1] == l[..j] + [l[j]];
        lines := lines[l[j] := []];
      }
      assert l[..|l|] == l;
      forall i | 0 <= i < |lines| ensures lines[i] == Orphaned(s, done + {option}, i) {
        UnusedMembers(s.entries, option, i);
      }
    }

    /** rewriteConfigGetContentFromState. */
    method GetContent() returns (content: Text)
      ensures content == Joined(Kept(lines))
    {
      content := [];
      var wasEmpty := false;
      for j := 0 to |lines|
        invariant content == Joined(Kept(lines[..j])) && wasEmpty == (j > 0 && lines[j - 1] == [])
      {
        KeptMore(lines, j);
        if |lines[j]| == 0 {
          if wasEmpty { continue; }
          wasEmpty := true;
        } else {
          wasEmpty := false;
        }
        JoinedSnoc(Kept(lines[..j]), lines[j]);
        content := content + lines[j];
        content := content + NEWLINE;
      }
      assert lines[..|lines|] == lines;
    }
  }

  /** rewriteConfig: the calls are those that it makes for the options it knows, and content is what
      it writes to the file. */
  method RewriteConfig(syntax: Syntax, file: seq<Text>, calls: seq<Call>) returns (content: Text)
    ensures content == Joined(NewFile(syntax, file, calls))
  {
    var state := new RewriteState(syntax, file);
    ghost var goal := RewriteAll(state.View(), calls);
    for j := 0 to |calls|
      invariant state.Valid() && RewriteAll(state.View(), calls[j..]) == goal
    {
      RewriteAllStep(state.View(), calls[j..]);
      assert calls[j..][1..] == calls[j + 1..];
      match calls[j] {
        case Line(option, line, force) => state.RewriteLine(option, line, force);
        case Mark(option) => state.MarkAsProcessed(option);
      }
    }
    assert state.View() == goal;
    state.RemoveOrphaned();
    assert state.lines == Texts(Rewritten(syntax, file, calls));
    content := state.GetContent();
  }

  lemma RewriteAllStep(s: State, calls: seq<Call>)
    requires calls != []
    ensures RewriteAll(s, calls)
      == RewriteAll(Do(s, calls[0]), calls[1..])
  {
  }

  /** An option without an entry in the index has no line left. */
  lemma NotListed(s: State, i: nat)
    requires Ok(s) && i < |s.entries|
    ensures Blanked(s.entries[i], s.rewritten - s.index.Keys) == s.entries[i]
  {
    var e := s.entries[i];
    if e.owner.Some? {
      UnusedMembers(s.entries, e.owner.value, i);
      assert Lines(s.index, e.owner.value) == Unused(s.entries, e.owner.value);
    }
  }

  /** A line once the orphans of some options were blanked. */
  ghost function Orphaned(s: State, done: set<Text>, i: int): Text
    requires 0 <= i < |s.entries|
  {
    Blanked(s.entries[i], done).text
  }

  lemma JoinedSnoc(lines: seq<Text>, line: Text)
    ensures Joined(lines + [line]) == (Joined(lines) + line) + NEWLINE
  {
    assert (lines + [line])[..|lines|] == lines;
  }
}
