/** Runs of the log, told by their history alone: when it is on, and what a restart then gives. */
module AofRun {
  import opened Options
  import opened Bytes
  import opened Resp
  import opened AofLog
  import opened AofModel

  // ----- what a history says

  /** The data that executing the commands of a history gives. */
  function LiveData<D>(u: Rules<D>, start: D, es: seq<Event>): D
    decreases |es|
  {
    if es == [] then start
    else
      var e, before := es[|es| - 1], LiveData(u, start, es[..|es| - 1]);
      if e.Called? then u.apply(before, e.db, e.argv) else before
  }

  predicate InTxn(es: seq<Event>)
    decreases |es|
  {
    es != [] &&
    var e := es[|es| - 1];
    e.Began? || (!e.Ended? && InTxn(es[..|es| - 1]))
  }

  /** The event forks a rewrite child unless there is one: BGREWRITEAOF, or switching the log on. */
  predicate Forking(e: Event) { e == Forked(true) || e == Started(true, true) }

  predicate HasChild(es: seq<Event>)
    decreases |es|
  {
    es != [] &&
    var e := es[|es| - 1];
    !e.ChildDone? && !e.Stopped? && (Forking(e) || HasChild(es[..|es| - 1]))
  }

  /** The data that the running rewrite child has. */
  function Snapshot<D>(u: Rules<D>, start: D, es: seq<Event>): Option<D>
    decreases |es|
  {
    if !HasChild(es) then None
    else
      var before := es[..|es| - 1];
      if HasChild(before) then Snapshot(u, start, before) else Some(LiveData(u, start, before))
  }

  /** The log is on from the start. Stopping it switches it off; starting it, when no child is in the
      way, makes it wait for a rewrite; a rewrite that succeeds switches it on. */
  function ModeAfter(es: seq<Event>): Mode
    decreases |es|
  {
    if es == [] then On
    else
      var e, before := es[|es| - 1], es[..|es| - 1];
      var mode := ModeAfter(before);
      if e.Stopped? then Off
      else if e == Started(true, true) && mode == Off && !HasChild(before) then WaitRewrite
      else if e == ChildDone(true) && mode == WaitRewrite then On
      else mode
  }

  predicate NoStop(es: seq<Event>, i: int) { forall m :: 0 <= m < |es| && i < m ==> !es[m].Stopped? }

  /** The log was told to start at i, with no child in the way, and not to stop since. */
  predicate StartedAt(es: seq<Event>, i: nat) {
    i < |es| && es[i] == Started(true, true) && !HasChild(es[..i]) && NoStop(es, i)
  }

  ghost predicate StartedOnce(es: seq<Event>) { exists i: nat :: StartedAt(es, i) }

  /** And a rewrite has succeeded since. */
  predicate SwitchedAt(es: seq<Event>, i: nat, j: nat) {
    StartedAt(es, i) && i < j < |es| && es[j] == ChildDone(true)
  }

  ghost predicate SwitchedOnce(es: seq<Event>) { exists i: nat, j: nat :: SwitchedAt(es, i, j) }

  /** The log was never stopped, or it was started again since and a rewrite has succeeded since then. */
  ghost predicate Logging(es: seq<Event>) { NoStop(es, -1) || SwitchedOnce(es) }

  // ----- one event more

  lemma NoStopMore(g: seq<Event>, e: Event, i: int)
    requires i < |g|
    ensures NoStop(g + [e], i) <==> NoStop(g, i) && !e.Stopped?
  {
    var h := g + [e];
    assert h[|g|] == e && forall m :: 0 <= m < |g| ==> h[m] == g[m];
  }

  lemma StartedMore(g: seq<Event>, e: Event, i: nat)
    ensures i < |g| ==> (StartedAt(g + [e], i) <==> StartedAt(g, i) && !e.Stopped?)
    ensures StartedAt(g + [e], |g|) <==> e == Started(true, true) && !HasChild(g)
  {
    var h := g + [e];
    assert h[|g|] == e && h[..|g|] == g;
    if i < |g| {
      NoStopMore(g, e, i);
      assert h[i] == g[i] && h[..i] == g[..i];
    }
  }

  lemma StartedOnceMore(g: seq<Event>, e: Event)
    ensures StartedOnce(g + [e]) <==>
      (StartedOnce(g) && !e.Stopped?) || (e == Started(true, true) && !HasChild(g))
  {
    if StartedOnce(g + [e]) {
      var i: nat :| StartedAt(g + [e], i);
      StartedMore(g, e, i);
    }
    if StartedOnce(g) && !e.Stopped? {
      var i: nat :| StartedAt(g, i);
      StartedMore(g, e, i);
    }
    StartedMore(g, e, 0);
  }

  lemma SwitchedOnceMore(g: seq<Event>, e: Event)
    ensures SwitchedOnce(g + [e]) <==>
      (SwitchedOnce(g) && !e.Stopped?) || (e == ChildDone(true) && StartedOnce(g))
  {
    var h := g + [e];
    assert h[|g|] == e;
    if SwitchedOnce(h) {
      var i: nat, j: nat :| SwitchedAt(h, i, j);
      StartedMore(g, e, i);
      if j < |g| { assert SwitchedAt(g, i, j); }
    }
    if SwitchedOnce(g) && !e.Stopped? {
      var i: nat, j: nat :| SwitchedAt(g, i, j);
      StartedMore(g, e, i);
      assert SwitchedAt(h, i, j);
    }
    if e == ChildDone(true) && StartedOnce(g) {
      var i: nat :| StartedAt(g, i);
      StartedMore(g, e, i);
      assert SwitchedAt(h, i, |g|);
    }
  }

  /** When the log is on, and when it is not off, whatever the history. */
  lemma {:induction false} ModeIs(es: seq<Event>)
    ensures ModeAfter(es) != Off <==> NoStop(es, -1) || StartedOnce(es)
    ensures ModeAfter(es) == On <==> Logging(es)
    decreases |es|
  {
    if es != [] {
      var g, e := es[..|es| - 1], es[|es| - 1];
      assert es == g + [e];
      ModeIs(g);
      NoStopMore(g, e, -1);
      StartedOnceMore(g, e);
      SwitchedOnceMore(g, e);
      if SwitchedOnce(g) {
        var i: nat, j: nat :| SwitchedAt(g, i, j);
        assert StartedAt(g, i);
      }
    }
  }

  // ----- the state is what the history says

  ghost predicate Told<D>(u: Rules<D>, start: D, es: seq<Event>, s: Aof<D>) {
    && s.data == LiveData(u, start, es) && s.txn == InTxn(es)
    && s.child == Snapshot(u, start, es) && s.mode == ModeAfter(es)
  }

  lemma SnapshotIsChild<D>(u: Rules<D>, start: D, es: seq<Event>)
    ensures Snapshot(u, start, es).Some? <==> HasChild(es)
    decreases |es|
  {
    if HasChild(es) { SnapshotIsChild(u, start, es[..|es| - 1]); }
  }

  /** How one event moves what the history tells of: only commands change the data, a fork copies
      them, and the mode goes from off to waiting to on and back to off. A rewrite that fails while the
      log waits for it is to be tried again. */
  ghost predicate Moves<D>(u: Rules<D>, s: Aof<D>, e: Event, t: Aof<D>) {
    && t.data == (if e.Called? then u.apply(s.data, e.db, e.argv) else s.data)
    && t.txn == (e.Began? || (!e.Ended? && s.txn))
    && t.child == (if e.ChildDone? || e.Stopped? then None
                   else if Forking(e) && s.child.None? then Some(s.data) else s.child)
    && t.mode == (if e.Stopped? then Off
                  else if e == Started(true, true) && s.mode == Off && s.child.None? then WaitRewrite
                  else if e == ChildDone(true) && s.mode == WaitRewrite then On
                  else s.mode)
    && t.scheduled == (if e.ChildDone? && t.mode == WaitRewrite then true
                       else if Forking(e) && s.child.None? then false else s.scheduled)
  }

  lemma FlushMoves<D>(u: Rules<D>, policy: Policy, s: Aof<D>, e: Event)
    requires Allowed(u, s, e) && !Step(u, policy, s, e).exited && (e.Flushed? || e.Stopped?)
    ensures Moves(u, s, e, Step(u, policy, s, e))
  {
    FlushLeaves(policy, s, e.Stopped? || e.force, e.disk);
  }

  lemma StepMoves<D>(u: Rules<D>, policy: Policy, s: Aof<D>, e: Event)
    requires Allowed(u, s, e) && !Step(u, policy, s, e).exited
    ensures Moves(u, s, e, Step(u, policy, s, e))
  {
    if e.Flushed? || e.Stopped? { FlushMoves(u, policy, s, e); }
  }

  lemma HistoryMore<D>(u: Rules<D>, start: D, g: seq<Event>, s: Aof<D>, e: Event, t: Aof<D>)
    requires Told(u, start, g, s) && Moves(u, s, e, t)
    ensures Told(u, start, g + [e], t)
  {
    assert (g + [e])[..|g|] == g;
    SnapshotIsChild(u, start, g);
  }

  lemma {:induction false} RunTold<D>(u: Rules<D>, policy: Policy, start: D, g: seq<Event>, s: Aof<D>, es: seq<Event>)
    requires Told(u, start, g, s) && AllAllowed(u, policy, s, es) && !Run(u, policy, s, es).exited
    ensures Told(u, start, g + es, Run(u, policy, s, es))
    decreases |es|
  {
    if es == [] {
      assert g + es == g;
    } else {
      var t := Step(u, policy, s, es[0]);
      StepMoves(u, policy, s, es[0]);
      HistoryMore(u, start, g, s, es[0], t);
      RunTold(u, policy, start, g + [es[0]], t, es[1..]);
      assert (g + [es[0]]) + es[1..] == g + es;
    }
  }

  /** Over every run: the live data, the transaction, the child and its data, and whether the log is
      on, off or waiting are what the history says. */
  lemma RunIsTold<D>(u: Rules<D>, policy: Policy, file: Text, es: seq<Event>)
    requires Load(u, file).Some? && AllAllowed(u, policy, Boot(u, file), es)
    ensures var s := Run(u, policy, Boot(u, file), es);
      !s.exited ==> Told(u, Load(u, file).value, es, s)
  {
    if !Run(u, policy, Boot(u, file), es).exited {
      RunTold(u, policy, Load(u, file).value, [], Boot(u, file), es);
      assert [] + es == es;
    }
  }

  /** Whenever the log was never stopped, or was started again and a rewrite has succeeded since: a
      restart from the file and what is still buffered gives what executing all commands gave. */
  lemma LogSurvives<D(!new)>(u: Rules<D>, policy: Policy, file: Text, es: seq<Event>)
    requires Lawful(u) && Load(u, file).Some? && AllAllowed(u, policy, Boot(u, file), es)
    requires Logging(es) && !InTxn(es)
    ensures var s := Run(u, policy, Boot(u, file), es);
      !s.exited ==> Load(u, s.file + s.buf) == Some(LiveData(u, Load(u, file).value, es))
  {
    RunIsTold(u, policy, file, es);
    ModeIs(es);
    LogIsData(u, policy, file, es);
  }

  // ----- what a flush promises

  /** The conditions of flushAppendOnlyFile under which nothing is tried: nothing to write, or a write
      put off for up to two seconds because a background fsync is under way. */
  predicate Waits<D>(policy: Policy, s: Aof<D>, force: bool, d: Disk) {
    |s.buf| == 0 ||
    (policy == EverySec && !force && d.syncing && (s.postponed == 0 || d.now - s.postponed < 2))
  }

  lemma Rejoin(a: Text, b: Text, n: nat)
    requires n <= |b|
    ensures (a + b[..n]) + b[n..] == a + b && a + b[..0] == a
    ensures (a + b[..n])[..|a|] == a
  {
  }

  /** What a flush does to the file and the buffer: nothing when it waits; all of the buffer goes to the
      file when the write is complete; else no byte is lost, none is left in the file when ftruncate
      works, and the server knows of the failure or, when it must not go on, exits. */
  lemma FlushOutcome<D>(policy: Policy, s: Aof<D>, force: bool, d: Disk)
    requires Possible(s, d) && !s.exited && s.size == |s.file|
    ensures var t := Flush(policy, s, force, d);
      if Waits(policy, s, force, d) then t.file == s.file && t.buf == s.buf && t.failing == s.failing && !t.exited
      else if d.written == |s.buf| then t.file == s.file + s.buf && t.buf == [] && !t.failing && !t.exited
      else if policy == Always then t.exited
      else t.failing && !t.exited && t.file + t.buf == s.file + s.buf
           && (d.truncates || d.written <= 0 ==> t.file == s.file)
  {
    if !Waits(policy, s, force, d) && d.written != |s.buf| {
      ShortOutcome(policy, s.(postponed := 0), d);
    }
  }

  lemma ShortOutcome<D>(policy: Policy, s: Aof<D>, d: Disk)
    requires Possible(s, d) && !s.exited && s.size == |s.file| && d.written < |s.buf|
    ensures var t := Written(policy, s, d);
      if policy == Always then t.exited
      else t.failing && !t.exited && t.file + t.buf == s.file + s.buf
           && (d.truncates || d.written <= 0 ==> t.file == s.file)
  {
    Rejoin(s.file, s.buf, if d.written < 0 then 0 else d.written);
    assert s.buf[0..] == s.buf;
  }

  /** Once a flush has written all it had, the file alone gives the live data. With appendfsync always,
      that is so behind every flush that the server survives. */
  lemma FlushIsDurable<D(!new)>(u: Rules<D>, policy: Policy, file: Text, es: seq<Event>, force: bool, d: Disk)
    requires Lawful(u) && Load(u, file).Some? && AllAllowed(u, policy, Boot(u, file), es)
    requires !Run(u, policy, Boot(u, file), es).exited && Logging(es) && !InTxn(es)
    requires Possible(Run(u, policy, Boot(u, file), es), d)
    ensures var s := Run(u, policy, Boot(u, file), es);
      var t := Flush(policy, s, force, d);
      policy == Always || (!Waits(policy, s, force, d) && d.written == |s.buf|) ==>
        t.exited || (t.buf == [] && Load(u, t.file) == Some(LiveData(u, Load(u, file).value, es)))
  {
    var s := Run(u, policy, Boot(u, file), es);
    LogSurvives(u, policy, file, es);
    RunIsTold(u, policy, file, es);
    ModeIs(es);
    BootInv(u, file);
    RunKeeps(u, policy, Boot(u, file), es);
    FlushOutcome(policy, s, force, d);
    assert s.buf == [] ==> s.file + s.buf == s.file;
  }

  /** Nor does switching the log off lose anything, if its last write is complete: the file that is left
      gives the live data. */
  lemma StopIsDurable<D(!new)>(u: Rules<D>, policy: Policy, file: Text, es: seq<Event>, d: Disk)
    requires Lawful(u) && Load(u, file).Some? && AllAllowed(u, policy, Boot(u, file), es)
    requires !Run(u, policy, Boot(u, file), es).exited && Logging(es) && !InTxn(es)
    requires var s := Run(u, policy, Boot(u, file), es); Possible(s, d) && d.written == |s.buf|
    ensures Run(u, policy, Boot(u, file), es).mode == On
    ensures var t := Stop(policy, Run(u, policy, Boot(u, file), es), d);
      t.mode == Off && Load(u, t.file) == Some(LiveData(u, Load(u, file).value, es))
  {
    var s := Run(u, policy, Boot(u, file), es);
    RunIsTold(u, policy, file, es);
    ModeIs(es);
    FlushIsDurable(u, policy, file, es, true, d);
    LogSurvives(u, policy, file, es);
    BootInv(u, file);
    RunKeeps(u, policy, Boot(u, file), es);
    FlushOutcome(policy, s, true, d);
    assert s.buf == [] ==> s.file + s.buf == s.file;
  }

  // ----- how long a write is put off

  /** From here on every flush finds a write to put off; other events do not write. */
  predicate PutsOff<D>(u: Rules<D>, policy: Policy, s: Aof<D>, es: seq<Event>)
    decreases |es|
  {
    es != [] ==>
      var e := es[0];
      && Allowed(u, s, e) && !s.exited && !e.Stopped? && !e.ChildDone?
      && (e.Flushed? ==> s.buf != [] && Waits(policy, s, e.force, e.disk))
      && PutsOff(u, policy, Step(u, policy, s, e), es[1..])
  }

  lemma {:induction false} PutOffSince<D>(u: Rules<D>, policy: Policy, s: Aof<D>, es: seq<Event>, i: nat)
    requires PutsOff(u, policy, s, es) && s.postponed != 0 && i < |es| && es[i].Flushed?
    ensures es[i].disk.now < s.postponed + 2
    decreases |es|
  {
    if i > 0 {
      PutOffSince(u, policy, Step(u, policy, s, es[0]), es[1..], i - 1);
    }
  }

  /** A write that is put off is not put off for long: the flushes that do so one after the other all come
      within two seconds of the first. */
  lemma PutOffBriefly<D>(u: Rules<D>, policy: Policy, s: Aof<D>, es: seq<Event>, i: nat)
    requires PutsOff(u, policy, s, es) && s.postponed == 0 && es != [] && es[0].Flushed? && es[0].disk.now > 0
    requires 0 < i < |es| && es[i].Flushed?
    ensures es[i].disk.now < es[0].disk.now + 2
  {
    PutOffSince(u, policy, Step(u, policy, s, es[0]), es[1..], i - 1);
  }
}
