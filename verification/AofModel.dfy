/** The append only file as a protocol: aof.c on values, one step at a time. */
module AofModel {
  import opened Options
  import opened Bytes
  import opened Resp
  import opened AofLog

  datatype Mode = Off | On | WaitRewrite
  datatype Policy = Always | EverySec | Never

  /** The server's side of the log (aof_buf, aof_current_size, aof_selected_db, aof_state and so
      on), the live data, and the file. child is the data as it was when the running rewrite child
      was forked, diff what has been fed since. saved and torn describe the file: the data it
      rebuilds, unless a short write could not be undone. */
  datatype Aof<D> = Aof(
    data: D, txn: bool,
    mode: Mode, buf: Text, size: nat, selected: int, postponed: int, failing: bool,
    child: Option<D>, diff: Text, scheduled: bool,
    file: Text, saved: D, torn: bool,
    exited: bool)

  // ----- feeding

  function SelectCommand(db: nat): Argv { [SELECT, Digits(db)] }

  /** What one command adds to a log whose last SELECT was for the given database. */
  function Fed(selected: int, db: nat, argv: Argv): Text {
    (if db != selected then Wire(SelectCommand(db)) else []) + Wire(argv)
  }

  /** feedAppendOnlyFile, called by propagate unless the log is off. */
  function Feed<D>(s: Aof<D>, db: nat, argv: Argv): Aof<D> {
    if s.mode == Off then s
    else s.(buf := if s.mode == On then s.buf + Fed(s.selected, db, argv) else s.buf,
            diff := if s.child.Some? then s.diff + Fed(s.selected, db, argv) else s.diff,
            selected := db)
  }

  /** A command is executed and then propagated. */
  function Call<D>(u: Rules<D>, s: Aof<D>, db: nat, argv: Argv): Aof<D> {
    Feed(s.(data := u.apply(s.data, db, argv)), db, argv)
  }

  function Begin<D>(s: Aof<D>, db: nat): Aof<D> { Feed(s.(txn := true), db, [MULTI]) }
  function End<D>(s: Aof<D>, db: nat): Aof<D> { Feed(s.(txn := false), db, [EXEC]) }

  // ----- flushing

  function Zeros(n: nat): Text { seq(n, _ => 0) }

  /** ftruncate: cut off, or filled up with zero bytes. */
  function Truncated(file: Text, size: nat): Text {
    if size <= |file| then file[..size] else file + Zeros(size - |file|)
  }

  /** How the system calls of a flush come out: write returns written bytes or -1, ftruncate
      succeeds or not; whether a background fsync is under way, and the clock. */
  datatype Disk = Disk(written: int, truncates: bool, syncing: bool, now: int)

  predicate Possible<D>(s: Aof<D>, d: Disk) {
    && -1 <= d.written <= |s.buf|
    && (s.mode == Off ==> d.written == -1)
  }

  predicate Postpones<D>(policy: Policy, s: Aof<D>, force: bool, d: Disk) {
    policy == EverySec && !force && d.syncing && (s.postponed == 0 || d.now - s.postponed < 2)
  }

  /** flushAppendOnlyFile. */
  function Flush<D>(policy: Policy, s: Aof<D>, force: bool, d: Disk): Aof<D>
    requires Possible(s, d)
  {
    if s.buf == [] then s
    else if Postpones(policy, s, force, d) then
      if s.postponed == 0 then s.(postponed := d.now) else s
    else
      Written(policy, s.(postponed := 0), d)
  }

  function Written<D>(policy: Policy, s: Aof<D>, d: Disk): Aof<D>
    requires Possible(s, d)
  {
    if d.written == |s.buf| then Complete(s) else Blame(policy, Undone(s, d), Kept(d))
  }

  function Complete<D>(s: Aof<D>): Aof<D> {
    s.(file := s.file + s.buf, size := s.size + |s.buf|, buf := [], failing := false, saved := s.data, torn := false)
  }

  /** The file after a write that was short, and undone if ftruncate works. */
  function Undone<D>(s: Aof<D>, d: Disk): Aof<D>
    requires Possible(s, d)
  {
    if d.written == -1 then s
    else if d.truncates then s.(file := Truncated(s.file + s.buf[..d.written], s.size))
    else s.(file := s.file + s.buf[..d.written], torn := s.torn || d.written > 0)
  }

  function Kept(d: Disk): (n: nat) {
    if d.truncates || d.written < 0 then 0 else d.written
  }

  /** After a write that failed and left n bytes in the file: exit, or try the rest again later. */
  function Blame<D>(policy: Policy, s: Aof<D>, n: nat): Aof<D>
    requires n <= |s.buf|
  {
    if policy == Always then s.(exited := true)
    else s.(failing := true, size := s.size + n, buf := s.buf[n..])
  }

  // ----- rewriting

  /** rewriteAppendOnlyFileBackground; the child has its own copy of the data from here on. */
  function Rewrite<D>(s: Aof<D>, forks: bool): Aof<D> {
    if s.child.Some? || !forks then s
    else s.(child := Some(s.data), scheduled := false, selected := -1)
  }

  /** The file the child writes: rewriteAppendOnlyFile. */
  function Dump<D>(u: Rules<D>, d: D): Text { Wires(u.dump(d)) }

  /** backgroundRewriteDoneHandler; succeeds says that the child exited with 0, the temporary file
      could be opened, the rewrite buffer written to it in full, and the file renamed. */
  function Done<D>(u: Rules<D>, s: Aof<D>, succeeds: bool): Aof<D>
    requires s.child.Some?
  {
    var t := if succeeds then Switched(u, s) else s;
    t.(child := None, diff := [], scheduled := if t.mode == WaitRewrite then true else t.scheduled)
  }

  function Switched<D>(u: Rules<D>, s: Aof<D>): Aof<D>
    requires s.child.Some?
  {
    var file := Dump(u, s.child.value) + s.diff;
    if s.mode == Off then s.(file := file, saved := s.child.value, torn := false)
    else s.(file := file, saved := s.data, torn := false, selected := -1, size := |file|, buf := [], mode := On)
  }

  // ----- switching on and off

  /** startAppendOnly. */
  function Start<D>(s: Aof<D>, opens: bool, forks: bool): Aof<D>
    requires s.mode == Off
  {
    if !opens || s.child.Some? || !forks then s else Rewrite(s, forks).(mode := WaitRewrite)
  }

  /** stopAppendOnly. What could not be flushed stays in aof_buf. */
  function Stop<D>(policy: Policy, s: Aof<D>, d: Disk): Aof<D>
    requires s.mode != Off && Possible(s, d)
  {
    var t := Flush(policy, s, true, d);
    if t.exited then t else t.(selected := -1, mode := Off, child := None, diff := if t.child.Some? then [] else t.diff)
  }

  // ----- what holds at every step

  /** Replaying text gives the data and leaves the player where the next command expects it. */
  predicate Reads<D(==)>(u: Rules<D>, text: Text, data: D, selected: int, txn: bool) {
    match Played(u, text)
    case None => false
    case Some(p) => p.data == data && (selected == -1 || p.db == selected) && (p.multi ==> txn)
  }

  /** The commands that rebuild some data do rebuild it. */
  ghost predicate Rebuilds<D>(u: Rules<D>, d: D) {
    && (forall i :: 0 <= i < |u.dump(d)| ==> Fits(u.dump(d)[i]))
    && Replay(u, Fresh(u), u.dump(d)).data == d
    && !Replay(u, Fresh(u), u.dump(d)).multi
  }

  ghost predicate Lawful<D(!new)>(u: Rules<D>) {
    u.dbnum <= MAX && forall d :: Rebuilds(u, d)
  }

  /** While the log is on, the file and then aof_buf replay to the live data. */
  ghost predicate LogOk<D>(u: Rules<D>, s: Aof<D>) {
    s.mode == On && !s.exited ==> Reads(u, s.file + s.buf, s.data, s.selected, s.txn) && s.size == |s.file|
  }

  /** While a child runs and the log is not off, its snapshot and then the rewrite buffer do too. */
  ghost predicate DiffOk<D>(u: Rules<D>, s: Aof<D>) {
    && (s.child.None? || s.mode == Off ==> s.diff == [])
    && (s.child.Some? && s.mode != Off ==> Reads(u, Dump(u, s.child.value) + s.diff, s.data, s.selected, s.txn))
  }

  /** While the log is on, a file that is not torn loads, to the data of the last complete write. */
  ghost predicate FileOk<D>(u: Rules<D>, s: Aof<D>) {
    && (s.mode == On && !s.torn ==> Load(u, s.file) == Some(s.saved))
    && (s.mode == On ==> s.size <= |s.file|)
  }

  ghost predicate Inv<D>(u: Rules<D>, s: Aof<D>) {
    LogOk(u, s) && DiffOk(u, s) && FileOk(u, s)
  }

  // ----- feeding keeps both logs

  lemma SelectPlays<D>(u: Rules<D>, p: Player<D>, db: nat)
    requires db < u.dbnum <= MAX
    ensures Play(u, p, SelectCommand(db)) == p.(db := db) && Fits(SelectCommand(db))
  {
    NumberOfDigits(db);
    DigitsFit(db);
  }

  /** One command fed to a log that reads; after a SELECT if another database was selected. */
  lemma FedPlays<D>(u: Rules<D>, text: Text, data: D, selected: int, txn: bool, db: nat, argv: Argv)
    requires Reads(u, text, data, selected, txn) && db < u.dbnum <= MAX && Fits(argv)
    ensures Played(u, text + Fed(selected, db, argv))
      == Some(Play(u, Player(data, db, Played(u, text).value.multi), argv))
  {
    if db == selected {
      FedSame(u, text, db, argv);
    } else {
      FedSelect(u, text, selected, db, argv);
    }
  }

  lemma FedSame<D>(u: Rules<D>, text: Text, db: nat, argv: Argv)
    requires Played(u, text).Some? && Fits(argv)
    ensures Played(u, text + Fed(db, db, argv)) == Some(Play(u, Played(u, text).value, argv))
  {
    PlayedMore(u, text, argv);
    assert Fed(db, db, argv) == Wire(argv);
  }

  lemma FedSelect<D>(u: Rules<D>, text: Text, selected: int, db: nat, argv: Argv)
    requires Played(u, text).Some? && selected != db < u.dbnum <= MAX && Fits(argv)
    ensures Played(u, text + Fed(selected, db, argv)) == Some(Play(u, Played(u, text).value.(db := db), argv))
  {
    SelectPlays(u, Played(u, text).value, db);
    PlayedTwoMore(u, text, SelectCommand(db), argv);
  }

  /** The same for the three kinds of command that are fed. */
  lemma FedCommandReads<D>(u: Rules<D>, text: Text, data: D, selected: int, txn: bool, db: nat, argv: Argv)
    requires Reads(u, text, data, selected, txn) && db < u.dbnum <= MAX && Fits(argv) && !Control(argv)
    ensures Reads(u, text + Fed(selected, db, argv), u.apply(data, db, argv), db, txn)
  {
    FedPlays(u, text, data, selected, txn, db, argv);
  }

  lemma FedMarkReads<D>(u: Rules<D>, text: Text, data: D, selected: int, txn: bool, db: nat)
    requires Reads(u, text, data, selected, txn) && db < u.dbnum <= MAX
    ensures Reads(u, text + Fed(selected, db, [MULTI]), data, db, true)
    ensures Reads(u, text + Fed(selected, db, [EXEC]), data, db, false)
  {
    FedPlays(u, text, data, selected, txn, db, [MULTI]);
    FedPlays(u, text, data, selected, txn, db, [EXEC]);
  }

  /** Three ways to go on with a log that is the text a and then the text b. */
  lemma LogFed<D>(u: Rules<D>, a: Text, b: Text, data: D, selected: int, txn: bool, db: nat, argv: Argv)
    requires Reads(u, a + b, data, selected, txn) && db < u.dbnum <= MAX && Fits(argv) && !Control(argv)
    ensures Reads(u, a + (b + Fed(selected, db, argv)), u.apply(data, db, argv), db, txn)
  {
    FedCommandReads(u, a + b, data, selected, txn, db, argv);
    Assoc(a, b, Fed(selected, db, argv));
  }

  lemma LogBegun<D>(u: Rules<D>, a: Text, b: Text, data: D, selected: int, txn: bool, db: nat)
    requires Reads(u, a + b, data, selected, txn) && db < u.dbnum <= MAX
    ensures Reads(u, a + (b + Fed(selected, db, [MULTI])), data, db, true)
  {
    FedMarkReads(u, a + b, data, selected, txn, db);
    Assoc(a, b, Fed(selected, db, [MULTI]));
  }

  lemma LogEnded<D>(u: Rules<D>, a: Text, b: Text, data: D, selected: int, txn: bool, db: nat)
    requires Reads(u, a + b, data, selected, txn) && db < u.dbnum <= MAX
    ensures Reads(u, a + (b + Fed(selected, db, [EXEC])), data, db, false)
  {
    FedMarkReads(u, a + b, data, selected, txn, db);
    Assoc(a, b, Fed(selected, db, [EXEC]));
  }

  lemma CallKeeps<D>(u: Rules<D>, s: Aof<D>, db: nat, argv: Argv)
    requires Inv(u, s) && db < u.dbnum <= MAX && Fits(argv) && !Control(argv) && !s.exited
    ensures Inv(u, Call(u, s, db, argv))
  {
    if s.mode == On { LogFed(u, s.file, s.buf, s.data, s.selected, s.txn, db, argv); }
    if s.mode != Off && s.child.Some? {
      LogFed(u, Dump(u, s.child.value), s.diff, s.data, s.selected, s.txn, db, argv);
    }
  }

  lemma BeginKeeps<D>(u: Rules<D>, s: Aof<D>, db: nat)
    requires Inv(u, s) && db < u.dbnum <= MAX && !s.exited
    ensures Inv(u, Begin(s, db))
  {
    if s.mode == On { LogBegun(u, s.file, s.buf, s.data, s.selected, s.txn, db); }
    if s.mode != Off && s.child.Some? {
      LogBegun(u, Dump(u, s.child.value), s.diff, s.data, s.selected, s.txn, db);
    }
  }

  lemma EndKeeps<D>(u: Rules<D>, s: Aof<D>, db: nat)
    requires Inv(u, s) && db < u.dbnum <= MAX && !s.exited
    ensures Inv(u, End(s, db))
  {
    if s.mode == On { LogEnded(u, s.file, s.buf, s.data, s.selected, s.txn, db); }
    if s.mode != Off && s.child.Some? {
      LogEnded(u, Dump(u, s.child.value), s.diff, s.data, s.selected, s.txn, db);
    }
  }

  // ----- flushing moves bytes from aof_buf to the file and loses none

  /** Outside a transaction a log that reads, loads. */
  lemma ReadsLoads<D>(u: Rules<D>, text: Text, data: D, selected: int)
    requires Reads(u, text, data, selected, false)
    ensures Load(u, text) == Some(data)
  {
  }

  lemma Resplit(a: Text, b: Text, n: nat)
    requires n <= |b|
    ensures (a + b[..n]) + b[n..] == a + b
    ensures Truncated(a + b[..n], |a|) == a
    ensures n == 0 ==> a + b[..n] == a
  {
  }

  lemma CompleteKeeps<D>(u: Rules<D>, s: Aof<D>)
    requires Inv(u, s) && !s.exited && (s.mode == On ==> !s.txn)
    ensures Inv(u, Complete(s))
  {
    if s.mode == On {
      ReadsLoads(u, s.file + s.buf, s.data, s.selected);
      Resplit(s.file, s.buf, |s.buf|);
      assert s.buf[|s.buf|..] == [] && s.buf[..|s.buf|] == s.buf;
    }
  }

  lemma WrittenKeeps<D>(u: Rules<D>, policy: Policy, s: Aof<D>, d: Disk)
    requires Inv(u, s) && Possible(s, d) && !s.exited && (s.mode == On ==> !s.txn || Written(policy, s, d).exited)
    ensures Inv(u, Written(policy, s, d))
  {
    if d.written == |s.buf| {
      CompleteKeeps(u, s);
    } else if s.mode == On {
      Resplit(s.file, s.buf, if d.written == -1 then 0 else d.written);
      assert s.buf[0..] == s.buf;
    }
  }

  lemma FlushKeeps<D>(u: Rules<D>, policy: Policy, s: Aof<D>, force: bool, d: Disk)
    requires Inv(u, s) && Possible(s, d) && !s.exited && (s.mode == On ==> !s.txn || Flush(policy, s, force, d).exited)
    ensures Inv(u, Flush(policy, s, force, d))
  {
    WrittenKeeps(u, policy, s.(postponed := 0), d);
  }

  // ----- rewriting

  /** What the child writes loads to its snapshot, wherever it leaves the selected database. */
  lemma DumpReads<D(!new)>(u: Rules<D>, d: D)
    requires Lawful(u)
    ensures Reads(u, Dump(u, d), d, -1, false)
  {
    assert Rebuilds(u, d);
    WiresRead(u.dump(d));
  }

  lemma RewriteKeeps<D(!new)>(u: Rules<D>, s: Aof<D>, forks: bool)
    requires Lawful(u) && Inv(u, s)
    ensures Inv(u, Rewrite(s, forks))
  {
    if s.child.None? && forks {
      DumpReads(u, s.data);
      assert Dump(u, s.data) + [] == Dump(u, s.data);
    }
  }

  lemma DoneKeeps<D>(u: Rules<D>, s: Aof<D>, succeeds: bool)
    requires Inv(u, s) && s.child.Some? && !s.txn
    ensures Inv(u, Done(u, s, succeeds))
  {
    if succeeds && s.mode != Off {
      var file := Dump(u, s.child.value) + s.diff;
      assert file + [] == file;
      ReadsLoads(u, file, s.data, s.selected);
    }
  }

  lemma StartKeeps<D(!new)>(u: Rules<D>, s: Aof<D>, opens: bool, forks: bool)
    requires Lawful(u) && Inv(u, s) && s.mode == Off
    ensures Inv(u, Start(s, opens, forks))
  {
    if opens && s.child.None? && forks {
      DumpReads(u, s.data);
      assert Dump(u, s.data) + [] == Dump(u, s.data);
    }
  }

  // ----- runs

  datatype Event =
    | Called(db: nat, argv: Argv)
    | Began(db: nat)
    | Ended(db: nat)
    | Flushed(force: bool, disk: Disk)
    | Forked(forks: bool)
    | ChildDone(succeeds: bool)
    | Started(opens: bool, forks: bool)
    | Stopped(disk: Disk)

  /** What the callers see to: the event loop flushes and reaps children between transactions,
      CONFIG SET switches only to the other state, and SELECT, MULTI and EXEC are not propagated
      as ordinary commands. */
  predicate Allowed<D>(u: Rules<D>, s: Aof<D>, e: Event) {
    match e
    case Called(db, argv) => db < u.dbnum && Fits(argv) && !Control(argv)
    case Began(db) => db < u.dbnum && !s.txn
    case Ended(db) => db < u.dbnum && s.txn
    case Flushed(_, d) => !s.txn && Possible(s, d)
    case Forked(_) => true
    case ChildDone(_) => !s.txn && s.child.Some?
    case Started(_, _) => s.mode == Off
    case Stopped(d) => s.mode != Off && Possible(s, d)
  }

  function Step<D>(u: Rules<D>, policy: Policy, s: Aof<D>, e: Event): Aof<D>
    requires Allowed(u, s, e)
  {
    match e
    case Called(db, argv) => Call(u, s, db, argv)
    case Began(db) => Begin(s, db)
    case Ended(db) => End(s, db)
    case Flushed(force, d) => Flush(policy, s, force, d)
    case Forked(forks) => Rewrite(s, forks)
    case ChildDone(succeeds) => Done(u, s, succeeds)
    case Started(opens, forks) => Start(s, opens, forks)
    case Stopped(d) => Stop(policy, s, d)
  }

  /** The state after a run, which ends early when the server exits. */
  function Run<D>(u: Rules<D>, policy: Policy, s: Aof<D>, es: seq<Event>): Aof<D>
    requires AllAllowed(u, policy, s, es)
    decreases |es|
  {
    if es == [] || s.exited then s else Run(u, policy, Step(u, policy, s, es[0]), es[1..])
  }

  predicate AllAllowed<D>(u: Rules<D>, policy: Policy, s: Aof<D>, es: seq<Event>)
    decreases |es|
  {
    es != [] && !s.exited ==> Allowed(u, s, es[0]) && AllAllowed(u, policy, Step(u, policy, s, es[0]), es[1..])
  }

  /** A server that has loaded its file at startup. */
  function Boot<D>(u: Rules<D>, file: Text): Aof<D>
    requires Load(u, file).Some?
  {
    var d := Load(u, file).value;
    Aof(d, false, On, [], |file|, -1, 0, false, None, [], false, file, d, false, false)
  }

  lemma BootInv<D>(u: Rules<D>, file: Text)
    requires Load(u, file).Some?
    ensures Inv(u, Boot(u, file))
  {
    assert file + [] == file;
  }

  /** What a flush does not touch. */
  predicate SameRest<D(==)>(s: Aof<D>, t: Aof<D>) {
    t.child == s.child && t.diff == s.diff && t.mode == s.mode && t.data == s.data && t.txn == s.txn
    && t.scheduled == s.scheduled
  }

  lemma CompleteLeaves<D>(s: Aof<D>)
    ensures SameRest(s, Complete(s))
  {
  }

  lemma UndoneLeaves<D>(s: Aof<D>, d: Disk)
    requires Possible(s, d)
    ensures SameRest(s, Undone(s, d)) && Undone(s, d).buf == s.buf
  {
  }

  lemma BlameLeaves<D>(policy: Policy, s: Aof<D>, n: nat)
    requires n <= |s.buf|
    ensures SameRest(s, Blame(policy, s, n))
  {
  }

  lemma FlushLeaves<D>(policy: Policy, s: Aof<D>, force: bool, d: Disk)
    requires Possible(s, d)
    ensures SameRest(s, Flush(policy, s, force, d))
  {
    if s.buf != [] && !Postpones(policy, s, force, d) {
      var t := s.(postponed := 0);
      CompleteLeaves(t);
      if d.written != |s.buf| {
        UndoneLeaves(t, d);
        BlameLeaves(policy, Undone(t, d), Kept(d));
      }
    }
  }

  lemma OffInv<D>(u: Rules<D>, s: Aof<D>)
    requires s.mode == Off && s.diff == []
    ensures Inv(u, s)
  {
  }

  lemma StopKeeps<D>(u: Rules<D>, policy: Policy, s: Aof<D>, d: Disk)
    requires Inv(u, s) && s.mode != Off && Possible(s, d) && !s.exited
    ensures Inv(u, Stop(policy, s, d))
  {
    FlushLeaves(policy, s, true, d);
    if Flush(policy, s, true, d).exited {
      FlushKeeps(u, policy, s, true, d);
    } else {
      OffInv(u, Stop(policy, s, d));
    }
  }

  lemma StepKeeps<D(!new)>(u: Rules<D>, policy: Policy, s: Aof<D>, e: Event)
    requires Lawful(u) && Inv(u, s) && !s.exited && Allowed(u, s, e)
    ensures Inv(u, Step(u, policy, s, e))
  {
    match e
    case Called(db, argv) => CallKeeps(u, s, db, argv);
    case Began(db) => BeginKeeps(u, s, db);
    case Ended(db) => EndKeeps(u, s, db);
    case Flushed(force, d) => FlushKeeps(u, policy, s, force, d);
    case Forked(forks) => RewriteKeeps(u, s, forks);
    case ChildDone(succeeds) => DoneKeeps(u, s, succeeds);
    case Started(opens, forks) => StartKeeps(u, s, opens, forks);
    case Stopped(d) => StopKeeps(u, policy, s, d);
  }

  lemma {:induction false} RunKeeps<D(!new)>(u: Rules<D>, policy: Policy, s: Aof<D>, es: seq<Event>)
    requires Lawful(u) && Inv(u, s) && AllAllowed(u, policy, s, es)
    ensures Inv(u, Run(u, policy, s, es))
    decreases |es|
  {
    if es != [] && !s.exited {
      StepKeeps(u, policy, s, es[0]);
      RunKeeps(u, policy, Step(u, policy, s, es[0]), es[1..]);
    }
  }

  /** The log is the data: however a run went, while the log is on and between transactions a
      restart from the file and what is still buffered gives the live data; and one from the
      file alone gives the data of the last complete write, unless a short write could not be
      undone. */
  lemma LogIsData<D(!new)>(u: Rules<D>, policy: Policy, file: Text, es: seq<Event>)
    requires Lawful(u) && Load(u, file).Some? && AllAllowed(u, policy, Boot(u, file), es)
    ensures var s := Run(u, policy, Boot(u, file), es);
      s.mode == On ==>
        && (!s.exited && !s.txn ==> Load(u, s.file + s.buf) == Some(s.data))
        && (!s.torn ==> Load(u, s.file) == Some(s.saved))
  {
    BootInv(u, file);
    RunKeeps(u, policy, Boot(u, file), es);
  }

  /** The switch to a rewritten file loses nothing: it loads to the live data, with nothing
      buffered; when the log is off, to the data of the fork. */
  lemma SwitchIsData<D(!new)>(u: Rules<D>, policy: Policy, file: Text, es: seq<Event>)
    requires Lawful(u) && Load(u, file).Some? && AllAllowed(u, policy, Boot(u, file), es)
    requires var s := Run(u, policy, Boot(u, file), es); s.child.Some? && !s.txn && !s.exited
    ensures var s := Run(u, policy, Boot(u, file), es); var t := Done(u, s, true);
      Load(u, t.file) == Some(if s.mode == Off then s.child.value else s.data)
  {
    BootInv(u, file);
    RunKeeps(u, policy, Boot(u, file), es);
    var s := Run(u, policy, Boot(u, file), es);
    if s.mode == Off {
      DumpReads(u, s.child.value);
      assert Dump(u, s.child.value) + [] == Dump(u, s.child.value);
    }
  }
}
