/** The append only file as the server keeps it: aof.c, POSIX version. */
module Aof {
  import opened Options
  import opened Bytes
  import opened Resp
  import opened AofLog
  import opened AofModel

  const BLOCK := 10 * 1024 * 1024

  /** A block of the rewrite buffer: the used part of its bytes, and how many more it can take. */
  datatype Block = Block(bytes: Text, free: nat)

  /** The rewrite buffer as one text. */
  function Flat(blocks: seq<Block>): Text {
    if blocks == [] then [] else Flat(blocks[..|blocks| - 1]) + blocks[|blocks| - 1].bytes
  }

  /** Every block but the last is full; used and free make up a block. */
  predicate Packed(blocks: seq<Block>) {
    && (forall i :: 0 <= i < |blocks| ==> |blocks[i].bytes| + blocks[i].free == BLOCK)
    && (forall i :: 0 <= i < |blocks| - 1 ==> blocks[i].free == 0)
  }

  lemma {:induction false} FlatSize(blocks: seq<Block>)
    requires Packed(blocks)
    ensures |Flat(blocks)| == if blocks == [] then 0 else (|blocks| - 1) * BLOCK + |blocks[|blocks| - 1].bytes|
  {
    if blocks != [] {
      var rest := blocks[..|blocks| - 1];
      FlatSize(rest);
      if rest != [] { assert rest[|rest| - 1] == blocks[|rest| - 1]; }
    }
  }

  lemma FlatSnoc(blocks: seq<Block>, b: Block)
    ensures Flat(blocks + [b]) == Flat(blocks) + b.bytes
  {
    assert (blocks + [b])[..|blocks|] == blocks;
  }

  /** aofRewriteBufferSize: computed from the number of blocks and the last one alone. */
  method BufferSize(blocks: seq<Block>) returns (size: nat)
    requires Packed(blocks)
    ensures size == |Flat(blocks)|
  {
    FlatSize(blocks);
    if blocks == [] { return 0; }
    size := (|blocks| - 1) * BLOCK;
    size := size + |blocks[|blocks| - 1].bytes|;
  }

  /** The last block after as much of s as it has room for. */
  lemma Filled(blocks: seq<Block>, s: Text, n: nat)
    requires Packed(blocks) && blocks != [] && n <= |s| && n <= blocks[|blocks| - 1].free
    ensures var last := blocks[|blocks| - 1];
      var filled := blocks[..|blocks| - 1] + [Block(last.bytes + s[..n], last.free - n)];
      Packed(filled) && Flat(filled) + s[n..] == Flat(blocks) + s
  {
    var init, last := blocks[..|blocks| - 1], blocks[|blocks| - 1];
    FlatSnoc(init, Block(last.bytes + s[..n], last.free - n));
    FlatSnoc(init, last);
    assert blocks == init + [last];
    assert s == s[..n] + s[n..];
  }

  lemma Opened(blocks: seq<Block>)
    requires Packed(blocks) && (blocks != [] ==> blocks[|blocks| - 1].free == 0)
    ensures Packed(blocks + [Block([], BLOCK)]) && Flat(blocks + [Block([], BLOCK)]) == Flat(blocks)
  {
    FlatSnoc(blocks, Block([], BLOCK));
    assert Flat(blocks) + [] == Flat(blocks);
  }

  /** aofRewriteBufferAppend: filling up the last block, and opening more as needed. */
  method BufferAppend(blocks0: seq<Block>, text: Text) returns (blocks: seq<Block>)
    requires Packed(blocks0)
    ensures Packed(blocks) && Flat(blocks) == Flat(blocks0) + text
  {
    blocks := blocks0;
    var s := text;
    while |s| > 0
      invariant Packed(blocks) && Flat(blocks) + s == Flat(blocks0) + text
      decreases |s|, if blocks != [] && blocks[|blocks| - 1].free > 0 then 0 else 1
    {
      if blocks != [] {
        var last := blocks[|blocks| - 1];
        var n := if last.free < |s| then last.free else |s|;
        if n > 0 {
          Filled(blocks, s, n);
          blocks := blocks[..|blocks| - 1] + [Block(last.bytes + s[..n], last.free - n)];
          s := s[n..];
        }
      }
      if |s| > 0 {
        Opened(blocks);
        blocks := blocks + [Block([], BLOCK)];
      }
    }
    assert Flat(blocks) + s == Flat(blocks);
  }

  /** aofRewriteBufferWrite: one write per block, outcomes[i] bytes of block i or -1. The file gets
      all of the buffer, or the caller is told and abandons it. */
  method BufferWrite(blocks: seq<Block>, file0: Text, outcomes: int -> int) returns (file: Text, count: int)
    requires Packed(blocks)
    requires forall i :: 0 <= i < |blocks| ==> -1 <= outcomes(i) <= |blocks[i].bytes|
    ensures count == -1 || (count == |Flat(blocks)| && file == file0 + Flat(blocks))
    ensures count == -1 <==> exists i :: 0 <= i < |blocks| && blocks[i].bytes != [] && outcomes(i) < |blocks[i].bytes|
  {
    file, count := file0, 0;
    for i := 0 to |blocks|
      invariant count == |Flat(blocks[..i])| && file == file0 + Flat(blocks[..i])
      invariant forall j :: 0 <= j < i ==> blocks[j].bytes == [] || outcomes(j) == |blocks[j].bytes|
    {
      var block := blocks[i];
      assert blocks[..i + 1] == blocks[..i] + [block];
      FlatSnoc(blocks[..i], block);
      if block.bytes != [] {
        var n := outcomes(i);
        if n != |block.bytes| { return file + block.bytes[..if n > 0 then n else 0], -1; }
        file := file + block.bytes;
        count := count + n;
      }
    }
    assert blocks[..|blocks|] == blocks;
  }

  class Server<D(!new)> {
    const rules: Rules<D>
    const policy: Policy
    var data: D
    var txn: bool
    var mode: Mode
    var buf: Text
    var currentSize: nat
    var selectedDb: int
    var postponedStart: int
    var failing: bool
    var child: Option<D>
    var blocks: seq<Block>
    var scheduled: bool
    var file: Text
    ghost var saved: D
    ghost var torn: bool
    var exited: bool

    ghost predicate Valid() reads this { Packed(blocks) }

    ghost function State(): Aof<D>
      reads this
    {
      Aof(data, txn, mode, buf, currentSize, selectedDb, postponedStart, failing, child, Flat(blocks), scheduled,
          file, saved, torn, exited)
    }

    /** Startup: the file is loaded before anything is fed; a file that does not load ends the server. */
    constructor (rules: Rules<D>, policy: Policy, file: Text)
      ensures Valid() && this.rules == rules && this.policy == policy
      ensures exited <==> Load(rules, file).None?
      ensures Load(rules, file).Some? ==> State() == Boot(rules, file)
    {
      this.rules, this.policy := rules, policy;
      match Load(rules, file) {
        case None =>
          data := rules.empty;
          saved := rules.empty;
          exited := true;
        case Some(d) =>
          data := d;
          saved := d;
          exited := false;
      }
      txn, mode, buf, currentSize, selectedDb := false, On, [], |file|, -1;
      postponedStart, failing, child, blocks, scheduled := 0, false, None, [], false;
      this.file, torn := file, false;
    }

    /** feedAppendOnlyFile. */
    method FeedAppendOnlyFile(db: nat, argv: Argv)
      requires Valid() && mode != Off
      modifies this
      ensures State() == Feed(old(State()), db, argv)
      ensures Valid()
    {
      var text: Text := [];
      if db != selectedDb {
        text := CatCommand(text, SelectCommand(db));
        selectedDb := db;
      }
      text := CatCommand(text, argv);
      assert text == Fed(old(selectedDb), db, argv);
      Distribute(text);
    }

    /** To the buffer of the log when it is on, and to that of a running rewrite. */
    method Distribute(text: Text)
      requires Valid()
      modifies this`buf, this`blocks
      ensures Valid() && buf == old(buf) + (if mode == On then text else [])
      ensures Flat(blocks) == old(Flat(blocks)) + if child.Some? then text else []
    {
      if mode == On {
        buf := buf + text;
      }
      if child.Some? {
        blocks := BufferAppend(blocks, text);
      }
    }

    method Propagate(db: nat, argv: Argv)
      requires Valid()
      modifies this
      ensures State() == Feed(old(State()), db, argv)
      ensures Valid()
    {
      if mode != Off {
        FeedAppendOnlyFile(db, argv);
      }
    }

    method Execute(db: nat, argv: Argv)
      requires Valid()
      modifies this
      ensures State() == Call(rules, old(State()), db, argv)
      ensures Valid()
    {
      data := rules.apply(data, db, argv);
      Propagate(db, argv);
    }

    method PropagateMulti(db: nat)
      requires Valid()
      modifies this
      ensures State() == AofModel.Begin(old(State()), db)
      ensures Valid()
    {
      txn := true;
      Propagate(db, [MULTI]);
    }

    method PropagateExec(db: nat)
      requires Valid()
      modifies this
      ensures State() == AofModel.End(old(State()), db)
      ensures Valid()
    {
      txn := false;
      Propagate(db, [EXEC]);
    }

    /** flushAppendOnlyFile. */
    method FlushAppendOnlyFile(force: bool, disk: Disk)
      requires Valid() && Possible(State(), disk)
      modifies this
      ensures State() == Flush(policy, old(State()), force, disk)
      ensures Valid()
    {
      if |buf| == 0 { return; }
      if policy == EverySec && !force && disk.syncing {
        if postponedStart == 0 {
          postponedStart := disk.now;
          return;
        } else if disk.now - postponedStart < 2 {
          return;
        }
      }
      postponedStart := 0;
      WriteBuffer(disk);
    }

    /** The write, and what is done about a short one. */
    method WriteBuffer(disk: Disk)
      requires Valid() && Possible(State(), disk)
      modifies this
      ensures State() == Written(policy, old(State()), disk)
      ensures Valid()
    {
      if disk.written == |buf| {
        CompleteWrite();
      } else {
        var nwritten := UndoShortWrite(disk);
        HandleWriteError(nwritten);
      }
    }

    method CompleteWrite()
      requires Valid()
      modifies this
      ensures State() == Complete(old(State()))
      ensures Valid()
    {
      failing := false;
      file := file + buf;
      currentSize := currentSize + |buf|;
      buf := [];
      saved, torn := data, false;
    }

    method UndoShortWrite(disk: Disk) returns (nwritten: int)
      requires Valid() && Possible(State(), disk) && disk.written != |buf|
      modifies this
      ensures State() == Undone(old(State()), disk)
      ensures Valid() && nwritten <= |buf| && (if nwritten > 0 then nwritten else 0) == Kept(disk)
    {
      nwritten := disk.written;
      if nwritten != -1 {
        file := file + buf[..nwritten];
        if disk.truncates {
          file := Truncated(file, currentSize);
          nwritten := -1;
        } else {
          torn := torn || nwritten > 0;
        }
      }
    }

    method HandleWriteError(nwritten: int)
      requires Valid() && nwritten <= |buf|
      modifies this
      ensures State() == Blame(policy, old(State()), if nwritten > 0 then nwritten else 0)
      ensures Valid()
    {
      if policy == Always {
        exited := true;
        return;
      }
      failing := true;
      if nwritten > 0 {
        currentSize := currentSize + nwritten;
        buf := buf[nwritten..];
      }
    }

    /** rewriteAppendOnlyFileBackground, in the parent. */
    method RewriteInBackground(forks: bool) returns (ok: bool)
      requires Valid()
      modifies this
      ensures State() == Rewrite(old(State()), forks)
      ensures Valid() && ok == (old(child).None? && forks)
    {
      if child.Some? || !forks { return false; }
      scheduled := false;
      child := Some(data);
      selectedDb := -1;
      return true;
    }

    /** backgroundRewriteDoneHandler. */
    method BackgroundRewriteDone(exits: bool, opens: bool, writes: int -> int, renames: bool)
      requires Valid() && child.Some?
      requires forall i :: 0 <= i < |blocks| ==> -1 <= writes(i) <= |blocks[i].bytes|
      modifies this
      ensures State() == Done(rules, old(State()), exits && opens && renames && WritesAll(old(blocks), writes))
      ensures Valid()
    {
      if exits && opens {
        var temp, count := BufferWrite(blocks, Dump(rules, child.value), writes);
        if count != -1 && renames {
          assert WritesAll(blocks, writes);
          SwitchFile(temp);
        }
      }
      blocks := [];
      child := None;
      if mode == WaitRewrite { scheduled := true; }
    }

    /** The temporary file has taken the place of the old one. */
    method SwitchFile(temp: Text)
      requires Valid() && child.Some? && temp == Dump(rules, child.value) + Flat(blocks)
      modifies this`file, this`torn, this`saved, this`selectedDb, this`currentSize, this`buf, this`mode
      ensures State() == Switched(rules, old(State()))
      ensures Valid() && blocks == old(blocks)
    {
      if mode == Off {
        file, torn, saved := temp, false, child.value;
      } else {
        SwitchLog(temp);
      }
    }

    /** While the log is on, or waits for this file, it goes on behind the file's contents. */
    method SwitchLog(temp: Text)
      requires child.Some? && temp == Dump(rules, child.value) + Flat(blocks) && mode != Off
      modifies this`file, this`torn, this`saved, this`selectedDb, this`currentSize, this`buf, this`mode
      ensures State() == Switched(rules, old(State()))
    {
      ghost var s := Switched(rules, State());
      assert s.file == temp;
      file, torn, saved := temp, false, data;
      selectedDb := -1;
      currentSize := |file|;
      buf := [];
      if mode == WaitRewrite { mode := On; }
      assert State() == s;
    }

    /** startAppendOnly. */
    method StartAppendOnly(opens: bool, forks: bool) returns (ok: bool)
      requires Valid() && mode == Off
      modifies this
      ensures State() == Start(old(State()), opens, forks)
      ensures Valid() && ok == (mode == WaitRewrite)
    {
      if !opens { return false; }
      ok := RewriteInBackground(forks);
      if ok { mode := WaitRewrite; }
    }

    /** stopAppendOnly. */
    method StopAppendOnly(disk: Disk)
      requires Valid() && mode != Off && Possible(State(), disk)
      modifies this
      ensures State() == Stop(policy, old(State()), disk)
      ensures Valid()
    {
      FlushAppendOnlyFile(true, disk);
      if exited { return; }
      selectedDb := -1;
      mode := Off;
      if child.Some? {
        blocks := [];
        child := None;
      }
    }
  }

  /** No write of a block is short. */
  ghost predicate WritesAll(blocks: seq<Block>, writes: int -> int) {
    forall i :: 0 <= i < |blocks| ==> blocks[i].bytes == [] || writes(i) >= |blocks[i].bytes|
  }
}
