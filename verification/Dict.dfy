/** dict.c as it runs: bucket arrays updated in place. Every method leaves exactly the
    state that DictModel prescribes. */
module Dict {
  import opened Options
  import opened Words
  import opened DictModel
  import opened ScanCursor
  import opened DictScan

  /** struct dictht: the bucket array and its two counters. A NULL table has length 0. */
  datatype Ht<V> = Ht(table: array<Chain<V>>, sizemask: Word, used: nat)

  /** The table an Ht stands for at the moment. */
  ghost function Abs<V>(ht: Ht<V>): Table<V>
    reads ht.table
  {
    Table(ht.table[..], ht.sizemask, ht.used)
  }

  class Dict<V(!new)> {
    const hash: Key -> Word
    var ht0: Ht<V>
    var ht1: Ht<V>
    var rehashidx: int
    var iterators: nat

    ghost function State(): DictState<V>
      reads this, ht0.table, ht1.table
    {
      DictState(Abs(ht0), Abs(ht1), rehashidx, iterators)
    }

    ghost predicate Valid()
      reads this, ht0.table, ht1.table
    {
      ht0.table != ht1.table && DictOk(hash, State())
    }

    /** The tables are those of before, or new ones. */
    twostate predicate OwnTables()
      reads this
    {
      && (ht0.table == old(ht0.table) || ht0.table == old(ht1.table) || fresh(ht0.table))
      && (ht1.table == old(ht0.table) || ht1.table == old(ht1.table) || fresh(ht1.table))
    }

    constructor (hash: Key -> Word)
      ensures Valid() && fresh(ht0.table) && fresh(ht1.table)
      ensures this.hash == hash && State() == DictState(Reset(), Reset(), -1, 0)
    {
      this.hash := hash;
      var a, b := new Chain<V>[0], new Chain<V>[0];
      ht0, ht1 := Ht(a, Zeros(WIDTH), 0), Ht(b, Zeros(WIDTH), 0);
      rehashidx, iterators := -1, 0;
      new;
      assert State() == DictState(Reset(), Reset(), -1, 0);
    }

    function Slot(mask: Word, k: Key): nat { Nat(And(hash(k), mask)) }

    /** Moving every entry of a chain into the second table. */
    method MoveToSecond(c: Chain<V>)
      requires ht0.table != ht1.table && |c| <= ht0.used
      requires forall e :: e in c ==> Slot(ht1.sizemask, e.key) < ht1.table.Length
      modifies this, ht1.table
      ensures ht0 == old(ht0).(used := old(ht0.used) - |c|)
      ensures ht1.table == old(ht1.table) && rehashidx == old(rehashidx) && iterators == old(iterators)
      ensures Abs(ht1) == MoveChain(hash, c, old(Abs(ht1)))
    {
      var de := c;
      while de != []
        invariant ht0 == old(ht0).(used := old(ht0.used) - |c| + |de|)
        invariant ht1.table == old(ht1.table) && ht1.sizemask == old(ht1.sizemask)
        invariant rehashidx == old(rehashidx) && iterators == old(iterators)
        invariant forall e :: e in de ==> Slot(ht1.sizemask, e.key) < ht1.table.Length
        invariant |de| <= |c| && MoveChain(hash, de, Abs(ht1)) == MoveChain(hash, c, old(Abs(ht1)))
        decreases |de|
      {
        var nextde := de[1..];
        var h := Slot(ht1.sizemask, de[0].key);
        ghost var before := Abs(ht1);
        ht1.table[h] := [de[0]] + ht1.table[h];
        ht0 := ht0.(used := ht0.used - 1);
        ht1 := ht1.(used := ht1.used + 1);
        assert Abs(ht1) == Push(hash, before, de[0]);
        de := nextde;
      }
    }

    /** All entries are in the second table, which becomes the only one. */
    method EndRehash()
      requires Valid() && rehashidx != -1 && ht0.used == 0
      modifies this
      ensures State() == RehashStep(hash, old(State())) && rehashidx == -1
      ensures Valid() && ht0.table == old(ht1.table) && fresh(ht1.table)
    {
      ghost var d := State();
      var none := new Chain<V>[0];
      ht0, ht1, rehashidx := ht1, Ht(none, Zeros(WIDTH), 0), -1;
      assert Abs(ht1) == Reset();
      assert State() == RehashStep(hash, d);
    }

    /** The search for the next bucket that is not empty. */
    method SkipEmpty()
      requires Valid() && rehashidx != -1 && ht0.used > 0
      modifies this`rehashidx
      ensures var d := old(State());
              0 <= d.rehashidx <= |d.ht0.buckets|
              && State() == d.(rehashidx := FirstNonEmpty(d.ht0.buckets, d.rehashidx))
      ensures 0 <= rehashidx < ht0.table.Length
    {
      ghost var d := State();
      RehashIndexInBounds(hash, d);
      while ht0.table[rehashidx] == []
        invariant 0 <= rehashidx < ht0.table.Length
        invariant FirstNonEmpty(d.ht0.buckets, rehashidx) == FirstNonEmpty(d.ht0.buckets, d.rehashidx)
        invariant State() == d.(rehashidx := rehashidx)
        decreases ht0.table.Length - rehashidx
      {
        assert FirstNonEmpty(d.ht0.buckets, rehashidx) == FirstNonEmpty(d.ht0.buckets, rehashidx + 1);
        rehashidx := rehashidx + 1;
      }
    }

    /** One turn of the loop of dictRehash. */
    method RehashTurn() returns (done: bool)
      requires Valid() && rehashidx != -1
      modifies this, ht0.table, ht1.table
      ensures State() == RehashStep(hash, old(State())) && done == (rehashidx == -1)
      ensures Valid()
      ensures if done then ht0.table == old(ht1.table) && fresh(ht1.table)
              else ht0.table == old(ht0.table) && ht1.table == old(ht1.table)
    {
      ghost var d := State();
      RehashIndexInBounds(hash, d);
      if ht0.used == 0 {
        EndRehash();
        return true;
      }
      SkipEmpty();
      var c := ht0.table[rehashidx];
      EntriesHaveBuckets(hash, d, rehashidx);
      MoveToSecond(c);
      ht0.table[rehashidx] := [];
      rehashidx := rehashidx + 1;
      assert Abs(ht1) == MoveChain(hash, c, d.ht1);
      assert Abs(ht0) == WithBucket(d.ht0, rehashidx - 1, []);
      assert State() == RehashStep(hash, d);
      done := false;
    }

    /** With left turns to go, rehashing comes to goal. */
    ghost predicate Toward(goal: (DictState<V>, bool), left: nat)
      reads this, ht0.table, ht1.table
    {
      Valid() && goal == DictModel.Rehash(hash, State(), left)
    }

    method RehashTurnTo(ghost goal: (DictState<V>, bool), left: nat) returns (done: bool)
      requires rehashidx != -1 && left > 0 && Toward(goal, left)
      modifies this, ht0.table, ht1.table
      ensures Toward(goal, left - 1) && done == (rehashidx == -1)
      ensures if done then ht0.table == old(ht1.table) && fresh(ht1.table)
              else ht0.table == old(ht0.table) && ht1.table == old(ht1.table)
    {
      RehashUnfold(hash, State(), left);
      done := RehashTurn();
    }

    /** The loop of dictRehash. */
    method RehashTurns(ghost goal: (DictState<V>, bool), n: nat) returns (more: bool, ghost left: nat)
      requires Toward(goal, n)
      modifies this, ht0.table, ht1.table
      ensures Toward(goal, left) && more == (rehashidx != -1) && (left == 0 || !more)
      ensures (ht0.table == old(ht0.table) && ht1.table == old(ht1.table))
           || (ht0.table == old(ht1.table) && fresh(ht1.table))
    {
      var m: nat := n;
      more := rehashidx != -1;
      while more && m > 0
        invariant m <= n && more == (rehashidx != -1) && Toward(goal, m)
        invariant (ht0.table == old(ht0.table) && ht1.table == old(ht1.table))
          || (!more && ht0.table == old(ht1.table) && fresh(ht1.table))
        decreases m
      {
        var done := RehashTurnTo(goal, m);
        m := m - 1;
        more := !done;
      }
      left := m;
    }

    /** dictRehash: true while there are still keys to move. */
    method Rehash(n: nat) returns (more: bool)
      requires Valid()
      modifies this, ht0.table, ht1.table
      ensures (State(), more) == DictModel.Rehash(hash, old(State()), n)
      ensures Valid() && OwnTables()
    {
      ghost var left;
      more, left := RehashTurns(DictModel.Rehash(hash, State(), n), n);
    }

    method StepUnlessIterating()
      requires Valid()
      modifies this, ht0.table, ht1.table
      ensures State() == DictModel.StepUnlessIterating(hash, old(State()))
      ensures Valid() && OwnTables()
    {
      if rehashidx != -1 && iterators == 0 {
        var _ := Rehash(1);
      }
    }

    /** _dictNextPower. */
    method NextTableSize(size: nat) returns (realsize: nat)
      ensures realsize == NextPower(size)
    {
      if size >= LongMax() { return LongMax(); }
      realsize := INITIAL_SIZE;
      while realsize < size
        invariant realsize > 0
        invariant NextPowerFrom(realsize, size) == NextPowerFrom(INITIAL_SIZE, size)
        decreases size - realsize
      {
        realsize := realsize * 2;
      }
    }

    /** dictExpand: DICT_OK or DICT_ERR. */
    method Expand(size: nat) returns (ok: bool)
      requires Valid() && size <= Pow2(MAX_BITS)
      modifies this
      ensures (State(), ok) == DictModel.Expand(hash, old(State()), size)
      ensures Valid() && OwnTables()
    {
      if rehashidx != -1 || ht0.used > size { return false; }
      var realsize := NextTableSize(size);
      var table := new Chain<V>[realsize](_ => []);
      var n := Ht(table, Bits(realsize - 1, WIDTH), 0);
      assert table[..] == seq(realsize, _ => []);
      if ht0.table.Length == 0 {
        ht0 := n;
      } else {
        ht1, rehashidx := n, 0;
      }
      ok := true;
      assert State() == DictModel.Expand(hash, old(State()), size).0;
    }

    /** _dictExpandIfNeeded, which cannot fail here. */
    method ExpandIfNeeded(canResize: bool)
      requires Valid() && 2 * ht0.used <= Pow2(MAX_BITS)
      modifies this
      ensures State() == DictModel.ExpandIfNeeded(hash, old(State()), canResize)
      ensures Valid() && OwnTables()
    {
      if rehashidx != -1 { return; }
      if ht0.table.Length == 0 {
        Pow2Monotone(2, MAX_BITS);
        assert Pow2(2) == INITIAL_SIZE;
        var _ := Expand(INITIAL_SIZE);
      } else if ht0.used >= ht0.table.Length
                && (canResize || ht0.used / ht0.table.Length > FORCE_RESIZE_RATIO) {
        var _ := Expand(ht0.used * 2);
      }
    }

    method Resize(canResize: bool) returns (ok: bool)
      requires Valid() && ht0.used <= Pow2(MAX_BITS)
      modifies this
      ensures (State(), ok) == DictModel.Resize(hash, old(State()), canResize)
      ensures Valid() && OwnTables()
    {
      if !canResize || rehashidx != -1 { return false; }
      Pow2Monotone(2, MAX_BITS);
      assert Pow2(2) == INITIAL_SIZE;
      var minimal := if ht0.used < INITIAL_SIZE then INITIAL_SIZE else ht0.used;
      ok := Expand(minimal);
    }

    /** Walking one bucket: the position of the entry with the given key, or its length. */
    method Walk(ht: Ht<V>, k: Key) returns (idx: nat, pos: nat)
      requires ht.table.Length > 0 && TableOk(hash, Table(ht.table[..], ht.sizemask, ht.used))
      ensures idx == Slot(ht.sizemask, k) < ht.table.Length
      ensures pos == Position(ht.table[idx], k)
    {
      IndexInRange(hash, Table(ht.table[..], ht.sizemask, ht.used), k);
      idx := Slot(ht.sizemask, k);
      pos := 0;
      while pos < |ht.table[idx]| && ht.table[idx][pos].key != k
        invariant pos <= |ht.table[idx]|
        invariant forall i :: 0 <= i < pos ==> ht.table[idx][i].key != k
      {
        pos := pos + 1;
      }
      PositionUnique(ht.table[idx], k, pos);
    }

    /** The search of dictFind, in both tables while they are being rehashed. */
    method Lookup(k: Key) returns (r: Option<V>)
      requires Valid() && ht0.table.Length > 0
      ensures r == Get(hash, State(), k)
    {
      var i, p := Walk(ht0, k);
      if p < |ht0.table[i]| { return Some(ht0.table[i][p].val); }
      if rehashidx == -1 { return None; }
      i, p := Walk(ht1, k);
      if p < |ht1.table[i]| { return Some(ht1.table[i][p].val); }
      r := None;
    }

    /** dictFind. */
    method Find(k: Key) returns (r: Option<V>)
      requires Valid()
      modifies this, ht0.table, ht1.table
      ensures (State(), r) == DictModel.Find(hash, old(State()), k)
      ensures Valid() && OwnTables()
    {
      if ht0.table.Length == 0 { return None; }
      StepUnlessIterating();
      r := Lookup(k);
    }

    /** The tail of dictAddRaw: link the new entry unless the key is found. */
    method LinkUnlessPresent(k: Key, v: V) returns (ok: bool)
      requires Valid() && ht0.table.Length > 0
      modifies this, ht0.table, ht1.table
      ensures ok == Get(hash, old(State()), k).None?
      ensures State() == if ok then Link(hash, old(State()), Entry(k, v)) else old(State())
      ensures ht0.table == old(ht0.table) && ht1.table == old(ht1.table)
    {
      var i, p := Walk(ht0, k);
      if p < |ht0.table[i]| { return false; }
      if rehashidx != -1 {
        i, p := Walk(ht1, k);
        if p < |ht1.table[i]| { return false; }
        ht1.table[i] := [Entry(k, v)] + ht1.table[i];
        ht1 := ht1.(used := ht1.used + 1);
      } else {
        ht0.table[i] := [Entry(k, v)] + ht0.table[i];
        ht0 := ht0.(used := ht0.used + 1);
      }
      ok := true;
    }

    /** The rehash step and the expansion that dictAddRaw begins with. */
    method Prepare(canResize: bool)
      requires Valid() && 2 * (ht0.used + ht1.used) <= Pow2(MAX_BITS)
      modifies this, ht0.table, ht1.table
      ensures 2 * DictModel.StepUnlessIterating(hash, old(State())).ht0.used <= Pow2(MAX_BITS)
      ensures State() == DictModel.ExpandIfNeeded(hash, DictModel.StepUnlessIterating(hash, old(State())), canResize)
      ensures Valid() && OwnTables()
    {
      StepUnlessIterating();
      ExpandIfNeeded(canResize);
    }

    /** dictAdd: false when the key is already present. */
    method Add(k: Key, v: V, canResize: bool) returns (ok: bool)
      requires Valid() && 2 * (ht0.used + ht1.used) <= Pow2(MAX_BITS)
      modifies this, ht0.table, ht1.table
      ensures (State(), ok) == DictModel.Add(hash, old(State()), k, v, canResize)
      ensures Valid() && OwnTables()
    {
      Prepare(canResize);
      ok := LinkUnlessPresent(k, v);
    }

    /** Storing a value into the entry that holds a present key. */
    method OverwritePresent(k: Key, v: V)
      requires Valid() && Get(hash, State(), k).Some?
      modifies ht0.table, ht1.table
      ensures State() == Overwrite(hash, old(State()), k, v)
    {
      var i, p := Walk(ht0, k);
      if p < |ht0.table[i]| {
        ht0.table[i] := ht0.table[i][p := Entry(k, v)];
      } else {
        i, p := Walk(ht1, k);
        ht1.table[i] := ht1.table[i][p := Entry(k, v)];
      }
    }

    /** dictFind, and storing the value into the entry found. */
    method FindAndOverwrite(k: Key, v: V)
      requires Valid() && Get(hash, State(), k).Some?
      modifies this, ht0.table, ht1.table
      ensures State() == Overwrite(hash, DictModel.Find(hash, old(State()), k).0, k, v)
      ensures Valid() && OwnTables()
    {
      var _ := Find(k);
      OverwritePresent(k, v);
    }

    /** dictReplace: true when the key was added from scratch. */
    method Replace(k: Key, v: V, canResize: bool) returns (added: bool)
      requires Valid() && 2 * (ht0.used + ht1.used) <= Pow2(MAX_BITS)
      modifies this, ht0.table, ht1.table
      ensures (State(), added) == DictModel.Replace(hash, old(State()), k, v, canResize)
      ensures Valid() && OwnTables()
    {
      added := Add(k, v, canResize);
      if !added {
        FindAndOverwrite(k, v);
      }
    }

    /** Unlinking the entry at position p of bucket i of the first table. */
    method CutFirst(k: Key, i: nat, p: nat)
      requires Valid() && i == Slot(ht0.sizemask, k) < ht0.table.Length
      requires p == Position(ht0.table[i], k) < |ht0.table[i]|
      modifies this`ht0, ht0.table
      ensures Get(hash, old(State()), k).Some? && State() == Cut(hash, old(State()), k)
      ensures ht0.table == old(ht0.table)
    {
      DropOk(hash, State().ht0, k);
      ht0.table[i] := ht0.table[i][..p] + ht0.table[i][p + 1..];
      ht0 := ht0.(used := ht0.used - 1);
    }

    method CutSecond(k: Key, i: nat, p: nat)
      requires Valid() && TableGet(hash, State().ht0, k).None? && i == Slot(ht1.sizemask, k) < ht1.table.Length
      requires p == Position(ht1.table[i], k) < |ht1.table[i]|
      modifies this`ht1, ht1.table
      ensures Get(hash, old(State()), k).Some? && State() == Cut(hash, old(State()), k)
      ensures ht1.table == old(ht1.table)
    {
      DropOk(hash, State().ht1, k);
      ht1.table[i] := ht1.table[i][..p] + ht1.table[i][p + 1..];
      ht1 := ht1.(used := ht1.used - 1);
    }

    /** The search and unlinking of dictGenericDelete. */
    method CutIfPresent(k: Key) returns (ok: bool)
      requires Valid() && ht0.table.Length > 0
      modifies this, ht0.table, ht1.table
      ensures ok == Get(hash, old(State()), k).Some?
      ensures State() == if ok then Cut(hash, old(State()), k) else old(State())
      ensures ht0.table == old(ht0.table) && ht1.table == old(ht1.table)
    {
      var i, p := Walk(ht0, k);
      if p < |ht0.table[i]| {
        CutFirst(k, i, p);
        return true;
      }
      if rehashidx == -1 { return false; }
      i, p := Walk(ht1, k);
      if p < |ht1.table[i]| {
        CutSecond(k, i, p);
        return true;
      }
      ok := false;
    }

    /** dictGenericDelete. */
    method Delete(k: Key) returns (ok: bool)
      requires Valid()
      modifies this, ht0.table, ht1.table
      ensures (State(), ok) == DictModel.Delete(hash, old(State()), k)
      ensures Valid() && OwnTables()
    {
      if ht0.table.Length == 0 { return false; }
      StepUnlessIterating();
      ok := CutIfPresent(k);
    }

    /** The part of dictScan that visits a rehashing dictionary: the bucket of the smaller
        table, then its expansions in the larger one. */
    method ScanBoth(v: Word) returns (w: Word, emitted: seq<Entry<V>>)
      requires Valid() && rehashidx != -1
      ensures w[..ShapeOf(hash, State()).k0] == v[..ShapeOf(hash, State()).k0]
      ensures Reports(hash, State(), v, Pow2(ShapeOf(hash, State()).k1 - ShapeOf(hash, State()).k0), emitted)
    {
      ghost var d := State();
      ghost var s := ShapeOf(hash, d);
      var t0, t1 := ht0, ht1;
      if t0.table.Length > t1.table.Length { t0, t1 := ht1, ht0; }
      var m0, m1 := t0.sizemask, t1.sizemask;
      ReportsStart(hash, d, v);
      w, emitted := VisitExpansions(hash, d, v, m0, m1, t1.table, t0.table[Nat(And(v, m0))]);
    }

    /** dictScan: the entries handed to the callback and the cursor to go on with. */
    method Scan(v: Word) returns (next: Word, emitted: seq<Entry<V>>)
      requires Valid()
      ensures next == NextCursor(hash, State(), v)
      ensures forall e :: e in emitted <==> Emitted(hash, State(), v, e)
    {
      if ht0.used + ht1.used == 0 { return Zeros(WIDTH), []; }
      EntriesNeedBuckets(hash, State());
      var w, m0 := v, ht0.sizemask;
      if rehashidx == -1 {
        SingleTableReport(hash, State(), v);
        emitted := ht0.table[Nat(And(v, m0))];
      } else {
        if ht0.table.Length > ht1.table.Length { m0 := ht1.sizemask; }
        w, emitted := ScanBoth(v);
        FullReportIsEmission(hash, State(), v, emitted);
        AdvanceForgetsHighBits(v, w, ShapeOf(hash, State()).k0);
      }
      next := Or(w, Not(m0));
      next := Rev(next);
      next := Inc(next);
      next := Rev(next);
    }
  }

  /** The expansions of one bucket of the smaller table, in the larger one. */
  method VisitExpansions<V(!new)>(ghost hash: Key -> Word, ghost d: DictState<V>, v: Word, m0: Word, m1: Word,
                                  large: array<Chain<V>>, first: Chain<V>) returns (w: Word, emitted: seq<Entry<V>>)
    requires DictOk(hash, d) && d.Rehashing() && large[..] == Large(d).buckets
    requires m0 == Small(d).sizemask && m1 == Large(d).sizemask
    requires var s := ShapeOf(hash, d); Reports(hash, d, v, Nat(v[s.k0..s.k1]), first)
    ensures var s := ShapeOf(hash, d); w[..s.k0] == v[..s.k0] && Reports(hash, d, v, Pow2(s.k1 - s.k0), emitted)
  {
    ghost var s := ShapeOf(hash, d);
    w, emitted := v, first;
    var more := true;
    while more
      invariant w[..s.k0] == v[..s.k0]
      invariant more ==> Nat(v[s.k0..s.k1]) <= Nat(w[s.k0..s.k1])
      invariant Reports(hash, d, v, if more then Nat(w[s.k0..s.k1]) else Pow2(s.k1 - s.k0), emitted)
      decreases more, Pow2(s.k1 - s.k0) - Nat(w[s.k0..s.k1])
    {
      w, emitted, more := VisitOne(hash, d, v, m0, m1, large, w, emitted);
    }
  }

  method VisitOne<V(!new)>(ghost hash: Key -> Word, ghost d: DictState<V>, v: Word, m0: Word, m1: Word,
                           large: array<Chain<V>>, w0: Word, emitted0: seq<Entry<V>>)
    returns (w: Word, emitted: seq<Entry<V>>, more: bool)
    requires DictOk(hash, d) && d.Rehashing() && large[..] == Large(d).buckets
    requires m0 == Small(d).sizemask && m1 == Large(d).sizemask
    requires var s := ShapeOf(hash, d);
             && w0[..s.k0] == v[..s.k0] && Nat(v[s.k0..s.k1]) <= Nat(w0[s.k0..s.k1])
             && Reports(hash, d, v, Nat(w0[s.k0..s.k1]), emitted0)
    ensures var s := ShapeOf(hash, d);
            && w[..s.k0] == v[..s.k0] && (more ==> Nat(w[s.k0..s.k1]) == Nat(w0[s.k0..s.k1]) + 1)
            && Reports(hash, d, v, if more then Nat(w[s.k0..s.k1]) else Pow2(s.k1 - s.k0), emitted)
            && Nat(w0[s.k0..s.k1]) < Pow2(s.k1 - s.k0)
  {
    OneExpansion(hash, d, v, w0, emitted0);
    NatBelow(w0[ShapeOf(hash, d).k0..ShapeOf(hash, d).k1]);
    emitted := emitted0 + large[Nat(And(w0, m1))];
    w := NextExpansion(w0, m0);
    more := And(w, Xor(m0, m1)) != Zeros(WIDTH);
  }

  lemma {:induction false} NatBelow(a: seq<bool>)
    ensures Nat(a) < Pow2(|a|)
  {
    if a != [] { NatBelow(a[1..]); }
  }

  lemma RehashUnfold<V>(hash: Key -> Word, d: DictState<V>, n: nat)
    requires DictOk(hash, d) && d.Rehashing() && n > 0
    ensures DictModel.Rehash(hash, d, n) == DictModel.Rehash(hash, RehashStep(hash, d), n - 1)
  {
  }

  /** Every entry of a bucket about to be moved has a bucket in the new table. */
  lemma EntriesHaveBuckets<V>(hash: Key -> Word, d: DictState<V>, i: nat)
    requires DictOk(hash, d) && d.Rehashing() && i < |d.ht0.buckets|
    ensures forall e :: e in d.ht0.buckets[i] ==> Index(hash, d.ht1, e.key) < |d.ht1.buckets|
    ensures |d.ht0.buckets[i]| <= d.ht0.used
  {
    forall e | e in d.ht0.buckets[i] ensures Index(hash, d.ht1, e.key) < |d.ht1.buckets| {
      IndexInRange(hash, d.ht1, e.key);
    }
    TotalAtLeast(d.ht0.buckets, i);
  }
}
