/** The state of a dict.c dictionary as a value, what each operation makes of it, and
    why the two incrementally rehashed tables always stand for one map. */
module DictModel {
  import opened Words
  import opened Options

  /** Keys are sds strings. */
  type Key = string

  datatype Entry<V> = Entry(key: Key, val: V)

  /** The entries of a bucket, head of the linked list first. */
  type Chain<V> = seq<Entry<V>>

  /** struct dictht; a NULL table has no buckets. */
  datatype Table<V> = Table(buckets: seq<Chain<V>>, sizemask: Word, used: nat)

  /** struct dict. Rehashing is in progress when rehashidx is not -1. */
  datatype DictState<V> =
    DictState(ht0: Table<V>, ht1: Table<V>, rehashidx: int, iterators: nat)
  {
    predicate Rehashing() { rehashidx != -1 }
  }

  const INITIAL_SIZE: nat := 4
  const FORCE_RESIZE_RATIO: nat := 5

  // ----- chains

  function FindIn<V>(c: Chain<V>, k: Key): (r: Option<V>)
    ensures r.Some? ==> Entry(k, r.value) in c
    ensures r.None? ==> forall e :: e in c ==> e.key != k
  {
    if c == [] then None else if c[0].key == k then Some(c[0].val) else FindIn(c[1..], k)
  }

  predicate DistinctKeys<V>(c: Chain<V>) {
    forall i, j :: 0 <= i < j < |c| ==> c[i].key != c[j].key
  }

  /** Position of the first entry with key k, or |c|. */
  function Position<V>(c: Chain<V>, k: Key): (p: nat)
    ensures p <= |c|
    ensures p < |c| ==> c[p].key == k
    ensures forall i :: 0 <= i < p ==> c[i].key != k
    ensures p < |c| <==> FindIn(c, k).Some?
    ensures p < |c| ==> FindIn(c, k) == Some(c[p].val)
  {
    if c == [] || c[0].key == k then 0 else 1 + Position(c[1..], k)
  }

  lemma PositionUnique<V>(c: Chain<V>, k: Key, p: nat)
    requires p <= |c| && (forall i :: 0 <= i < p ==> c[i].key != k) && (p < |c| ==> c[p].key == k)
    ensures p == Position(c, k)
  {
  }

  /** Unlinking the entry with key k. */
  function Unlink<V>(c: Chain<V>, k: Key): Chain<V> {
    var p := Position(c, k);
    if p < |c| then c[..p] + c[p + 1..] else c
  }

  function SetIn<V>(c: Chain<V>, k: Key, v: V): Chain<V> {
    var p := Position(c, k);
    if p < |c| then c[p := Entry(k, v)] else c
  }

  lemma FindInDistinct<V>(c: Chain<V>, e: Entry<V>)
    requires DistinctKeys(c) && e in c
    ensures FindIn(c, e.key) == Some(e.val)
  {
    var p := Position(c, e.key);
  }

  lemma UnlinkFind<V>(c: Chain<V>, k: Key, k': Key)
    requires DistinctKeys(c)
    ensures DistinctKeys(Unlink(c, k))
    ensures FindIn(Unlink(c, k), k') == if k' == k then None else FindIn(c, k')
  {
    UnlinkDistinct(c, k);
    if k' != k && FindIn(c, k').Some? {
      var p, q := Position(c, k), Position(c, k');
      UnlinkAt(c, k, q);
      FindInDistinct(Unlink(c, k), c[q]);
    }
  }

  lemma UnlinkDistinct<V>(c: Chain<V>, k: Key)
    requires DistinctKeys(c)
    ensures DistinctKeys(Unlink(c, k)) && forall e :: e in Unlink(c, k) ==> e in c && e.key != k
  {
  }

  lemma UnlinkAt<V>(c: Chain<V>, k: Key, q: nat)
    requires q < |c| && c[q].key != k
    ensures c[q] in Unlink(c, k)
  {
    var u, p := Unlink(c, k), Position(c, k);
    assert c[q] == if q < p then u[q] else u[q - 1];
  }

  lemma SetInFind<V>(c: Chain<V>, k: Key, v: V, k': Key)
    requires DistinctKeys(c)
    ensures DistinctKeys(SetIn(c, k, v)) && |SetIn(c, k, v)| == |c|
    ensures FindIn(SetIn(c, k, v), k')
         == if k' == k && FindIn(c, k).Some? then Some(v) else FindIn(c, k')
  {
    var s := SetIn(c, k, v);
    var q, q' := Position(c, k'), Position(s, k');
    assert forall i :: 0 <= i < |c| ==> s[i].key == c[i].key;
  }

  // ----- tables

  function Total<V>(bs: seq<Chain<V>>): nat {
    if bs == [] then 0 else |bs[0]| + Total(bs[1..])
  }

  lemma {:induction false} TotalUpdate<V>(bs: seq<Chain<V>>, i: nat, c: Chain<V>)
    requires i < |bs|
    ensures Total(bs[i := c]) == Total(bs) - |bs[i]| + |c|
  {
    if i == 0 {
      assert bs[0 := c][1..] == bs[1..];
    } else {
      assert bs[i := c][1..] == bs[1..][i - 1 := c];
      TotalUpdate(bs[1..], i - 1, c);
    }
  }

  lemma {:induction false} TotalZero<V>(bs: seq<Chain<V>>)
    ensures Total(bs) == 0 <==> forall i :: 0 <= i < |bs| ==> bs[i] == []
  {
    if bs != [] {
      TotalZero(bs[1..]);
      assert forall i :: 0 < i < |bs| ==> bs[i] == bs[1..][i - 1];
      if forall i :: 0 <= i < |bs| ==> bs[i] == [] {
        assert bs[0] == [] && forall i :: 0 <= i < |bs[1..]| ==> bs[1..][i] == [];
      }
    }
  }

  /** `dictHashKey(d, key) & sizemask`. */
  function Index<V>(hash: Key -> Word, t: Table<V>, k: Key): nat {
    Nat(And(hash(k), t.sizemask))
  }

  predicate Sized<V>(t: Table<V>, bits: nat) {
    bits <= WIDTH && |t.buckets| == Pow2(bits) && t.sizemask == Mask(bits)
  }

  ghost predicate BucketOk<V>(hash: Key -> Word, t: Table<V>, i: nat)
    requires i < |t.buckets|
  {
    DistinctKeys(t.buckets[i]) && forall e :: e in t.buckets[i] ==> Index(hash, t, e.key) == i
  }

  ghost predicate TableOk<V>(hash: Key -> Word, t: Table<V>) {
    && (t.buckets == [] || exists bits :: Sized(t, bits))
    && t.used == Total(t.buckets)
    && forall i :: 0 <= i < |t.buckets| ==> BucketOk(hash, t, i)
  }

  function Reset<V>(): Table<V> { Table([], Zeros(WIDTH), 0) }

  function TableGet<V>(hash: Key -> Word, t: Table<V>, k: Key): Option<V> {
    var i := Index(hash, t, k);
    if i < |t.buckets| then FindIn(t.buckets[i], k) else None
  }

  lemma IndexInRange<V>(hash: Key -> Word, t: Table<V>, k: Key)
    requires TableOk(hash, t) && t.buckets != []
    ensures Index(hash, t, k) < |t.buckets|
  {
    var bits :| Sized(t, bits);
    MaskedBelow(hash(k), bits);
  }

  function WithBucket<V>(t: Table<V>, i: nat, c: Chain<V>): Table<V>
    requires i < |t.buckets| && t.used + |c| >= |t.buckets[i]|
  {
    t.(buckets := t.buckets[i := c], used := t.used - |t.buckets[i]| + |c|)
  }

  lemma WithBucketGet<V>(hash: Key -> Word, t: Table<V>, i: nat, c: Chain<V>, k: Key)
    requires i < |t.buckets| && t.used + |c| >= |t.buckets[i]|
    ensures Index(hash, WithBucket(t, i, c), k) == Index(hash, t, k)
    ensures TableGet(hash, WithBucket(t, i, c), k)
         == if Index(hash, t, k) == i then FindIn(c, k) else TableGet(hash, t, k)
  {
  }

  /** Replacing one bucket by a well-formed one keeps the table well formed and
      changes lookups for the keys of that bucket only. */
  lemma WithBucketOk<V>(hash: Key -> Word, t: Table<V>, i: nat, c: Chain<V>)
    requires TableOk(hash, t) && i < |t.buckets| && t.used + |c| >= |t.buckets[i]|
    requires DistinctKeys(c) && forall e :: e in c ==> Index(hash, t, e.key) == i
    ensures TableOk(hash, WithBucket(t, i, c))
    ensures forall k :: Index(hash, WithBucket(t, i, c), k) == Index(hash, t, k)
    ensures forall k :: TableGet(hash, WithBucket(t, i, c), k)
                     == if Index(hash, t, k) == i then FindIn(c, k) else TableGet(hash, t, k)
  {
    TotalUpdate(t.buckets, i, c);
    var t' := WithBucket(t, i, c);
    var bits :| Sized(t, bits);
    assert Sized(t', bits);
    forall j | 0 <= j < |t'.buckets| ensures BucketOk(hash, t', j) {
      assert BucketOk(hash, t, j);
    }
    forall k
      ensures Index(hash, t', k) == Index(hash, t, k)
      ensures TableGet(hash, t', k) == if Index(hash, t, k) == i then FindIn(c, k) else TableGet(hash, t, k)
    {
      WithBucketGet(hash, t, i, c, k);
    }
  }

  /** Linking a new entry at the head of its bucket. */
  function Push<V>(hash: Key -> Word, t: Table<V>, e: Entry<V>): Table<V>
    requires Index(hash, t, e.key) < |t.buckets|
  {
    var i := Index(hash, t, e.key);
    t.(buckets := t.buckets[i := [e] + t.buckets[i]], used := t.used + 1)
  }

  lemma PushOk<V>(hash: Key -> Word, t: Table<V>, e: Entry<V>)
    requires TableOk(hash, t) && t.buckets != [] && TableGet(hash, t, e.key).None?
    ensures Index(hash, t, e.key) < |t.buckets|
    ensures TableOk(hash, Push(hash, t, e)) && Push(hash, t, e).buckets != []
    ensures forall k :: TableGet(hash, Push(hash, t, e), k)
                     == if k == e.key then Some(e.val) else TableGet(hash, t, k)
  {
    IndexInRange(hash, t, e.key);
    var i := Index(hash, t, e.key);
    assert BucketOk(hash, t, i);
    var c := [e] + t.buckets[i];
    assert c[1..] == t.buckets[i];
    WithBucketOk(hash, t, i, c);
    assert Push(hash, t, e) == WithBucket(t, i, c);
  }

  function Drop<V>(hash: Key -> Word, t: Table<V>, k: Key): Table<V>
    requires Index(hash, t, k) < |t.buckets| && t.used > 0
  {
    var i := Index(hash, t, k);
    t.(buckets := t.buckets[i := Unlink(t.buckets[i], k)], used := t.used - 1)
  }

  lemma {:induction false} TotalAtLeast<V>(bs: seq<Chain<V>>, i: nat)
    requires i < |bs|
    ensures |bs[i]| <= Total(bs)
  {
    TotalUpdate(bs, i, []);
  }

  lemma DropOk<V>(hash: Key -> Word, t: Table<V>, k: Key)
    requires TableOk(hash, t) && TableGet(hash, t, k).Some?
    ensures Index(hash, t, k) < |t.buckets| && t.used > 0
    ensures TableOk(hash, Drop(hash, t, k)) && Drop(hash, t, k).buckets != []
    ensures forall k' :: TableGet(hash, Drop(hash, t, k), k')
                      == if k' == k then None else TableGet(hash, t, k')
  {
    var i := Index(hash, t, k);
    assert BucketOk(hash, t, i);
    TotalAtLeast(t.buckets, i);
    var c := Unlink(t.buckets[i], k);
    assert |c| == |t.buckets[i]| - 1;
    forall k' ensures FindIn(c, k') == if k' == k then None else FindIn(t.buckets[i], k') {
      UnlinkFind(t.buckets[i], k, k');
    }
    UnlinkFind(t.buckets[i], k, k);
    WithBucketOk(hash, t, i, c);
    assert Drop(hash, t, k) == WithBucket(t, i, c);
  }

  function Store<V>(hash: Key -> Word, t: Table<V>, k: Key, v: V): Table<V>
    requires Index(hash, t, k) < |t.buckets|
  {
    var i := Index(hash, t, k);
    t.(buckets := t.buckets[i := SetIn(t.buckets[i], k, v)])
  }

  lemma StoreOk<V>(hash: Key -> Word, t: Table<V>, k: Key, v: V)
    requires TableOk(hash, t) && TableGet(hash, t, k).Some?
    ensures Index(hash, t, k) < |t.buckets|
    ensures TableOk(hash, Store(hash, t, k, v)) && Store(hash, t, k, v).buckets != []
    ensures forall k' :: TableGet(hash, Store(hash, t, k, v), k')
                      == if k' == k then Some(v) else TableGet(hash, t, k')
  {
    var i := Index(hash, t, k);
    assert BucketOk(hash, t, i);
    var c := SetIn(t.buckets[i], k, v);
    forall k' ensures FindIn(c, k') == if k' == k then Some(v) else FindIn(t.buckets[i], k') {
      SetInFind(t.buckets[i], k, v, k');
    }
    SetInFind(t.buckets[i], k, v, k);
    WithBucketOk(hash, t, i, c);
    assert Store(hash, t, k, v) == WithBucket(t, i, c);
  }

  // ----- the dictionary

  ghost predicate DictOk<V>(hash: Key -> Word, d: DictState<V>) {
    && TableOk(hash, d.ht0) && TableOk(hash, d.ht1)
    && (!d.Rehashing() ==> d.ht1 == Reset())
    && (d.Rehashing() ==>
          && 0 <= d.rehashidx <= |d.ht0.buckets| && d.ht0.buckets != [] && d.ht1.buckets != []
          && forall i :: 0 <= i < d.rehashidx ==> d.ht0.buckets[i] == [])
    && forall k :: TableGet(hash, d.ht0, k).None? || TableGet(hash, d.ht1, k).None?
  }

  /** The map a dictionary stands for: a key is looked up in both tables. */
  function Get<V>(hash: Key -> Word, d: DictState<V>, k: Key): Option<V> {
    var r := TableGet(hash, d.ht0, k);
    if r.Some? then r else TableGet(hash, d.ht1, k)
  }

  function Size<V>(d: DictState<V>): nat { d.ht0.used + d.ht1.used }

  // ----- incremental rehashing

  /** Moving the entries of a chain, head first, to the heads of their new buckets. */
  function MoveChain<V>(hash: Key -> Word, c: Chain<V>, t: Table<V>): Table<V> {
    if c == [] then t
    else if Index(hash, t, c[0].key) < |t.buckets| then
      MoveChain(hash, c[1..], Push(hash, t, c[0]))
    else t
  }

  lemma {:induction false} MoveChainOk<V>(hash: Key -> Word, c: Chain<V>, t: Table<V>)
    requires TableOk(hash, t) && t.buckets != [] && DistinctKeys(c)
    requires forall k :: FindIn(c, k).None? || TableGet(hash, t, k).None?
    ensures TableOk(hash, MoveChain(hash, c, t)) && MoveChain(hash, c, t).buckets != []
    ensures MoveChain(hash, c, t).used == t.used + |c|
    ensures forall k :: TableGet(hash, MoveChain(hash, c, t), k)
                     == if FindIn(c, k).Some? then FindIn(c, k) else TableGet(hash, t, k)
  {
    if c != [] {
      assert FindIn(c, c[0].key).Some?;
      PushOk(hash, t, c[0]);
      assert forall k :: FindIn(c[1..], k) == if k == c[0].key then None else FindIn(c, k);
      MoveChainOk(hash, c[1..], Push(hash, t, c[0]));
    }
  }

  /** `while (table[rehashidx] == NULL) rehashidx++`. */
  function FirstNonEmpty<V>(bs: seq<Chain<V>>, i: nat): (r: nat)
    requires i <= |bs|
    ensures i <= r <= |bs|
    ensures forall j :: i <= j < r ==> bs[j] == []
    ensures r < |bs| ==> bs[r] != []
    decreases |bs| - i
  {
    if i < |bs| && bs[i] == [] then FirstNonEmpty(bs, i + 1) else i
  }

  /** The assertion of dictRehash holds: while entries are left, rehashidx is inside the
      old table and the search for a bucket to move stays inside it too. */
  lemma RehashIndexInBounds<V>(hash: Key -> Word, d: DictState<V>)
    requires DictOk(hash, d) && d.Rehashing()
    ensures d.ht0.used > 0 ==> 0 <= d.rehashidx < |d.ht0.buckets|
    ensures d.ht0.used > 0 ==> FirstNonEmpty(d.ht0.buckets, d.rehashidx) < |d.ht0.buckets|
    ensures forall i :: 0 <= i < |d.ht0.buckets| ==> |d.ht0.buckets[i]| <= d.ht0.used
  {
    TotalZero(d.ht0.buckets);
    forall i | 0 <= i < |d.ht0.buckets| ensures |d.ht0.buckets[i]| <= d.ht0.used {
      TotalAtLeast(d.ht0.buckets, i);
    }
  }

  /** d' stands for the same map as d, entry counts included. */
  ghost predicate SameMap<V>(hash: Key -> Word, d: DictState<V>, d': DictState<V>) {
    && DictOk(hash, d') && d'.iterators == d.iterators && Size(d') == Size(d)
    && forall k :: Get(hash, d', k) == Get(hash, d, k)
  }

  /** One turn of the loop of dictRehash. */
  /** The old table is empty: the new one takes its place. */
  lemma RehashEnds<V>(hash: Key -> Word, d: DictState<V>)
    requires DictOk(hash, d) && d.Rehashing() && d.ht0.used == 0
    ensures SameMap(hash, d, DictState(d.ht1, Reset(), -1, d.iterators))
  {
    TotalZero(d.ht0.buckets);
  }

  lemma BucketHolds<V>(hash: Key -> Word, t: Table<V>, i: nat, k: Key)
    requires TableOk(hash, t) && i < |t.buckets|
    ensures FindIn(t.buckets[i], k) == if Index(hash, t, k) == i then TableGet(hash, t, k) else None
  {
    assert BucketOk(hash, t, i);
    if FindIn(t.buckets[i], k).Some? { assert Entry(k, FindIn(t.buckets[i], k).value) in t.buckets[i]; }
  }

  /** The entries of bucket i have moved to the new table. */
  function Moved<V>(hash: Key -> Word, d: DictState<V>, i: nat): DictState<V>
    requires i < |d.ht0.buckets| && |d.ht0.buckets[i]| <= d.ht0.used
  {
    d.(ht0 := WithBucket(d.ht0, i, []), ht1 := MoveChain(hash, d.ht0.buckets[i], d.ht1), rehashidx := i + 1)
  }

  lemma MovedKeepsMap<V>(hash: Key -> Word, d: DictState<V>, i: nat)
    requires DictOk(hash, d) && d.Rehashing() && d.rehashidx <= i < |d.ht0.buckets|
    requires |d.ht0.buckets[i]| <= d.ht0.used && forall j :: d.rehashidx <= j < i ==> d.ht0.buckets[j] == []
    ensures SameMap(hash, d, Moved(hash, d, i))
  {
    var c := d.ht0.buckets[i];
    assert BucketOk(hash, d.ht0, i);
    forall k ensures FindIn(c, k) == if Index(hash, d.ht0, k) == i then TableGet(hash, d.ht0, k) else None {
      BucketHolds(hash, d.ht0, i, k);
    }
    MoveChainOk(hash, c, d.ht1);
    WithBucketOk(hash, d.ht0, i, []);
  }

  ghost function RehashStep<V>(hash: Key -> Word, d: DictState<V>): (d': DictState<V>)
    requires DictOk(hash, d) && d.Rehashing()
    ensures SameMap(hash, d, d')
    ensures d'.Rehashing() ==> d'.rehashidx > d.rehashidx && |d'.ht0.buckets| == |d.ht0.buckets|
  {
    RehashIndexInBounds(hash, d);
    if d.ht0.used == 0 then
      RehashEnds(hash, d);
      DictState(d.ht1, Reset(), -1, d.iterators)
    else
      var i := FirstNonEmpty(d.ht0.buckets, d.rehashidx);
      MovedKeepsMap(hash, d, i);
      Moved(hash, d, i)
  }

  /** dictRehash(d, n): the state it leaves and whether entries remain to be moved. */
  ghost function Rehash<V>(hash: Key -> Word, d: DictState<V>, n: nat): (r: (DictState<V>, bool))
    requires DictOk(hash, d)
    decreases n
  {
    if !d.Rehashing() then (d, false)
    else if n == 0 then (d, true)
    else
      var d' := RehashStep(hash, d);
      if d'.Rehashing() then Rehash(hash, d', n - 1) else (d', false)
  }

  /** No amount of rehashing changes the map, and the result says whether it goes on. */
  lemma {:induction false} RehashKeepsMap<V>(hash: Key -> Word, d: DictState<V>, n: nat)
    requires DictOk(hash, d)
    ensures SameMap(hash, d, Rehash(hash, d, n).0)
    ensures Rehash(hash, d, n).1 <==> Rehash(hash, d, n).0.Rehashing()
    decreases n
  {
    if d.Rehashing() && n > 0 && RehashStep(hash, d).Rehashing() {
      RehashKeepsMap(hash, RehashStep(hash, d), n - 1);
    }
  }

  /** Rehashing a table of S buckets is over after at most S + 1 steps. */
  lemma {:induction false} RehashTerminates<V>(hash: Key -> Word, d: DictState<V>, n: nat)
    requires DictOk(hash, d) && d.Rehashing()
    requires n > |d.ht0.buckets| - d.rehashidx
    ensures !Rehash(hash, d, n).0.Rehashing() && !Rehash(hash, d, n).1
    decreases n
  {
    var d' := RehashStep(hash, d);
    if d'.Rehashing() {
      RehashTerminates(hash, d', n - 1);
    }
  }

  /** `if (dictIsRehashing(d)) _dictRehashStep(d)`: no step while a safe iterator runs. */
  ghost function StepUnlessIterating<V>(hash: Key -> Word, d: DictState<V>): (d': DictState<V>)
    requires DictOk(hash, d)
    ensures SameMap(hash, d, d')
    ensures d.iterators > 0 ==> d' == d
  {
    if d.Rehashing() && d.iterators == 0 then RehashStep(hash, d) else d
  }

  // ----- growing and shrinking

  function NextPowerFrom(i: nat, size: nat): (r: nat)
    requires i > 0
    ensures r >= size && r >= i
    decreases size - i
  {
    if i >= size then i else NextPowerFrom(2 * i, size)
  }

  lemma {:induction false} NextPowerIsPower(k: nat, size: nat) returns (j: nat)
    ensures NextPowerFrom(Pow2(k), size) == Pow2(j)
    ensures j > k ==> Pow2(j - 1) < size
    ensures j >= k
    decreases size - Pow2(k)
  {
    if Pow2(k) >= size { j := k; } else {
      assert Pow2(k + 1) == 2 * Pow2(k);
      j := NextPowerIsPower(k + 1, size);
      if j == k + 1 { assert Pow2(j - 1) < size; }
    }
  }

  /** The largest request that is rounded up: LONG_MAX, of 64 bits, comes back as it is. */
  const LONG_BITS: nat := 63

  function LongMax(): nat { Pow2(LONG_BITS) - 1 }

  /** _dictNextPower. */
  function NextPower(size: nat): nat {
    if size >= LongMax() then LongMax() else NextPowerFrom(INITIAL_SIZE, size)
  }

  /** Below LONG_MAX, the size of a table is the least power of two that will do, and an unsigned
      long holds it. */
  lemma NextPowerIsLeast(size: nat) returns (j: nat)
    ensures if size >= LongMax() then NextPower(size) == LongMax()
            else NextPower(size) == Pow2(j) >= size && 2 <= j <= LONG_BITS && (j > 2 ==> Pow2(j - 1) < size)
  {
    assert Pow2(2) == INITIAL_SIZE;
    j := NextPowerIsPower(2, size);
    if j > LONG_BITS { Pow2Monotone(LONG_BITS, j - 1); }
  }

  lemma BelowLongMax(size: nat)
    requires size <= Pow2(MAX_BITS)
    ensures size < LongMax()
  {
    Pow2Monotone(MAX_BITS, LONG_BITS - 1);
    assert Pow2(LONG_BITS) == 2 * Pow2(LONG_BITS - 1);
    Pow2Monotone(1, LONG_BITS - 1);
  }

  /** Requests above this many buckets would leave the range of the int rehashidx. */
  const MAX_BITS: nat := 30

  function Empty<V>(size: nat): Table<V> {
    Table(seq(size, _ => []), Bits(if size == 0 then 0 else size - 1, WIDTH), 0)
  }

  lemma {:induction false} EmptyOk<V>(hash: Key -> Word, bits: nat)
    requires bits <= WIDTH
    ensures TableOk<V>(hash, Empty(Pow2(bits))) && Empty<V>(Pow2(bits)).buckets != []
    ensures forall k :: TableGet<V>(hash, Empty(Pow2(bits)), k) == None
  {
    MaskOfSize(bits);
    var t := Empty<V>(Pow2(bits));
    assert Sized(t, bits);
    TotalZero(t.buckets);
    assert forall i :: 0 <= i < |t.buckets| ==> BucketOk(hash, t, i);
  }

  lemma NewTableOk<V>(hash: Key -> Word, size: nat)
    requires size <= Pow2(MAX_BITS)
    ensures var n := Empty<V>(NextPower(size));
            TableOk(hash, n) && n.buckets != [] && forall k :: TableGet(hash, n, k) == None
  {
    BelowLongMax(size);
    var j := NextPowerIsLeast(size);
    if j > MAX_BITS { Pow2Monotone(MAX_BITS, j - 1); }
    EmptyOk<V>(hash, j);
  }

  /** dictExpand(d, size) and whether it returned DICT_OK. */
  ghost function Expand<V>(hash: Key -> Word, d: DictState<V>, size: nat): (r: (DictState<V>, bool))
    requires DictOk(hash, d) && size <= Pow2(MAX_BITS)
    ensures SameMap(hash, d, r.0)
    ensures r.1 <==> !d.Rehashing() && d.ht0.used <= size
    ensures !r.1 ==> r.0 == d
    ensures r.1 ==> r.0.ht0.buckets != []
    ensures r.1 && d.ht0.buckets != [] ==> r.0 == d.(ht1 := r.0.ht1, rehashidx := 0) && r.0.ht1.used == 0
  {
    if d.Rehashing() || d.ht0.used > size then (d, false)
    else
      NewTableOk<V>(hash, size);
      var n := Empty<V>(NextPower(size));
      if d.ht0.buckets == [] then (d.(ht0 := n), true)
      else (d.(ht1 := n, rehashidx := 0), true)
  }

  /** _dictExpandIfNeeded; resizing may be disabled globally. */
  ghost function ExpandIfNeeded<V>(hash: Key -> Word, d: DictState<V>, canResize: bool): (d': DictState<V>)
    requires DictOk(hash, d) && 2 * d.ht0.used <= Pow2(MAX_BITS)
    ensures SameMap(hash, d, d') && d'.ht0.buckets != []
    ensures d.ht0.buckets != [] ==> d' == d || (d' == d.(ht1 := d'.ht1, rehashidx := 0) && d'.ht1.used == 0)
    ensures d.Rehashing() ==> d' == d
  {
    if d.Rehashing() then d
    else if d.ht0.buckets == [] then
      Pow2Monotone(2, MAX_BITS);
      TotalZero(d.ht0.buckets);
      assert Pow2(2) == INITIAL_SIZE;
      Expand(hash, d, INITIAL_SIZE).0
    else if d.ht0.used >= |d.ht0.buckets| && (canResize || d.ht0.used / |d.ht0.buckets| > FORCE_RESIZE_RATIO) then
      Expand(hash, d, d.ht0.used * 2).0
    else d
  }

  /** dictResize: shrink to the smallest size that holds the entries. */
  ghost function Resize<V>(hash: Key -> Word, d: DictState<V>, canResize: bool): (r: (DictState<V>, bool))
    requires DictOk(hash, d) && d.ht0.used <= Pow2(MAX_BITS)
    ensures SameMap(hash, d, r.0)
  {
    if !canResize || d.Rehashing() then (d, false)
    else
      Pow2Monotone(2, MAX_BITS);
      assert Pow2(2) == INITIAL_SIZE;
      Expand(hash, d, if d.ht0.used < INITIAL_SIZE then INITIAL_SIZE else d.ht0.used)
  }

  // ----- lookup and update

  /** dictFind: a lookup also performs a rehash step. */
  ghost function Find<V>(hash: Key -> Word, d: DictState<V>, k: Key): (r: (DictState<V>, Option<V>))
    requires DictOk(hash, d)
    ensures SameMap(hash, d, r.0) && r.1 == Get(hash, d, k)
    ensures d.iterators > 0 ==> r.0 == d
  {
    if d.ht0.buckets == [] then (d, None)
    else
      var d1 := StepUnlessIterating(hash, d);
      (d1, Get(hash, d1, k))
  }

  /** d' is d with k bound to v. */
  ghost predicate Binds<V>(hash: Key -> Word, d: DictState<V>, d': DictState<V>, k: Key, v: V) {
    && DictOk(hash, d') && d'.iterators == d.iterators
    && Size(d') == Size(d) + (if Get(hash, d, k).None? then 1 else 0)
    && forall k' :: Get(hash, d', k') == if k' == k then Some(v) else Get(hash, d, k')
  }

  /** The table that receives new entries: the second one while rehashing. */
  ghost function Link<V>(hash: Key -> Word, d: DictState<V>, e: Entry<V>): (d': DictState<V>)
    requires DictOk(hash, d) && d.ht0.buckets != [] && Get(hash, d, e.key).None?
    ensures Binds(hash, d, d', e.key, e.val)
  {
    var t := if d.Rehashing() then d.ht1 else d.ht0;
    PushOk(hash, t, e);
    if d.Rehashing() then d.(ht1 := Push(hash, t, e)) else d.(ht0 := Push(hash, t, e))
  }

  /** dictAdd: fails when the key is present, after the rehash step and the expansion. */
  ghost function Add<V>(hash: Key -> Word, d: DictState<V>, k: Key, v: V, canResize: bool): (r: (DictState<V>, bool))
    requires DictOk(hash, d) && 2 * Size(d) <= Pow2(MAX_BITS)
    ensures r.1 <==> Get(hash, d, k).None?
    ensures if r.1 then Binds(hash, d, r.0, k, v) else SameMap(hash, d, r.0)
    ensures d.ht0.buckets != [] ==> r.0.ht0.buckets != []
  {
    var d1 := StepUnlessIterating(hash, d);
    var d2 := ExpandIfNeeded(hash, d1, canResize);
    if Get(hash, d2, k).Some? then (d2, false)
    else (Link(hash, d2, Entry(k, v)), true)
  }

  /** Overwriting the value of a present key in place. */
  ghost function Overwrite<V>(hash: Key -> Word, d: DictState<V>, k: Key, v: V): (d': DictState<V>)
    requires DictOk(hash, d) && Get(hash, d, k).Some?
    ensures Binds(hash, d, d', k, v)
  {
    if TableGet(hash, d.ht0, k).Some? then
      StoreOk(hash, d.ht0, k, v);
      var d' := d.(ht0 := Store(hash, d.ht0, k, v));
      assert forall i :: 0 <= i < d.rehashidx && d.Rehashing() ==> d'.ht0.buckets[i] == [];
      d'
    else
      StoreOk(hash, d.ht1, k, v);
      d.(ht1 := Store(hash, d.ht1, k, v))
  }

  /** dictReplace: 1 when the key was added from scratch. */
  ghost function Replace<V>(hash: Key -> Word, d: DictState<V>, k: Key, v: V, canResize: bool)
    : (r: (DictState<V>, bool))
    requires DictOk(hash, d) && 2 * Size(d) <= Pow2(MAX_BITS)
    ensures Binds(hash, d, r.0, k, v)
    ensures r.1 <==> Get(hash, d, k).None?
  {
    var (d1, added) := Add(hash, d, k, v, canResize);
    if added then (d1, true) else (Overwrite(hash, Find(hash, d1, k).0, k, v), false)
  }

  /** d' is d without k. */
  ghost predicate Unbinds<V>(hash: Key -> Word, d: DictState<V>, d': DictState<V>, k: Key) {
    && DictOk(hash, d') && d'.iterators == d.iterators
    && Size(d') == Size(d) - (if Get(hash, d, k).Some? then 1 else 0)
    && forall k' :: Get(hash, d', k') == if k' == k then None else Get(hash, d, k')
  }

  /** Unlinking a present key from the table that holds it. */
  ghost function Cut<V>(hash: Key -> Word, d: DictState<V>, k: Key): (d': DictState<V>)
    requires DictOk(hash, d) && Get(hash, d, k).Some?
    ensures Unbinds(hash, d, d', k)
  {
    if TableGet(hash, d.ht0, k).Some? then
      DropOk(hash, d.ht0, k);
      d.(ht0 := Drop(hash, d.ht0, k))
    else
      DropOk(hash, d.ht1, k);
      d.(ht1 := Drop(hash, d.ht1, k))
  }

  /** dictDelete and whether the key was found. */
  ghost function Delete<V>(hash: Key -> Word, d: DictState<V>, k: Key): (r: (DictState<V>, bool))
    requires DictOk(hash, d)
    ensures Unbinds(hash, d, r.0, k)
    ensures r.1 <==> Get(hash, d, k).Some?
  {
    if d.ht0.buckets == [] then (d, false)
    else
      var d1 := StepUnlessIterating(hash, d);
      if Get(hash, d1, k).Some? then (Cut(hash, d1, k), true) else (d1, false)
  }
}
