/** How tables move on, grow and shrink: dict.c, by the numbers. */
module DictGrowth {
  import opened Options
  import opened Words
  import opened DictModel

  // ----- every operation moves a rehash on

  /** The rehash is over or has come to a later bucket. */
  predicate MovedOn<V>(d: DictState<V>, d': DictState<V>) {
    d'.Rehashing() ==> d'.rehashidx > d.rehashidx && |d'.ht0.buckets| == |d.ht0.buckets|
  }

  /** The state of the rehash, which adding and unlinking entries leaves as it is. */
  predicate SameRehash<V>(d: DictState<V>, d': DictState<V>) {
    d'.rehashidx == d.rehashidx && |d'.ht0.buckets| == |d.ht0.buckets|
  }

  lemma StepMovesOn<V>(hash: Key -> Word, d: DictState<V>)
    requires DictOk(hash, d) && d.Rehashing() && d.iterators == 0 && d.ht0.buckets != []
    ensures MovedOn(d, StepUnlessIterating(hash, d))
  {
  }

  /** While no iterator is registered, each dictFind and each dictDelete takes the rehash at least one
      bucket further or ends it. */
  lemma LookupMovesOn<V>(hash: Key -> Word, d: DictState<V>, k: Key)
    requires DictOk(hash, d) && d.Rehashing() && d.iterators == 0
    ensures MovedOn(d, Find(hash, d, k).0) && MovedOn(d, Delete(hash, d, k).0)
  {
    RehashingHasBuckets(hash, d);
    StepMovesOn(hash, d);
  }

  lemma RehashingHasBuckets<V>(hash: Key -> Word, d: DictState<V>)
    requires DictOk(hash, d) && d.Rehashing()
    ensures d.ht0.buckets != []
  {
  }

  /** So does dictAdd, which may then begin the next one on what was the second table. */
  lemma AddMovesOn<V>(hash: Key -> Word, d: DictState<V>, k: Key, v: V, canResize: bool)
    requires DictOk(hash, d) && d.Rehashing() && d.iterators == 0 && 2 * Size(d) <= Pow2(MAX_BITS)
    ensures var d' := Add(hash, d, k, v, canResize).0;
      MovedOn(d, d') || (d'.rehashidx == 0 && |d'.ht0.buckets| == |d.ht1.buckets|)
  {
    RehashingHasBuckets(hash, d);
    StepMovesOn(hash, d);
    RehashEndsWithSecond(hash, d);
  }

  lemma RehashEndsWithSecond<V>(hash: Key -> Word, d: DictState<V>)
    requires DictOk(hash, d) && d.Rehashing() && d.iterators == 0
    ensures var d1 := StepUnlessIterating(hash, d); !d1.Rehashing() ==> d1.ht0.buckets == d.ht1.buckets
  {
  }

  /** The dictionary after some lookups. */
  ghost function Finds<V>(hash: Key -> Word, d: DictState<V>, ks: seq<Key>): DictState<V>
    requires DictOk(hash, d)
    decreases |ks|
  {
    if ks == [] then d else Finds(hash, Find(hash, d, ks[0]).0, ks[1..])
  }

  lemma {:induction false} LookupsStay<V>(hash: Key -> Word, d: DictState<V>, ks: seq<Key>)
    requires DictOk(hash, d) && !d.Rehashing()
    ensures Finds(hash, d, ks) == d
    decreases |ks|
  {
    if ks != [] { LookupsStay(hash, d, ks[1..]); }
  }

  /** A rehash from bucket r of a table of S is over after S - r + 1 lookups, of whatever keys. */
  lemma {:induction false} LookupsFinishRehash<V>(hash: Key -> Word, d: DictState<V>, ks: seq<Key>)
    requires DictOk(hash, d) && d.Rehashing() && d.iterators == 0
    requires |ks| > |d.ht0.buckets| - d.rehashidx
    ensures !Finds(hash, d, ks).Rehashing()
    decreases |ks|
  {
    var d' := Find(hash, d, ks[0]).0;
    LookupMovesOn(hash, d, ks[0]);
    if d'.Rehashing() {
      LookupsFinishRehash(hash, d', ks[1..]);
    } else {
      LookupsStay(hash, d', ks[1..]);
    }
  }

  // ----- growing and shrinking

  /** The least power of two that is not below size, nor below the initial size. */
  ghost predicate SizeFor(n: nat, size: nat) {
    exists j: nat :: j >= 2 && n == Pow2(j) && n >= size && (j > 2 ==> Pow2(j - 1) < size)
  }

  lemma NewTableSize<V>(size: nat)
    requires size <= Pow2(MAX_BITS)
    ensures SizeFor(|Empty<V>(NextPower(size)).buckets|, size)
  {
    BelowLongMax(size);
    var j := NextPowerIsLeast(size);
    assert |Empty<V>(NextPower(size)).buckets| == Pow2(j);
  }

  ghost predicate Expanded<V>(d: DictState<V>, d': DictState<V>, canResize: bool) {
    var size, used := |d.ht0.buckets|, d.ht0.used;
    if size == 0 then !d'.Rehashing() && |d'.ht0.buckets| == 4
    else if used >= size && (canResize || used / size > 5) then
      d'.rehashidx == 0 && d'.ht0 == d.ht0 && SizeFor(|d'.ht1.buckets|, used * 2)
    else d' == d
  }

  /** When dictAdd's expansion acts and what it does: an empty dictionary gets a table of four buckets; a
      table with at least as many entries as buckets begins to move into one for twice its entries, if
      resizing is allowed or there are more than five entries a bucket; else nothing happens. */
  lemma ExpandsIff<V>(hash: Key -> Word, d: DictState<V>, canResize: bool)
    requires DictOk(hash, d) && !d.Rehashing() && 2 * d.ht0.used <= Pow2(MAX_BITS)
    ensures Expanded(d, ExpandIfNeeded(hash, d, canResize), canResize)
  {
    if |d.ht0.buckets| == 0 {
      TotalZero(d.ht0.buckets);
      FirstTable(hash, d);
    } else {
      ExpandIs(hash, d, d.ht0.used * 2);
    }
  }

  /** dictExpand of a table that has buckets. */
  lemma ExpandIs<V>(hash: Key -> Word, d: DictState<V>, size: nat)
    requires DictOk(hash, d) && !d.Rehashing() && d.ht0.used <= size <= Pow2(MAX_BITS) && d.ht0.buckets != []
    ensures var d' := Expand(hash, d, size).0;
      d'.rehashidx == 0 && d'.ht0 == d.ht0 && SizeFor(|d'.ht1.buckets|, size)
  {
    NewTableSize<V>(size);
  }

  lemma FirstTable<V>(hash: Key -> Word, d: DictState<V>)
    requires DictOk(hash, d) && !d.Rehashing() && d.ht0.buckets == [] && d.ht0.used == 0 && 4 <= Pow2(MAX_BITS)
    ensures var d' := Expand(hash, d, 4).0; !d'.Rehashing() && |d'.ht0.buckets| == 4
  {
    BelowLongMax(4);
  }

  /** After dictAdd, a table that is not being moved has no more entries than buckets; while resizing is
      disabled, no more than six for each. */
  lemma AddKeepsLoad<V>(hash: Key -> Word, d: DictState<V>, k: Key, v: V, canResize: bool)
    requires DictOk(hash, d) && 2 * Size(d) <= Pow2(MAX_BITS)
    ensures var d' := Add(hash, d, k, v, canResize).0;
      d'.Rehashing() || d'.ht0.used <= (if canResize then 1 else 6) * |d'.ht0.buckets|
  {
    var d1 := StepUnlessIterating(hash, d);
    var d2 := ExpandIfNeeded(hash, d1, canResize);
    if !d2.Rehashing() {
      ExpandedLoad(hash, d1, canResize);
      if Get(hash, d2, k).None? { LinkedLoad(hash, d2, Entry(k, v)); }
    }
  }

  /** A table that is left as it is has room for one more. */
  lemma ExpandedLoad<V>(hash: Key -> Word, d: DictState<V>, canResize: bool)
    requires DictOk(hash, d) && 2 * d.ht0.used <= Pow2(MAX_BITS) && !ExpandIfNeeded(hash, d, canResize).Rehashing()
    ensures var t := ExpandIfNeeded(hash, d, canResize).ht0;
      t.used + 1 <= (if canResize then 1 else 6) * |t.buckets|
  {
    ExpandsIff(hash, d, canResize);
    if d.ht0.buckets == [] {
      TotalZero(d.ht0.buckets);
    } else {
      Load(d.ht0.used, |d.ht0.buckets|, canResize);
    }
  }

  lemma Load(used: nat, size: nat, canResize: bool)
    requires size > 0 && !(used >= size && (canResize || used / size > 5))
    ensures used + 1 <= (if canResize then 1 else 6) * size
  {
    if used >= size {
      assert used == (used / size) * size + used % size;
      assert (used / size) * size <= 5 * size;
    }
  }

  lemma LinkedLoad<V>(hash: Key -> Word, d: DictState<V>, e: Entry<V>)
    requires DictOk(hash, d) && d.ht0.buckets != [] && !d.Rehashing() && Get(hash, d, e.key).None?
    ensures var d' := Link(hash, d, e); d'.ht0.used == d.ht0.used + 1 && |d'.ht0.buckets| == |d.ht0.buckets|
  {
    PushOk(hash, d.ht0, e);
  }

  /** dictResize is refused while resizing is disabled or a rehash is under way; else it begins to move the
      entries into the smallest table that has a bucket for each. */
  lemma ResizeIs<V>(hash: Key -> Word, d: DictState<V>, canResize: bool)
    requires DictOk(hash, d) && d.ht0.used <= Pow2(MAX_BITS) && d.ht0.buckets != []
    ensures var (d', ok) := Resize(hash, d, canResize);
      && (ok <==> canResize && !d.Rehashing())
      && (if ok then d'.rehashidx == 0 && d'.ht0 == d.ht0 && SizeFor(|d'.ht1.buckets|, d.ht0.used) else d' == d)
  {
    Pow2Monotone(2, MAX_BITS);
    var size := if d.ht0.used < 4 then 4 else d.ht0.used;
    if canResize && !d.Rehashing() { ExpandIs(hash, d, size); }
    if d.ht0.used < 4 { assert SizeFor(4, d.ht0.used) by { assert Pow2(2) == 4; } }
  }
}
