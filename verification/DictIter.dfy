/** Safe iterators: while one is running no rehash step is made, entries keep their
    bucket, and every entry that stays is returned exactly once. */
module DictIter {
  import opened Options
  import opened Words
  import opened DictModel
  import D = Dict

  /** struct dictIterator; entry and nextEntry are the keys the two pointers point at. */
  datatype IterState = IterState(table: nat, index: int, entry: Option<Key>, nextEntry: Option<Key>)

  const FRESH := IterState(0, -1, None, None)

  function Current<V>(d: DictState<V>, it: IterState): Table<V> {
    if it.table == 0 then d.ht0 else d.ht1
  }

  ghost predicate IterOk<V>(hash: Key -> Word, d: DictState<V>, it: IterState) {
    && it.table <= 1 && (it.table == 1 ==> d.Rehashing() && it.index >= 0) && it.index >= -1
    && (it.index == -1 ==> it.entry.None?)
    && (it.entry.Some? ==> it.index < |Current(d, it).buckets|)
    && (it.entry.Some? && it.nextEntry.Some? ==> FindIn(Current(d, it).buckets[it.index], it.nextEntry.value).Some?)
  }

  /** Key k of the table the iterator is in is still ahead of it. */
  ghost predicate AheadIn<V>(hash: Key -> Word, t: Table<V>, it: IterState, k: Key) {
    && TableGet(hash, t, k).Some?
    && var i := Index(hash, t, k);
       || i > it.index
       || (i == it.index && it.entry.Some? && it.nextEntry.Some?
           && Position(t.buckets[i], k) >= Position(t.buckets[i], it.nextEntry.value))
  }

  /** Key k has not been returned yet and lies ahead of the iterator. */
  ghost predicate Pending<V>(hash: Key -> Word, d: DictState<V>, it: IterState, k: Key) {
    if it.table == 0 then AheadIn(hash, d.ht0, it, k) || TableGet(hash, d.ht1, k).Some?
    else AheadIn(hash, d.ht1, it, k)
  }

  /** What one dictNext does: nothing is ahead, or one pending entry is returned and is
      the only one to stop being pending. */
  ghost predicate NextOutcome<V>(hash: Key -> Word, d: DictState<V>, it: IterState, it': IterState,
          r: Option<Entry<V>>) {
    && IterOk(hash, d, it') && it'.index >= 0
    && match r
       case None => forall k :: !Pending(hash, d, it, k) && !Pending(hash, d, it', k)
       case Some(e) =>
         && Pending(hash, d, it, e.key) && Get(hash, d, e.key) == Some(e.val)
         && forall k :: Pending(hash, d, it', k) <==> Pending(hash, d, it, k) && k != e.key
  }

  function KeyAt<V>(c: Chain<V>, p: nat): Option<Key> {
    if p < |c| then Some(c[p].key) else None
  }

  /** The iterator stands at position p of bucket i, which it has yet to return. */
  function Facing<V>(it: IterState, i: int, c: Chain<V>, p: nat): IterState
    requires p < |c|
  {
    it.(index := i, entry := Some(c[p].key), nextEntry := Some(c[p].key))
  }

  lemma PositionOfEntry<V>(c: Chain<V>, p: nat)
    requires DistinctKeys(c) && p < |c|
    ensures Position(c, c[p].key) == p
  {
  }

  /** Stepping past the entry at position p takes exactly its key off what is ahead. */
  lemma AheadAfterStep<V>(hash: Key -> Word, t: Table<V>, it: IterState, i: nat, p: nat, k: Key)
    requires TableOk(hash, t) && i < |t.buckets| && p < |t.buckets[i]|
    ensures var c := t.buckets[i];
            AheadIn(hash, t, Facing(it, i, c, p).(nextEntry := KeyAt(c, p + 1)), k)
            <==> AheadIn(hash, t, Facing(it, i, c, p), k) && k != c[p].key
  {
    var c := t.buckets[i];
    assert BucketOk(hash, t, i);
    PositionOfEntry(c, p);
    if p + 1 < |c| { PositionOfEntry(c, p + 1); }
    assert Index(hash, t, c[p].key) == i;
  }

  lemma StepPast<V>(hash: Key -> Word, d: DictState<V>, it: IterState, i: nat, p: nat)
    requires DictOk(hash, d) && it.table <= 1 && (it.table == 1 ==> d.Rehashing())
    requires i < |Current(d, it).buckets| && p < |Current(d, it).buckets[i]|
    ensures var c := Current(d, it).buckets[i];
            NextOutcome(hash, d, Facing(it, i, c, p), Facing(it, i, c, p).(nextEntry := KeyAt(c, p + 1)), Some(c[p]))
  {
    var t := Current(d, it);
    var c := t.buckets[i];
    assert BucketOk(hash, t, i);
    PositionOfEntry(c, p);
    assert c[p] in c;
    assert TableGet(hash, t, c[p].key) == Some(c[p].val);
    assert AheadIn(hash, t, Facing(it, i, c, p), c[p].key);
    forall k
      ensures AheadIn(hash, t, Facing(it, i, c, p).(nextEntry := KeyAt(c, p + 1)), k)
              <==> AheadIn(hash, t, Facing(it, i, c, p), k) && k != c[p].key
    {
      AheadAfterStep(hash, t, it, i, p, k);
    }
  }

  ghost predicate SamePending<V>(hash: Key -> Word, d: DictState<V>, it: IterState, it': IterState) {
    forall k :: Pending(hash, d, it, k) <==> Pending(hash, d, it', k)
  }

  /** Moving on to the next bucket of the same table. */
  lemma EnterNext<V>(hash: Key -> Word, d: DictState<V>, it: IterState)
    requires DictOk(hash, d) && IterOk(hash, d, it) && it.entry.None?
    requires it.index + 1 < |Current(d, it).buckets|
    ensures var c := Current(d, it).buckets[it.index + 1];
            if c == [] then SamePending(hash, d, it, it.(index := it.index + 1))
            else SamePending(hash, d, it, Facing(it, it.index + 1, c, 0))
  {
    NextBucketAhead(hash, Current(d, it), it);
  }

  /** In one table, moving on to the next bucket leaves the same keys ahead. */
  lemma NextBucketAhead<V>(hash: Key -> Word, t: Table<V>, it: IterState)
    requires TableOk(hash, t) && it.entry.None? && -1 <= it.index < |t.buckets| - 1
    ensures var c := t.buckets[it.index + 1];
            var it' := if c == [] then it.(index := it.index + 1) else Facing(it, it.index + 1, c, 0);
            forall k :: AheadIn(hash, t, it', k) <==> AheadIn(hash, t, it, k)
  {
    assert BucketOk(hash, t, it.index + 1);
  }

  /** Moving on from the end of the first table to the first bucket of the second. */
  lemma EnterSecond<V>(hash: Key -> Word, d: DictState<V>, it: IterState)
    requires DictOk(hash, d) && IterOk(hash, d, it) && it.entry.None? && it.table == 0 && d.Rehashing()
    requires it.index + 1 >= |d.ht0.buckets|
    ensures var c := d.ht1.buckets[0];
            if c == [] then SamePending(hash, d, it, it.(table := 1, index := 0))
            else SamePending(hash, d, it, Facing(it.(table := 1), 0, c, 0))
  {
    assert BucketOk(hash, d.ht1, 0);
    forall k | TableGet(hash, d.ht0, k).Some? ensures Index(hash, d.ht0, k) < it.index + 1 { }
  }

  lemma Finished<V>(hash: Key -> Word, d: DictState<V>, it: IterState)
    requires DictOk(hash, d) && IterOk(hash, d, it) && it.entry.None? && (it.table == 1 || !d.Rehashing())
    requires it.index + 1 >= |Current(d, it).buckets|
    ensures NextOutcome<V>(hash, d, it, it.(index := it.index + 1), None)
  {
    forall k | TableGet(hash, Current(d, it), k).Some? ensures Index(hash, Current(d, it), k) < it.index + 1 { }
  }

  lemma SamePendingTransitive<V>(hash: Key -> Word, d: DictState<V>, a: IterState, b: IterState, c: IterState)
    requires SamePending(hash, d, a, b) && SamePending(hash, d, b, c)
    ensures SamePending(hash, d, a, c)
  {
  }

  lemma OutcomeAfterSkipping<V>(hash: Key -> Word, d: DictState<V>, it0: IterState, it: IterState, it': IterState,
          r: Option<Entry<V>>)
    requires SamePending(hash, d, it0, it) && NextOutcome(hash, d, it, it', r)
    ensures NextOutcome(hash, d, it0, it', r)
  {
  }

  /** Registering an iterator changes nothing that lookups or iterators can see. */
  lemma CountingIteratorsIsHarmless<V>(hash: Key -> Word, d: DictState<V>, n: nat, it: IterState, it': IterState,
          r: Option<Entry<V>>)
    requires DictOk(hash, d)
    ensures DictOk(hash, d.(iterators := n))
    ensures NextOutcome(hash, d, it, it', r) ==> NextOutcome(hash, d.(iterators := n), it, it', r)
  {
    var d' := d.(iterators := n);
    assert forall x, k :: Pending(hash, d, x, k) == Pending(hash, d', x, k);
    assert forall k :: Get(hash, d, k) == Get(hash, d', k);
  }

  /** Moving the entry pointer to the saved next entry changes nothing that is ahead. */
  lemma FollowNext<V>(hash: Key -> Word, d: DictState<V>, it: IterState)
    requires DictOk(hash, d) && IterOk(hash, d, it) && it.entry.Some?
    ensures it.nextEntry.None? ==> SamePending(hash, d, it, it.(entry := None))
    ensures it.nextEntry.Some? ==>
              var c := Current(d, it).buckets[it.index];
              var p := Position(c, it.nextEntry.value);
              p < |c| && it.(entry := it.nextEntry) == Facing(it, it.index, c, p)
              && SamePending(hash, d, it, it.(entry := it.nextEntry))
  {
  }

  class DictIterator<V(!new)> {
    const d: D.Dict<V>
    var table: nat
    var index: int
    var entry: Option<Key>
    var nextEntry: Option<Key>

    function State(): IterState
      reads this
    {
      IterState(table, index, entry, nextEntry)
    }

    /** dictGetSafeIterator. */
    constructor (d: D.Dict<V>)
      ensures this.d == d && State() == FRESH
    {
      this.d := d;
      table, index, entry, nextEntry := 0, -1, None, None;
    }

    /** dictReleaseIterator: one that was started is no longer registered. */
    method Release()
      requires (index == -1 && table == 0) || d.iterators > 0
      modifies d`iterators
      ensures d.State() == old(d.State()).(iterators := d.iterators)
      ensures d.iterators == old(d.iterators) - if index == -1 && table == 0 then 0 else 1
    {
      if !(index == -1 && table == 0) {
        d.iterators := d.iterators - 1;
      }
    }

    /** The iterator has just arrived at an entry that it has yet to return. */
    ghost predicate AtEntry(s: DictState<V>)
      reads this
    {
      && table <= 1 && (table == 1 ==> s.Rehashing()) && 0 <= index < |Current(s, State()).buckets|
      && entry.Some? && entry == nextEntry
      && Position(Current(s, State()).buckets[index], entry.value) < |Current(s, State()).buckets[index]|
    }

    method FaceBucket(c: Chain<V>)
      requires entry.None?
      modifies this`entry, this`nextEntry
      ensures State() == if c == [] then old(State()) else Facing(old(State()), index, c, 0)
      ensures entry.Some? ==> c != [] && entry == nextEntry == Some(c[0].key) && Position(c, c[0].key) == 0
    {
      entry := KeyAt(c, 0);
      if entry.Some? { nextEntry := entry; }
    }

    /** The `entry == NULL` branch: move to the next bucket, or find that there is none. */
    method EnterBucket(ghost s: DictState<V>) returns (more: bool)
      requires d.State() == s.(iterators := d.iterators) && DictOk(d.hash, s)
      requires IterOk(d.hash, s, State()) && entry.None?
      modifies this, d`iterators
      ensures d.iterators == old(d.iterators) + if old(index) == -1 then 1 else 0
      ensures index >= 0 && table >= old(table) && (table == old(table) ==> index == old(index) + 1)
      ensures d.State() == s.(iterators := d.iterators) && IterOk(d.hash, s, State())
      ensures more ==> SamePending(d.hash, s, old(State()), State())
      ensures more ==> index < |Current(s, State()).buckets|
      ensures more && entry.Some? ==> AtEntry(s)
      ensures !more ==> NextOutcome<V>(d.hash, s, old(State()), State(), None)
    {
      var ht := if table == 0 then d.ht0 else d.ht1;
      if index + 1 < ht.table.Length {
        EnterNext(d.hash, s, State());
      } else if d.rehashidx != -1 && table == 0 {
        EnterSecond(d.hash, s, State());
      } else {
        Finished(d.hash, s, State());
      }
      if index == -1 && table == 0 {
        d.iterators := d.iterators + 1;
      }
      index := index + 1;
      if index >= ht.table.Length {
        if d.rehashidx != -1 && table == 0 {
          table := 1;
          index := 0;
          ht := d.ht1;
        } else {
          return false;
        }
      }
      FaceBucket(ht.table[index]);
      more := true;
    }

    /** One turn of the loop of dictNext, up to the test whether there is an entry to return. */
    method Turn(ghost s: DictState<V>, ghost it0: IterState) returns (more: bool)
      requires d.State() == s.(iterators := d.iterators) && DictOk(d.hash, s)
      requires IterOk(d.hash, s, State()) && SamePending(d.hash, s, it0, State())
      modifies this, d`iterators
      ensures d.State() == s.(iterators := d.iterators) && IterOk(d.hash, s, State())
      ensures d.iterators == old(d.iterators) + if old(index) == -1 && index >= 0 then 1 else 0
      ensures old(index) == -1 || index >= 0
      ensures more ==> SamePending(d.hash, s, it0, State())
      ensures more && entry.Some? ==> AtEntry(s)
      ensures more ==> table >= old(table)
      ensures more && table == old(table) ==> index == old(index) + if old(entry).None? then 1 else 0
      ensures more && old(entry).None? ==> index < |Current(s, State()).buckets|
      ensures more && old(entry).Some? ==> table == old(table)
      ensures !more ==> index >= 0 && NextOutcome<V>(d.hash, s, old(State()), State(), None)
    {
      if entry.None? {
        more := EnterBucket(s);
      } else {
        FollowNext(d.hash, s, State());
        entry := nextEntry;
        more := true;
      }
      if more {
        SamePendingTransitive(d.hash, s, it0, old(State()), State());
      }
    }

    /** dictNext on a safe iterator. The first call registers it with the dictionary. */
    method Next() returns (r: Option<Entry<V>>)
      requires d.Valid() && IterOk(d.hash, d.State(), State())
      modifies this, d`iterators
      ensures d.State() == old(d.State()).(iterators := old(d.iterators) + if old(index) == -1 then 1 else 0)
      ensures d.Valid()
      ensures NextOutcome(d.hash, d.State(), old(State()), State(), r)
    {
      ghost var s, it0 := d.State(), State();
      ghost var it := it0;
      r := None;
      while true
        invariant d.State() == s.(iterators := d.iterators)
        invariant d.iterators == s.iterators + if it0.index == -1 && index >= 0 then 1 else 0
        invariant it == State() && IterOk(d.hash, s, it) && SamePending(d.hash, s, it0, it)
        invariant index == -1 ==> it0.index == -1
        decreases 1 - table, (if table == 0 then d.ht0 else d.ht1).table.Length - index, entry.Some?
      {
        var more := Turn(s, it0);
        if !more { break; }
        it := State();
        if entry.Some? {
          r := ReturnEntry(s);
          break;
        }
      }
      OutcomeAfterSkipping(d.hash, s, it0, it, State(), r);
      CountingIteratorsIsHarmless(d.hash, s, d.iterators, it0, State(), r);
    }

    /** Save the entry after the one about to be returned: the caller may delete the latter. */
    method ReturnEntry(ghost s: DictState<V>) returns (r: Option<Entry<V>>)
      requires d.State() == s.(iterators := d.iterators) && DictOk(d.hash, s) && AtEntry(s)
      modifies this`nextEntry
      ensures NextOutcome(d.hash, s, old(State()), State(), r)
    {
      var ht := if table == 0 then d.ht0 else d.ht1;
      var p := Position(ht.table[index], entry.value);
      StepPast(d.hash, s, State(), index, p);
      nextEntry := KeyAt(ht.table[index], p + 1);
      r := Some(ht.table[index][p]);
    }
  }
}
