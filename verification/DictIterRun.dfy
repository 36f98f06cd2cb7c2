/** Whole iterations: dictNext calls interleaved with additions, lookups, replacements and
    deletions made by the caller between them. */
module DictIterRun {
  import opened Options
  import opened Words
  import opened DictModel
  import opened DictIter

  // ----- updates do not disturb what is ahead of a running iterator

  lemma PushKeepsAhead<V>(hash: Key -> Word, t: Table<V>, e: Entry<V>, it: IterState, k: Key)
    requires TableOk(hash, t) && t.buckets != [] && TableGet(hash, t, e.key).None? && k != e.key
    requires it.entry.Some? && it.nextEntry.Some? ==> it.nextEntry.value != e.key
    ensures Index(hash, t, e.key) < |t.buckets|
    ensures AheadIn(hash, Push(hash, t, e), it, k) <==> AheadIn(hash, t, it, k)
  {
    PushOk(hash, t, e);
    var i := Index(hash, t, e.key);
    var c := [e] + t.buckets[i];
    assert c[1..] == t.buckets[i];
    assert Position(c, k) == 1 + Position(t.buckets[i], k);
    if it.nextEntry.Some? && it.nextEntry.value != e.key {
      assert Position(c, it.nextEntry.value) == 1 + Position(t.buckets[i], it.nextEntry.value);
    }
  }

  lemma CutOutAt<V>(c: Chain<V>, p: nat, q: nat, q': nat, u: Chain<V>)
    requires p <= |c| && q < |c| && p != q && q' == (if p < q then q - 1 else q)
    requires u == if p < |c| then c[..p] + c[p + 1..] else c
    ensures q' < |u| && u[q'] == c[q]
    ensures forall i :: 0 <= i < q' ==> var j := if i < p then i else i + 1; j < q && u[i] == c[j]
  {
  }

  lemma UnlinkPosition<V>(c: Chain<V>, k: Key, x: Key)
    requires DistinctKeys(c) && x != k && FindIn(c, x).Some?
    ensures Position(Unlink(c, k), x) == Position(c, x) - (if Position(c, k) < Position(c, x) then 1 else 0)
  {
    var u, p, q := Unlink(c, k), Position(c, k), Position(c, x);
    var q' := q - if p < q then 1 else 0;
    CutOutAt(c, p, q, q', u);
    PositionUnique(u, x, q');
  }

  lemma DropKeepsAhead<V>(hash: Key -> Word, t: Table<V>, k0: Key, it: IterState, k: Key)
    requires TableOk(hash, t) && TableGet(hash, t, k0).Some? && k != k0
    requires it.entry.Some? && it.nextEntry.Some? ==>
               && it.nextEntry.value != k0 && 0 <= it.index < |t.buckets|
               && FindIn(t.buckets[it.index], it.nextEntry.value).Some?
    ensures Index(hash, t, k0) < |t.buckets| && t.used > 0
    ensures AheadIn(hash, Drop(hash, t, k0), it, k) <==> AheadIn(hash, t, it, k)
  {
    DropOk(hash, t, k0);
    var i := Index(hash, t, k0);
    assert BucketOk(hash, t, i);
    if TableGet(hash, t, k).Some? && Index(hash, t, k) == i {
      UnlinkPosition(t.buckets[i], k0, k);
      if it.entry.Some? && it.nextEntry.Some? && it.index == i {
        UnlinkPosition(t.buckets[i], k0, it.nextEntry.value);
      }
    }
  }

  lemma SetInPosition<V>(c: Chain<V>, k: Key, v: V, x: Key)
    ensures Position(SetIn(c, k, v), x) == Position(c, x)
  {
    var s := SetIn(c, k, v);
    assert forall i :: 0 <= i < |c| ==> s[i].key == c[i].key;
  }

  lemma StoreKeepsAhead<V>(hash: Key -> Word, t: Table<V>, k0: Key, v: V, it: IterState, k: Key)
    requires TableOk(hash, t) && TableGet(hash, t, k0).Some?
    ensures Index(hash, t, k0) < |t.buckets|
    ensures AheadIn(hash, Store(hash, t, k0, v), it, k) <==> AheadIn(hash, t, it, k)
  {
    StoreOk(hash, t, k0, v);
    var i := Index(hash, t, k0);
    SetInPosition(t.buckets[i], k0, v, k);
    if it.nextEntry.Some? {
      SetInPosition(t.buckets[i], k0, v, it.nextEntry.value);
    }
  }

  /** The saved next entry is an entry of the dictionary. */
  lemma NextEntryIsPresent<V>(hash: Key -> Word, d: DictState<V>, it: IterState)
    requires DictOk(hash, d) && IterOk(hash, d, it) && it.entry.Some? && it.nextEntry.Some?
    ensures TableGet(hash, Current(d, it), it.nextEntry.value).Some?
    ensures Index(hash, Current(d, it), it.nextEntry.value) == it.index
  {
    var t, n := Current(d, it), it.nextEntry.value;
    assert BucketOk(hash, t, it.index);
    assert Entry(n, FindIn(t.buckets[it.index], n).value) in t.buckets[it.index];
  }

  /** d' keeps the iterator sound and pending keys pending, for all keys but x. */
  ghost predicate Undisturbed<V>(hash: Key -> Word, d: DictState<V>, d': DictState<V>, it: IterState, x: Option<Key>) {
    && IterOk(hash, d', it)
    && forall k :: Some(k) != x ==> (Pending(hash, d', it, k) <==> Pending(hash, d, it, k))
  }

  lemma LinkUndisturbed<V>(hash: Key -> Word, d: DictState<V>, it: IterState, e: Entry<V>)
    requires DictOk(hash, d) && IterOk(hash, d, it) && d.ht0.buckets != [] && Get(hash, d, e.key).None?
    ensures Undisturbed(hash, d, Link(hash, d, e), it, Some(e.key))
  {
    var t := if d.Rehashing() then d.ht1 else d.ht0;
    if it.entry.Some? && it.nextEntry.Some? { NextEntryIsPresent(hash, d, it); }
    PushOk(hash, t, e);
    forall k | k != e.key ensures AheadIn(hash, Push(hash, t, e), it, k) <==> AheadIn(hash, t, it, k) {
      PushKeepsAhead(hash, t, e, it, k);
    }
    var d' := Link(hash, d, e);
    if it.entry.Some? && it.nextEntry.Some? {
      NextStillThere(hash, d, d', it);
    }
  }

  /** A next entry that is still bound, in a table with the same index function, is still
      in the bucket of the iterator. */
  lemma NextStillThere<V>(hash: Key -> Word, d: DictState<V>, d': DictState<V>, it: IterState)
    requires DictOk(hash, d) && IterOk(hash, d, it) && it.entry.Some? && it.nextEntry.Some?
    requires |Current(d', it).buckets| == |Current(d, it).buckets|
    requires Current(d', it).sizemask == Current(d, it).sizemask
    requires TableGet(hash, Current(d', it), it.nextEntry.value).Some?
    ensures FindIn(Current(d', it).buckets[it.index], it.nextEntry.value).Some?
  {
    NextEntryIsPresent(hash, d, it);
  }

  /** Starting a rehash, or creating the first table, disturbs no started iterator. */
  lemma ExpandUndisturbed<V>(hash: Key -> Word, d: DictState<V>, it: IterState, canResize: bool)
    requires DictOk(hash, d) && IterOk(hash, d, it) && 2 * d.ht0.used <= Pow2(MAX_BITS)
    ensures Undisturbed(hash, d, ExpandIfNeeded(hash, d, canResize), it, None)
  {
    var d' := ExpandIfNeeded(hash, d, canResize);
    if d.ht0.buckets == [] {
      TotalZero(d.ht0.buckets);
      forall k ensures !Pending(hash, d, it, k) && !Pending(hash, d', it, k) {
        assert Get(hash, d', k) == Get(hash, d, k) == None;
      }
    } else if d' != d {
      forall k ensures TableGet(hash, d'.ht1, k) == TableGet(hash, d.ht1, k) {
        NothingInUnused(hash, d'.ht1, k);
      }
    }
  }

  lemma NothingInUnused<V>(hash: Key -> Word, t: Table<V>, k: Key)
    requires TableOk(hash, t) && t.used == 0
    ensures TableGet(hash, t, k).None?
  {
    TotalZero(t.buckets);
  }

  lemma AddUndisturbed<V>(hash: Key -> Word, d: DictState<V>, it: IterState, k: Key, v: V, canResize: bool)
    requires DictOk(hash, d) && IterOk(hash, d, it) && d.iterators > 0 && 2 * Size(d) <= Pow2(MAX_BITS)
    ensures Undisturbed(hash, d, Add(hash, d, k, v, canResize).0, it, if Get(hash, d, k).None? then Some(k) else None)
  {
    ExpandUndisturbed(hash, d, it, canResize);
    var d2 := ExpandIfNeeded(hash, d, canResize);
    if Get(hash, d, k).None? {
      LinkUndisturbed(hash, d2, it, Entry(k, v));
    }
  }

  lemma OverwriteUndisturbed<V>(hash: Key -> Word, d: DictState<V>, it: IterState, k0: Key, v: V)
    requires DictOk(hash, d) && IterOk(hash, d, it) && Get(hash, d, k0).Some?
    ensures Undisturbed(hash, d, Overwrite(hash, d, k0, v), it, None)
  {
    var first := TableGet(hash, d.ht0, k0).Some?;
    var t := if first then d.ht0 else d.ht1;
    StoreOk(hash, t, k0, v);
    forall k ensures AheadIn(hash, Store(hash, t, k0, v), it, k) <==> AheadIn(hash, t, it, k) {
      StoreKeepsAhead(hash, t, k0, v, it, k);
    }
    if it.entry.Some? && it.nextEntry.Some? {
      NextEntryIsPresent(hash, d, it);
      NextStillThere(hash, d, Overwrite(hash, d, k0, v), it);
    }
  }

  lemma ReplaceUndisturbed<V>(hash: Key -> Word, d: DictState<V>, it: IterState, k: Key, v: V, canResize: bool)
    requires DictOk(hash, d) && IterOk(hash, d, it) && d.iterators > 0 && 2 * Size(d) <= Pow2(MAX_BITS)
    ensures Undisturbed(hash, d, Replace(hash, d, k, v, canResize).0, it,
                        if Get(hash, d, k).None? then Some(k) else None)
  {
    AddUndisturbed(hash, d, it, k, v, canResize);
    var (d1, added) := Add(hash, d, k, v, canResize);
    if !added {
      OverwriteUndisturbed(hash, Find(hash, d1, k).0, it, k, v);
    }
  }

  /** Deleting any entry but the saved next one is safe; the entry just returned is one. */
  lemma DeleteUndisturbed<V>(hash: Key -> Word, d: DictState<V>, it: IterState, k0: Key)
    requires DictOk(hash, d) && IterOk(hash, d, it) && d.iterators > 0
    requires !SavedNext(it, k0)
    ensures Undisturbed(hash, d, Delete(hash, d, k0).0, it, Some(k0))
  {
    if Get(hash, d, k0).Some? && d.ht0.buckets != [] {
      var first := TableGet(hash, d.ht0, k0).Some?;
      var t := if first then d.ht0 else d.ht1;
      DropOk(hash, t, k0);
      if it.entry.Some? && it.nextEntry.Some? {
        NextEntryIsPresent(hash, d, it);
        NextStillThere(hash, d, Cut(hash, d, k0), it);
      }
      if first == (it.table == 0) {
        forall k | k != k0 ensures AheadIn(hash, Drop(hash, t, k0), it, k) <==> AheadIn(hash, t, it, k) {
          DropKeepsAhead(hash, t, k0, it, k);
        }
      }
    }
  }

  /** Deleting the saved next entry is not: what dictNext is to follow is gone. */
  lemma DeleteDisturbs<V>(hash: Key -> Word, d: DictState<V>, it: IterState, k0: Key)
    requires DictOk(hash, d) && IterOk(hash, d, it) && d.iterators > 0
    requires SavedNext(it, k0)
    ensures !IterOk(hash, Delete(hash, d, k0).0, it)
  {
    NextEntryIsPresent(hash, d, it);
    var t, t' := Current(d, it), Current(Delete(hash, d, k0).0, it);
    assert t'.sizemask == t.sizemask && TableGet(hash, t', k0).None?;
    assert Index(hash, t', k0) == it.index;
  }

  /** The exact condition for a deletion, which the caller can see from the iterator. */
  lemma DeleteUndisturbedIff<V>(hash: Key -> Word, d: DictState<V>, it: IterState, k0: Key)
    requires DictOk(hash, d) && IterOk(hash, d, it) && d.iterators > 0
    ensures Undisturbed(hash, d, Delete(hash, d, k0).0, it, Some(k0)) <==> !SavedNext(it, k0)
  {
    if SavedNext(it, k0) {
      DeleteDisturbs(hash, d, it, k0);
    } else {
      DeleteUndisturbed(hash, d, it, k0);
    }
  }

  /** dictNext has saved the entry with this key as the one to go on with. */
  predicate SavedNext(it: IterState, k: Key) { it.entry.Some? && it.nextEntry == Some(k) }

  // ----- runs

  datatype Event<V> =
    | Returned(e: Entry<V>)
    | Ended
    | Added(k: Key, v: V, canResize: bool)
    | Replaced(k: Key, v: V, canResize: bool)
    | Found(k: Key)
    | Deleted(k: Key)

  /** One step of a program that uses a safe iterator and does not delete the entry that dictNext has
      saved to go on with. */
  ghost predicate Step<V>(hash: Key -> Word, d: DictState<V>, it: IterState, ev: Event<V>, d': DictState<V>,
          it': IterState)
    requires DictOk(hash, d)
  {
    var registered := d.(iterators := d.iterators + if it.index == -1 then 1 else 0);
    match ev
    case Returned(e) => d' == registered && NextOutcome(hash, d', it, it', Some(e))
    case Ended => d' == registered && NextOutcome<V>(hash, d', it, it', None)
    case Added(k, v, cr) => it' == it && 2 * Size(d) <= Pow2(MAX_BITS) && d' == Add(hash, d, k, v, cr).0
    case Replaced(k, v, cr) => it' == it && 2 * Size(d) <= Pow2(MAX_BITS) && d' == Replace(hash, d, k, v, cr).0
    case Found(k) => it' == it && d' == Find(hash, d, k).0
    case Deleted(k) => it' == it && !SavedNext(it, k) && d' == Delete(hash, d, k).0
  }

  /** A started iteration over a dictionary in which key k is present all the time. */
  ghost predicate IsIteration<V>(hash: Key -> Word, ds: seq<DictState<V>>, its: seq<IterState>, evs: seq<Event<V>>,
          k: Key) {
    && |evs| > 0 && |ds| == |its| == |evs| + 1
    && its[0] == FRESH && (evs[0].Returned? || evs[0].Ended?)
    && (forall i :: 0 <= i <= |evs| ==> DictOk(hash, ds[i]) && Get(hash, ds[i], k).Some?)
    && forall i :: 0 <= i < |evs| ==> Step(hash, ds[i], its[i], evs[i], ds[i + 1], its[i + 1])
  }

  /** How often key k was returned. */
  function Returns<V>(evs: seq<Event<V>>, k: Key): nat {
    if evs == [] then 0
    else
      var last := evs[|evs| - 1];
      Returns(evs[..|evs| - 1], k) + if last.Returned? && last.e.key == k then 1 else 0
  }

  /** A call of the program between two calls of dictNext, of a key that is there before and after. */
  lemma CallKeepsPending<V>(hash: Key -> Word, d: DictState<V>, it: IterState, ev: Event<V>, d': DictState<V>,
          it': IterState, k: Key)
    requires DictOk(hash, d) && IterOk(hash, d, it) && d.iterators > 0 && Step(hash, d, it, ev, d', it')
    requires Get(hash, d, k).Some? && Get(hash, d', k).Some? && !ev.Returned? && !ev.Ended?
    ensures IterOk(hash, d', it') && d'.iterators > 0
    ensures Pending(hash, d', it', k) <==> Pending(hash, d, it, k)
  {
    match ev
    case Added(x, v, cr) => AddUndisturbed(hash, d, it, x, v, cr);
    case Replaced(x, v, cr) => ReplaceUndisturbed(hash, d, it, x, v, cr);
    case Found(x) =>
    case Deleted(x) => DeleteUndisturbed(hash, d, it, x);
  }

  lemma StepKeepsPending<V>(hash: Key -> Word, d: DictState<V>, it: IterState, ev: Event<V>, d': DictState<V>,
          it': IterState, k: Key)
    requires DictOk(hash, d) && IterOk(hash, d, it) && d.iterators > 0 && Step(hash, d, it, ev, d', it')
    requires Get(hash, d, k).Some? && Get(hash, d', k).Some?
    ensures IterOk(hash, d', it') && d'.iterators > 0
    ensures Pending(hash, d', it', k) <==> Pending(hash, d, it, k) && !(ev.Returned? && ev.e.key == k)
    ensures ev.Ended? ==> !Pending(hash, d', it', k)
    ensures ev.Returned? && ev.e.key == k ==> Pending(hash, d, it, k)
  {
    if ev.Returned? || ev.Ended? {
      assert Pending(hash, d', it, k) == Pending(hash, d, it, k);
    } else {
      CallKeepsPending(hash, d, it, ev, d', it', k);
    }
  }

  lemma ReturnsMore<V>(evs: seq<Event<V>>, k: Key, n: nat)
    requires 1 <= n <= |evs|
    ensures Returns(evs[..n], k)
      == Returns(evs[..n - 1], k) + if evs[n - 1].Returned? && evs[n - 1].e.key == k then 1 else 0
  {
    assert evs[..n][..n - 1] == evs[..n - 1];
  }

  /** The first event of an iteration. */
  lemma FirstReturn<V>(hash: Key -> Word, d: DictState<V>, ev: Event<V>, d': DictState<V>, it: IterState, k: Key)
    requires DictOk(hash, d) && (ev.Returned? || ev.Ended?) && Step(hash, d, FRESH, ev, d', it)
    requires Get(hash, d, k).Some?
    ensures IterOk(hash, d', it) && d'.iterators > 0
    ensures Pending(hash, d', it, k) <==> !(ev.Returned? && ev.e.key == k)
    ensures ev.Returned?
  {
    assert Get(hash, d', k) == Get(hash, d, k);
    assert Pending(hash, d', FRESH, k);
  }

  lemma {:induction false} PendingMeansUnreturned<V>(hash: Key -> Word, ds: seq<DictState<V>>, its: seq<IterState>,
          evs: seq<Event<V>>, k: Key, n: nat)
    requires IsIteration(hash, ds, its, evs, k) && 1 <= n <= |evs|
    ensures IterOk(hash, ds[n], its[n]) && ds[n].iterators > 0
    ensures Returns(evs[..n], k) == if Pending(hash, ds[n], its[n], k) then 0 else 1
    ensures evs[n - 1].Ended? ==> !Pending(hash, ds[n], its[n], k)
  {
    ReturnsMore(evs, k, n);
    if n == 1 {
      FirstReturn(hash, ds[0], evs[0], ds[1], its[1], k);
    } else {
      PendingMeansUnreturned(hash, ds, its, evs, k, n - 1);
      StepKeepsPending(hash, ds[n - 1], its[n - 1], evs[n - 1], ds[n], its[n], k);
    }
  }

  /** The promise of safe iterators: an iteration that has come to its end has returned
      every key present throughout exactly once, whatever was added, replaced, looked up or, but
      for the saved next entries, deleted meanwhile. */
  lemma SafeIteratorReturnsEachKeyOnce<V>(hash: Key -> Word, ds: seq<DictState<V>>, its: seq<IterState>,
          evs: seq<Event<V>>, k: Key)
    requires IsIteration(hash, ds, its, evs, k) && evs[|evs| - 1].Ended?
    ensures Returns(evs, k) == 1
  {
    PendingMeansUnreturned(hash, ds, its, evs, k, |evs|);
    assert evs[..|evs|] == evs;
  }

  // ----- a deletion that breaks an iteration

  /** A table of four buckets with two entries in one of them, a in front of b. */
  ghost function Together<V>(hash: Key -> Word, a: Entry<V>, b: Entry<V>): (t: Table<V>)
    requires hash(a.key) == hash(b.key) && a.key != b.key
    ensures TableOk(hash, t) && t.used == 2 && Index(hash, t, a.key) == Index(hash, t, b.key) < |t.buckets|
    ensures t.buckets[Index(hash, t, a.key)] == [a, b]
    ensures forall k :: TableGet(hash, t, k).Some? <==> k == a.key || k == b.key
  {
    EmptyOk<V>(hash, 2);
    PushOk(hash, Empty<V>(Pow2(2)), b);
    var t := Push(hash, Empty<V>(Pow2(2)), b);
    PushOk(hash, t, a);
    Push(hash, t, a)
  }

  ghost function TogetherDict<V>(hash: Key -> Word, a: Entry<V>, b: Entry<V>, iterators: nat): DictState<V>
    requires hash(a.key) == hash(b.key) && a.key != b.key
  {
    DictState(Together(hash, a, b), Reset(), -1, iterators)
  }

  /** Any two keys with the same hash: the iterator has returned the first, the caller deletes the
      second, and the iterator is left with an entry that is not in the dictionary. */
  lemma DeletingNextBreaks<V>(hash: Key -> Word, a: Entry<V>, b: Entry<V>)
    requires hash(a.key) == hash(b.key) && a.key != b.key
    ensures var d := TogetherDict(hash, a, b, 1);
            var it := IterState(0, Index(hash, d.ht0, a.key), Some(a.key), Some(b.key));
            && DictOk(hash, TogetherDict(hash, a, b, 0)) && DictOk(hash, d) && Get(hash, d, b.key).Some?
            && Step(hash, TogetherDict(hash, a, b, 0), FRESH, Returned(a), d, it)
            && IterOk(hash, d, it) && SavedNext(it, b.key)
            && !IterOk(hash, Delete(hash, d, b.key).0, it)
  {
    var d := TogetherDict(hash, a, b, 1);
    var i, c := Index(hash, d.ht0, a.key), [a, b];
    var facing := Facing(FRESH, i, c, 0);
    StepPast(hash, d, FRESH, i, 0);
    forall k ensures Pending(hash, d, FRESH, k) <==> Pending(hash, d, facing, k) {
      assert TableGet(hash, d.ht0, k).Some? ==> Index(hash, d.ht0, k) == i;
      assert Position(c, a.key) == 0;
    }
    var it := facing.(nextEntry := KeyAt(c, 1));
    OutcomeAfterSkipping(hash, d, FRESH, facing, it, Some(a));
    DeleteDisturbs(hash, d, it, b.key);
  }
}
