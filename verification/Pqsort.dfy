/** pqsort.c: a quicksort that leaves alone the partitions outside a requested range. */
module Pqsort {

  /** The comparison function, as a callback that is consistent with a total preorder. */
  ghost predicate Consistent<T(!new)>(cmp: (T, T) -> int) {
    && (forall x, y :: Flips(cmp, x, y))
    && (forall x, y, z :: Chains(cmp, x, y, z))
  }

  ghost predicate Flips<T>(cmp: (T, T) -> int, x: T, y: T) {
    cmp(x, y) < 0 <==> cmp(y, x) > 0
  }

  ghost predicate Chains<T>(cmp: (T, T) -> int, x: T, y: T, z: T) {
    cmp(x, y) <= 0 && cmp(y, z) <= 0 ==> cmp(x, z) <= 0
  }

  /** The position i of a[lo..hi) holds what sorting would put there, up to equal elements:
      nothing before it is greater and nothing after it is smaller. */
  ghost predicate Settled<T>(cmp: (T, T) -> int, s: seq<T>, lo: int, hi: int, i: int)
    requires 0 <= lo <= i < hi <= |s|
  {
    && (forall j :: lo <= j < i ==> cmp(s[j], s[i]) <= 0)
    && (forall j :: i < j < hi ==> cmp(s[i], s[j]) <= 0)
  }

  /** All positions of a[lo..hi) that lie in the requested range are settled. */
  ghost predicate Done<T>(cmp: (T, T) -> int, s: seq<T>, lo: int, hi: int, l: int, r: int)
    requires 0 <= lo <= hi <= |s|
  {
    DoneBelow(cmp, s, lo, hi, hi, l, r)
  }

  /** The same for the positions of [lo..m) only. */
  ghost predicate DoneBelow<T>(cmp: (T, T) -> int, s: seq<T>, lo: int, m: int, hi: int, l: int, r: int)
    requires 0 <= lo <= m <= hi <= |s|
  {
    forall i :: lo <= i < m && l <= i <= r ==> Settled(cmp, s, lo, hi, i)
  }

  /** t is s with the elements of [lo..hi) rearranged among themselves. */
  ghost predicate Rearranged<T>(s: seq<T>, t: seq<T>, lo: int, hi: int)
    requires 0 <= lo <= hi <= |s|
  {
    && |t| == |s|
    && (forall i :: 0 <= i < |s| && !(lo <= i < hi) ==> t[i] == s[i])
    && multiset(t[lo..hi]) == multiset(s[lo..hi])
  }

  lemma RearrangedTransitive<T>(s: seq<T>, t: seq<T>, u: seq<T>, lo: int, hi: int)
    requires 0 <= lo <= hi <= |s| && Rearranged(s, t, lo, hi) && Rearranged(t, u, lo, hi)
    ensures Rearranged(s, u, lo, hi)
  {
  }

  /** Rearranging a part rearranges the whole. */
  lemma RearrangedPart<T>(s: seq<T>, t: seq<T>, lo: int, hi: int, lo': int, hi': int)
    requires 0 <= lo <= lo' <= hi' <= hi <= |s| && Rearranged(s, t, lo', hi')
    ensures Rearranged(s, t, lo, hi)
  {
    assert s[lo..hi] == s[lo..lo'] + s[lo'..hi'] + s[hi'..hi];
    assert t[lo..hi] == t[lo..lo'] + t[lo'..hi'] + t[hi'..hi];
    assert s[lo..lo'] == t[lo..lo'] && s[hi'..hi] == t[hi'..hi];
  }

  lemma SwapRearranges<T>(s: seq<T>, i: int, j: int, lo: int, hi: int)
    requires 0 <= lo <= i < hi <= |s| && lo <= j < hi
    ensures Rearranged(s, s[i := s[j]][j := s[i]], lo, hi)
  {
    var t := s[i := s[j]][j := s[i]];
    assert t[lo..hi] == s[lo..hi][i - lo := s[j]][j - lo := s[i]];
    assert s[lo..hi][i - lo] == s[i] && s[lo..hi][j - lo] == s[j];
  }

  /** A property of all elements of a range survives any rearrangement of it. */
  lemma RearrangedKeeps<T(!new)>(s: seq<T>, t: seq<T>, lo: int, hi: int, p: T -> bool)
    requires 0 <= lo <= hi <= |s| && Rearranged(s, t, lo, hi)
    requires forall i :: lo <= i < hi ==> p(s[i])
    ensures forall i :: lo <= i < hi ==> p(t[i])
  {
    forall i | lo <= i < hi ensures p(t[i]) {
      assert t[i] in multiset(t[lo..hi]) by { assert t[lo..hi][i - lo] == t[i]; }
      assert t[i] in s[lo..hi];
    }
  }

  /** Exchanging two elements of a[lo..hi). */
  method Swap<T>(a: array<T>, i: nat, j: nat, lo: nat, hi: nat, ghost s0: seq<T>)
    requires lo <= i < hi <= a.Length && lo <= j < hi
    requires |s0| == a.Length && Rearranged(s0, a[..], lo, hi)
    modifies a
    ensures a[..] == old(a[..])[i := old(a[j])][j := old(a[i])]
    ensures Rearranged(s0, a[..], lo, hi)
  {
    SwapRearranges(a[..], i, j, lo, hi);
    ghost var s := a[..];
    a[i], a[j] := a[j], a[i];
    assert a[..] == s[i := s[j]][j := s[i]];
    RearrangedTransitive(s0, s, a[..], lo, hi);
  }

  /** Element m of a is no smaller than one of the other two and no greater than the other. */
  ghost predicate Between<T>(cmp: (T, T) -> int, x: T, m: T, y: T) {
    (cmp(x, m) <= 0 && cmp(m, y) <= 0) || (cmp(y, m) <= 0 && cmp(m, x) <= 0)
  }

  /** The position of the median of three elements. */
  method Med3<T(!new)>(a: array<T>, i: nat, j: nat, k: nat, cmp: (T, T) -> int) returns (m: nat)
    requires i < a.Length && j < a.Length && k < a.Length && Consistent(cmp)
    ensures || (m == i && Between(cmp, a[j], a[i], a[k]))
            || (m == j && Between(cmp, a[i], a[j], a[k]))
            || (m == k && Between(cmp, a[i], a[k], a[j]))
  {
    assert Flips(cmp, a[i], a[j]) && Flips(cmp, a[j], a[i]) && Flips(cmp, a[i], a[k]) && Flips(cmp, a[k], a[i]);
    assert Flips(cmp, a[j], a[k]) && Flips(cmp, a[k], a[j]);
    m := if cmp(a[i], a[j]) < 0
         then (if cmp(a[j], a[k]) < 0 then j else if cmp(a[i], a[k]) < 0 then k else i)
         else (if cmp(a[j], a[k]) > 0 then j else if cmp(a[i], a[k]) < 0 then i else k);
  }

  // ----- short ranges: insertion sort

  ghost predicate Sorted<T>(cmp: (T, T) -> int, s: seq<T>, lo: int, hi: int)
    requires 0 <= lo <= hi <= |s|
  {
    forall i, j :: lo <= i < j < hi ==> cmp(s[i], s[j]) <= 0
  }

  /** Sorted but for the element at p, which may still have to move down. */
  ghost predicate SortedBut<T>(cmp: (T, T) -> int, s: seq<T>, lo: int, hi: int, p: int)
    requires 0 <= lo <= p < hi <= |s|
  {
    && (forall i, j :: lo <= i < j < hi && i != p && j != p ==> cmp(s[i], s[j]) <= 0)
    && (forall j :: p < j < hi ==> cmp(s[p], s[j]) <= 0)
  }

  lemma SinkOne<T>(cmp: (T, T) -> int, s: seq<T>, lo: int, hi: int, p: int)
    requires 0 <= lo < p < hi <= |s| && SortedBut(cmp, s, lo, hi, p) && cmp(s[p], s[p - 1]) <= 0
    ensures SortedBut(cmp, s[p := s[p - 1]][p - 1 := s[p]], lo, hi, p - 1)
  {
  }

  method InsertionSort<T(!new)>(a: array<T>, lo: nat, hi: nat, cmp: (T, T) -> int)
    requires lo <= hi <= a.Length && Consistent(cmp)
    modifies a
    ensures Rearranged(old(a[..]), a[..], lo, hi) && Sorted(cmp, a[..], lo, hi)
  {
    if lo == hi { return; }
    var pm := lo + 1;
    while pm < hi
      invariant lo < pm <= hi
      invariant Rearranged(old(a[..]), a[..], lo, hi) && Sorted(cmp, a[..], lo, pm)
    {
      Insert(a, lo, hi, pm, cmp);
      pm := pm + 1;
    }
  }

  method Insert<T(!new)>(a: array<T>, lo: nat, hi: nat, pm: nat, cmp: (T, T) -> int)
    requires lo < pm < hi <= a.Length && Consistent(cmp) && Sorted(cmp, a[..], lo, pm)
    modifies a
    ensures Rearranged(old(a[..]), a[..], lo, hi) && Sorted(cmp, a[..], lo, pm + 1)
  {
    var pl := pm;
    while pl > lo && cmp(a[pl - 1], a[pl]) > 0
      invariant lo <= pl <= pm
      invariant Rearranged(old(a[..]), a[..], lo, hi) && SortedBut(cmp, a[..], lo, pm + 1, pl)
    {
      ghost var s := a[..];
      assert Flips(cmp, s[pl], s[pl - 1]) && Flips(cmp, s[pl - 1], s[pl]);
      SinkOne(cmp, s, lo, pm + 1, pl);
      Swap(a, pl, pl - 1, lo, hi, old(a[..]));
      assert a[..] == s[pl := s[pl - 1]][pl - 1 := s[pl]];
      pl := pl - 1;
    }
    SunkIsSorted(cmp, a[..], lo, pm + 1, pl);
  }

  lemma SunkIsSorted<T(!new)>(cmp: (T, T) -> int, s: seq<T>, lo: int, hi: int, p: int)
    requires Consistent(cmp) && 0 <= lo <= p < hi <= |s| && SortedBut(cmp, s, lo, hi, p)
    requires p > lo ==> cmp(s[p - 1], s[p]) <= 0
    ensures Sorted(cmp, s, lo, hi)
  {
    forall i | lo <= i < p ensures cmp(s[i], s[p]) <= 0 {
      if i < p - 1 { assert Chains(cmp, s[i], s[p - 1], s[p]); }
    }
  }

  // ----- partitioning

  /** Five stretches around the pivot: equal, smaller, unseen, greater, equal. */
  ghost predicate Folded<T>(cmp: (T, T) -> int, s: seq<T>, p: T, lo: int, hi: int, pa: int, pb: int, pc: int, pd: int) {
    && 0 <= lo < pa <= pb <= pc + 1 <= pd + 1 <= hi <= |s|
    && (forall i :: lo <= i < pa ==> cmp(s[i], p) == 0)
    && (forall i :: pa <= i < pb ==> cmp(s[i], p) < 0)
    && (forall i :: pc < i <= pd ==> cmp(s[i], p) > 0)
    && (forall i :: pd < i < hi ==> cmp(s[i], p) == 0)
  }

  /** Three stretches: smaller, equal, greater. */
  ghost predicate Partitioned<T>(cmp: (T, T) -> int, s: seq<T>, p: T, lo: int, m1: int, m2: int, hi: int) {
    && 0 <= lo <= m1 <= m2 <= hi <= |s|
    && (forall i :: lo <= i < m1 ==> cmp(s[i], p) < 0)
    && (forall i :: m1 <= i < m2 ==> cmp(s[i], p) == 0)
    && (forall i :: m2 <= i < hi ==> cmp(s[i], p) > 0)
  }

  /** The upward scan: smaller elements stay, equal ones go to the left end. */
  method FoldUp<T(!new)>(a: array<T>, lo: nat, hi: nat, pa0: nat, pb0: nat, pc: nat, pd: nat, cmp: (T, T) -> int,
                         ghost s0: seq<T>) returns (pa: nat, pb: nat)
    requires lo < hi <= a.Length && Folded(cmp, a[..], a[lo], lo, hi, pa0, pb0, pc, pd)
    requires |s0| == a.Length && Rearranged(s0, a[..], lo, hi)
    modifies a
    ensures a[lo] == old(a[lo]) && Folded(cmp, a[..], a[lo], lo, hi, pa, pb, pc, pd)
    ensures Rearranged(s0, a[..], lo, hi) && pb >= pb0 && (pb <= pc ==> cmp(a[pb], a[lo]) > 0)
  {
    pa, pb := pa0, pb0;
    while pb <= pc && cmp(a[pb], a[lo]) <= 0
      invariant a[lo] == old(a[lo]) && Folded(cmp, a[..], a[lo], lo, hi, pa, pb, pc, pd)
      invariant Rearranged(s0, a[..], lo, hi) && pb >= pb0
    {
      if cmp(a[pb], a[lo]) == 0 {
        Swap(a, pa, pb, lo, hi, s0);
        pa := pa + 1;
      }
      pb := pb + 1;
    }
  }

  /** The downward scan: greater elements stay, equal ones go to the right end. */
  method FoldDown<T(!new)>(a: array<T>, lo: nat, hi: nat, pa: nat, pb: nat, pc0: nat, pd0: nat, cmp: (T, T) -> int,
                           ghost s0: seq<T>) returns (pc: nat, pd: nat)
    requires lo < hi <= a.Length && Folded(cmp, a[..], a[lo], lo, hi, pa, pb, pc0, pd0)
    requires |s0| == a.Length && Rearranged(s0, a[..], lo, hi)
    requires pb <= pc0 ==> cmp(a[pb], a[lo]) > 0
    modifies a
    ensures a[lo] == old(a[lo]) && Folded(cmp, a[..], a[lo], lo, hi, pa, pb, pc, pd)
    ensures Rearranged(s0, a[..], lo, hi) && pc <= pc0
    ensures pb <= pc ==> cmp(a[pb], a[lo]) > 0 && cmp(a[pc], a[lo]) < 0
  {
    pc, pd := pc0, pd0;
    while pb <= pc && cmp(a[pc], a[lo]) >= 0
      invariant a[lo] == old(a[lo]) && Folded(cmp, a[..], a[lo], lo, hi, pa, pb, pc, pd)
      invariant Rearranged(s0, a[..], lo, hi) && pc <= pc0
      invariant pb <= pc ==> cmp(a[pb], a[lo]) > 0
      decreases pc
    {
      if cmp(a[pc], a[lo]) == 0 {
        Swap(a, pc, pd, lo, hi, s0);
        pd := pd - 1;
      }
      pc := pc - 1;
    }
  }

  /** Comparing every element with the pivot at a[lo]. */
  method Fold<T(!new)>(a: array<T>, lo: nat, hi: nat, cmp: (T, T) -> int, ghost s0: seq<T>)
    returns (pa: nat, pb: nat, pc: nat, pd: nat)
    requires lo + 1 < hi <= a.Length && Consistent(cmp)
    requires |s0| == a.Length && Rearranged(s0, a[..], lo, hi)
    modifies a
    ensures Rearranged(s0, a[..], lo, hi) && pb == pc + 1
    ensures Folded(cmp, a[..], old(a[lo]), lo, hi, pa, pb, pc, pd)
  {
    pa, pb, pc, pd := lo + 1, lo + 1, hi - 1, hi - 1;
    assert Flips(cmp, a[lo], a[lo]);
    while true
      invariant a[lo] == old(a[lo]) && Folded(cmp, a[..], a[lo], lo, hi, pa, pb, pc, pd)
      invariant Rearranged(s0, a[..], lo, hi)
      decreases pc - pb + 1
    {
      pa, pb := FoldUp(a, lo, hi, pa, pb, pc, pd, cmp, s0);
      pc, pd := FoldDown(a, lo, hi, pa, pb, pc, pd, cmp, s0);
      if pb > pc { break; }
      Swap(a, pb, pc, lo, hi, s0);
      pb := pb + 1;
      pc := pc - 1;
    }
  }

  /** vecswap: exchanging two disjoint stretches of r elements. */
  method VecSwap<T>(a: array<T>, i: nat, j: nat, r: nat, lo: nat, hi: nat, ghost s0: seq<T>)
    requires lo <= i && i + r <= j && j + r <= hi <= a.Length
    requires |s0| == a.Length && Rearranged(s0, a[..], lo, hi)
    modifies a
    ensures Rearranged(s0, a[..], lo, hi)
    ensures forall k :: 0 <= k < a.Length ==>
      a[k] == if i <= k < i + r then old(a[k + (j - i)]) else if j <= k < j + r then old(a[k - (j - i)]) else old(a[k])
  {
    for n := 0 to r
      invariant Rearranged(s0, a[..], lo, hi)
      invariant forall k :: 0 <= k < a.Length ==>
        a[k] == if i <= k < i + n then old(a[k + (j - i)])
                else if j <= k < j + n then old(a[k - (j - i)]) else old(a[k])
    {
      Swap(a, i + n, j + n, lo, hi, s0);
    }
  }

  /** Bringing the equal elements from both ends into the middle. */
  method Unfold<T(!new)>(a: array<T>, lo: nat, hi: nat, pa: nat, pb: nat, pc: nat, pd: nat, cmp: (T, T) -> int,
                         ghost p: T, ghost s0: seq<T>) returns (m1: nat, m2: nat)
    requires Folded(cmp, a[..], p, lo, hi, pa, pb, pc, pd) && pb == pc + 1
    requires |s0| == a.Length && Rearranged(s0, a[..], lo, hi)
    modifies a
    ensures Rearranged(s0, a[..], lo, hi) && Partitioned(cmp, a[..], p, lo, m1, m2, hi)
    ensures m1 == lo + (pb - pa) && m2 == hi - (pd - pc)
  {
    var r := if pa - lo < pb - pa then pa - lo else pb - pa;
    VecSwap(a, lo, pb - r, r, lo, hi, s0);
    r := if pd - pc < hi - pd - 1 then pd - pc else hi - pd - 1;
    VecSwap(a, pb, hi - r, r, lo, hi, s0);
    m1, m2 := lo + (pb - pa), hi - (pd - pc);
  }

  /** The pivot's position: the middle, the median of three, or of three medians of three. */
  method Pivot<T(!new)>(a: array<T>, lo: nat, hi: nat, cmp: (T, T) -> int) returns (pm: nat)
    requires lo + 7 <= hi <= a.Length && Consistent(cmp)
    ensures lo <= pm < hi
    ensures hi - lo == 7 ==> pm == lo + 3
    ensures 7 < hi - lo <= 40 ==> exists i, j, k ::
      {i, j, k} == {lo, lo + (hi - lo) / 2, hi - 1} && pm == j && Between(cmp, a[i], a[j], a[k])
  {
    var n := hi - lo;
    pm := lo + n / 2;
    if n > 7 {
      var pl, pn := lo, hi - 1;
      if n > 40 {
        var d := n / 8;
        pl := Med3(a, pl, pl + d, pl + 2 * d, cmp);
        pm := Med3(a, pm - d, pm, pm + d, cmp);
        pn := Med3(a, pn - 2 * d, pn - d, pn, cmp);
      }
      pm := Med3(a, pl, pm, pn, cmp);
    }
  }

  method Partition<T(!new)>(a: array<T>, lo: nat, hi: nat, cmp: (T, T) -> int) returns (m1: nat, m2: nat, ghost p: T)
    requires lo + 7 <= hi <= a.Length && Consistent(cmp)
    modifies a
    ensures Rearranged(old(a[..]), a[..], lo, hi) && m1 < m2 && Partitioned(cmp, a[..], p, lo, m1, m2, hi)
  {
    ghost var s0 := a[..];
    var pm := Pivot(a, lo, hi, cmp);
    Swap(a, lo, pm, lo, hi, s0);
    p := a[lo];
    var pa, pb, pc, pd := Fold(a, lo, hi, cmp, s0);
    m1, m2 := Unfold(a, lo, hi, pa, pb, pc, pd, cmp, p, s0);
  }

  // ----- what a partition settles

  /** Everything in [lo..m) comes before everything in [m..hi). */
  ghost predicate Ahead<T>(cmp: (T, T) -> int, s: seq<T>, lo: int, m: int, hi: int)
    requires 0 <= lo <= m <= hi <= |s|
  {
    forall i, j :: lo <= i < m <= j < hi ==> cmp(s[i], s[j]) <= 0
  }

  lemma PartitionedIsAhead<T(!new)>(cmp: (T, T) -> int, s: seq<T>, p: T, lo: int, m1: int, m2: int, hi: int)
    requires Consistent(cmp) && Partitioned(cmp, s, p, lo, m1, m2, hi)
    ensures Ahead(cmp, s, lo, m1, hi) && Ahead(cmp, s, lo, m2, hi)
    ensures forall i :: m1 <= i < m2 ==> Settled(cmp, s, lo, hi, i)
  {
    forall i, j | lo <= i < m2 && m1 <= j < hi ensures cmp(s[i], s[j]) <= 0 {
      assert cmp(s[i], p) <= 0;
      assert Flips(cmp, p, s[j]) && Flips(cmp, s[j], p);
      assert Chains(cmp, s[i], p, s[j]);
    }
  }

  /** Sorting below the pivot keeps the partition. */
  lemma PartitionedKeeps<T(!new)>(cmp: (T, T) -> int, s: seq<T>, t: seq<T>, p: T, lo: int, m1: int, m2: int, hi: int)
    requires Partitioned(cmp, s, p, lo, m1, m2, hi) && Rearranged(s, t, lo, m1)
    ensures Partitioned(cmp, t, p, lo, m1, m2, hi)
  {
    RearrangedKeeps(s, t, lo, m1, x => cmp(x, p) < 0);
  }

  /** Rearranging what comes later disturbs neither what is ahead of it nor what is settled there. */
  lemma LaterKeeps<T(!new)>(cmp: (T, T) -> int, s: seq<T>, t: seq<T>, lo: int, m: int, hi: int, l: int, r: int)
    requires 0 <= lo <= m <= hi <= |s| && Ahead(cmp, s, lo, m, hi) && Rearranged(s, t, m, hi)
    requires DoneBelow(cmp, s, lo, m, hi, l, r)
    ensures Ahead(cmp, t, lo, m, hi) && DoneBelow(cmp, t, lo, m, hi, l, r)
  {
    forall i, j | lo <= i < m <= j < hi ensures cmp(t[i], t[j]) <= 0 {
      RearrangedKeeps(s, t, m, hi, x => cmp(s[i], x) <= 0);
    }
    forall i | lo <= i < m && l <= i <= r ensures Settled(cmp, t, lo, hi, i) {
      assert Settled(cmp, s, lo, hi, i);
    }
  }

  /** What is settled in the later part, once everything ahead of it is smaller, is settled in the whole. */
  lemma DoneJoins<T>(cmp: (T, T) -> int, s: seq<T>, lo: int, m: int, m': int, hi: int, l: int, r: int)
    requires 0 <= lo <= m <= m' <= hi <= |s| && Ahead(cmp, s, lo, m, hi)
    requires DoneBelow(cmp, s, lo, m, hi, l, r) && DoneBelow(cmp, s, m, m', hi, l, r)
    ensures DoneBelow(cmp, s, lo, m', hi, l, r)
  {
    forall i | lo <= i < m' && l <= i <= r ensures Settled(cmp, s, lo, hi, i) {
      if m <= i { assert Settled(cmp, s, m, hi, i); }
    }
  }

  lemma AheadJoins<T(!new)>(cmp: (T, T) -> int, s: seq<T>, lo: int, m: int, m': int, hi: int)
    requires 0 <= lo <= m <= m' <= hi <= |s| && Ahead(cmp, s, lo, m, hi) && Ahead(cmp, s, m, m', hi)
    ensures Ahead(cmp, s, lo, m', hi)
  {
  }

  /** Once the smaller part is done (or misses the range), so is all up to the end of the pivots. */
  lemma SmallerDone<T(!new)>(cmp: (T, T) -> int, s: seq<T>, p: T, lo: int, m1: int, m2: int, hi: int, l: int, r: int)
    requires Consistent(cmp) && Partitioned(cmp, s, p, lo, m1, m2, hi) && Done(cmp, s, lo, m1, l, r)
    ensures Ahead(cmp, s, lo, m2, hi) && DoneBelow(cmp, s, lo, m2, hi, l, r)
  {
    PartitionedIsAhead(cmp, s, p, lo, m1, m2, hi);
    forall i | lo <= i < m2 && l <= i <= r ensures Settled(cmp, s, lo, hi, i) {
      if i < m1 { assert Settled(cmp, s, lo, m1, i); }
    }
  }

  /** The stretch [lo..hi) has no position in the requested range. */
  predicate Misses(l: int, r: int, lo: int, hi: int) {
    (l < lo && r < lo) || (l > hi - 1 && r > hi - 1)
  }

  /** A stretch that misses the range, or has no two elements, is done as it stands. */
  lemma NothingToDo<T>(cmp: (T, T) -> int, s: seq<T>, lo: int, hi: int, l: int, r: int)
    requires 0 <= lo <= hi <= |s| && (Misses(l, r, lo, hi) || hi - lo <= 1)
    ensures Done(cmp, s, lo, hi, l, r)
  {
  }

  lemma SortedIsDone<T>(cmp: (T, T) -> int, s: seq<T>, lo: int, hi: int, l: int, r: int)
    requires 0 <= lo <= hi <= |s| && Sorted(cmp, s, lo, hi)
    ensures Done(cmp, s, lo, hi, l, r)
  {
  }

  /** One pass over a[lo..hi): partition, then sort the smaller part if it meets the range. */
  method Pass<T(!new)>(a: array<T>, lo: nat, hi: nat, cmp: (T, T) -> int, l: int, r: int) returns (m: nat)
    requires lo + 7 <= hi <= a.Length && Consistent(cmp)
    modifies a
    ensures lo < m <= hi && Rearranged(old(a[..]), a[..], lo, hi)
    ensures Ahead(cmp, a[..], lo, m, hi) && DoneBelow(cmp, a[..], lo, m, hi, l, r)
    decreases hi - lo, 0
  {
    var m1, m2, p := Partition(a, lo, hi, cmp);
    m := m2;
    ghost var s := a[..];
    if m1 - lo > 1 && !Misses(l, r, lo, m1) {
      QuickSort(a, lo, m1, cmp, l, r);
      PartitionedKeeps(cmp, s, a[..], p, lo, m1, m2, hi);
      RearrangedPart(s, a[..], lo, hi, lo, m1);
    } else {
      NothingToDo(cmp, s, lo, m1, l, r);
    }
    SmallerDone(cmp, a[..], p, lo, m1, m2, hi, l, r);
  }

  /** The work on a[lo..hi) is joined to what was already done on a[lo0..lo). */
  lemma Joined<T(!new)>(cmp: (T, T) -> int, s0: seq<T>, s: seq<T>, t: seq<T>, lo0: int, lo: int, m: int, hi: int,
          l: int, r: int)
    requires 0 <= lo0 <= lo <= m <= hi <= |s0| && Rearranged(s0, s, lo0, hi)
    requires Ahead(cmp, s, lo0, lo, hi) && DoneBelow(cmp, s, lo0, lo, hi, l, r)
    requires Rearranged(s, t, lo, hi) && Ahead(cmp, t, lo, m, hi) && DoneBelow(cmp, t, lo, m, hi, l, r)
    ensures Rearranged(s0, t, lo0, hi) && Ahead(cmp, t, lo0, m, hi) && DoneBelow(cmp, t, lo0, m, hi, l, r)
  {
    RearrangedPart(s, t, lo0, hi, lo, hi);
    LaterKeeps(cmp, s, t, lo0, lo, hi, l, r);
    DoneJoins(cmp, t, lo0, lo, m, hi, l, r);
    AheadJoins(cmp, t, lo0, lo, m, hi);
  }

  /** _pqsort on a[lo0..hi): recursion on the smaller part, a loop on the greater one. */
  method QuickSort<T(!new)>(a: array<T>, lo0: nat, hi: nat, cmp: (T, T) -> int, l: int, r: int)
    requires lo0 <= hi <= a.Length && Consistent(cmp)
    modifies a
    ensures Rearranged(old(a[..]), a[..], lo0, hi) && Done(cmp, a[..], lo0, hi, l, r)
    decreases hi - lo0, 1
  {
    var lo := lo0;
    ghost var s0 := a[..];
    ghost var s := a[..];
    while hi - lo >= 7
      invariant lo0 <= lo <= hi && s == a[..] && Rearranged(s0, s, lo0, hi)
      invariant Ahead(cmp, s, lo0, lo, hi) && DoneBelow(cmp, s, lo0, lo, hi, l, r)
    {
      var m := Pass(a, lo, hi, cmp, l, r);
      Joined(cmp, s0, s, a[..], lo0, lo, m, hi, l, r);
      s := a[..];
      if hi - m <= 1 || Misses(l, r, m, hi) {
        NothingToDo(cmp, s, m, hi, l, r);
        DoneJoins(cmp, s, lo0, m, hi, hi, l, r);
        return;
      }
      lo := m;
    }
    InsertionSort(a, lo, hi, cmp);
    SortedIsDone(cmp, a[..], lo, hi, l, r);
    Joined(cmp, s0, s, a[..], lo0, lo, hi, hi, l, r);
  }

  /** pqsort: every element whose position lies in lrange..rrange is put where sorting would put it. */
  method Sort<T(!new)>(a: array<T>, cmp: (T, T) -> int, lrange: nat, rrange: nat)
    requires Consistent(cmp)
    modifies a
    ensures multiset(a[..]) == multiset(old(a[..]))
    ensures forall i, j ::
      0 <= i < j < a.Length && (lrange <= i <= rrange || lrange <= j <= rrange) ==> cmp(a[i], a[j]) <= 0
  {
    ghost var s := a[..];
    QuickSort(a, 0, a.Length, cmp, lrange, rrange);
    assert s[0..a.Length] == s && a[0..a.Length] == a[..];
    forall i, j | 0 <= i < j < a.Length && (lrange <= i <= rrange || lrange <= j <= rrange)
      ensures cmp(a[i], a[j]) <= 0
    {
      assert Settled(cmp, a[..], 0, a.Length, if lrange <= i <= rrange then i else j);
    }
  }
}
