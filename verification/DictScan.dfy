/** dictScan over a table that is resized and rehashed between the calls. */
module DictScan {
  import opened Options
  import opened Words
  import opened ScanCursor
  import opened DictModel

  // ----- one call

  /** The number of masked bits of a table. */
  ghost function Log<V>(t: Table<V>): (k: nat)
    requires exists bits :: Sized(t, bits)
    ensures Sized(t, k)
  {
    var bits :| Sized(t, bits); bits
  }

  /** The two tables of a rehashing dictionary, the one with fewer buckets first. */
  function Small<V>(d: DictState<V>): Table<V> {
    if |d.ht0.buckets| > |d.ht1.buckets| then d.ht1 else d.ht0
  }

  function Large<V>(d: DictState<V>): Table<V> {
    if |d.ht0.buckets| > |d.ht1.buckets| then d.ht0 else d.ht1
  }

  /** How much a call sees: one table of k masked bits, or a smaller and a larger one. */
  datatype Shape = Shape(k0: nat, k1: nat) {
    predicate Ok() { k0 <= k1 <= WIDTH }
  }

  ghost function ShapeOf<V>(hash: Key -> Word, d: DictState<V>): (s: Shape)
    requires DictOk(hash, d) && d.ht0.buckets != []
    ensures s.Ok()
    ensures d.Rehashing() ==> Sized(Small(d), s.k0) && Sized(Large(d), s.k1)
    ensures !d.Rehashing() ==> Sized(d.ht0, s.k0) && s.k0 == s.k1
  {
    if d.Rehashing() then
      var s := Shape(Log(Small(d)), Log(Large(d)));
      assert s.k0 <= s.k1 by {
        if s.k1 < s.k0 { Pow2Increases(s.k1, s.k0); }
      }
      s
    else Shape(Log(d.ht0), Log(d.ht0))
  }

  lemma {:induction false} Pow2Increases(i: nat, j: nat)
    requires i < j
    ensures Pow2(i) < Pow2(j)
  {
    Pow2Monotone(i, j - 1);
  }

  ghost predicate Holds<V>(hash: Key -> Word, t: Table<V>, e: Entry<V>) {
    Index(hash, t, e.key) < |t.buckets| && e in t.buckets[Index(hash, t, e.key)]
  }

  /** Whether a call with cursor v reports entry e. */
  ghost predicate Emitted<V>(hash: Key -> Word, d: DictState<V>, v: Word, e: Entry<V>)
    requires DictOk(hash, d)
  {
    && Size(d) > 0 && d.ht0.buckets != []
    && var s := ShapeOf(hash, d);
       if d.Rehashing() then
         || (Holds(hash, Small(d), e) && hash(e.key)[..s.k0] == v[..s.k0])
         || (Holds(hash, Large(d), e) && Visited(hash(e.key), v, s.k0, s.k1))
       else Holds(hash, d.ht0, e) && hash(e.key)[..s.k0] == v[..s.k0]
  }

  /** The cursor a call returns. */
  ghost function NextCursor<V>(hash: Key -> Word, d: DictState<V>, v: Word): Word
    requires DictOk(hash, d)
  {
    if Size(d) == 0 then Zeros(WIDTH)
    else Advance(v, if d.Rehashing() then Small(d).sizemask else d.ht0.sizemask)
  }

  lemma EntriesNeedBuckets<V>(hash: Key -> Word, d: DictState<V>)
    requires DictOk(hash, d) && Size(d) > 0
    ensures d.ht0.buckets != []
  {
  }

  lemma PresentIsHeld<V>(hash: Key -> Word, t: Table<V>, k: Key)
    requires TableGet(hash, t, k).Some?
    ensures Holds(hash, t, Entry(k, TableGet(hash, t, k).value))
  {
  }

  lemma HeldIsCounted<V>(hash: Key -> Word, t: Table<V>, e: Entry<V>)
    requires TableOk(hash, t) && Holds(hash, t, e)
    ensures t.used > 0
  {
    TotalAtLeast(t.buckets, Index(hash, t, e.key));
  }

  lemma {:induction false} NatInjective(a: seq<bool>, b: seq<bool>)
    requires |a| == |b| && Nat(a) == Nat(b)
    ensures a == b
  {
    if a != [] {
      NatInjective(a[1..], b[1..]);
      assert a == [a[0]] + a[1..] && b == [b[0]] + b[1..];
    }
  }

  /** The bucket `v & mask` holds exactly the entries whose hash agrees with v under the mask. */
  lemma BucketMembers<V>(hash: Key -> Word, t: Table<V>, k: nat, v: Word, e: Entry<V>)
    requires TableOk(hash, t) && Sized(t, k)
    ensures Nat(And(v, t.sizemask)) < |t.buckets|
    ensures e in t.buckets[Nat(And(v, t.sizemask))] <==> Holds(hash, t, e) && hash(e.key)[..k] == v[..k]
  {
    MaskedBelow(v, k);
    MaskedBelow(hash(e.key), k);
    var i := Nat(And(v, t.sizemask));
    assert BucketOk(hash, t, i);
    if Index(hash, t, e.key) == i {
      NatInjective(hash(e.key)[..k], v[..k]);
    }
  }

  /** What the expansion loop has reported when it is about to look at cursor w. */
  ghost predicate ReportedUpTo<V>(hash: Key -> Word, d: DictState<V>, v: Word, hi: nat, e: Entry<V>)
    requires DictOk(hash, d) && d.Rehashing()
  {
    var s := ShapeOf(hash, d);
    var h := hash(e.key);
    || (Holds(hash, Small(d), e) && h[..s.k0] == v[..s.k0])
    || (Holds(hash, Large(d), e) && h[..s.k0] == v[..s.k0] && Nat(v[s.k0..s.k1]) <= Nat(h[s.k0..s.k1]) < hi)
  }

  /** Looking at one more bucket of the larger table extends the report by one. */
  lemma SplitAtMask(h: Word, w: Word, k0: nat, k1: nat)
    requires k0 <= k1 <= WIDTH
    ensures h[..k1] == w[..k1] <==> h[..k0] == w[..k0] && Nat(h[k0..k1]) == Nat(w[k0..k1])
  {
    assert w[..k1] == w[..k0] + w[k0..k1] && h[..k1] == h[..k0] + h[k0..k1];
    if h[..k1] == w[..k1] {
      assert h[..k0] == h[..k1][..k0] && w[..k0] == w[..k1][..k0];
      assert h[k0..k1] == h[..k1][k0..] && w[k0..k1] == w[..k1][k0..];
    } else if h[..k0] == w[..k0] && Nat(h[k0..k1]) == Nat(w[k0..k1]) {
      NatInjective(h[k0..k1], w[k0..k1]);
    }
  }

  lemma ReportOneMore<V>(hash: Key -> Word, d: DictState<V>, v: Word, w: Word, e: Entry<V>)
    requires DictOk(hash, d) && d.Rehashing()
    requires var s := ShapeOf(hash, d); w[..s.k0] == v[..s.k0] && Nat(v[s.k0..s.k1]) <= Nat(w[s.k0..s.k1])
    ensures var s := ShapeOf(hash, d);
            var i := Nat(And(w, Large(d).sizemask));
            && i < |Large(d).buckets|
            && (ReportedUpTo(hash, d, v, Nat(w[s.k0..s.k1]) + 1, e)
                <==> ReportedUpTo(hash, d, v, Nat(w[s.k0..s.k1]), e) || e in Large(d).buckets[i])
  {
    var s := ShapeOf(hash, d);
    BucketMembers(hash, Large(d), s.k1, w, e);
    SplitAtMask(hash(e.key), w, s.k0, s.k1);
  }

  /** The list of reported entries is right so far. */
  ghost predicate Reports<V(!new)>(hash: Key -> Word, d: DictState<V>, v: Word, hi: nat, emitted: seq<Entry<V>>)
    requires DictOk(hash, d) && d.Rehashing()
  {
    forall e :: e in emitted <==> ReportedUpTo(hash, d, v, hi, e)
  }

  lemma ReportsStart<V(!new)>(hash: Key -> Word, d: DictState<V>, v: Word)
    requires DictOk(hash, d) && d.Rehashing()
    ensures var i := Nat(And(v, Small(d).sizemask));
            var s := ShapeOf(hash, d);
            i < |Small(d).buckets| && Reports(hash, d, v, Nat(v[s.k0..s.k1]), Small(d).buckets[i])
  {
    var s := ShapeOf(hash, d);
    MaskedBelow(v, s.k0);
    forall e ensures e in Small(d).buckets[Nat(And(v, Small(d).sizemask))]
                     <==> ReportedUpTo(hash, d, v, Nat(v[s.k0..s.k1]), e) {
      BucketMembers(hash, Small(d), s.k0, v, e);
    }
  }

  lemma ReportsMore<V(!new)>(hash: Key -> Word, d: DictState<V>, v: Word, w: Word, emitted: seq<Entry<V>>)
    requires DictOk(hash, d) && d.Rehashing()
    requires var s := ShapeOf(hash, d);
             && w[..s.k0] == v[..s.k0] && Nat(v[s.k0..s.k1]) <= Nat(w[s.k0..s.k1])
             && Reports(hash, d, v, Nat(w[s.k0..s.k1]), emitted)
    ensures var i := Nat(And(w, Large(d).sizemask));
            var s := ShapeOf(hash, d);
            && i < |Large(d).buckets|
            && Reports(hash, d, v, Nat(w[s.k0..s.k1]) + 1, emitted + Large(d).buckets[i])
  {
    var s := ShapeOf(hash, d);
    var hi := Nat(w[s.k0..s.k1]);
    MaskedBelow(w, s.k1);
    var bucket := Large(d).buckets[Nat(And(w, Large(d).sizemask))];
    forall e ensures ReportedUpTo(hash, d, v, hi + 1, e) <==> ReportedUpTo(hash, d, v, hi, e) || e in bucket {
      ReportOneMore(hash, d, v, w, e);
    }
    ReportsJoin(hash, d, v, hi, emitted, bucket);
  }

  lemma ReportsJoin<V(!new)>(hash: Key -> Word, d: DictState<V>, v: Word, hi: nat, emitted: seq<Entry<V>>,
          bucket: seq<Entry<V>>)
    requires DictOk(hash, d) && d.Rehashing() && Reports(hash, d, v, hi, emitted)
    requires forall e :: ReportedUpTo(hash, d, v, hi + 1, e) <==> ReportedUpTo(hash, d, v, hi, e) || e in bucket
    ensures Reports(hash, d, v, hi + 1, emitted + bucket)
  {
  }

  /** One turn of the expansion loop: one more bucket is reported, and the loop goes on exactly when
      an expansion is left. */
  lemma OneExpansion<V(!new)>(hash: Key -> Word, d: DictState<V>, v: Word, w: Word, emitted: seq<Entry<V>>)
    requires DictOk(hash, d) && d.Rehashing()
    requires var s := ShapeOf(hash, d);
             && w[..s.k0] == v[..s.k0] && Nat(v[s.k0..s.k1]) <= Nat(w[s.k0..s.k1])
             && Reports(hash, d, v, Nat(w[s.k0..s.k1]), emitted)
    ensures var s := ShapeOf(hash, d);
            var i := Nat(And(w, Large(d).sizemask));
            var next := NextExpansion(w, Small(d).sizemask);
            var more := And(next, Xor(Small(d).sizemask, Large(d).sizemask)) != Zeros(WIDTH);
            && i < |Large(d).buckets| && next[..s.k0] == v[..s.k0]
            && (more ==> Nat(next[s.k0..s.k1]) == Nat(w[s.k0..s.k1]) + 1)
            && Reports(hash, d, v, if more then Nat(next[s.k0..s.k1]) else Pow2(s.k1 - s.k0),
                       emitted + Large(d).buckets[i])
  {
    var s := ShapeOf(hash, d);
    ReportsMore(hash, d, v, w, emitted);
    NextExpansionCounts(w, s.k0, s.k1);
    DifferenceBitsTest(NextExpansion(w, Small(d).sizemask), s.k0, s.k1);
  }

  lemma SingleTableReport<V>(hash: Key -> Word, d: DictState<V>, v: Word)
    requires DictOk(hash, d) && !d.Rehashing() && Size(d) > 0 && d.ht0.buckets != []
    ensures var i := Nat(And(v, d.ht0.sizemask));
            i < |d.ht0.buckets| && forall e :: e in d.ht0.buckets[i] <==> Emitted(hash, d, v, e)
  {
    var s := ShapeOf(hash, d);
    MaskedBelow(v, s.k0);
    forall e ensures e in d.ht0.buckets[Nat(And(v, d.ht0.sizemask))] <==> Emitted(hash, d, v, e) {
      BucketMembers(hash, d.ht0, s.k0, v, e);
    }
  }

  lemma FullReportIsEmission<V(!new)>(hash: Key -> Word, d: DictState<V>, v: Word, emitted: seq<Entry<V>>)
    requires DictOk(hash, d) && d.Rehashing() && Size(d) > 0
    requires Reports(hash, d, v, Pow2(ShapeOf(hash, d).k1 - ShapeOf(hash, d).k0), emitted)
    ensures forall e :: e in emitted <==> Emitted(hash, d, v, e)
  {
  }

  /** Setting the unmasked bits forgets what the expansion loop did to the cursor. */
  lemma AdvanceForgetsHighBits(v: Word, w: Word, k: nat)
    requires k <= WIDTH && w[..k] == v[..k]
    ensures Advance(w, Mask(k)) == Advance(v, Mask(k))
  {
    forall i | 0 <= i < WIDTH ensures Or(w, Not(Mask(k)))[i] == Or(v, Not(Mask(k)))[i] {
      if i < k { assert w[i] == w[..k][i] && v[i] == v[..k][i]; }
    }
    assert Or(w, Not(Mask(k))) == Or(v, Not(Mask(k)));
  }

  // ----- runs of calls, seen through the shapes of the tables

  /** The cursors of a scan: it starts at 0, and call i turns cursor i into cursor i + 1. */
  predicate IsRun(shapes: seq<Shape>, cs: seq<Word>) {
    && |cs| == |shapes| + 1 && cs[0] == Zeros(WIDTH)
    && forall i :: 0 <= i < |shapes| ==> shapes[i].Ok() && cs[i + 1] == Advance(cs[i], Mask(shapes[i].k0))
  }

  /** The scan has gone on since its start and is over now. */
  predicate IsCompleteRun(shapes: seq<Shape>, cs: seq<Word>) {
    && IsRun(shapes, cs) && |shapes| > 0 && cs[|shapes|] == Zeros(WIDTH)
    && forall i :: 0 < i < |shapes| ==> cs[i] != Zeros(WIDTH)
  }

  predicate AllAligned(shapes: seq<Shape>, cs: seq<Word>)
    requires IsRun(shapes, cs)
  {
    forall i :: 0 <= i < |shapes| ==> Aligned(cs[i], shapes[i].k0, shapes[i].k1)
  }

  function Rank(v: Word): nat { Nat(Reverse(v)) }

  lemma BeforeIsRank(a: Word, b: Word)
    ensures Before(a, b) <==> Rank(a) < Rank(b)
  {
    BeforeIsReversedOrder(a, b);
  }

  lemma CallClimbs(shapes: seq<Shape>, cs: seq<Word>, i: nat)
    requires IsRun(shapes, cs) && i < |shapes| && cs[i + 1] != Zeros(WIDTH)
    ensures Rank(cs[i]) < Rank(cs[i + 1])
  {
    AdvanceMovesForward(cs[i], shapes[i].k0);
    BeforeIsRank(cs[i], cs[i + 1]);
  }

  /** A scan that has not come back to 0 after n calls has climbed n places in the scan
      order, so every scan ends. */
  lemma {:induction false} ScanTerminates(shapes: seq<Shape>, cs: seq<Word>, n: nat)
    requires IsRun(shapes, cs) && n <= |shapes|
    requires forall i :: 0 < i <= n ==> cs[i] != Zeros(WIDTH)
    ensures n <= Rank(cs[n]) < Pow2(WIDTH)
  {
    if n > 0 {
      ScanTerminates(shapes, cs, n - 1);
      CallClimbs(shapes, cs, n - 1);
    }
  }

  lemma {:induction false} RanksClimb(shapes: seq<Shape>, cs: seq<Word>, i: nat, j: nat)
    requires IsCompleteRun(shapes, cs) && i <= j < |shapes|
    ensures Rank(cs[i]) <= Rank(cs[j])
    decreases j
  {
    if i < j {
      RanksClimb(shapes, cs, i, j - 1);
      CallClimbs(shapes, cs, j - 1);
    }
  }

  /** Every hash lies in the stretch of some call. */
  lemma StretchesCover(shapes: seq<Shape>, cs: seq<Word>, h: Word) returns (i: nat)
    requires IsCompleteRun(shapes, cs)
    ensures i < |shapes| && InStretch(h, cs[i], shapes[i].k0)
  {
    i := 0;
    ZeroTailIsLeast(h, cs[0], 0);
    while !InStretch(h, cs[i], shapes[i].k0)
      invariant i < |shapes| && !Before(h, cs[i])
      decreases |shapes| - i
    {
      i := i + 1;
    }
  }

  /** Some call of the scan visits hash h. */
  predicate RunVisits(shapes: seq<Shape>, cs: seq<Word>, h: Word)
    requires IsRun(shapes, cs)
  {
    exists i :: 0 <= i < |shapes| && Visited(h, cs[i], shapes[i].k0, shapes[i].k1)
  }

  /** Completeness: when every call is aligned, every hash is visited. */
  lemma AlignedRunVisitsAll(shapes: seq<Shape>, cs: seq<Word>, h: Word) returns (i: nat)
    requires IsCompleteRun(shapes, cs) && AllAligned(shapes, cs)
    ensures i < |shapes| && Visited(h, cs[i], shapes[i].k0, shapes[i].k1)
  {
    i := StretchesCover(shapes, cs, h);
    AlignedVisitsStretch(h, cs[i], shapes[i].k0, shapes[i].k1);
  }

  /** What a call visits comes before the cursor it returns. */
  lemma SharersComeBeforeNext(h: Word, v: Word, k: nat)
    requires k <= WIDTH && h[..k] == v[..k]
    ensures Advance(v, Mask(k)) == Zeros(WIDTH) || Before(h, Advance(v, Mask(k)))
  {
    var z := AdvanceShape(v, k);
    if z >= 0 {
      var w := Advance(v, Mask(k));
      assert h[..z] == h[..k][..z] == v[..k][..z] == w[..z];
      assert h[z] == h[..k][z] == v[..k][z] == v[z] && w[z];
      BeforeAt(h, w, z);
    }
  }

  /** A call after call i looks again at the bucket of the smaller table that call i looked at. */
  predicate Rescanned(shapes: seq<Shape>, cs: seq<Word>, i: nat)
    requires IsRun(shapes, cs) && i < |shapes|
  {
    exists j :: i < j < |shapes| && cs[j][..shapes[j].k0] == cs[i][..shapes[j].k0]
  }

  lemma PrefixesAgree(a: Word, b: Word, k: nat, n: nat)
    requires k <= n <= WIDTH && a[..n] == b[..n]
    ensures a[..k] == b[..k]
  {
    assert a[..k] == a[..n][..k] && b[..k] == b[..n][..k];
  }

  /** Later cursors differ from an earlier one within the earlier call's mask. */
  lemma LaterCursorDiffers(shapes: seq<Shape>, cs: seq<Word>, i: nat, j: nat)
    requires IsCompleteRun(shapes, cs) && i < j < |shapes| && shapes[i].k0 <= shapes[j].k0
    ensures cs[j][..shapes[i].k0] != cs[i][..shapes[i].k0]
  {
    if cs[j][..shapes[i].k0] == cs[i][..shapes[i].k0] {
      SharersComeBeforeNext(cs[j], cs[i], shapes[i].k0);
      RanksClimb(shapes, cs, i + 1, j);
      BeforeIsRank(cs[j], cs[i + 1]);
      assert false;
    }
  }

  /** Only a smaller mask makes a scan come back to a bucket. */
  lemma RescanNeedsSmallerMask(shapes: seq<Shape>, cs: seq<Word>, i: nat)
    requires IsCompleteRun(shapes, cs) && i < |shapes| && Rescanned(shapes, cs, i)
    ensures exists j :: i < j < |shapes| && shapes[j].k0 < shapes[i].k0
  {
    var j :| i < j < |shapes| && cs[j][..shapes[j].k0] == cs[i][..shapes[j].k0];
    if shapes[i].k0 <= shapes[j].k0 {
      PrefixesAgree(cs[j], cs[i], shapes[i].k0, shapes[j].k0);
      LaterCursorDiffers(shapes, cs, i, j);
      assert false;
    }
  }

  /** A hash in the stretch of call i is in the bucket of no earlier call. */
  lemma StretchIsNew(shapes: seq<Shape>, cs: seq<Word>, i: nat, h: Word, j: nat)
    requires IsCompleteRun(shapes, cs) && j < i < |shapes| && InStretch(h, cs[i], shapes[i].k0)
    ensures h[..shapes[j].k0] != cs[j][..shapes[j].k0]
  {
    if h[..shapes[j].k0] == cs[j][..shapes[j].k0] {
      SharersComeBeforeNext(h, cs[j], shapes[j].k0);
      RanksClimb(shapes, cs, j + 1, i);
      BeforeIsRank(h, cs[j + 1]);
      BeforeIsRank(h, cs[i]);
      assert false;
    }
  }

  /** It is in the bucket of no later call either, unless that bucket is scanned again. */
  lemma StretchIsOver(shapes: seq<Shape>, cs: seq<Word>, i: nat, h: Word, j: nat)
    requires IsCompleteRun(shapes, cs) && i < j < |shapes|
    requires InStretch(h, cs[i], shapes[i].k0) && !Rescanned(shapes, cs, i)
    ensures h[..shapes[j].k0] != cs[j][..shapes[j].k0]
  {
    var k, n := shapes[i].k0, shapes[j].k0;
    StretchSharesBucket(h, cs[i], k);
    if h[..n] == cs[j][..n] {
      if n <= k {
        PrefixesAgree(h, cs[i], n, k);
      } else {
        PrefixesAgree(h, cs[j], k, n);
        LaterCursorDiffers(shapes, cs, i, j);
      }
      assert false;
    }
  }

  /** The converse of completeness: an unaligned call whose bucket is not scanned again leaves
      some hash unvisited by the whole scan. No other call even looks at the hash's bucket. */
  lemma UnalignedRunMisses(shapes: seq<Shape>, cs: seq<Word>, i: nat) returns (h: Word)
    requires IsCompleteRun(shapes, cs) && i < |shapes|
    requires !Aligned(cs[i], shapes[i].k0, shapes[i].k1) && !Rescanned(shapes, cs, i)
    ensures h[..shapes[i].k0] == cs[i][..shapes[i].k0] && !RunVisits(shapes, cs, h)
    ensures forall j :: 0 <= j < |shapes| && j != i ==> h[..shapes[j].k0] != cs[j][..shapes[j].k0]
  {
    h := UnalignedSkips(cs[i], shapes[i].k0, shapes[i].k1);
    forall j | 0 <= j < |shapes| && j != i ensures h[..shapes[j].k0] != cs[j][..shapes[j].k0] {
      if j < i {
        StretchIsNew(shapes, cs, i, h, j);
      } else {
        StretchIsOver(shapes, cs, i, h, j);
      }
    }
  }

  /** No bucket that an unaligned call looked at is scanned again. */
  predicate SkipsStand(shapes: seq<Shape>, cs: seq<Word>)
    requires IsRun(shapes, cs)
  {
    forall i :: 0 <= i < |shapes| && Rescanned(shapes, cs, i) ==> Aligned(cs[i], shapes[i].k0, shapes[i].k1)
  }

  /** It is so when no mask smaller than that of an unaligned call follows it. */
  lemma NoSmallerMaskSkipsStand(shapes: seq<Shape>, cs: seq<Word>)
    requires IsCompleteRun(shapes, cs)
    requires forall i, j :: 0 <= i < j < |shapes| && !Aligned(cs[i], shapes[i].k0, shapes[i].k1)
               ==> shapes[i].k0 <= shapes[j].k0
    ensures SkipsStand(shapes, cs)
  {
    forall i | 0 <= i < |shapes| && Rescanned(shapes, cs, i)
      ensures Aligned(cs[i], shapes[i].k0, shapes[i].k1)
    {
      RescanNeedsSmallerMask(shapes, cs, i);
    }
  }

  /** The exact condition: unless a later call comes back to a bucket that an unaligned call
      left half seen, a scan visits every hash if and only if each of its calls is aligned. */
  lemma ScanVisitsAllIffAligned(shapes: seq<Shape>, cs: seq<Word>)
    requires IsCompleteRun(shapes, cs) && SkipsStand(shapes, cs)
    ensures AllAligned(shapes, cs) <==> forall h: Word :: RunVisits(shapes, cs, h)
  {
    if AllAligned(shapes, cs) {
      forall h: Word ensures RunVisits(shapes, cs, h) {
        var i := AlignedRunVisitsAll(shapes, cs, h);
      }
    } else {
      var i :| 0 <= i < |shapes| && !Aligned(cs[i], shapes[i].k0, shapes[i].k1);
      var h := UnalignedRunMisses(shapes, cs, i);
    }
  }

  /** The smaller mask has not shrunk since the call before, or the two masks differ in one
      bit at most. Growing tables and tables that are halved satisfy this at every call. */
  predicate Gentle(shapes: seq<Shape>) {
    forall i :: 0 <= i < |shapes| ==>
      (i > 0 ==> shapes[i - 1].k0 <= shapes[i].k0) || shapes[i].k1 <= shapes[i].k0 + 1
  }

  /** A cursor has no bit above the mask of the call that returned it, so that only a shrink
      to a quarter or less can make a call unaligned. */
  lemma GentleRunIsAligned(shapes: seq<Shape>, cs: seq<Word>)
    requires IsRun(shapes, cs) && Gentle(shapes)
    ensures AllAligned(shapes, cs)
  {
    forall i | 0 <= i < |shapes| ensures Aligned(cs[i], shapes[i].k0, shapes[i].k1) {
      if i > 0 && shapes[i].k1 > shapes[i].k0 + 1 {
        var z := AdvanceShape(cs[i - 1], shapes[i - 1].k0);
        assert forall b :: shapes[i].k0 <= b < WIDTH ==> !cs[i][b];
      }
    }
  }

  function LowBits(b0: bool, b1: bool, b2: bool, b3: bool): Word {
    [b0, b1, b2, b3] + Zeros(WIDTH - 4)
  }

  lemma AdvanceTo(v: Word, k: nat, z: int, w: Word)
    requires -1 <= z < k <= WIDTH && (z >= 0 ==> !v[z]) && forall i :: z < i < k ==> v[i]
    requires forall i :: 0 <= i < WIDTH ==> (w[i] <==> if i < z then v[i] else i == z)
    ensures Advance(v, Mask(k)) == w
  {
    var y := AdvanceShape(v, k);
    assert y == z;
  }

  /** Cursors 0, 8, 2, 1, 3 and back to 0. */
  function ShrinkCursors(): (cs: seq<Word>) {
    [LowBits(false, false, false, false), LowBits(false, false, false, true), LowBits(false, true, false, false),
     LowBits(true, false, false, false), LowBits(true, true, false, false), LowBits(false, false, false, false)]
  }

  function ShrinkShapes(): seq<Shape> {
    [Shape(4, 4), Shape(2, 4), Shape(2, 4), Shape(2, 4), Shape(2, 4)]
  }

  predicate ShrinkStep(i: nat)
    requires i < 5
  {
    && ShrinkCursors()[i + 1] == Advance(ShrinkCursors()[i], Mask(ShrinkShapes()[i].k0))
    && !Visited(LowBits(false, false, true, false), ShrinkCursors()[i], ShrinkShapes()[i].k0, 4)
  }

  lemma ShrinkStep0()
    ensures ShrinkStep(0)
  {
    AdvanceTo(ShrinkCursors()[0], 4, 3, ShrinkCursors()[1]);
    assert LowBits(false, false, true, false)[..4][2] && !ShrinkCursors()[0][..4][2];
  }

  lemma ShrinkStep1()
    ensures ShrinkStep(1)
  {
    var h, c := LowBits(false, false, true, false), ShrinkCursors()[1];
    AdvanceTo(c, 2, 1, ShrinkCursors()[2]);
    assert h[2..4] == [true, false] && c[2..4] == [false, true];
    TopDifference(h[2..4], c[2..4], 1);
  }

  lemma ShrinkStep2()
    ensures ShrinkStep(2)
  {
    AdvanceTo(ShrinkCursors()[2], 2, 0, ShrinkCursors()[3]);
    assert !LowBits(false, false, true, false)[..2][1] && ShrinkCursors()[2][..2][1];
  }

  lemma ShrinkStep3()
    ensures ShrinkStep(3)
  {
    AdvanceTo(ShrinkCursors()[3], 2, 1, ShrinkCursors()[4]);
    assert !LowBits(false, false, true, false)[..2][0] && ShrinkCursors()[3][..2][0];
  }

  lemma ShrinkStep4()
    ensures ShrinkStep(4)
  {
    AdvanceTo(ShrinkCursors()[4], 2, -1, ShrinkCursors()[5]);
    assert !LowBits(false, false, true, false)[..2][0] && ShrinkCursors()[4][..2][0];
  }

  lemma ShrinkStepOf(i: nat)
    requires i < 5
    ensures ShrinkStep(i)
  {
    if i == 0 { ShrinkStep0(); }
    else if i == 1 { ShrinkStep1(); }
    else if i == 2 { ShrinkStep2(); }
    else if i == 3 { ShrinkStep3(); }
    else { ShrinkStep4(); }
  }

  lemma ShrinkCursorsEnds()
    ensures ShrinkCursors()[0] == Zeros(WIDTH) == ShrinkCursors()[5]
    ensures forall i :: 0 < i < 5 ==> ShrinkCursors()[i] != Zeros(WIDTH)
  {
    assert ShrinkCursors()[0] == Zeros(WIDTH);
    assert ShrinkCursors()[1][3] && ShrinkCursors()[2][1] && ShrinkCursors()[3][0] && ShrinkCursors()[4][0];
  }

  /** The failing case on numbers: a scan of 16 buckets is at cursor 8 when a rehash down to
      4 buckets begins. The remaining cursors are 2, 1 and 3, and bucket 4 is never visited. */
  lemma ShrinkByFourMissesBucketFour()
    ensures IsCompleteRun(ShrinkShapes(), ShrinkCursors())
    ensures !RunVisits(ShrinkShapes(), ShrinkCursors(), LowBits(false, false, true, false))
  {
    forall i | 0 <= i < 5
      ensures ShrinkStep(i) && ShrinkShapes()[i].Ok() && ShrinkShapes()[i].k1 == 4
    {
      ShrinkStepOf(i);
    }
    ShrinkCursorsEnds();
    assert |ShrinkShapes()| == 5 && |ShrinkCursors()| == 6;
  }

  /** The run is one of those that ScanVisitsAllIffAligned speaks of. */
  lemma ShrinkRunSkipsStand()
    ensures IsCompleteRun(ShrinkShapes(), ShrinkCursors())
    ensures SkipsStand(ShrinkShapes(), ShrinkCursors()) && !AllAligned(ShrinkShapes(), ShrinkCursors())
  {
    ShrinkByFourMissesBucketFour();
    NoSmallerMaskSkipsStand(ShrinkShapes(), ShrinkCursors());
    assert ShrinkCursors()[1][3] && !ShrinkCursors()[1][2];
  }

  // ----- runs over actual dictionaries

  ghost predicate IsScanOf<V>(hash: Key -> Word, ds: seq<DictState<V>>, cs: seq<Word>, k: Key) {
    && |ds| > 0 && |cs| == |ds| + 1 && cs[0] == Zeros(WIDTH) && cs[|ds|] == Zeros(WIDTH)
    && (forall i :: 0 < i < |ds| ==> cs[i] != Zeros(WIDTH))
    && (forall i :: 0 <= i < |ds| ==> DictOk(hash, ds[i]) && cs[i + 1] == NextCursor(hash, ds[i], cs[i]))
    && (forall i :: 0 <= i < |ds| ==> Get(hash, ds[i], k).Some?)
  }

  lemma PresentMeansNonEmpty<V>(hash: Key -> Word, d: DictState<V>, k: Key)
    requires DictOk(hash, d) && Get(hash, d, k).Some?
    ensures Size(d) > 0 && d.ht0.buckets != []
  {
    var t := if TableGet(hash, d.ht0, k).Some? then d.ht0 else d.ht1;
    PresentIsHeld(hash, t, k);
    HeldIsCounted(hash, t, Entry(k, TableGet(hash, t, k).value));
  }

  lemma HeldIsPresent<V>(hash: Key -> Word, t: Table<V>, e: Entry<V>)
    requires TableOk(hash, t)
    ensures Holds(hash, t, e) <==> TableGet(hash, t, e.key) == Some(e.val)
  {
    var i := Index(hash, t, e.key);
    if i < |t.buckets| {
      assert BucketOk(hash, t, i);
      if e in t.buckets[i] {
        FindInDistinct(t.buckets[i], e);
      }
    }
  }

  /** A key that has not been moved to, or put into, the smaller table. */
  predicate OutsideSmall<V>(hash: Key -> Word, d: DictState<V>, k: Key) {
    d.Rehashing() ==> TableGet(hash, Small(d), k).None?
  }

  /** When a call reports a present key: the smaller table's bucket is reported whole, of the
      larger table's buckets only those from the cursor on. */
  lemma EmittedIff<V>(hash: Key -> Word, d: DictState<V>, v: Word, k: Key)
    requires DictOk(hash, d) && Get(hash, d, k).Some? && Size(d) > 0 && d.ht0.buckets != []
    ensures var s, e := ShapeOf(hash, d), Entry(k, Get(hash, d, k).value);
            Emitted(hash, d, v, e) <==> if OutsideSmall(hash, d, k) then Visited(hash(k), v, s.k0, s.k1)
                                        else hash(k)[..s.k0] == v[..s.k0]
  {
    var e := Entry(k, Get(hash, d, k).value);
    HeldIsPresent(hash, d.ht0, e);
    HeldIsPresent(hash, d.ht1, e);
  }

  ghost predicate AllInUse<V>(hash: Key -> Word, ds: seq<DictState<V>>) {
    forall i :: 0 <= i < |ds| ==> DictOk(hash, ds[i]) && Size(ds[i]) > 0 && ds[i].ht0.buckets != []
  }

  /** What the calls of a scan see. */
  ghost function ShapesOf<V>(hash: Key -> Word, ds: seq<DictState<V>>): (shapes: seq<Shape>)
    requires AllInUse(hash, ds)
    ensures |shapes| == |ds| && forall i :: 0 <= i < |ds| ==> shapes[i] == ShapeOf(hash, ds[i])
  {
    seq(|ds|, i requires 0 <= i < |ds| => ShapeOf(hash, ds[i]))
  }

  lemma ScanIsRun<V>(hash: Key -> Word, ds: seq<DictState<V>>, cs: seq<Word>, k: Key)
    requires IsScanOf(hash, ds, cs, k)
    ensures AllInUse(hash, ds) && IsCompleteRun(ShapesOf(hash, ds), cs)
  {
    forall i | 0 <= i < |ds| ensures Size(ds[i]) > 0 && ds[i].ht0.buckets != [] {
      PresentMeansNonEmpty(hash, ds[i], k);
    }
  }

  /** The guarantee of dictScan: whatever is inserted, deleted, rehashed or resized between
      the calls, a key present at every call of a scan is reported by one of them, provided
      that each call made during a rehash is aligned. */
  lemma ScanReportsEveryPersistentKey<V>(hash: Key -> Word, ds: seq<DictState<V>>, cs: seq<Word>, k: Key)
    returns (i: nat)
    requires IsScanOf(hash, ds, cs, k)
    requires forall i :: 0 <= i < |ds| && ds[i].Rehashing() && ds[i].ht0.buckets != []
               ==> Aligned(cs[i], ShapeOf(hash, ds[i]).k0, ShapeOf(hash, ds[i]).k1)
    ensures i < |ds| && Emitted(hash, ds[i], cs[i], Entry(k, Get(hash, ds[i], k).value))
  {
    ScanIsRun(hash, ds, cs, k);
    i := AlignedRunVisitsAll(ShapesOf(hash, ds), cs, hash(k));
    EmittedIff(hash, ds[i], cs[i], k);
  }

  /** In particular while tables only grow or are halved. */
  lemma GentleScanReportsEveryPersistentKey<V>(hash: Key -> Word, ds: seq<DictState<V>>, cs: seq<Word>, k: Key)
    returns (i: nat)
    requires IsScanOf(hash, ds, cs, k) && AllInUse(hash, ds) && Gentle(ShapesOf(hash, ds))
    ensures i < |ds| && Emitted(hash, ds[i], cs[i], Entry(k, Get(hash, ds[i], k).value))
  {
    ScanIsRun(hash, ds, cs, k);
    GentleRunIsAligned(ShapesOf(hash, ds), cs);
    i := ScanReportsEveryPersistentKey(hash, ds, cs, k);
  }

  /** And it fails otherwise: an unaligned call whose bucket is not scanned again has a hash such
      that no call of the whole scan reports a key with this hash which was not yet in the
      smaller table at the unaligned call, however long the key has been there. */
  lemma UnalignedScanMissesKeys<V(!new)>(hash: Key -> Word, ds: seq<DictState<V>>, cs: seq<Word>, i: nat)
    returns (h: Word)
    requires AllInUse(hash, ds) && IsCompleteRun(ShapesOf(hash, ds), cs) && i < |ds|
    requires !Aligned(cs[i], ShapeOf(hash, ds[i]).k0, ShapeOf(hash, ds[i]).k1)
    requires !Rescanned(ShapesOf(hash, ds), cs, i)
    ensures forall e: Entry<V>, j :: 0 <= j < |ds| && hash(e.key) == h && OutsideSmall(hash, ds[i], e.key)
              ==> !Emitted(hash, ds[j], cs[j], e)
  {
    h := UnalignedRunMisses(ShapesOf(hash, ds), cs, i);
    forall e: Entry<V>, j | 0 <= j < |ds| && hash(e.key) == h && OutsideSmall(hash, ds[i], e.key)
      ensures !Emitted(hash, ds[j], cs[j], e)
    {
      if j == i {
        HeldIsPresent(hash, Small(ds[i]), e);
        assert !Visited(h, cs[i], ShapesOf(hash, ds)[i].k0, ShapesOf(hash, ds)[i].k1);
      }
    }
  }

  // ----- a dictionary that loses a key to a scan

  lemma LogIsUnique<V>(t: Table<V>, bits: nat)
    requires Sized(t, bits)
    ensures Log(t) == bits
  {
    if Log(t) < bits {
      Pow2Increases(Log(t), bits);
    } else if bits < Log(t) {
      Pow2Increases(bits, Log(t));
    }
  }

  /** A table of 16 buckets that holds one entry. */
  ghost function Sparse<V>(hash: Key -> Word, e: Entry<V>): (t: Table<V>)
    ensures TableOk(hash, t) && Sized(t, 4) && t.used == 1
    ensures forall k :: TableGet(hash, t, k) == if k == e.key then Some(e.val) else None
  {
    EmptyOk<V>(hash, 4);
    MaskOfSize(4);
    PushOk(hash, Empty<V>(Pow2(4)), e);
    Push(hash, Empty<V>(Pow2(4)), e)
  }

  /** Before the shrink and after dictResize has begun it. */
  ghost function SparseDict<V>(hash: Key -> Word, e: Entry<V>): DictState<V> {
    DictState(Sparse(hash, e), Reset(), -1, 0)
  }

  ghost function ShrinkingDict<V>(hash: Key -> Word, e: Entry<V>): DictState<V> {
    DictState(Sparse(hash, e), Empty(4), 0, 0)
  }

  lemma SparseDictShape<V>(hash: Key -> Word, e: Entry<V>)
    ensures var d := SparseDict(hash, e);
            && DictOk(hash, d) && Get(hash, d, e.key) == Some(e.val) && Size(d) == 1 && d.ht0.buckets != []
            && ShapeOf(hash, d) == Shape(4, 4) && OutsideSmall(hash, d, e.key)
  {
    LogIsUnique(Sparse(hash, e), 4);
  }

  lemma ShrinkingDictShape<V>(hash: Key -> Word, e: Entry<V>)
    ensures var d := ShrinkingDict(hash, e);
            && DictOk(hash, d) && Get(hash, d, e.key) == Some(e.val) && Size(d) == 1 && d.ht0.buckets != []
            && ShapeOf(hash, d) == Shape(2, 4) && OutsideSmall(hash, d, e.key) && Small(d).sizemask == Mask(2)
  {
    assert Pow2(2) == 4 && Pow2(4) == 16;
    EmptyOk<V>(hash, 2);
    MaskOfSize(2);
    LogIsUnique(Sparse(hash, e), 4);
    LogIsUnique(Empty<V>(4), 2);
    TotalZero(Empty<V>(4).buckets);
  }

  lemma ResizeShrinks<V>(hash: Key -> Word, e: Entry<V>)
    ensures DictOk(hash, SparseDict(hash, e)) && SparseDict(hash, e).ht0.used <= Pow2(MAX_BITS)
    ensures Resize(hash, SparseDict(hash, e), true) == (ShrinkingDict(hash, e), true)
  {
    SparseDictShape(hash, e);
    assert Pow2(0) == 1;
    Pow2Monotone(0, MAX_BITS);
  }

  ghost function ShrinkRun<V>(hash: Key -> Word, e: Entry<V>): (ds: seq<DictState<V>>) {
    var d := ShrinkingDict(hash, e);
    [SparseDict(hash, e), d, d, d, d]
  }

  /** A call of that scan on a dictionary that sees what it should see. */
  lemma ShrinkCallMisses<V(!new)>(hash: Key -> Word, e: Entry<V>, d: DictState<V>, i: nat)
    requires hash(e.key) == LowBits(false, false, true, false) && i < 5
    requires DictOk(hash, d) && Size(d) > 0 && d.ht0.buckets != [] && OutsideSmall(hash, d, e.key)
    requires ShapeOf(hash, d) == ShrinkShapes()[i]
    ensures forall v :: !Emitted(hash, d, ShrinkCursors()[i], Entry(e.key, v))
  {
    ShrinkStepOf(i);
    var s := ShrinkShapes()[i];
    assert s.k1 == 4 && !Visited(hash(e.key), ShrinkCursors()[i], s.k0, s.k1);
    forall v ensures !Emitted(hash, d, ShrinkCursors()[i], Entry(e.key, v)) {
      HeldIsPresent(hash, Small(d), Entry(e.key, v));
    }
  }

  lemma ShrinkRunStep<V(!new)>(hash: Key -> Word, e: Entry<V>, i: nat)
    requires hash(e.key) == LowBits(false, false, true, false) && i < 5
    ensures var d := ShrinkRun(hash, e)[i];
            && DictOk(hash, d) && Get(hash, d, e.key).Some?
            && ShrinkCursors()[i + 1] == NextCursor(hash, d, ShrinkCursors()[i])
            && forall v :: !Emitted(hash, d, ShrinkCursors()[i], Entry(e.key, v))
  {
    ShrinkStepOf(i);
    if i == 0 {
      SparseDictShape(hash, e);
    } else {
      ShrinkingDictShape(hash, e);
    }
    ShrinkCallMisses(hash, e, ShrinkRun(hash, e)[i], i);
  }

  /** The dictionary of ShrinkByFourMissesBucketFour: dictResize begins to shrink a table of 16
      buckets after the first call of a scan. The only key is there at every call, and no call
      reports it, when its hash ends in 0100. */
  lemma ShrinkingDictLosesKey<V(!new)>(hash: Key -> Word, e: Entry<V>)
    requires hash(e.key) == LowBits(false, false, true, false)
    ensures IsScanOf(hash, ShrinkRun(hash, e), ShrinkCursors(), e.key)
    ensures forall i, v :: 0 <= i < 5 ==> !Emitted(hash, ShrinkRun(hash, e)[i], ShrinkCursors()[i], Entry(e.key, v))
  {
    ShrinkByFourMissesBucketFour();
    forall i | 0 <= i < 5
      ensures DictOk(hash, ShrinkRun(hash, e)[i]) && Get(hash, ShrinkRun(hash, e)[i], e.key).Some?
      ensures ShrinkCursors()[i + 1] == NextCursor(hash, ShrinkRun(hash, e)[i], ShrinkCursors()[i])
      ensures forall v :: !Emitted(hash, ShrinkRun(hash, e)[i], ShrinkCursors()[i], Entry(e.key, v))
    {
      ShrinkRunStep(hash, e, i);
    }
  }
}
