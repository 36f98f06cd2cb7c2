/** The stateless cursor of dictScan: a counter that is incremented from its most
    significant masked bit downwards, so that the buckets it has passed stay passed
    when the table is resized. */
module ScanCursor {
  import opened Words

  function Reverse(a: seq<bool>): (r: seq<bool>)
    ensures |r| == |a|
    ensures forall i :: 0 <= i < |a| ==> r[i] == a[|a| - 1 - i]
  {
    seq(|a|, i requires 0 <= i < |a| => a[|a| - 1 - i])
  }

  // ----- rev: reversal in log2(WIDTH) block swaps

  /** Where bit i comes from once blocks of s bits have been put in reverse order. */
  function SourceBit(i: int, s: nat): int
    requires s > 0
  {
    WIDTH - s - i + 2 * (i % s)
  }

  /** Exchanging neighbouring blocks of t bits refines the reversal from blocks of s == 2t bits. */
  predicate Swaps(i: nat, s: nat, t: nat)
    requires s > 0 && t > 0
  {
    && ((i / t) % 2 == 0 ==> i + t < WIDTH && SourceBit(i, t) == SourceBit(i + t, s))
    && ((i / t) % 2 != 0 ==> i >= t && SourceBit(i, t) == SourceBit(i - t, s))
  }

  /** `mask ^= mask << t` selects the lower block of each pair. */
  predicate Masks(i: nat, s: nat, t: nat)
    requires s > 0 && t > 0
  {
    (i / t) % 2 == 0 <==> (((i / s) % 2 == 0) != (i >= t && ((i - t) / s) % 2 == 0))
  }

  lemma Swap64(i: nat) requires i < WIDTH ensures Swaps(i, 64, 32) {}
  lemma Swap32(i: nat) requires i < WIDTH ensures Swaps(i, 32, 16) {}
  lemma Swap16(i: nat) requires i < WIDTH ensures Swaps(i, 16, 8) {}
  lemma Swap8(i: nat) requires i < WIDTH ensures Swaps(i, 8, 4) {}
  lemma Swap4(i: nat) requires i < WIDTH ensures Swaps(i, 4, 2) {}
  lemma Swap2(i: nat) requires i < WIDTH ensures Swaps(i, 2, 1) {}
  lemma Mask64(i: nat) requires i < WIDTH ensures Masks(i, 64, 32) {}
  lemma Mask32(i: nat) requires i < WIDTH ensures Masks(i, 32, 16) {}
  lemma Mask16(i: nat) requires i < WIDTH ensures Masks(i, 16, 8) {}
  lemma Mask8(i: nat) requires i < WIDTH ensures Masks(i, 8, 4) {}
  lemma Mask4(i: nat) requires i < WIDTH ensures Masks(i, 4, 2) {}
  lemma Mask2(i: nat) requires i < WIDTH ensures Masks(i, 2, 1) {}

  lemma SwapStep(i: nat, s: nat)
    requires i < WIDTH && s in {64, 32, 16, 8, 4, 2}
    ensures Swaps(i, s, s / 2) && Masks(i, s, s / 2)
  {
    if s == 64 { Swap64(i); Mask64(i); }
    else if s == 32 { Swap32(i); Mask32(i); }
    else if s == 16 { Swap16(i); Mask16(i); }
    else if s == 8 { Swap8(i); Mask8(i); }
    else if s == 4 { Swap4(i); Mask4(i); }
    else { Swap2(i); Mask2(i); }
  }

  /** r is v with its blocks of s bits in reverse order, and mask selects every other block. */
  predicate BlocksReversed(v: Word, r: Word, mask: Word, s: nat)
    requires s > 0
  {
    forall i: nat :: i < WIDTH ==>
      (mask[i] <==> (i / s) % 2 == 0) && 0 <= SourceBit(i, s) < WIDTH && r[i] == v[SourceBit(i, s)]
  }

  lemma HalveBlocksAt(v: Word, r: Word, mask: Word, s: nat, i: nat)
    requires s in {64, 32, 16, 8, 4, 2} && BlocksReversed(v, r, mask, s) && i < WIDTH
    ensures var mask' := Xor(mask, Shl(mask, s / 2));
            var r' := Or(And(Shr(r, s / 2), mask'), And(Shl(r, s / 2), Not(mask')));
            && (mask'[i] <==> (i / (s / 2)) % 2 == 0)
            && 0 <= SourceBit(i, s / 2) < WIDTH && r'[i] == v[SourceBit(i, s / 2)]
  {
    var t := s / 2;
    var mask' := Xor(mask, Shl(mask, t));
    SwapStep(i, s);
    assert mask'[i] <==> (i / t) % 2 == 0;
    MergedBit(r, mask', t, i);
  }

  lemma MergedBit(r: Word, mask: Word, t: nat, i: nat)
    requires i < WIDTH && t <= WIDTH
    ensures Or(And(Shr(r, t), mask), And(Shl(r, t), Not(mask)))[i] ==
              if mask[i] then i + t < WIDTH && r[i + t] else i >= t && r[i - t]
  {
  }

  lemma HalveBlocks(v: Word, r: Word, mask: Word, s: nat)
    requires s in {64, 32, 16, 8, 4, 2} && BlocksReversed(v, r, mask, s)
    ensures var mask' := Xor(mask, Shl(mask, s / 2));
            BlocksReversed(v, Or(And(Shr(r, s / 2), mask'), And(Shl(r, s / 2), Not(mask'))), mask', s / 2)
  {
    forall i: nat | i < WIDTH
      ensures var mask' := Xor(mask, Shl(mask, s / 2));
              var r' := Or(And(Shr(r, s / 2), mask'), And(Shl(r, s / 2), Not(mask')));
              && (mask'[i] <==> (i / (s / 2)) % 2 == 0)
              && 0 <= SourceBit(i, s / 2) < WIDTH && r'[i] == v[SourceBit(i, s / 2)]
    {
      HalveBlocksAt(v, r, mask, s, i);
    }
  }

  method Rev(v: Word) returns (r: Word)
    ensures r == Reverse(v)
  {
    var s, mask: Word := WIDTH, Ones(WIDTH);
    r := v;
    while s / 2 > 0
      invariant s in {64, 32, 16, 8, 4, 2, 1}
      invariant BlocksReversed(v, r, mask, s)
      decreases s
    {
      HalveBlocks(v, r, mask, s);
      s := s / 2;
      mask := Xor(mask, Shl(mask, s));
      r := Or(And(Shr(r, s), mask), And(Shl(r, s), Not(mask)));
    }
  }

  // ----- the order in which the cursor visits words

  /** a comes before b in the scan order, which compares the least significant bit first. */
  predicate Before(a: seq<bool>, b: seq<bool>)
    requires |a| == |b|
  {
    a != [] && if a[0] != b[0] then b[0] else Before(a[1..], b[1..])
  }

  lemma {:induction false} NatSnoc(a: seq<bool>, x: bool)
    ensures Nat(a + [x]) == Nat(a) + if x then Pow2(|a|) else 0
  {
    if a != [] {
      NatSnoc(a[1..], x);
      assert (a + [x])[1..] == a[1..] + [x];
    }
  }

  /** The scan order is the numeric order of the reversed words. */
  lemma {:induction false} BeforeIsReversedOrder(a: seq<bool>, b: seq<bool>)
    requires |a| == |b|
    ensures Before(a, b) <==> Nat(Reverse(a)) < Nat(Reverse(b))
  {
    if a != [] {
      BeforeIsReversedOrder(a[1..], b[1..]);
      assert Reverse(a) == Reverse(a[1..]) + [a[0]] && Reverse(b) == Reverse(b[1..]) + [b[0]];
      NatSnoc(Reverse(a[1..]), a[0]);
      NatSnoc(Reverse(b[1..]), b[0]);
    }
  }

  /** Two words are ordered by the first bit in which they differ. */
  lemma {:induction false} BeforeAt(a: seq<bool>, b: seq<bool>, p: nat)
    requires |a| == |b| && p < |a|
    requires a[..p] == b[..p] && !a[p] && b[p]
    ensures Before(a, b) && !Before(b, a)
  {
    if p > 0 {
      assert a[0] == a[..p][0] == b[..p][0] == b[0];
      assert a[1..][..p - 1] == a[..p][1..] == b[..p][1..] == b[1..][..p - 1];
      BeforeAt(a[1..], b[1..], p - 1);
    }
  }

  lemma {:induction false} FirstDifference(a: seq<bool>, b: seq<bool>) returns (p: nat)
    requires |a| == |b|
    ensures p <= |a| && a[..p] == b[..p]
    ensures p == |a| ==> a == b && !Before(a, b)
    ensures p < |a| ==> a[p] != b[p] && Before(a, b) == b[p]
  {
    if a == [] || a[0] != b[0] {
      p := 0;
    } else {
      var q := FirstDifference(a[1..], b[1..]);
      p := q + 1;
      assert a[..p] == [a[0]] + a[1..][..q] && b[..p] == [b[0]] + b[1..][..q];
    }
  }

  /** Nothing that shares the head of b comes before b when b's tail is clear. */
  lemma ZeroTailIsLeast(h: seq<bool>, b: seq<bool>, n: nat)
    requires |h| == |b| && n <= |b| && h[..n] == b[..n] && forall i :: n <= i < |b| ==> !b[i]
    ensures !Before(h, b)
  {
    var p := FirstDifference(h, b);
    assert p < n ==> h[..n][p] == b[..n][p];
  }

  // ----- one step of the cursor

  /** `v |= ~m0; v = rev(v); v++; v = rev(v)`. */
  function Advance(v: Word, m0: Word): Word {
    Reverse(Inc(Reverse(Or(v, Not(m0)))))
  }

  lemma {:induction false} IncShape(a: seq<bool>, f: nat)
    requires f <= |a| && (forall i :: 0 <= i < f ==> a[i]) && (f < |a| ==> !a[f])
    ensures Inc(a) == Zeros(f) + if f < |a| then [true] + a[f + 1..] else []
  {
    if f > 0 {
      IncShape(a[1..], f - 1);
      assert Zeros(f) == [false] + Zeros(f - 1);
    }
  }

  /** The carry of the increment, seen from the other end of the word: it ends at the bit that is z
      from the low end. */
  lemma CarryShape(x: Word, z: nat)
    requires z < WIDTH && !x[z] && forall i :: z < i < WIDTH ==> x[i]
    ensures Reverse(Inc(Reverse(x))) == x[..z] + [true] + Zeros(WIDTH - 1 - z)
  {
    var f, r := WIDTH - 1 - z, Reverse(x);
    IncShape(r, f);
    var y := Inc(r);
    forall i | 0 <= i < WIDTH ensures Reverse(y)[i] == (x[..z] + [true] + Zeros(f))[i] {
      assert Reverse(y)[i] == y[WIDTH - 1 - i];
      assert i < z ==> y[WIDTH - 1 - i] == r[WIDTH - 1 - i] == x[i];
    }
  }

  lemma CarryAll(x: Word)
    requires forall i :: 0 <= i < WIDTH ==> x[i]
    ensures Reverse(Inc(Reverse(x))) == Zeros(WIDTH)
  {
    IncShape(Reverse(x), WIDTH);
  }

  lemma AdvanceAt(v: Word, k: nat, z: int)
    requires k <= WIDTH && -1 <= z < k && (z >= 0 ==> !v[z]) && forall i :: z < i < k ==> v[i]
    ensures Advance(v, Mask(k)) == if z < 0 then Zeros(WIDTH) else v[..z] + [true] + Zeros(WIDTH - 1 - z)
  {
    var x := Or(v, Not(Mask(k)));
    if z >= 0 {
      assert x[..z] == v[..z];
      CarryShape(x, z);
    } else {
      CarryAll(x);
    }
  }

  /** Either every masked bit was set and the cursor wraps to zero, or the highest
      clear masked bit z becomes set and every bit above it is cleared. */
  lemma AdvanceShape(v: Word, k: nat) returns (z: int)
    requires k <= WIDTH
    ensures -1 <= z < k
    ensures z == -1 ==> (forall i :: 0 <= i < k ==> v[i]) && Advance(v, Mask(k)) == Zeros(WIDTH)
    ensures z >= 0 ==> !v[z] && (forall i :: z < i < k ==> v[i])
    ensures z >= 0 ==> Advance(v, Mask(k)) == v[..z] + [true] + Zeros(WIDTH - 1 - z)
  {
    z := k - 1;
    while z >= 0 && v[z]
      invariant -1 <= z < k && forall i :: z < i < k ==> v[i]
    {
      z := z - 1;
    }
    AdvanceAt(v, k, z);
  }

  /** The cursor moves strictly forward until it wraps. */
  lemma AdvanceMovesForward(v: Word, k: nat)
    requires k <= WIDTH
    ensures Advance(v, Mask(k)) == Zeros(WIDTH) || Before(v, Advance(v, Mask(k)))
  {
    var z := AdvanceShape(v, k);
    if z >= 0 {
      BeforeAt(v, Advance(v, Mask(k)), z);
    }
  }

  /** The stretch of the scan order that a call with cursor v and smaller mask of
      k bits has to deal with: from v up to the cursor it returns. */
  predicate InStretch(h: Word, v: Word, k: nat)
    requires k <= WIDTH
  {
    !Before(h, v) && (Advance(v, Mask(k)) == Zeros(WIDTH) || Before(h, Advance(v, Mask(k))))
  }

  /** All words of the stretch share the masked bits of the cursor. */
  lemma StretchSharesBucket(h: Word, v: Word, k: nat)
    requires k <= WIDTH && InStretch(h, v, k)
    ensures h[..k] == v[..k]
  {
    var z := AdvanceShape(v, k);
    var p := FirstDifference(h, v);
    if p < k {
      assert v[p] == false && h[p] by {
        assert p < WIDTH && h[p] != v[p];
      }
      assert p <= z;
      var w := Advance(v, Mask(k));
      assert z >= 0 && w[z];
      if p < z {
        assert w[..p] == v[..p] && !w[p];
        BeforeAt(w, h, p);
      } else {
        assert h[..z + 1] == v[..z] + [true] == w[..z + 1];
        ZeroTailIsLeast(h, w, z + 1);
      }
      assert false;
    }
    assert h[..k] == h[..p][..k] == v[..p][..k] == v[..k];
  }

  // ----- the expansion loop over the larger table

  /** The buckets of the larger table (k1 bits) that the loop visits from cursor v:
      those that share the k0 low bits and are numerically no smaller. */
  predicate Visited(h: Word, v: Word, k0: nat, k1: nat)
    requires k0 <= k1 <= WIDTH
  {
    h[..k0] == v[..k0] && Nat(v[k0..k1]) <= Nat(h[k0..k1])
  }

  /** Among the bits the smaller table does not use, no set bit lies above a clear one. */
  predicate Aligned(v: Word, k0: nat, k1: nat)
    requires k0 <= k1 <= WIDTH
  {
    forall i, j :: k0 <= i < j < k1 && v[j] ==> v[i]
  }

  lemma {:induction false} NatMonotone(a: seq<bool>, b: seq<bool>)
    requires |a| == |b| && forall i :: 0 <= i < |a| && a[i] ==> b[i]
    ensures Nat(a) <= Nat(b)
  {
    if a != [] {
      NatMonotone(a[1..], b[1..]);
    }
  }

  lemma {:induction false} TopDifference(a: seq<bool>, b: seq<bool>, q: nat)
    requires |a| == |b| && q < |a| && a[q + 1..] == b[q + 1..] && !a[q] && b[q]
    ensures Nat(a) < Nat(b)
  {
    if q == 0 {
      assert a[1..] == b[1..];
    } else {
      assert a[1..][q..] == a[q + 1..] && b[1..][q..] == b[q + 1..];
      TopDifference(a[1..], b[1..], q - 1);
    }
  }

  lemma AlignedVisitsStretch(h: Word, v: Word, k0: nat, k1: nat)
    requires k0 <= k1 <= WIDTH && Aligned(v, k0, k1) && InStretch(h, v, k0)
    ensures Visited(h, v, k0, k1)
  {
    StretchSharesBucket(h, v, k0);
    var p := FirstDifference(h, v);
    assert p < WIDTH ==> !v[p];
    assert p >= k0;
    forall j | 0 <= j < k1 - k0 && v[k0..k1][j] ensures h[k0..k1][j] {
      assert v[k0 + j];
      assert k0 + j < p;
      assert h[k0 + j] == h[..p][k0 + j] == v[..p][k0 + j];
    }
    NatMonotone(v[k0..k1], h[k0..k1]);
  }

  /** When the cursor is not aligned, some hash of the stretch is not visited. */
  lemma UnalignedSkips(v: Word, k0: nat, k1: nat) returns (h: Word)
    requires k0 <= k1 <= WIDTH && !Aligned(v, k0, k1)
    ensures InStretch(h, v, k0) && h[..k0] == v[..k0] && !Visited(h, v, k0, k1)
  {
    var i, j :| k0 <= i < j < k1 && v[j] && !v[i];
    h := v[..i] + [true] + Zeros(WIDTH - 1 - i);
    BeforeAt(v, h, i);
    assert h[..k0] == v[..k0];
    var z := AdvanceShape(v, k0);
    if z >= 0 {
      assert h[..z] == v[..z] == Advance(v, Mask(k0))[..z];
      BeforeAt(h, Advance(v, Mask(k0)), z);
    }
    SparserIsSmaller(h, v, k0, k1, j);
  }

  /** A number whose bits from j up are clear is below one in which bit j is set, once
      they are compared above bit k0. */
  lemma SparserIsSmaller(h: Word, v: Word, k0: nat, k1: nat, j: nat)
    requires k0 <= j < k1 <= WIDTH && v[j] && forall t :: j <= t < k1 ==> !h[t]
    ensures Nat(h[k0..k1]) < Nat(v[k0..k1])
  {
    var q := k1 - 1;
    while !v[q]
      invariant j <= q < k1 && forall t :: q < t < k1 ==> !v[t]
      decreases q
    {
      q := q - 1;
    }
    assert h[k0..k1][q - k0 + 1..] == v[k0..k1][q - k0 + 1..];
    TopDifference(h[k0..k1], v[k0..k1], q - k0);
  }

  /** A call deals with its whole stretch exactly when the cursor it was given is aligned. */
  lemma VisitsStretchIffAligned(v: Word, k0: nat, k1: nat)
    requires k0 <= k1 <= WIDTH
    ensures (forall h: Word :: InStretch(h, v, k0) ==> Visited(h, v, k0, k1)) <==> Aligned(v, k0, k1)
  {
    if Aligned(v, k0, k1) {
      forall h: Word | InStretch(h, v, k0) ensures Visited(h, v, k0, k1) {
        AlignedVisitsStretch(h, v, k0, k1);
      }
    } else {
      var h := UnalignedSkips(v, k0, k1);
    }
  }

  /** Sizes that differ by a factor of two, or not at all, always align. */
  lemma DoublingAligns(v: Word, k0: nat, k1: nat)
    requires k0 <= k1 <= k0 + 1 <= WIDTH
    ensures Aligned(v, k0, k1)
  {
  }

  // ----- the increment of the expansion loop

  /** `(((v | m0) + 1) & ~m0) | (v & m0)`. */
  function NextExpansion(v: Word, m0: Word): Word {
    Or(And(Inc(Or(v, m0)), Not(m0)), And(v, m0))
  }

  lemma {:induction false} IncPastOnes(n: nat, x: seq<bool>)
    ensures Inc(Ones(n) + x) == Zeros(n) + Inc(x)
  {
    if n == 0 {
      assert Ones(0) + x == x;
    } else {
      assert (Ones(n) + x)[1..] == Ones(n - 1) + x;
      IncPastOnes(n - 1, x);
      assert Zeros(n) == [false] + Zeros(n - 1);
    }
  }

  lemma {:induction false} IncPrefix(x: seq<bool>, j: nat)
    requires j <= |x|
    ensures Inc(x)[..j] == Inc(x[..j])
  {
    if j > 0 {
      assert x[..j][1..] == x[1..][..j - 1];
      IncPrefix(x[1..], j - 1);
    }
  }

  lemma {:induction false} NatZero(a: seq<bool>)
    ensures Nat(a) == 0 <==> forall i :: 0 <= i < |a| ==> !a[i]
  {
    if a != [] {
      NatZero(a[1..]);
      assert forall i :: 0 < i < |a| ==> a[i] == a[1..][i - 1];
    }
  }

  lemma NextExpansionShape(v: Word, k0: nat)
    requires k0 <= WIDTH
    ensures NextExpansion(v, Mask(k0)) == v[..k0] + Inc(v[k0..])
  {
    assert Or(v, Mask(k0)) == Ones(k0) + v[k0..];
    IncPastOnes(k0, v[k0..]);
  }

  /** The bits under m0 stay, and those between the masks count up by one. */
  lemma NextExpansionCounts(v: Word, k0: nat, k1: nat)
    requires k0 <= k1 <= WIDTH
    ensures NextExpansion(v, Mask(k0))[..k0] == v[..k0]
    ensures Nat(NextExpansion(v, Mask(k0))[k0..k1])
         == if Nat(v[k0..k1]) + 1 == Pow2(k1 - k0) then 0 else Nat(v[k0..k1]) + 1
  {
    NextExpansionShape(v, k0);
    IncPrefix(v[k0..], k1 - k0);
    assert v[k0..][..k1 - k0] == v[k0..k1];
    assert NextExpansion(v, Mask(k0))[k0..k1] == Inc(v[k0..])[..k1 - k0];
    IncIsSuccessor(v[k0..k1]);
  }

  /** `v & (m0 ^ m1)` tells whether the bits between the masks have wrapped to zero. */
  lemma DifferenceBitsTest(w: Word, k0: nat, k1: nat)
    requires k0 <= k1 <= WIDTH
    ensures And(w, Xor(Mask(k0), Mask(k1))) == Zeros(WIDTH) <==> Nat(w[k0..k1]) == 0
  {
    NatZero(w[k0..k1]);
    var x := And(w, Xor(Mask(k0), Mask(k1)));
    assert forall i :: 0 <= i < WIDTH ==> (x[i] <==> k0 <= i < k1 && w[i]);
    if Nat(w[k0..k1]) == 0 {
      forall i | k0 <= i < k1 ensures !w[i] {
        assert w[k0..k1][i - k0] == w[i];
      }
      assert x == Zeros(WIDTH);
    } else {
      var i :| 0 <= i < k1 - k0 && w[k0..k1][i];
      assert x[k0 + i];
    }
  }
}
