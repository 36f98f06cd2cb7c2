/** Unsigned machine words, given by their bits with the least significant bit first.
    A word of n bits is a `seq<bool>` of length n, so that every bitwise operation,
    the carry of an increment and the reversal used by the scan cursor are visible. */
module Words {

  const WIDTH: nat := 64

  /** `unsigned long` on an LP64 machine. */
  type Word = w: seq<bool> | |w| == WIDTH witness seq(WIDTH, _ => false)

  function Zeros(n: nat): (r: seq<bool>)
    ensures |r| == n
    ensures forall i :: 0 <= i < n ==> !r[i]
  {
    seq(n, _ => false)
  }

  function Ones(n: nat): (r: seq<bool>)
    ensures |r| == n
    ensures forall i :: 0 <= i < n ==> r[i]
  {
    seq(n, _ => true)
  }

  function And(a: Word, b: Word): (r: Word)
    ensures forall i :: 0 <= i < WIDTH ==> (r[i] <==> a[i] && b[i])
  {
    seq(WIDTH, i requires 0 <= i < WIDTH => a[i] && b[i])
  }

  function Or(a: Word, b: Word): (r: Word)
    ensures forall i :: 0 <= i < WIDTH ==> (r[i] <==> a[i] || b[i])
  {
    seq(WIDTH, i requires 0 <= i < WIDTH => a[i] || b[i])
  }

  function Xor(a: Word, b: Word): (r: Word)
    ensures forall i :: 0 <= i < WIDTH ==> (r[i] <==> a[i] != b[i])
  {
    seq(WIDTH, i requires 0 <= i < WIDTH => a[i] != b[i])
  }

  function Not(a: Word): (r: Word)
    ensures forall i :: 0 <= i < WIDTH ==> (r[i] <==> !a[i])
  {
    seq(WIDTH, i requires 0 <= i < WIDTH => !a[i])
  }

  /** Logical shifts; bits pushed past either end are lost. */
  function Shl(a: Word, s: nat): (r: Word)
    ensures forall i :: 0 <= i < WIDTH ==> (r[i] <==> i >= s && a[i - s])
  {
    seq(WIDTH, i requires 0 <= i < WIDTH => i >= s && a[i - s])
  }

  function Shr(a: Word, s: nat): (r: Word)
    ensures forall i :: 0 <= i < WIDTH ==> (r[i] <==> i + s < WIDTH && a[i + s])
  {
    seq(WIDTH, i requires 0 <= i < WIDTH => i + s < WIDTH && a[i + s])
  }

  /** Adding one, modulo 2^n: a ripple of carries from the low end. */
  function Inc(a: seq<bool>): (r: seq<bool>)
    ensures |r| == |a|
  {
    if a == [] then [] else if a[0] then [false] + Inc(a[1..]) else [true] + a[1..]
  }

  /** The word whose low k bits are set: the `sizemask` of a table of 2^k buckets. */
  function Mask(k: nat): (r: Word)
    requires k <= WIDTH
    ensures forall i :: 0 <= i < WIDTH ==> (r[i] <==> i < k)
  {
    seq(WIDTH, i => i < k)
  }

  function Pow2(k: nat): (r: nat)
    ensures r > 0
  {
    if k == 0 then 1 else 2 * Pow2(k - 1)
  }

  /** The number a bit string stands for. */
  function Nat(a: seq<bool>): (r: nat)
    ensures r < Pow2(|a|)
  {
    if a == [] then 0 else (if a[0] then 1 else 0) + 2 * Nat(a[1..])
  }

  /** The n low bits of a number. */
  function Bits(x: nat, n: nat): (r: seq<bool>)
    ensures |r| == n
  {
    if n == 0 then [] else [x % 2 == 1] + Bits(x / 2, n - 1)
  }

  lemma {:induction false} NatBits(x: nat, n: nat)
    ensures x < Pow2(n) ==> Nat(Bits(x, n)) == x
  {
    if n > 0 {
      NatBits(x / 2, n - 1);
      assert Bits(x, n)[1..] == Bits(x / 2, n - 1);
    }
  }

  lemma {:induction false} BitsOfNat(a: seq<bool>)
    ensures Bits(Nat(a), |a|) == a
  {
    if a != [] {
      BitsOfNat(a[1..]);
      assert Nat(a) / 2 == Nat(a[1..]) && (Nat(a) % 2 == 1 <==> a[0]);
    }
  }

  lemma {:induction false} IncIsSuccessor(a: seq<bool>)
    ensures Nat(Inc(a)) == if Nat(a) + 1 == Pow2(|a|) then 0 else Nat(a) + 1
  {
    if a != [] {
      IncIsSuccessor(a[1..]);
      if a[0] {
        assert Inc(a)[1..] == Inc(a[1..]);
      } else {
        assert Inc(a)[1..] == a[1..];
      }
    }
  }

  lemma {:induction false} Pow2Monotone(i: nat, j: nat)
    requires i <= j
    ensures Pow2(i) <= Pow2(j)
    decreases j
  {
    if i < j {
      Pow2Monotone(i, j - 1);
    }
  }

  /** Bits above a zero tail add nothing. */
  lemma {:induction false} NatPadded(a: seq<bool>, n: nat)
    ensures Nat(a + Zeros(n)) == Nat(a)
  {
    if a != [] {
      NatPadded(a[1..], n);
      assert (a + Zeros(n))[1..] == a[1..] + Zeros(n);
    } else if n > 0 {
      NatPadded(a, n - 1);
      assert (a + Zeros(n))[1..] == a + Zeros(n - 1);
    }
  }

  /** `n.sizemask = realsize - 1` of a power of two is a low mask. */
  lemma {:induction false} BitsOfPow2Minus1(k: nat, n: nat)
    requires k <= n
    ensures Bits(Pow2(k) - 1, n) == Ones(k) + Zeros(n - k)
  {
    if k > 0 {
      BitsOfPow2Minus1(k - 1, n - 1);
      assert Pow2(k) - 1 == 2 * (Pow2(k - 1) - 1) + 1;
      assert Ones(k) == [true] + Ones(k - 1);
    } else if n > 0 {
      BitsOfPow2Minus1(0, n - 1);
      assert Zeros(n) == [false] + Zeros(n - 1);
    }
  }

  lemma MaskOfSize(k: nat)
    requires k <= WIDTH
    ensures Bits(Pow2(k) - 1, WIDTH) == Mask(k)
  {
    BitsOfPow2Minus1(k, WIDTH);
  }

  /** A masked word indexes into a table of the mask's size. */
  lemma MaskedBelow(h: Word, k: nat)
    requires k <= WIDTH
    ensures Nat(And(h, Mask(k))) == Nat(h[..k]) < Pow2(k)
  {
    NatPadded(h[..k], WIDTH - k);
    assert And(h, Mask(k)) == h[..k] + Zeros(WIDTH - k);
  }
}
