/** rand.c: the 48-bit linear congruential generator of drand48(), in three limbs of 16 bits. */
module Rand {

  const B := 0x1_0000
  const M48 := 0x1_0000_0000_0000
  const MULTIPLIER := 0x5_DEEC_E66D
  const INCREMENT := 0xB

  /** LOW and HIGH of a number of at most 32 bits. */
  function Low(x: nat): (r: nat)
    ensures r < B
  {
    x % B
  }

  function High(x: nat): (r: nat)
    ensures x < B * B ==> r < B
  {
    x / B
  }

  function Carry(x: nat, y: nat): (r: nat)
    ensures r <= 1 && (x < B && y < B ==> x + y == Low(x + y) + r * B)
  {
    if x + y > B - 1 then 1 else 0
  }

  /** The number that three limbs stand for. */
  function Joined(x0: nat, x1: nat, x2: nat): nat { x0 + x1 * B + x2 * (B * B) }

  lemma JoinedBelow(x0: nat, x1: nat, x2: nat)
    requires x0 < B && x1 < B && x2 < B
    ensures Joined(x0, x1, x2) < M48
  {
  }

  /** The step that the standard defines for drand48(). */
  function NextOf(x: nat): nat { (MULTIPLIER * x + INCREMENT) % M48 }

  lemma Products(x0: nat, x1: nat, x2: nat)
    ensures MULTIPLIER * Joined(x0, x1, x2) == 0xE66D * x0 + (0xE66D * x1 + 0xDEEC * x0) * B
      + (0xE66D * x2 + 0xDEEC * x1 + 0x5 * x0) * (B * B) + (0xDEEC * x2 + 0x5 * x1) * M48 + 0x5 * x2 * (M48 * B)
  {
  }

  lemma ModAway(x: nat, q: nat, r: nat)
    requires x == q * M48 + r && r < M48
    ensures x % M48 == r
  {
  }

  /** The limbs of the product, with every carry accounted for. */
  lemma LimbsStep(x0: nat, x1: nat, x2: nat, y0: nat, y1: nat, y2: nat, up0: nat, up1: nat, top: nat)
    requires 0xE66D * x0 + INCREMENT == y0 + up0 * B
    requires 0xE66D * x1 + 0xDEEC * x0 + up0 == y1 + up1 * B
    requires 0xE66D * x2 + 0xDEEC * x1 + 0x5 * x0 + up1 == y2 + top * B
    requires y0 < B && y1 < B && y2 < B
    ensures Joined(y0, y1, y2) == NextOf(Joined(x0, x1, x2))
  {
    Products(x0, x1, x2);
    JoinedBelow(y0, y1, y2);
    var q := top + 0xDEEC * x2 + 0x5 * x1 + 0x5 * x2 * B;
    ModAway(MULTIPLIER * Joined(x0, x1, x2) + INCREMENT, q, Joined(y0, y1, y2));
  }

  /** The multiplier is odd, so every state has exactly one predecessor. */
  function PreviousOf(y: nat): nat { (0xDFE0_5BCB_1365 * (y + (M48 - INCREMENT))) % M48 }

  lemma Undone(x: nat)
    requires x < M48
    ensures PreviousOf(NextOf(x)) == x
  {
    var k := (MULTIPLIER * x + INCREMENT) / M48;
    var y := NextOf(x);
    assert MULTIPLIER * x + INCREMENT == k * M48 + y;
    var g: nat := 0xDFE0_5BCB_1365;
    assert g * MULTIPLIER == 0x5_2255_86E9 * M48 + 1;
    var t := y + (M48 - INCREMENT);
    assert t == MULTIPLIER * x - k * M48 + M48;
    var q := 0x5_2255_86E9 * x - g * k + g;
    assert g * t == q * M48 + x;
    Quotient(g * t, q, x);
  }

  lemma Quotient(a: nat, q: int, r: nat)
    requires a == q * M48 + r && r < M48
    ensures a % M48 == r
  {
  }

  class Generator {
    var x0: nat
    var x1: nat
    var x2: nat

    predicate Valid() reads this { x0 < B && x1 < B && x2 < B }

    function State(): nat reads this { Joined(x0, x1, x2) }

    /** The static initialisers. */
    constructor ()
      ensures Valid() && State() == 0x1234_ABCD_330E
    {
      x0, x1, x2 := 0x330E, 0xABCD, 0x1234;
    }

    /** redisSrand48. */
    method Seed(seedval: int)
      requires -0x8000_0000 <= seedval < 0x8000_0000
      modifies this
      ensures Valid() && State() == (seedval % 0x1_0000_0000) * B + 0x330E
    {
      var u := seedval % 0x1_0000_0000;
      x0, x1, x2 := 0x330E, Low(u), High(u);
    }

    /** next. */
    method Next()
      requires Valid()
      modifies this
      ensures Valid() && State() == NextOf(old(State()))
    {
      x0, x1, x2 := NextLimbs(x0, x1, x2);
    }

    /** redisLrand48: the 31 high bits of the new state. */
    method Lrand48() returns (r: nat)
      requires Valid()
      modifies this
      ensures Valid() && State() == NextOf(old(State()))
      ensures r == State() / 0x2_0000 && r < 0x8000_0000
    {
      Next();
      r := x2 * 0x8000 + x1 / 2;
      TopBits(x0, x1, x2);
    }
  }

  /** The arithmetic of next, on 16-bit limbs with 32-bit intermediate results. */
  method NextLimbs(x0: nat, x1: nat, x2: nat) returns (y0: nat, y1: nat, y2: nat)
    requires x0 < B && x1 < B && x2 < B
    ensures y0 < B && y1 < B && y2 < B && Joined(y0, y1, y2) == NextOf(Joined(x0, x1, x2))
  {
    var p := 0xE66D * x0;
    var p0, p1 := Low(p), High(p);
    var carry0 := Carry(p0, INCREMENT);
    p0 := Low(p0 + INCREMENT);
    var carry1 := Carry(p1, carry0);
    p1 := Low(p1 + carry0);
    LowLimb(p, p0, carry0, p1, carry1);
    ghost var mid := p1;
    var q := 0xE66D * x1;
    carry0 := Carry(p1, Low(q));
    p1 := Low(p1 + Low(q));
    var r := 0xDEEC * x0;
    var carry2 := Carry(p1, Low(r));
    var up := carry0 + carry1 + carry2 + High(q) + High(r);
    var sum := up + 0xE66D * x2 + 0xDEEC * x1 + 0x5 * x0;
    y0, y1, y2 := p0, Low(p1 + Low(r)), Low(sum % 0x1_0000_0000);
    MiddleLimb(mid, q, r, carry1, p1, carry0, carry2);
    Wraps(sum);
    LimbsStep(x0, x1, x2, y0, y1, y2, mid + carry1 * B, up, sum / B);
  }

  lemma LowLimb(p: nat, p0: nat, carry0: nat, p1: nat, carry1: nat)
    requires p < B * B && p0 == Low(Low(p) + INCREMENT) && carry0 == Carry(Low(p), INCREMENT)
    requires p1 == Low(High(p) + carry0) && carry1 == Carry(High(p), carry0)
    ensures p + INCREMENT == p0 + (p1 + carry1 * B) * B
  {
  }

  /** The last sum may wrap around 32 bits, which leaves its low 16 bits alone. */
  lemma Wraps(sum: nat)
    ensures Low(sum % 0x1_0000_0000) == Low(sum)
  {
  }

  lemma MiddleLimb(mid: nat, q: nat, r: nat, carry1: nat, p1: nat, carry0: nat, carry2: nat)
    requires mid < B && p1 == Low(mid + Low(q)) && carry0 == Carry(mid, Low(q)) && carry2 == Carry(p1, Low(r))
    ensures q + r + (mid + carry1 * B) == Low(p1 + Low(r)) + (carry0 + carry1 + carry2 + High(q) + High(r)) * B
  {
  }

  lemma TopBits(x0: nat, x1: nat, x2: nat)
    requires x0 < B && x1 < B && x2 < B
    ensures Joined(x0, x1, x2) / 0x2_0000 == x2 * 0x8000 + x1 / 2 < 0x8000_0000
  {
    var r := x2 * 0x8000 + x1 / 2;
    assert Joined(x0, x1, x2) == r * 0x2_0000 + (x1 % 2) * B + x0;
  }
}
