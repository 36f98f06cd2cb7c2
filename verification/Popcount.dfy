/** bitops.c, redisPopcount: counting bits sixteen bytes at a time. */
module Popcount {
  import opened Bytes

  /** The number of set bits of a byte. */
  function Ones(b: nat): (n: nat)
    requires b < 256
    ensures n <= 8
  {
    b % 2 + b / 2 % 2 + b / 4 % 2 + b / 8 % 2 + b / 16 % 2 + b / 32 % 2 + b / 64 % 2 + b / 128
  }

  /** Bitwise and. */
  function And(x: nat, y: nat): nat
  {
    if x == 0 || y == 0 then 0 else (if x % 2 == 1 && y % 2 == 1 then 1 else 0) + 2 * And(x / 2, y / 2)
  }

  // ----- and, lane by lane

  lemma AndBit(x: nat, y: nat, a: nat, b: nat)
    requires a <= 1 && b <= 1
    ensures And(2 * x + a, 2 * y + b) == a * b + 2 * And(x, y)
  {
    if 2 * x + a != 0 && 2 * y + b != 0 {
      assert (2 * x + a) / 2 == x && (2 * y + b) / 2 == y;
    }
  }

  /** A mask of ones keeps a lane of two bits, a mask of zeros clears it. */
  lemma AndOnes4(x: nat, y: nat, c: nat)
    requires c < 4
    ensures And(4 * x + c, 4 * y + 3) == 4 * And(x, y) + c
  {
    var a, b := c % 2, c / 2;
    AndBit(2 * x + b, 2 * y + 1, a, 1);
    AndBit(x, y, b, 1);
  }

  lemma AndZeros4(x: nat, y: nat, c: nat)
    requires c < 4
    ensures And(4 * x + c, 4 * y) == 4 * And(x, y)
  {
    var a, b := c % 2, c / 2;
    AndBit(2 * x + b, 2 * y, a, 0);
    AndBit(x, y, b, 0);
  }

  lemma AndLane4(x: nat, y: nat, c: nat)
    requires c < 4
    ensures And(4 * x + c, 4 * y + 3) == 4 * And(x, y) + c
    ensures And(4 * x + c, 4 * y) == 4 * And(x, y)
  {
    AndOnes4(x, y, c);
    AndZeros4(x, y, c);
  }

  lemma AndLane16(x: nat, y: nat, c: nat)
    requires c < 16
    ensures And(16 * x + c, 16 * y + 15) == 16 * And(x, y) + c
    ensures And(16 * x + c, 16 * y) == 16 * And(x, y)
  {
    var a, b := c % 4, c / 4;
    AndLane4(4 * x + b, 4 * y + 3, a);
    AndLane4(x, y, b);
    AndLane4(4 * x + b, 4 * y, a);
  }

  // ----- masks of n lanes

  function Mask5(n: nat): nat { if n == 0 then 0 else 1 + 4 * Mask5(n - 1) }
  function Mask3(n: nat): nat { if n == 0 then 0 else 3 + 16 * Mask3(n - 1) }
  function MaskF(n: nat): nat { if n == 0 then 0 else 15 + 256 * MaskF(n - 1) }

  lemma Masks()
    ensures Mask5(16) == 0x5555_5555 && Mask3(8) == 0x3333_3333 && MaskF(4) == 0x0F0F_0F0F
  {
    assert Mask5(8) == 0x5555;
    assert Mask3(4) == 0x3333;
  }

  // ----- lanes that hold counts

  /** The number whose lanes, each w wide, hold the given values, the lowest lane first. */
  function Lanes(w: nat, s: seq<nat>): nat { if s == [] then 0 else s[0] + w * Lanes(w, s[1..]) }

  predicate Below(s: seq<nat>, m: nat) { forall i :: 0 <= i < |s| ==> s[i] <= m }

  /** How many of the two bits of a pair are set. */
  function PairOnes(c: nat): nat { c - c / 2 }

  function Pairs(s: seq<nat>): (r: seq<nat>)
    requires Below(s, 3)
    ensures |r| == |s| && Below(r, 2)
  {
    seq(|s|, i requires 0 <= i < |s| => PairOnes(s[i]))
  }

  /** Neighbouring lanes added up. */
  function Joined(s: seq<nat>, m: nat): (r: seq<nat>)
    requires |s| % 2 == 0 && Below(s, m)
    ensures 2 * |r| == |s| && Below(r, 2 * m)
  {
    seq(|s| / 2, i requires 0 <= i < |s| / 2 => s[2 * i] + s[2 * i + 1])
  }

  lemma {:induction false} EveryOther(y: nat, c: nat, m: nat)
    requires c < 4
    ensures And((4 * y + c) / 2, 1 + 4 * m) == c / 2 + 4 * And(y / 2, m)
  {
    var b := c / 2;
    assert (4 * y + c) / 2 == 2 * y + b;
    AndBit(y, 2 * m, b, 1);
    AndBit(y / 2, m, y % 2, 0);
    assert 2 * (y / 2) + y % 2 == y;
  }

  lemma TwoLanes(w: nat, s: seq<nat>)
    requires |s| >= 2
    ensures Lanes(w, s) == s[0] + w * (s[1] + w * Lanes(w, s[2..]))
  {
    assert s[1..][1..] == s[2..];
  }

  lemma JoinedLanes(w: nat, s: seq<nat>, m: nat)
    requires |s| >= 2 && |s| % 2 == 0 && Below(s, m)
    ensures Lanes(w, Joined(s, m)) == s[0] + s[1] + w * Lanes(w, Joined(s[2..], m))
  {
    assert Joined(s, m)[1..] == Joined(s[2..], m);
  }

  /** aux - ((aux >> 1) & 0x55555555). */
  lemma {:induction false} CountPairs(s: seq<nat>)
    requires Below(s, 3)
    ensures And(Lanes(4, s) / 2, Mask5(|s|)) <= Lanes(4, s)
    ensures Lanes(4, s) - And(Lanes(4, s) / 2, Mask5(|s|)) == Lanes(4, Pairs(s))
  {
    if s != [] {
      CountPairs(s[1..]);
      EveryOther(Lanes(4, s[1..]), s[0], Mask5(|s| - 1));
      assert Pairs(s)[1..] == Pairs(s[1..]);
    }
  }

  lemma {:induction false} AddPairs(y: nat, e: nat, c: nat, m: nat)
    requires c <= 2 && e <= 2
    ensures var z := c + 4 * (e + 4 * y);
      And(z, 3 + 16 * m) + And(z / 4, 3 + 16 * m) == c + e + 16 * (And(y, m) + And(y / 4, m))
  {
    var z := c + 4 * (e + 4 * y);
    assert z / 4 == 4 * y + e;
    AndLane4(4 * y + e, 4 * m, c);
    AndLane4(y, m, e);
    AndLane4(y, 4 * m, e);
    AndLane4(y / 4, m, y % 4);
    assert 4 * (y / 4) + y % 4 == y;
  }

  /** (aux & 0x33333333) + ((aux >> 2) & 0x33333333). */
  lemma {:induction false} CountNibbles(s: seq<nat>)
    requires |s| % 2 == 0 && Below(s, 2)
    ensures And(Lanes(4, s), Mask3(|s| / 2)) + And(Lanes(4, s) / 4, Mask3(|s| / 2)) == Lanes(16, Joined(s, 2))
  {
    if s != [] {
      var t := s[2..];
      CountNibbles(t);
      TwoLanes(4, s);
      JoinedLanes(16, s, 2);
      AddPairs(Lanes(4, t), s[1], s[0], Mask3(|t| / 2));
    }
  }

  lemma {:induction false} AddNibbles(y: nat, g: nat, f: nat, m: nat)
    requires f <= 4 && g <= 4 && y % 16 <= 4
    ensures var z := f + 16 * (g + 16 * y); And(z + z / 16, 15 + 256 * m) == f + g + 256 * And(y + y / 16, m)
  {
    var z := f + 16 * (g + 16 * y);
    assert z / 16 == 16 * y + g;
    var w := 17 * y + g;
    assert z + z / 16 == 16 * w + (f + g);
    AndLane16(w, 16 * m, f + g);
    var u := y + y / 16;
    assert w == 16 * u + (y % 16 + g);
    AndLane16(u, m, y % 16 + g);
  }

  lemma {:induction false} LowLane(s: seq<nat>)
    requires Below(s, 4)
    ensures Lanes(16, s) % 16 <= 4
  {
  }

  /** The masks and sums of two lanes more. */
  lemma TwoLanesMore(s: seq<nat>, y: nat, j: nat, m: nat)
    requires |s| >= 2 && |s| % 2 == 0 && Below(s, 4) && y % 16 <= 4
    requires Lanes(16, s) == s[0] + 16 * (s[1] + 16 * y) && And(y + y / 16, m) == j
    ensures And(Lanes(16, s) + Lanes(16, s) / 16, 15 + 256 * m) == s[0] + s[1] + 256 * j
  {
    AddNibbles(y, s[1], s[0], m);
  }

  /** (aux + (aux >> 4)) & 0x0F0F0F0F: a lane of four bits holds at most four, so sums fit. */
  lemma {:induction false} CountBytes(s: seq<nat>)
    requires |s| % 2 == 0 && Below(s, 4)
    ensures And(Lanes(16, s) + Lanes(16, s) / 16, MaskF(|s| / 2)) == Lanes(256, Joined(s, 4))
  {
    if s != [] {
      var t := s[2..];
      CountBytes(t);
      LowLane(t);
      TwoLanes(16, s);
      JoinedLanes(256, s, 4);
      TwoLanesMore(s, Lanes(16, t), Lanes(256, Joined(t, 4)), MaskF(|t| / 2));
    }
  }

  /** The three steps and the whole computation on one 32-bit word. */
  function PairStep(aux: nat): nat {
    var r := aux - And(aux / 2, 0x5555_5555);
    if r < 0 then 0 else r
  }

  function NibbleStep(aux: nat): nat { And(aux, 0x3333_3333) + And(aux / 4, 0x3333_3333) }

  function ByteStep(aux: nat): nat { And(aux + aux / 16, 0x0F0F_0F0F) }

  /** The sum of the four bytes of a word, in its highest byte after a multiplication. */
  function Top(x: nat): nat { ((x * 0x0101_0101) % 0x1_0000_0000) / 0x100_0000 }

  function FourLanes(s0: nat, s1: nat, s2: nat, s3: nat): nat { s0 + 256 * (s1 + 256 * (s2 + 256 * s3)) }

  lemma Spread(s0: nat, s1: nat, s2: nat, s3: nat)
    requires s0 <= 8 && s1 <= 8 && s2 <= 8 && s3 <= 8
    ensures Top(FourLanes(s0, s1, s2, s3)) == s0 + s1 + s2 + s3
  {
    Product(s0, s1, s2, s3);
    Middle(s0 + 256 * (s0 + s1) + 65536 * (s0 + s1 + s2), s0 + s1 + s2 + s3,
           (s1 + s2 + s3) + 256 * (s2 + s3) + 65536 * s3);
  }

  lemma Product(s0: nat, s1: nat, s2: nat, s3: nat)
    ensures FourLanes(s0, s1, s2, s3) * 0x0101_0101
      == (s0 + 256 * (s0 + s1) + 65536 * (s0 + s1 + s2)) + 0x100_0000 * (s0 + s1 + s2 + s3)
        + 0x1_0000_0000 * ((s1 + s2 + s3) + 256 * (s2 + s3) + 65536 * s3)
  {
  }

  lemma Middle(low: nat, s: nat, high: nat)
    requires low < 0x100_0000 && s < 256
    ensures ((low + 0x100_0000 * s + 0x1_0000_0000 * high) % 0x1_0000_0000) / 0x100_0000 == s
  {
    var t := low + 0x100_0000 * s;
    assert (t + 0x1_0000_0000 * high) % 0x1_0000_0000 == t;
  }

  // ----- one byte

  lemma PairsOfByte(b: nat)
    ensures b == 4 * (b / 4) + b % 4 && b / 4 == 4 * (b / 16) + b / 4 % 4 && b / 16 == 4 * (b / 64) + b / 16 % 4
  {
  }

  /** The four pairs of a byte. */
  function BytePairs(b: nat): (s: seq<nat>)
    requires b < 256
    ensures |s| == 4 && Below(s, 3) && b == s[0] + 4 * s[1] + 16 * s[2] + 64 * s[3]
  {
    PairsOfByte(b);
    [b % 4, b / 4 % 4, b / 16 % 4, b / 64]
  }

  /** The set bits of a byte, pair by pair. */
  function Sum4(p: seq<nat>): nat
    requires |p| == 4 && Below(p, 3)
  {
    PairOnes(p[0]) + PairOnes(p[1]) + (PairOnes(p[2]) + PairOnes(p[3]))
  }

  lemma PairBits(x: nat)
    ensures PairOnes(x % 4) == x % 2 + x / 2 % 2
  {
  }

  lemma ByteOnes(b: nat)
    requires b < 256
    ensures Ones(b) == Sum4(BytePairs(b)) <= 8
  {
    PairBits(b);
    PairBits(b / 4);
    PairBits(b / 16);
    PairBits(b / 64);
    assert b / 4 / 2 == b / 8 && b / 16 / 2 == b / 32 && b / 64 / 2 == b / 128;
    assert b / 64 % 4 == b / 64 && b / 128 % 2 == b / 128;
  }

  // ----- a word of four bytes

  lemma {:induction false} ByteLanes(p: seq<nat>, rest: seq<nat>)
    requires |p| == 4
    ensures Lanes(4, p + rest) == p[0] + 4 * p[1] + 16 * p[2] + 64 * p[3] + 256 * Lanes(4, rest)
  {
    LanesStep(p, rest);
    LanesStep(p[1..], rest);
    LanesStep(p[2..], rest);
    LanesStep(p[3..], rest);
    assert p[1..][1..] == p[2..] && p[2..][1..] == p[3..] && p[3..][1..] + rest == rest;
  }

  lemma {:induction false} LanesStep(p: seq<nat>, rest: seq<nat>)
    requires p != []
    ensures Lanes(4, p + rest) == p[0] + 4 * Lanes(4, p[1..] + rest)
  {
    assert (p + rest)[1..] == p[1..] + rest;
  }

  function Four(p: seq<nat>, q: seq<nat>, r: seq<nat>, u: seq<nat>): (s: seq<nat>)
    requires |p| == |q| == |r| == |u| == 4
    ensures |s| == 16
    ensures s[0] == p[0] && s[1] == p[1] && s[2] == p[2] && s[3] == p[3]
    ensures s[4] == q[0] && s[5] == q[1] && s[6] == q[2] && s[7] == q[3]
    ensures s[8] == r[0] && s[9] == r[1] && s[10] == r[2] && s[11] == r[3]
    ensures s[12] == u[0] && s[13] == u[1] && s[14] == u[2] && s[15] == u[3]
  {
    p + (q + (r + u))
  }

  lemma FourLanesOf(p: seq<nat>, q: seq<nat>, r: seq<nat>, u: seq<nat>)
    requires |p| == |q| == |r| == |u| == 4
    ensures Lanes(4, Four(p, q, r, u)) == FourLanes(
      p[0] + 4 * p[1] + 16 * p[2] + 64 * p[3], q[0] + 4 * q[1] + 16 * q[2] + 64 * q[3],
      r[0] + 4 * r[1] + 16 * r[2] + 64 * r[3], u[0] + 4 * u[1] + 16 * u[2] + 64 * u[3])
  {
    ByteLanes(p, q + (r + u));
    ByteLanes(q, r + u);
    ByteLanes(r, u);
    ByteLanes(u, []);
    assert u + [] == u && Lanes(4, []) == 0;
  }

  lemma JoinedSums(s: seq<nat>)
    requires |s| == 16 && Below(s, 3)
    ensures Joined(Joined(Pairs(s), 2), 4) == [
      PairOnes(s[0]) + PairOnes(s[1]) + (PairOnes(s[2]) + PairOnes(s[3])),
      PairOnes(s[4]) + PairOnes(s[5]) + (PairOnes(s[6]) + PairOnes(s[7])),
      PairOnes(s[8]) + PairOnes(s[9]) + (PairOnes(s[10]) + PairOnes(s[11])),
      PairOnes(s[12]) + PairOnes(s[13]) + (PairOnes(s[14]) + PairOnes(s[15]))]
  {
    JoinedTwice(Pairs(s));
  }

  lemma JoinedTwice(s: seq<nat>)
    requires |s| == 16 && Below(s, 2)
    ensures Joined(Joined(s, 2), 4) == [
      s[0] + s[1] + (s[2] + s[3]), s[4] + s[5] + (s[6] + s[7]),
      s[8] + s[9] + (s[10] + s[11]), s[12] + s[13] + (s[14] + s[15])]
  {
    var f := Joined(s, 2);
    assert f[0] == s[0] + s[1] && f[1] == s[2] + s[3] && f[2] == s[4] + s[5] && f[3] == s[6] + s[7];
    assert f[4] == s[8] + s[9] && f[5] == s[10] + s[11] && f[6] == s[12] + s[13] && f[7] == s[14] + s[15];
    var g := Joined(f, 4);
    assert g[0] == f[0] + f[1] && g[1] == f[2] + f[3] && g[2] == f[4] + f[5] && g[3] == f[6] + f[7];
  }

  lemma LanesOfFour(a: nat, b: nat, c: nat, d: nat)
    ensures Lanes(256, [a, b, c, d]) == FourLanes(a, b, c, d)
  {
    assert [a, b, c, d][1..] == [b, c, d] && [b, c, d][1..] == [c, d] && [c, d][1..] == [d] && [d][1..] == [];
    assert Lanes(256, [d]) == d + 256 * Lanes(256, []);
    assert Lanes(256, [c, d]) == c + 256 * Lanes(256, [d]);
    assert Lanes(256, [b, c, d]) == b + 256 * Lanes(256, [c, d]);
  }

  lemma PairStepCounts(p: seq<nat>)
    requires |p| == 16 && Below(p, 3)
    ensures PairStep(Lanes(4, p)) == Lanes(4, Pairs(p))
  {
    Masks();
    CountPairs(p);
  }

  lemma NibbleStepCounts(p: seq<nat>)
    requires |p| == 16 && Below(p, 2)
    ensures NibbleStep(Lanes(4, p)) == Lanes(16, Joined(p, 2))
  {
    Masks();
    CountNibbles(p);
  }

  lemma ByteStepCounts(p: seq<nat>)
    requires |p| == 8 && Below(p, 4)
    ensures ByteStep(Lanes(16, p)) == Lanes(256, Joined(p, 4))
  {
    Masks();
    CountBytes(p);
  }

  /** The computation on one 32-bit word, of which s is the pairs of bits. */
  method CountPairsOf(aux: nat, ghost s: seq<nat>) returns (n: nat)
    requires |s| == 16 && Below(s, 3) && aux == Lanes(4, s)
    ensures n == Top(Lanes(256, Joined(Joined(Pairs(s), 2), 4)))
  {
    PairStepCounts(s);
    n := PairStep(aux);
    NibbleStepCounts(Pairs(s));
    n := NibbleStep(n);
    ByteStepCounts(Joined(Pairs(s), 2));
    n := ByteStep(n);
    n := Top(n);
  }

  /** A word of four bytes counts its bits right, whatever the order of the bytes in memory. */
  method CountWord(b0: nat, b1: nat, b2: nat, b3: nat) returns (n: nat)
    requires b0 < 256 && b1 < 256 && b2 < 256 && b3 < 256
    ensures n == Ones(b0) + Ones(b1) + Ones(b2) + Ones(b3)
  {
    ByteOnes(b0);
    ByteOnes(b1);
    ByteOnes(b2);
    ByteOnes(b3);
    n := CountFour(FourLanes(b0, b1, b2, b3), BytePairs(b0), BytePairs(b1), BytePairs(b2), BytePairs(b3));
  }

  method CountFour(aux: nat, ghost p: seq<nat>, ghost q: seq<nat>, ghost r: seq<nat>, ghost u: seq<nat>)
    returns (n: nat)
    requires |p| == |q| == |r| == |u| == 4 && Below(p, 3) && Below(q, 3) && Below(r, 3) && Below(u, 3)
    requires aux == FourLanes(
      p[0] + 4 * p[1] + 16 * p[2] + 64 * p[3], q[0] + 4 * q[1] + 16 * q[2] + 64 * q[3],
      r[0] + 4 * r[1] + 16 * r[2] + 64 * r[3], u[0] + 4 * u[1] + 16 * u[2] + 64 * u[3])
    ensures n == Sum4(p) + Sum4(q) + Sum4(r) + Sum4(u)
  {
    ghost var s := Four(p, q, r, u);
    FourBelow(p, q, r, u);
    FourLanesOf(p, q, r, u);
    FourSums(p, q, r, u);
    LanesOfFour(Sum4(p), Sum4(q), Sum4(r), Sum4(u));
    Spread(Sum4(p), Sum4(q), Sum4(r), Sum4(u));
    n := CountPairsOf(aux, s);
  }

  lemma FourSums(p: seq<nat>, q: seq<nat>, r: seq<nat>, u: seq<nat>)
    requires |p| == |q| == |r| == |u| == 4 && Below(p, 3) && Below(q, 3) && Below(r, 3) && Below(u, 3)
    requires Below(Four(p, q, r, u), 3)
    ensures Joined(Joined(Pairs(Four(p, q, r, u)), 2), 4) == [Sum4(p), Sum4(q), Sum4(r), Sum4(u)]
  {
    JoinedSums(Four(p, q, r, u));
  }

  lemma FourBelow(p: seq<nat>, q: seq<nat>, r: seq<nat>, u: seq<nat>)
    requires |p| == |q| == |r| == |u| == 4 && Below(p, 3) && Below(q, 3) && Below(r, 3) && Below(u, 3)
    ensures Below(Four(p, q, r, u), 3)
  {
  }

  // ----- the table

  /** bitsinbyte, sixteen entries in a row. */
  const BITSINBYTE: seq<seq<nat>> := [
    [0, 1, 1, 2, 1, 2, 2, 3, 1, 2, 2, 3, 2, 3, 3, 4],
    [1, 2, 2, 3, 2, 3, 3, 4, 2, 3, 3, 4, 3, 4, 4, 5],
    [1, 2, 2, 3, 2, 3, 3, 4, 2, 3, 3, 4, 3, 4, 4, 5],
    [2, 3, 3, 4, 3, 4, 4, 5, 3, 4, 4, 5, 4, 5, 5, 6],
    [1, 2, 2, 3, 2, 3, 3, 4, 2, 3, 3, 4, 3, 4, 4, 5],
    [2, 3, 3, 4, 3, 4, 4, 5, 3, 4, 4, 5, 4, 5, 5, 6],
    [2, 3, 3, 4, 3, 4, 4, 5, 3, 4, 4, 5, 4, 5, 5, 6],
    [3, 4, 4, 5, 4, 5, 5, 6, 4, 5, 5, 6, 5, 6, 6, 7],
    [1, 2, 2, 3, 2, 3, 3, 4, 2, 3, 3, 4, 3, 4, 4, 5],
    [2, 3, 3, 4, 3, 4, 4, 5, 3, 4, 4, 5, 4, 5, 5, 6],
    [2, 3, 3, 4, 3, 4, 4, 5, 3, 4, 4, 5, 4, 5, 5, 6],
    [3, 4, 4, 5, 4, 5, 5, 6, 4, 5, 5, 6, 5, 6, 6, 7],
    [2, 3, 3, 4, 3, 4, 4, 5, 3, 4, 4, 5, 4, 5, 5, 6],
    [3, 4, 4, 5, 4, 5, 5, 6, 4, 5, 5, 6, 5, 6, 6, 7],
    [3, 4, 4, 5, 4, 5, 5, 6, 4, 5, 5, 6, 5, 6, 6, 7],
    [4, 5, 5, 6, 5, 6, 6, 7, 5, 6, 6, 7, 6, 7, 7, 8]]

  function BitsInByte(b: Byte): (n: nat)
  {
    BITSINBYTE[b / 16][b % 16]
  }

  lemma NibbleRow(j: nat)
    requires j < 16
    ensures BITSINBYTE[0][j] == j % 2 + j / 2 % 2 + j / 4 % 2 + j / 8
  {
  }

  lemma LowRows(r: nat, j: nat)
    requires r < 8 && j < 16
    ensures BITSINBYTE[r][j] == BITSINBYTE[0][r] + BITSINBYTE[0][j]
  {
  }

  lemma HighRows(r: nat, j: nat)
    requires 8 <= r < 16 && j < 16
    ensures BITSINBYTE[r][j] == BITSINBYTE[0][r] + BITSINBYTE[0][j]
  {
  }

  lemma RowShift(r: nat, j: nat)
    requires r < 16 && j < 16
    ensures BITSINBYTE[r][j] == BITSINBYTE[0][r] + BITSINBYTE[0][j]
  {
    if r < 8 { LowRows(r, j); } else { HighRows(r, j); }
  }

  lemma OnesNibbles(y: nat, c: nat)
    requires c < 16 && y < 16
    ensures Ones(16 * y + c) == (c % 2 + c / 2 % 2 + c / 4 % 2 + c / 8) + (y % 2 + y / 2 % 2 + y / 4 % 2 + y / 8)
  {
    HighBits(y, c);
    LowBits(y, c);
  }

  lemma HighBits(y: nat, c: nat)
    requires c < 16
    ensures var b := 16 * y + c; b / 16 == y && b / 32 == y / 2 && b / 64 == y / 4 && b / 128 == y / 8
  {
  }

  lemma LowBits(y: nat, c: nat)
    requires c < 16
    ensures var b := 16 * y + c;
      b % 2 == c % 2 && b / 2 % 2 == c / 2 % 2 && b / 4 % 2 == c / 4 % 2 && b / 8 % 2 == c / 8
  {
    var b := 16 * y + c;
    assert b / 2 == 8 * y + c / 2 && b / 4 == 4 * y + c / 4 && b / 8 == 2 * y + c / 8;
    Parity(8 * y, c);
    Parity(4 * y, c / 2);
    Parity(2 * y, c / 4);
    Parity(y, c / 8);
  }

  lemma Parity(k: nat, x: nat)
    ensures (2 * k + x) % 2 == x % 2
  {
  }

  lemma TableCounts(b: Byte)
    ensures BitsInByte(b) == Ones(b)
  {
    var r, j := b / 16, b % 16;
    RowShift(r, j);
    NibbleRow(r);
    NibbleRow(j);
    OnesNibbles(r, j);
  }

  // ----- a string

  /** The number of set bits of a string. */
  function AllOnes(s: seq<Byte>): nat {
    if s == [] then 0 else Ones(s[0]) + AllOnes(s[1..])
  }

  lemma {:induction false} AllOnesAppend(a: seq<Byte>, b: seq<Byte>)
    ensures AllOnes(a + b) == AllOnes(a) + AllOnes(b)
    decreases |a|
  {
    if a == [] {
      assert a + b == b;
    } else {
      assert (a + b)[1..] == a[1..] + b;
      AllOnesAppend(a[1..], b);
    }
  }

  lemma AllOnesMore(s: seq<Byte>, p: nat)
    requires p < |s|
    ensures AllOnes(s[..p + 1]) == AllOnes(s[..p]) + Ones(s[p])
  {
    assert s[..p + 1] == s[..p] + [s[p]];
    AllOnesAppend(s[..p], [s[p]]);
    assert AllOnes([s[p]]) == Ones(s[p]) + AllOnes([]);
  }

  lemma AllOnesWord(s: seq<Byte>, p: nat)
    requires p + 4 <= |s|
    ensures AllOnes(s[..p + 4]) == AllOnes(s[..p]) + (Ones(s[p]) + Ones(s[p + 1]) + Ones(s[p + 2]) + Ones(s[p + 3]))
  {
    AllOnesMore(s, p);
    AllOnesMore(s, p + 1);
    AllOnesMore(s, p + 2);
    AllOnesMore(s, p + 3);
  }

  /** Four words at a time. */
  method CountBlock(s: seq<Byte>, p: nat) returns (n: nat)
    requires p + 16 <= |s|
    ensures AllOnes(s[..p + 16]) == AllOnes(s[..p]) + n
  {
    var n1 := CountWord(s[p], s[p + 1], s[p + 2], s[p + 3]);
    var n2 := CountWord(s[p + 4], s[p + 5], s[p + 6], s[p + 7]);
    var n3 := CountWord(s[p + 8], s[p + 9], s[p + 10], s[p + 11]);
    var n4 := CountWord(s[p + 12], s[p + 13], s[p + 14], s[p + 15]);
    n := n1 + n2 + n3 + n4;
    AllOnesWord(s, p);
    AllOnesWord(s, p + 4);
    AllOnesWord(s, p + 8);
    AllOnesWord(s, p + 12);
  }

  method CountByte(s: seq<Byte>, p: nat) returns (n: nat)
    requires p < |s|
    ensures AllOnes(s[..p + 1]) == AllOnes(s[..p]) + n
  {
    n := BitsInByte(s[p]);
    TableCounts(s[p]);
    AllOnesMore(s, p);
  }

  /** redisPopcount of a string that begins at the given address: single bytes up to a multiple of
      four, then four words at a time, then single bytes again. */
  method RedisPopcount(s: seq<Byte>, address: nat) returns (bits: nat)
    ensures bits == AllOnes(s)
  {
    var p: nat := 0;
    var n;
    bits := 0;
    while (address + p) % 4 != 0 && p < |s|
      invariant p <= |s| && bits == AllOnes(s[..p])
      decreases |s| - p
    {
      n := CountByte(s, p);
      bits := bits + n;
      p := p + 1;
    }
    while |s| - p >= 16
      invariant p <= |s| && bits == AllOnes(s[..p])
      decreases |s| - p
    {
      n := CountBlock(s, p);
      bits := bits + n;
      p := p + 16;
    }
    while p < |s|
      invariant p <= |s| && bits == AllOnes(s[..p])
      decreases |s| - p
    {
      n := CountByte(s, p);
      bits := bits + n;
      p := p + 1;
    }
    assert s[..p] == s;
  }
}
