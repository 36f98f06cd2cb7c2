/** HyperLogLog objects in either form, edited in place. */
module Hll {
  import opened Words
  import opened HllDense
  import opened HllSparse
  import opened Bytes

  const P: nat := 14
  const HDR_SIZE: nat := 16

  // ----- the pattern length of a hash

  /** The word with bit p set only. */
  function Bit(p: nat): Word { seq(WIDTH, i => i == p) }

  /** The register an element with this hash belongs to. */
  function RegisterOf(hash: Word): (r: nat)
    ensures r < REGISTERS
  {
    assert Pow2(14) == REGISTERS;
    Nat(hash[..P])
  }

  /** One more than the number of clear bits from bit P up, the top bit counting as set. */
  function PatternFrom(hash: Word, p: nat): (n: nat)
    requires p < WIDTH
    ensures 1 <= n <= WIDTH - p
    decreases WIDTH - p
  {
    if hash[p] || p == WIDTH - 1 then 1 else 1 + PatternFrom(hash, p + 1)
  }

  function Pattern(hash: Word): (n: nat)
    ensures 1 <= n <= 50
  {
    PatternFrom(hash, P)
  }

  /** The register is the number that the low 14 bits of the hash make. */
  lemma RegisterBits(hash: Word)
    ensures Bits(RegisterOf(hash), 14) == hash[..14]
  {
    BitsOfNat(hash[..P]);
  }

  lemma {:induction false} PatternFromBits(hash: Word, p: nat)
    requires p < WIDTH
    ensures forall i :: p <= i < p + PatternFrom(hash, p) - 1 ==> !hash[i]
    ensures var top := p + PatternFrom(hash, p) - 1; hash[top] || top == WIDTH - 1
    decreases WIDTH - p
  {
    if !hash[p] && p < WIDTH - 1 { PatternFromBits(hash, p + 1); }
  }

  /** n counts clear bits from bit 14 up and the one behind them, which is set or the top bit. */
  predicate PatternLength(hash: Word, n: nat) {
    && 1 <= n <= 50 && (forall i :: 14 <= i < 14 + n - 1 ==> !hash[i])
    && (hash[14 + n - 1] || 14 + n - 1 == 63)
  }

  lemma PatternBits(hash: Word, n: nat)
    ensures PatternLength(hash, n) <==> n == Pattern(hash)
  {
    PatternFromBits(hash, P);
    if PatternLength(hash, n) { OneLength(hash, n, Pattern(hash)); }
  }

  lemma OneLength(hash: Word, m: nat, n: nat)
    requires PatternLength(hash, m) && PatternLength(hash, n)
    ensures m == n
  {
    var atM, atN := hash[14 + m - 1], hash[14 + n - 1];
  }

  /** hllPatLen: the register index and the length of the pattern 0..01. */
  method PatLen(hash: Word) returns (index: nat, count: nat)
    ensures index < REGISTERS && Bits(index, 14) == hash[..14] && PatternLength(hash, count)
    ensures index == RegisterOf(hash) && count == Pattern(hash)
  {
    index, count := MeasureHash(hash);
    RegisterBits(hash);
    PatternBits(hash, count);
  }

  method MeasureHash(hash: Word) returns (index: nat, count: nat)
    ensures index == RegisterOf(hash) && count == Pattern(hash)
  {
    var masked := And(hash, Mask(P));
    MaskedBelow(hash, P);
    index := Nat(masked);
    var h := Or(hash, Bit(63));
    var bit := Bit(P);
    ghost var p := P;
    count := 1;
    while And(h, bit) == Zeros(WIDTH)
      invariant P <= p < WIDTH && bit == Bit(p)
      invariant count + PatternFrom(hash, p) == 1 + Pattern(hash)
      decreases WIDTH - p
    {
      assert !h[p] by { assert !And(h, bit)[p]; }
      count := count + 1;
      bit := Shl(bit, 1);
      p := p + 1;
      assert bit == Bit(p);
    }
    assert !h[p] ==> And(h, bit) == Zeros(WIDTH);
  }

  // ----- replacing opcodes

  /** Replacing the first opcode of tail by mid, behind a prefix a. */
  lemma SpliceRegs(a: seq<Byte>, tail: seq<Byte>, mid: seq<Byte>, k: nat, v: nat)
    requires tail != [] && WellFormed(a) && WellFormed(tail) && WellFormed(mid)
    requires k < Span(tail) && Regs(mid) == Repeat(Level(tail[0]), Span(tail))[k := v]
    ensures WellFormed(a + tail) && WellFormed(a + (mid + tail[OpLen(tail)..]))
    ensures |Regs(a)| + k < |Regs(a + tail)|
    ensures Regs(a + (mid + tail[OpLen(tail)..])) == Regs(a + tail)[|Regs(a)| + k := v]
  {
    var rest := tail[OpLen(tail)..];
    Append(a, tail);
    Append3(a, mid, rest);
    SpliceSeq(Regs(a), Repeat(Level(tail[0]), Span(tail)), Regs(rest), k, v);
  }

  lemma SpliceSeq(a: seq<nat>, c: seq<nat>, rest: seq<nat>, k: nat, v: nat)
    requires k < |c|
    ensures a + (c[k := v] + rest) == (a + (c + rest))[|a| + k := v]
  {
  }

  /** The new opcodes for a run of `span` registers of value `level` of which the k-th gets value v. */
  lemma SplitRegs(left: seq<Byte>, right: seq<Byte>, level: nat, span: nat, k: nat, v: nat)
    requires k < span && 1 <= v <= VAL_MAX_VALUE && WellFormed(left) && WellFormed(right)
    requires Regs(left) == Repeat(level, k) && Regs(right) == Repeat(level, span - k - 1)
    ensures WellFormed(left + ([ValSet(v, 1)] + right))
    ensures Regs(left + ([ValSet(v, 1)] + right)) == Repeat(level, span)[k := v]
  {
    SingleVal(v, 1);
    Append3(left, [ValSet(v, 1)], right);
    assert Repeat(level, span)[k := v] == Repeat(level, k) + (Repeat(v, 1) + Repeat(level, span - k - 1));
  }

  /** Merging the two adjacent VAL opcodes of one value at the head of tail. */
  lemma MergeRegs(a: seq<Byte>, tail: seq<Byte>)
    requires |tail| >= 2 && WellFormed(a) && WellFormed(tail) && IsVal(tail[0]) && IsVal(tail[1])
    requires ValValue(tail[0]) == ValValue(tail[1]) && ValLen(tail[0]) + ValLen(tail[1]) <= VAL_MAX_LEN
    ensures WellFormed(a + tail) && WellFormed(MergedHead(tail)) && WellFormed(a + MergedHead(tail))
    ensures Regs(a + MergedHead(tail)) == Regs(a + tail)
  {
    Append(a, tail);
    MergedHeadRegs(tail);
    Append(a, MergedHead(tail));
  }

  function MergedHead(tail: seq<Byte>): (r: seq<Byte>)
    requires |tail| >= 2 && ValLen(tail[0]) + ValLen(tail[1]) <= VAL_MAX_LEN
    ensures |r| == |tail| - 1
  {
    Bounds(tail[0]);
    [ValSet(ValValue(tail[0]), ValLen(tail[0]) + ValLen(tail[1]))] + tail[2..]
  }

  lemma {:induction false} MergedHeadRegs(tail: seq<Byte>)
    requires |tail| >= 2 && WellFormed(tail) && IsVal(tail[0]) && IsVal(tail[1])
    requires ValValue(tail[0]) == ValValue(tail[1]) && ValLen(tail[0]) + ValLen(tail[1]) <= VAL_MAX_LEN
    ensures WellFormed(MergedHead(tail)) && Regs(MergedHead(tail)) == Regs(tail)
  {
    assert tail == [tail[0]] + ([tail[1]] + tail[2..]);
    MergedHeadOf(tail, tail[0], tail[1], tail[2..]);
  }

  lemma {:induction false} MergedHeadOf(tail: seq<Byte>, b: Byte, c: Byte, rest: seq<Byte>)
    requires tail == [b] + ([c] + rest) && WellFormed(tail) && IsVal(b) && IsVal(c)
    requires ValValue(b) == ValValue(c) && ValLen(b) + ValLen(c) <= VAL_MAX_LEN
    ensures 1 <= ValValue(b) <= VAL_MAX_VALUE && 1 <= ValLen(b) + ValLen(c)
    ensures var merged := [ValSet(ValValue(b), ValLen(b) + ValLen(c))] + rest;
      WellFormed(merged) && Regs(merged) == Regs(tail)
  {
    MergedPair(b, c, rest);
  }

  lemma {:induction false} MergedPair(b: Byte, c: Byte, rest: seq<Byte>)
    requires IsVal(b) && IsVal(c) && ValValue(b) == ValValue(c) && ValLen(b) + ValLen(c) <= VAL_MAX_LEN
    requires WellFormed([b] + ([c] + rest))
    ensures 1 <= ValValue(b) <= VAL_MAX_VALUE && 1 <= ValLen(b) + ValLen(c)
    ensures WellFormed([ValSet(ValValue(b), ValLen(b) + ValLen(c))] + rest)
    ensures Regs([ValSet(ValValue(b), ValLen(b) + ValLen(c))] + rest) == Regs([b] + ([c] + rest))
  {
    Bounds(b);
    TwoVals(b, c, rest);
    OneVal(ValValue(b), ValLen(b) + ValLen(c), rest);
  }

  lemma OneVal(v: nat, n: nat, rest: seq<Byte>)
    requires 1 <= v <= VAL_MAX_VALUE && 1 <= n <= VAL_MAX_LEN && WellFormed(rest)
    ensures WellFormed([ValSet(v, n)] + rest) && Regs([ValSet(v, n)] + rest) == Repeat(v, n) + Regs(rest)
  {
    ValFields(v, n);
    HeadVal(ValSet(v, n), rest);
  }

  lemma TwoVals(b: Byte, c: Byte, rest: seq<Byte>)
    requires IsVal(b) && IsVal(c) && ValValue(b) == ValValue(c) && WellFormed([b] + ([c] + rest))
    ensures WellFormed(rest)
    ensures Regs([b] + ([c] + rest)) == Repeat(ValValue(b), ValLen(b) + ValLen(c)) + Regs(rest)
  {
    HeadVal(b, [c] + rest);
    HeadVal(c, rest);
    var v := ValValue(b);
    assert Repeat(v, ValLen(b) + ValLen(c)) + Regs(rest) == Repeat(v, ValLen(b)) + (Repeat(v, ValLen(c)) + Regs(rest));
  }

  /** Position p lies between two opcodes. */
  ghost predicate Boundary(s: seq<Byte>, p: nat) {
    && p <= |s| && WellFormed(s) && WellFormed(s[..p]) && WellFormed(s[p..])
    && Regs(s) == Regs(s[..p]) + Regs(s[p..])
  }

  lemma StartAndEnd(s: seq<Byte>)
    requires WellFormed(s)
    ensures Boundary(s, 0) && Boundary(s, |s|) && Regs(s[..0]) == [] && Regs(s[|s|..]) == []
  {
    assert s[0..] == s && s[..0] == [] && s[..|s|] == s && s[|s|..] == [];
  }

  lemma BoundaryIn(a: seq<Byte>, tail: seq<Byte>)
    requires WellFormed(a) && WellFormed(tail)
    ensures Boundary(a + tail, |a|)
  {
    Append(a, tail);
    assert (a + tail)[..|a|] == a && (a + tail)[|a|..] == tail;
  }

  /** Moving a parse position past one opcode. */
  lemma StepOver(s: seq<Byte>, p: nat)
    requires Boundary(s, p) && p < |s|
    ensures var n := OpLen(s[p..]);
            && Boundary(s, p + n)
            && Regs(s[..p + n]) == Regs(s[..p]) + Repeat(Level(s[p]), Span(s[p..]))
            && Regs(s[p..]) == Repeat(Level(s[p]), Span(s[p..])) + Regs(s[p + n..])
  {
    var t := s[p..];
    var n := OpLen(t);
    assert t[n..] == s[p + n..] && t[0] == s[p];
    FirstOpcode(t);
    Append(s[..p], t[..n]);
    assert s[..p + n] == s[..p] + t[..n];
  }

  /** The opcode at p: how many registers it covers, their value and its own length. */
  method ReadOpcode(s: seq<Byte>, p: nat) returns (runlen: nat, regval: nat, oplen: nat)
    requires Boundary(s, p) && p < |s|
    ensures runlen == Span(s[p..]) && regval == Level(s[p]) && oplen == OpLen(s[p..])
  {
    Bounds(s[p]);
    assert s[p..][0] == s[p];
    if IsZero(s[p]) {
      return ZeroLen(s[p]), 0, 1;
    } else if IsXZero(s[p]) {
      return XZeroLen(s[p], s[p + 1]), 0, 2;
    } else {
      return ValLen(s[p]), ValValue(s[p]), 1;
    }
  }

  // ----- the steps of hllSparseAdd, on the opcode string

  /** Step 1: the opcode that covers a register, the first register it covers, and the
      opcode before it (-1 if there is none). */
  method Locate(s: seq<Byte>, index: nat) returns (p: nat, first: nat, prev: int)
    requires WellFormed(s) && index < |Regs(s)|
    ensures Boundary(s, p) && p < |s|
    ensures first == |Regs(s[..p])| && first <= index < first + Span(s[p..])
    ensures prev == -1 || (0 <= prev < p && Boundary(s, prev) && WellFormed(s[prev..p]))
  {
    p, first, prev := 0, 0, -1;
    StartAndEnd(s);
    while p < |s|
      invariant Boundary(s, p) && first == |Regs(s[..p])| <= index
      invariant prev == -1 || (0 <= prev < p && Boundary(s, prev) && WellFormed(s[prev..p]))
      decreases |s| - p
    {
      StepOver(s, p);
      var span, _, oplen := ReadOpcode(s, p);
      if index <= first + span - 1 { return; }
      FirstOpcode(s[p..]);
      assert s[p..][..oplen] == s[p..p + oplen];
      prev := p;
      p := p + oplen;
      first := first + span;
    }
    assert false;
  }

  /** Step 2, case D: the opcode at p rewritten so that one of its registers has value count. */
  method Split(s: seq<Byte>, p: nat, first: nat, index: nat, count: nat) returns (mid: seq<Byte>)
    requires Boundary(s, p) && p < |s| && first <= index < first + Span(s[p..])
    requires first + Span(s[p..]) <= REGISTERS && 1 <= count <= VAL_MAX_VALUE
    ensures WellFormed(mid) && OpLen(s[p..]) - 1 <= |mid| <= OpLen(s[p..]) + 3
    ensures Regs(mid) == Repeat(Level(s[p]), Span(s[p..]))[index - first := count]
  {
    var span, curval, _ := ReadOpcode(s, p);
    var last := first + span - 1;
    var left, right;
    Bounds(s[p]);
    assert s[p..][0] == s[p];
    if !IsVal(s[p]) {
      left := ZeroPart(index - first);
      right := ZeroPart(last - index);
    } else {
      left := ValPart(curval, index - first);
      right := ValPart(curval, last - index);
    }
    mid := left + ([ValSet(count, 1)] + right);
    SplitRegs(left, right, curval, span, index - first, count);
  }

  method ZeroPart(len: nat) returns (r: seq<Byte>)
    requires len <= XZERO_MAX_LEN
    ensures WellFormed(r) && Regs(r) == Repeat(0, len)
    ensures |r| == if len == 0 then 0 else if len > ZERO_MAX_LEN then 2 else 1
  {
    r := [];
    if len > 0 {
      ZeroRunRegs(len);
      r := ZeroRun(len);
    }
  }

  method ValPart(val: nat, len: nat) returns (r: seq<Byte>)
    requires len <= VAL_MAX_LEN && 1 <= val <= VAL_MAX_VALUE
    ensures WellFormed(r) && Regs(r) == Repeat(val, len) && |r| == if len == 0 then 0 else 1
  {
    r := [];
    if len > 0 {
      SingleVal(val, len);
      r := [ValSet(val, len)];
    }
  }

  /** Step 3: put the new opcodes in the place of the one at p. */
  method Substitute(s: seq<Byte>, p: nat, mid: seq<Byte>, ghost k: nat, ghost v: nat) returns (t: seq<Byte>)
    requires Boundary(s, p) && p < |s| && WellFormed(mid)
    requires k < Span(s[p..]) && Regs(mid) == Repeat(Level(s[p]), Span(s[p..]))[k := v]
    ensures WellFormed(t) && |Regs(s[..p])| + k < |Regs(s)| && Regs(t) == Regs(s)[|Regs(s[..p])| + k := v]
    ensures |t| == |s| - OpLen(s[p..]) + |mid|
    ensures p <= |t| && t[..p] == s[..p] && WellFormed(t[p..])
  {
    ghost var a, tail := s[..p], s[p..];
    assert tail[0] == s[p] && s == a + tail;
    var oldlen := if IsXZero(s[p]) then 2 else 1;
    assert s[p + oldlen..] == tail[OpLen(tail)..];
    t := s[..p] + (mid + s[p + oldlen..]);
    Substituted(a, tail, mid, tail[OpLen(tail)..], k, v, s, t);
  }

  lemma {:induction false} Substituted(a: seq<Byte>, tail: seq<Byte>, mid: seq<Byte>, rest: seq<Byte>, k: nat, v: nat,
                    s: seq<Byte>, t: seq<Byte>)
    requires tail != [] && WellFormed(a) && WellFormed(tail) && WellFormed(mid)
    requires k < Span(tail) && Regs(mid) == Repeat(Level(tail[0]), Span(tail))[k := v]
    requires rest == tail[OpLen(tail)..] && s == a + tail && t == a + (mid + rest)
    ensures WellFormed(t) && |Regs(a)| + k < |Regs(s)| && Regs(t) == Regs(s)[|Regs(a)| + k := v]
    ensures |t| == |s| - OpLen(tail) + |mid|
    ensures |a| <= |t| && t[..|a|] == a && WellFormed(t[|a|..])
  {
    SpliceRegs(a, tail, mid, k, v);
    Append(mid, rest);
    assert t[|a|..] == mid + rest;
  }

  /** The opcodes at p and p + 1 are VALs of one value that fit into one. */
  predicate Mergeable(s: seq<Byte>, p: nat) {
    && p + 1 < |s| && IsVal(s[p]) && IsVal(s[p + 1])
    && ValValue(s[p]) == ValValue(s[p + 1]) && ValLen(s[p]) + ValLen(s[p + 1]) <= VAL_MAX_LEN
  }

  /** Merge the VAL opcodes at p and p + 1 when they have one value and fit into one. */
  method MergeAt(s: seq<Byte>, p: nat) returns (merged: bool, t: seq<Byte>)
    requires Boundary(s, p) && p < |s| && IsVal(s[p])
    ensures Boundary(t, p) && Regs(t) == Regs(s)
    ensures merged <==> Mergeable(s, p)
    ensures if merged then |t| == |s| - 1 && t[..p] == s[..p] else t == s
  {
    if p + 1 < |s| && IsVal(s[p + 1]) && ValValue(s[p]) == ValValue(s[p + 1]) {
      var len := ValLen(s[p]) + ValLen(s[p + 1]);
      if len <= VAL_MAX_LEN {
        ghost var a, tail := s[..p], s[p..];
        assert tail[0] == s[p] && tail[1] == s[p + 1] && s == a + tail;
        Bounds(s[p]);
        MergeRegs(a, tail);
        t := s[..p] + ([ValSet(ValValue(s[p]), len)] + s[p + 2..]);
        assert t == a + MergedHead(tail);
        BoundaryIn(a, MergedHead(tail));
        return true, t;
      }
    }
    merged, t := false, s;
  }

  /** Step 4: merge adjacent VAL opcodes, looking at up to five opcodes from start. */
  method MergeAdjacent(s: seq<Byte>, start: nat) returns (t: seq<Byte>)
    requires Boundary(s, start)
    ensures WellFormed(t) && Regs(t) == Regs(s)
    ensures |t| <= |s| && (Mergeable(s, start) ==> |t| < |s|)
  {
    var p: nat, scanlen := start, 5;
    t := s;
    while p < |t| && scanlen > 0
      invariant Boundary(t, p) && Regs(t) == Regs(s) && |t| <= |s|
      invariant Mergeable(s, start) ==> |t| < |s| || (t == s && p == start && scanlen == 5)
      decreases scanlen
    {
      scanlen := scanlen - 1;
      if IsVal(t[p]) {
        var merged;
        merged, t := MergeAt(t, p);
        if merged { continue; }
      }
      StepOver(t, p);
      var _, _, oplen := ReadOpcode(t, p);
      p := p + oplen;
    }
  }

  /** The register at index has the level of the opcode that covers it. */
  lemma RegisterAt(s: seq<Byte>, p: nat, index: nat)
    requires Boundary(s, p) && p < |s|
    requires |Regs(s[..p])| <= index < |Regs(s[..p])| + Span(s[p..])
    ensures index < |Regs(s)| && Regs(s)[index] == Level(s[p])
  {
    StepOver(s, p);
  }

  /** The opcode before an edited one still starts at its old position. */
  lemma EarlierBoundary(a: seq<Byte>, b: seq<Byte>, c: seq<Byte>)
    requires WellFormed(a) && WellFormed(b) && WellFormed(c)
    ensures Boundary(a + (b + c), |a|)
  {
    Append(b, c);
    BoundaryIn(a, b + c);
  }

  /** An earlier boundary is one still when what follows p was replaced. */
  lemma StillBoundary(s: seq<Byte>, t: seq<Byte>, prev: nat, p: nat)
    requires prev <= p <= |s| && p <= |t| && t[..p] == s[..p] && WellFormed(t[p..])
    requires WellFormed(s[..prev]) && WellFormed(s[prev..p])
    ensures Boundary(t, prev)
  {
    EarlierBoundary(s[..prev], s[prev..p], t[p..]);
    Rejoin(s, t, prev, p);
  }

  lemma Rejoin(s: seq<Byte>, t: seq<Byte>, prev: nat, p: nat)
    requires prev <= p <= |s| && p <= |t| && t[..p] == s[..p]
    ensures t == s[..prev] + (s[prev..p] + t[p..]) && |s[..prev]| == prev
  {
    assert t == t[..p] + t[p..] && s[..p] == s[..prev] + s[prev..p];
  }

  /** Steps 3 and 4: put mid in the place of the opcode at p and merge from the opcode before it. */
  method Apply(s: seq<Byte>, p: nat, prev: int, mid: seq<Byte>, ghost k: nat, ghost v: nat) returns (t: seq<Byte>)
    requires Boundary(s, p) && p < |s| && WellFormed(mid)
    requires prev == -1 || (0 <= prev < p && Boundary(s, prev) && WellFormed(s[prev..p]))
    requires k < Span(s[p..]) && Regs(mid) == Repeat(Level(s[p]), Span(s[p..]))[k := v]
    ensures WellFormed(t) && |Regs(s[..p])| + k < |Regs(s)| && Regs(t) == Regs(s)[|Regs(s[..p])| + k := v]
    ensures |t| <= |s| - OpLen(s[p..]) + |mid|
  {
    t := Substitute(s, p, mid, k, v);
    if prev == -1 {
      StartAndEnd(t);
      t := MergeAdjacent(t, 0);
    } else {
      StillBoundary(s, t, prev, p);
      t := MergeAdjacent(t, prev);
    }
  }

  datatype Edit = Unchanged | Updated(t: seq<Byte>) | TooBig

  /** Steps 1 to 4: find the opcode, rewrite it in place, merge around it. */
  method Rewrite(s: seq<Byte>, index: nat, count: nat, maxBytes: nat) returns (e: Edit)
    requires WellFormed(s) && |Regs(s)| == REGISTERS && index < REGISTERS && 1 <= count <= VAL_MAX_VALUE
    ensures e == Unchanged <==> Regs(s)[index] >= count
    ensures e.Updated? ==> WellFormed(e.t) && Regs(e.t) == Regs(s)[index := count]
    ensures e.Updated? ==> |e.t| <= |s| || HDR_SIZE + |e.t| <= maxBytes
    ensures e.TooBig? ==> HDR_SIZE + |s| + 3 > maxBytes
  {
    var p, first, prev := Locate(s, index);
    RegisterAt(s, p, index);
    StepOver(s, p);
    var runlen, oldcount, oldlen := ReadOpcode(s, p);
    if IsVal(s[p]) && oldcount >= count { return Unchanged; }
    var mid;
    if !IsXZero(s[p]) && runlen == 1 {
      SingleVal(count, 1);
      assert Repeat(Level(s[p]), 1)[0 := count] == Repeat(count, 1);
      mid := [ValSet(count, 1)];
    } else {
      mid := Split(s, p, first, index, count);
      var deltalen := |mid| - oldlen;
      if deltalen > 0 && HDR_SIZE + |s| + deltalen > maxBytes { return TooBig; }
    }
    var t := Apply(s, p, prev, mid, index - first, count);
    e := Updated(t);
  }

  function Max(a: nat, b: nat): nat { if a > b then a else b }

  lemma RaiseIs(regs: seq<nat>, index: nat, count: nat)
    requires index < |regs|
    ensures var r := regs[index := Max(regs[index], count)];
      if count > regs[index] then r == regs[index := count] != regs else r == regs
  {
    assert regs[index := count][index] == count;
    assert regs[index := regs[index]] == regs;
  }

  /** What adding an element with the given hash does to the registers. */
  function Added(regs: seq<nat>, hash: Word): seq<nat>
    requires |regs| == REGISTERS
  {
    regs[RegisterOf(hash) := Max(regs[RegisterOf(hash)], Pattern(hash))]
  }

  /** Register by register maximum. */
  function Maxima(a: seq<nat>, b: seq<nat>): (r: seq<nat>)
    requires |a| == |b|
    ensures |r| == |a| && forall i :: 0 <= i < |a| ==> r[i] == Max(a[i], b[i])
  {
    seq(|a|, i requires 0 <= i < |a| => Max(a[i], b[i]))
  }

  /** The first i entries are maxima already, the others are still as they were. */
  ghost predicate MaxedUpTo(max: seq<nat>, m0: seq<nat>, regs: seq<nat>, i: nat)
    requires |max| == |m0| == |regs| && i <= |max|
  {
    forall j :: 0 <= j < |max| ==> max[j] == if j < i then Max(m0[j], regs[j]) else m0[j]
  }

  class HyperLogLog {
    var dense: bool
    var sparse: seq<Byte>
    var registers: array<bv8>
    var cacheValid: bool

    ghost predicate Valid()
      reads this, registers
    {
      if dense then registers.Length == DENSE_BYTES + 1
      else WellFormed(sparse) && |Regs(sparse)| == REGISTERS
    }

    ghost function Values(): (r: seq<nat>)
      requires Valid()
      reads this, registers
      ensures |r| == REGISTERS
    {
      if dense then Registers(registers[..]) else Regs(sparse)
    }

    /** createHLLObject: one XZERO opcode that covers all registers. */
    constructor ()
      ensures Valid() && !dense && Values() == Repeat(0, REGISTERS) && fresh(registers)
    {
      dense, cacheValid := false, true;
      sparse := XZeroSet(XZERO_MAX_LEN);
      registers := new bv8[0];
      new;
      ZeroRunRegs(XZERO_MAX_LEN);
    }

    /** hllDenseAdd: 1 when the register grew. */
    method DenseAdd(hash: Word) returns (changed: int)
      requires Valid() && dense
      modifies registers
      ensures Valid() && Values() == Added(old(Values()), hash)
      ensures changed == if Values() == old(Values()) then 0 else 1
    {
      var index, count := PatLen(hash);
      changed := Raise(index, count);
    }

    /** The register is raised to the count if that is greater. */
    method Raise(index: nat, count: nat) returns (changed: int)
      requires Valid() && dense && index < REGISTERS && count <= REGISTER_MAX
      modifies registers
      ensures Valid() && Values() == old(Values())[index := Max(old(Values())[index], count)]
      ensures changed == if Values() == old(Values()) then 0 else 1
    {
      ghost var regs := Values();
      RaiseIs(regs, index, count);
      var oldcount := Get(registers[..], index) as nat;
      assert oldcount == regs[index];
      changed := 0;
      if count > oldcount {
        SetDense(registers, index, count);
        changed := 1;
      }
    }

    /** hllSparseToDense. */
    method SparseToDense()
      requires Valid()
      modifies this
      ensures Valid() && dense && Values() == old(Values())
      ensures if old(dense) then registers == old(registers) else fresh(registers)
      ensures cacheValid == old(cacheValid)
    {
      if dense { return; }
      registers := Unpack(sparse);
      dense := true;
    }

    /** promote: convert, then add to the dense form. The register is known to grow. */
    method Promote(hash: Word) returns (changed: int)
      requires Valid() && !dense && Values()[RegisterOf(hash)] < Pattern(hash)
      modifies this
      ensures Valid() && dense && Values() == Added(old(Values()), hash) && changed == 1 && fresh(registers)
    {
      SparseToDense();
      changed := DenseAdd(hash);
    }

    /** hllSparseAdd: 1 when the register grew, promoting the object when the value or the
        size does not fit the sparse form. */
    method SparseAdd(hash: Word, maxBytes: nat) returns (changed: int)
      requires Valid() && !dense
      modifies this
      ensures Valid() && Values() == Added(old(Values()), hash)
      ensures changed == if Values() == old(Values()) then 0 else 1
      ensures changed == 0 ==> sparse == old(sparse) && !dense && cacheValid == old(cacheValid)
      ensures registers == old(registers) || fresh(registers)
      ensures dense ==> Pattern(hash) > VAL_MAX_VALUE || HDR_SIZE + |old(sparse)| + 3 > maxBytes
      ensures !dense ==> |sparse| <= |old(sparse)| || HDR_SIZE + |sparse| <= maxBytes
    {
      var index, count := PatLen(hash);
      if count > VAL_MAX_VALUE {
        RegsBound(sparse);
        changed := Promote(hash);
        return;
      }
      var e := Rewrite(sparse, index, count, maxBytes);
      match e
      case Unchanged =>
        assert Values()[index := Values()[index]] == Values();
        changed := 0;
      case TooBig =>
        changed := Promote(hash);
      case Updated(t) =>
        sparse, cacheValid := t, false;
        assert Values()[index] == count;
        changed := 1;
    }

    /** hllAdd. */
    method Add(hash: Word, maxBytes: nat) returns (changed: int)
      requires Valid()
      modifies this, registers
      ensures Valid() && Values() == Added(old(Values()), hash)
      ensures changed == if Values() == old(Values()) then 0 else 1
      ensures registers == old(registers) || fresh(registers)
    {
      if dense {
        changed := DenseAdd(hash);
      } else {
        changed := SparseAdd(hash, maxBytes);
      }
    }

    /** hllMerge: max[i] = MAX(max[i], registers[i]), reading either form. */
    method MergeInto(max: array<nat>)
      requires Valid() && max.Length == REGISTERS
      modifies max
      ensures max[..] == Maxima(old(max[..]), Values())
    {
      if dense {
        MergeDense(max, registers);
      } else {
        MergeSparse(max, sparse);
      }
    }
  }

  method MergeDense(max: array<nat>, registers: array<bv8>)
    requires max.Length == REGISTERS && registers.Length == DENSE_BYTES + 1
    modifies max
    ensures max[..] == Maxima(old(max[..]), Registers(registers[..]))
  {
    ghost var m0, regs := max[..], Registers(registers[..]);
    for i := 0 to REGISTERS
      invariant Registers(registers[..]) == regs
      invariant MaxedUpTo(max[..], m0, regs, i)
    {
      var val := Get(registers[..], i) as nat;
      if val > max[i] { max[i] := val; }
    }
  }

  method MergeSparse(max: array<nat>, s: seq<Byte>)
    requires max.Length == REGISTERS && WellFormed(s) && |Regs(s)| == REGISTERS
    modifies max
    ensures max[..] == Maxima(old(max[..]), Regs(s))
  {
    ghost var m0, regs := max[..], Regs(s);
    var p: nat, i: nat := 0, 0;
    StartAndEnd(s);
    while p < |s|
      invariant Boundary(s, p) && i == |Regs(s[..p])| <= REGISTERS
      invariant MaxedUpTo(max[..], m0, regs, i)
      decreases |s| - p
    {
      StepOver(s, p);
      var runlen, regval, oplen := ReadOpcode(s, p);
      RunAt(s, p, runlen);
      MergeRun(max, i, regval, runlen, m0, regs);
      i := i + runlen;
      p := p + oplen;
    }
    assert s[..p] == s;
  }

  /** The registers covered by the opcode at p. */
  lemma RunAt(s: seq<Byte>, p: nat, runlen: nat)
    requires Boundary(s, p) && p < |s| && runlen == Span(s[p..])
    ensures |Regs(s[..p])| + runlen <= |Regs(s)|
    ensures forall j :: |Regs(s[..p])| <= j < |Regs(s[..p])| + runlen ==> Regs(s)[j] == Level(s[p])
  {
    StepOver(s, p);
  }

  /** The inner loop of hllMerge; runs of zeroes are skipped. */
  method MergeRun(max: array<nat>, i: nat, regval: nat, runlen: nat, ghost m0: seq<nat>, ghost regs: seq<nat>)
    requires max.Length == |m0| == |regs| == REGISTERS && i + runlen <= REGISTERS
    requires forall j :: i <= j < i + runlen ==> regs[j] == regval
    requires MaxedUpTo(max[..], m0, regs, i)
    modifies max
    ensures MaxedUpTo(max[..], m0, regs, i + runlen)
  {
    if regval == 0 { return; }
    for n := 0 to runlen
      invariant MaxedUpTo(max[..], m0, regs, i + n)
    {
      if regval > max[i + n] { max[i + n] := regval; }
    }
  }

  /** HLL_DENSE_SET_REGISTER on the register bytes. */
  method SetDense(p: array<bv8>, r: nat, v: nat)
    requires p.Length == DENSE_BYTES + 1 && r < REGISTERS && v <= REGISTER_MAX
    modifies p
    ensures Registers(p[..]) == old(Registers(p[..]))[r := v]
  {
    SetRegister(p[..], r, v);
    ghost var before: Packed := p[..];
    var byte, fb := ByteOf(r), BitOf(r);
    p[byte] := PutLow(p[byte], v as bv8, fb);
    p[byte + 1] := PutHigh(p[byte + 1], v as bv8, fb);
    assert p[..] == Set(before, r, v as bv8);
  }

  /** Writing out the registers of every opcode into a zeroed array of packed registers. */
  method Unpack(s: seq<Byte>) returns (d: array<bv8>)
    requires WellFormed(s) && |Regs(s)| == REGISTERS
    ensures fresh(d) && d.Length == DENSE_BYTES + 1 && Registers(d[..]) == Regs(s)
  {
    d := new bv8[DENSE_BYTES + 1](_ => 0);
    ZeroRegisters(d[..]);
    var p: nat, idx: nat := 0, 0;
    StartAndEnd(s);
    while p < |s|
      invariant Boundary(s, p) && idx == |Regs(s[..p])| <= REGISTERS
      invariant WrittenUpTo(Registers(d[..]), Regs(s), idx)
      decreases |s| - p
    {
      p, idx := UnpackOne(s, p, d, idx);
    }
    assert s[..p] == s;
  }

  /** One opcode, unpacked. */
  method UnpackOne(s: seq<Byte>, p: nat, d: array<bv8>, idx: nat) returns (p': nat, idx': nat)
    requires d.Length == DENSE_BYTES + 1 && |Regs(s)| == REGISTERS && Boundary(s, p) && p < |s|
    requires idx == |Regs(s[..p])| <= REGISTERS && WrittenUpTo(Registers(d[..]), Regs(s), idx)
    modifies d
    ensures p < p' && Boundary(s, p') && idx' == |Regs(s[..p'])| <= REGISTERS
    ensures WrittenUpTo(Registers(d[..]), Regs(s), idx')
  {
    StepOver(s, p);
    var runlen, regval, oplen := ReadOpcode(s, p);
    RunAt(s, p, runlen);
    Bounds(s[p]);
    WriteRun(d, idx, regval, runlen, Regs(s));
    idx' := idx + runlen;
    p' := p + oplen;
  }

  ghost predicate WrittenUpTo(cur: seq<nat>, regs: seq<nat>, i: nat)
    requires |cur| == |regs| && i <= |cur|
  {
    forall j :: 0 <= j < |cur| ==> cur[j] == if j < i then regs[j] else 0
  }

  /** The inner loop of hllSparseToDense; runs of zeroes are skipped. */
  method WriteRun(d: array<bv8>, idx: nat, regval: nat, runlen: nat, ghost regs: seq<nat>)
    requires d.Length == DENSE_BYTES + 1 && |regs| == REGISTERS && idx + runlen <= REGISTERS && regval <= REGISTER_MAX
    requires forall j :: idx <= j < idx + runlen ==> regs[j] == regval
    requires WrittenUpTo(Registers(d[..]), regs, idx)
    modifies d
    ensures WrittenUpTo(Registers(d[..]), regs, idx + runlen)
  {
    if regval == 0 { return; }
    for n := 0 to runlen
      invariant WrittenUpTo(Registers(d[..]), regs, idx + n)
    {
      SetDense(d, idx + n, regval);
    }
  }
}
