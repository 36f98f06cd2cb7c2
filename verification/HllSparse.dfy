/** The sparse form of a HyperLogLog: a string of run-length opcodes. */
module HllSparse {
  import opened Bytes

  const ZERO_MAX_LEN: nat := 64
  const XZERO_MAX_LEN: nat := 16384
  const VAL_MAX_LEN: nat := 4
  const VAL_MAX_VALUE: nat := 32

  // ----- one opcode: 00xxxxxx, 01xxxxxx xxxxxxxx or 1vvvvvxx

  predicate IsZero(b: Byte) { b < 0x40 }
  predicate IsXZero(b: Byte) { 0x40 <= b < 0x80 }
  predicate IsVal(b: Byte) { b >= 0x80 }

  function ZeroLen(b: Byte): nat { (b as int) % 64 + 1 }
  function XZeroLen(b: Byte, c: Byte): nat { ((b as int) % 64) * 256 + c as int + 1 }
  function ValValue(b: Byte): nat { ((b as int) / 4) % 32 + 1 }
  function ValLen(b: Byte): nat { (b as int) % 4 + 1 }

  function ValSet(val: nat, len: nat): Byte
    requires 1 <= val <= VAL_MAX_VALUE && 1 <= len <= VAL_MAX_LEN
  {
    (val - 1) * 4 + (len - 1) + 0x80
  }

  function ZeroSet(len: nat): Byte
    requires 1 <= len <= ZERO_MAX_LEN
  {
    len - 1
  }

  function XZeroSet(len: nat): seq<Byte>
    requires 1 <= len <= XZERO_MAX_LEN
  {
    [(len - 1) / 256 + 0x40, (len - 1) % 256]
  }

  /** The tests and fields above are those of the bit masks in the macros. */
  lemma TestsAreMasks(b: bv8)
    ensures IsZero(b as int) <==> b & 0xc0 == 0
    ensures IsXZero(b as int) <==> b & 0xc0 == 0x40
    ensures IsVal(b as int) <==> b & 0x80 != 0
  {
  }

  lemma ZeroLenIsMask(b: bv8)
    ensures ZeroLen(b as int) == (b & 0x3f) as int + 1
  {
  }

  lemma ValLenIsMask(b: bv8)
    ensures ValLen(b as int) == (b & 0x3) as int + 1
  {
  }

  lemma ShiftDivides(b: bv8)
    ensures (b >> 2) as int == b as int / 4
  {
  }

  lemma MaskTakes(b: bv8)
    ensures (b & 0x1f) as int == b as int % 32
  {
  }

  lemma ValueIsShiftAndMask(b: bv8)
    ensures ValValue(b as int) == ((b >> 2) & 0x1f) as int + 1
  {
    ShiftDivides(b);
    MaskTakes(b >> 2);
  }

  lemma Bounds(b: Byte)
    ensures ZeroLen(b) <= ZERO_MAX_LEN && ValLen(b) <= VAL_MAX_LEN && ValValue(b) <= VAL_MAX_VALUE
  {
  }

  lemma ValFields(val: nat, len: nat)
    requires 1 <= val <= VAL_MAX_VALUE && 1 <= len <= VAL_MAX_LEN
    ensures IsVal(ValSet(val, len)) && ValValue(ValSet(val, len)) == val && ValLen(ValSet(val, len)) == len
  {
  }

  lemma XZeroFields(len: nat)
    requires 1 <= len <= XZERO_MAX_LEN
    ensures IsXZero(XZeroSet(len)[0]) && XZeroLen(XZeroSet(len)[0], XZeroSet(len)[1]) == len
  {
  }

  // ----- strings of opcodes

  function Repeat(v: nat, n: nat): (r: seq<nat>)
    ensures |r| == n
    ensures forall i :: 0 <= i < n ==> r[i] == v
  {
    seq(n, _ => v)
  }

  /** The first opcode is complete: an XZERO has its second byte. */
  predicate Complete(s: seq<Byte>)
    requires s != []
  {
    IsXZero(s[0]) ==> |s| >= 2
  }

  function OpLen(s: seq<Byte>): (n: nat)
    requires s != []
    ensures 1 <= n <= |s|
  {
    if IsXZero(s[0]) && |s| >= 2 then 2 else 1
  }

  /** Every two-byte opcode is complete. */
  predicate WellFormed(s: seq<Byte>) {
    s == [] || (Complete(s) && WellFormed(s[OpLen(s)..]))
  }

  /** The number of registers the first opcode covers, and their value. */
  function Span(s: seq<Byte>): (n: nat)
    requires s != []
    ensures n >= 1
  {
    if IsZero(s[0]) then ZeroLen(s[0])
    else if IsXZero(s[0]) then (if |s| >= 2 then XZeroLen(s[0], s[1]) else 1)
    else ValLen(s[0])
  }

  function Level(b: Byte): nat {
    if IsVal(b) then ValValue(b) else 0
  }

  /** The registers a string of opcodes stands for. */
  function Regs(s: seq<Byte>): seq<nat> {
    if s == [] then [] else Repeat(Level(s[0]), Span(s)) + Regs(s[OpLen(s)..])
  }

  lemma FirstOfAppend(a: seq<Byte>, b: seq<Byte>)
    requires a != [] && Complete(a)
    ensures (a + b)[0] == a[0] && OpLen(a + b) == OpLen(a) && Span(a + b) == Span(a)
    ensures (a + b)[OpLen(a)..] == a[OpLen(a)..] + b && (Complete(a + b) <==> Complete(a))
  {
  }

  lemma {:induction false} AppendWellFormed(a: seq<Byte>, b: seq<Byte>)
    requires WellFormed(a)
    ensures WellFormed(a + b) <==> WellFormed(b)
    decreases |a|
  {
    if a == [] {
      assert a + b == b;
    } else {
      FirstOfAppend(a, b);
      AppendWellFormed(a[OpLen(a)..], b);
    }
  }

  lemma {:induction false} AppendRegs(a: seq<Byte>, b: seq<Byte>)
    requires WellFormed(a)
    ensures Regs(a + b) == Regs(a) + Regs(b)
    decreases |a|
  {
    if a == [] {
      assert a + b == b;
    } else {
      FirstOfAppend(a, b);
      AppendRegs(a[OpLen(a)..], b);
    }
  }

  lemma Append(a: seq<Byte>, b: seq<Byte>)
    requires WellFormed(a) && WellFormed(b)
    ensures WellFormed(a + b) && Regs(a + b) == Regs(a) + Regs(b)
  {
    AppendWellFormed(a, b);
    AppendRegs(a, b);
  }

  lemma Append3(a: seq<Byte>, m: seq<Byte>, c: seq<Byte>)
    requires WellFormed(a) && WellFormed(m) && WellFormed(c)
    ensures WellFormed(a + (m + c))
    ensures Regs(a + (m + c)) == Regs(a) + (Regs(m) + Regs(c))
  {
    Append(m, c);
    Append(a, m + c);
  }

  /** The first opcode on its own. */
  lemma FirstOpcode(s: seq<Byte>)
    requires s != [] && WellFormed(s)
    ensures WellFormed(s[..OpLen(s)]) && Regs(s[..OpLen(s)]) == Repeat(Level(s[0]), Span(s))
  {
    var c := s[..OpLen(s)];
    assert c[OpLen(s)..] == [] && c[0] == s[0] && Span(c) == Span(s);
  }

  /** No register of a sparse string exceeds the largest VAL value. */
  lemma {:induction false} RegsBound(s: seq<Byte>)
    requires WellFormed(s)
    ensures forall i :: 0 <= i < |Regs(s)| ==> Regs(s)[i] <= VAL_MAX_VALUE
  {
    if s != [] {
      Bounds(s[0]);
      RegsBound(s[OpLen(s)..]);
    }
  }

  lemma HeadVal(b: Byte, rest: seq<Byte>)
    requires IsVal(b)
    ensures WellFormed([b] + rest) <==> WellFormed(rest)
    ensures WellFormed(rest) ==> Regs([b] + rest) == Repeat(ValValue(b), ValLen(b)) + Regs(rest)
  {
    Bounds(b);
    assert ([b] + rest)[1..] == rest;
  }

  lemma SingleVal(val: nat, len: nat)
    requires 1 <= val <= VAL_MAX_VALUE && 1 <= len <= VAL_MAX_LEN
    ensures WellFormed([ValSet(val, len)]) && Regs([ValSet(val, len)]) == Repeat(val, len)
  {
    ValFields(val, len);
    var s := [ValSet(val, len)];
    assert s[1..] == [];
  }

  /** The opcode written for a run of zeroes: ZERO when it fits, XZERO otherwise. */
  function ZeroRun(len: nat): seq<Byte>
    requires 1 <= len <= XZERO_MAX_LEN
  {
    if len > ZERO_MAX_LEN then XZeroSet(len) else [ZeroSet(len)]
  }

  lemma ZeroRunRegs(len: nat)
    requires 1 <= len <= XZERO_MAX_LEN
    ensures WellFormed(ZeroRun(len)) && Regs(ZeroRun(len)) == Repeat(0, len)
  {
    var s := ZeroRun(len);
    Bounds(s[0]);
    if len > ZERO_MAX_LEN {
      XZeroFields(len);
      assert s[2..] == [];
    } else {
      assert s[1..] == [];
    }
  }
}
