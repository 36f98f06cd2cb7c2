/** The dense form of a HyperLogLog: 16384 registers of 6 bits packed into bytes, the
    least significant bits of a byte first. */
module HllDense {

  const REGISTERS: nat := 16384
  const DENSE_BYTES: nat := 12288    // (REGISTERS * 6 + 7) / 8
  const REGISTER_MAX: nat := 63

  /** The register bytes and the terminating byte that the accessors may touch. */
  type Packed = p: seq<bv8> | |p| == DENSE_BYTES + 1 witness seq(DENSE_BYTES + 1, _ => 0)

  predicate Offset(fb: nat) { fb in {0, 2, 4, 6} }

  /** A register whose bits start at bit fb of b0 and may go on in b1. */
  function Take(b0: bv8, b1: bv8, fb: nat): (r: bv8)
    requires Offset(fb)
    ensures r < 64
  {
    ((b0 >> fb) | (b1 << (8 - fb))) & 63
  }

  function PutLow(b0: bv8, v: bv8, fb: nat): bv8
    requires Offset(fb)
  {
    (b0 & !(63 << fb)) | (v << fb)
  }

  function PutHigh(b1: bv8, v: bv8, fb: nat): bv8
    requires Offset(fb)
  {
    (b1 & !(63 >> (8 - fb))) | (v >> (8 - fb))
  }

  lemma TakePut(b0: bv8, b1: bv8, v: bv8, fb: nat)
    requires Offset(fb) && v < 64
    ensures Take(PutLow(b0, v, fb), PutHigh(b1, v, fb), fb) == v
  {
    if fb == 0 {} else if fb == 2 {} else if fb == 4 {} else {}
  }

  /** Registers at fr and fq start in the same byte. */
  lemma SharedByte(b0: bv8, b1: bv8, v: bv8, fr: nat, fq: nat)
    requires v < 64 && ((fr == 0 && fq == 6) || (fr == 6 && fq == 0))
    ensures Take(PutLow(b0, v, fr), PutHigh(b1, v, fr), fq) == Take(b0, b1, fq)
  {
    if fr == 0 {} else {}
  }

  /** Register q starts in the byte after the one in which r starts. */
  lemma NextByte(b: bv8, c: bv8, v: bv8, fr: nat, fq: nat)
    requires v < 64
    requires (fr == 6 && fq == 4) || (fr == 4 && fq == 2) || (fr == 2 && (fq == 0 || fq == 6)) || (fr == 0 && fq == 4)
    ensures Take(PutHigh(b, v, fr), c, fq) == Take(b, c, fq)
  {
    if fr == 0 {} else if fr == 2 {} else if fr == 4 {} else {}
  }

  /** Register q starts in the byte before the one in which r starts. */
  lemma PreviousByte(a: bv8, b: bv8, v: bv8, fr: nat, fq: nat)
    requires v < 64
    requires (fr == 4 && fq == 6) || (fr == 2 && fq == 4) || ((fr == 0 || fr == 6) && fq == 2) || (fr == 4 && fq == 0)
    ensures Take(a, PutLow(b, v, fr), fq) == Take(a, b, fq)
  {
    if fq == 0 {} else if fq == 2 {} else if fq == 4 {} else {}
  }

  function ByteOf(r: nat): (b: nat)
    requires r < REGISTERS
    ensures b < DENSE_BYTES
  {
    r * 6 / 8
  }

  function BitOf(r: nat): (fb: nat)
    ensures Offset(fb)
  {
    (r * 6) % 8
  }

  /** HLL_DENSE_GET_REGISTER. */
  function Get(p: Packed, r: nat): bv8
    requires r < REGISTERS
  {
    Take(p[ByteOf(r)], p[ByteOf(r) + 1], BitOf(r))
  }

  /** HLL_DENSE_SET_REGISTER. */
  function Set(p: Packed, r: nat, v: bv8): Packed
    requires r < REGISTERS
  {
    p[ByteOf(r) := PutLow(p[ByteOf(r)], v, BitOf(r))]
     [ByteOf(r) + 1 := PutHigh(p[ByteOf(r) + 1], v, BitOf(r))]
  }

  /** Bit k of a byte. */
  predicate BitAt(b: bv8, k: nat)
    requires k < 8
  {
    (b >> k) & 1 == 1
  }

  lemma TakeBit(b0: bv8, b1: bv8, fb: nat, k: nat)
    requires Offset(fb) && k < 6
    ensures BitAt(Take(b0, b1, fb), k) <==> if fb + k < 8 then BitAt(b0, fb + k) else BitAt(b1, fb + k - 8)
  {
    if fb == 0 { TakeBit0(b0, b1, k); }
    else if fb == 2 { TakeBit2(b0, b1, k); }
    else if fb == 4 { TakeBit4(b0, b1, k); }
    else { TakeBit6(b0, b1, k); }
  }

  lemma TakeBit0(b0: bv8, b1: bv8, k: nat)
    requires k < 6
    ensures BitAt(Take(b0, b1, 0), k) <==> BitAt(b0, k)
  {
    if k == 0 {} else if k == 1 {} else if k == 2 {} else if k == 3 {} else if k == 4 {} else {}
  }

  lemma TakeBit2(b0: bv8, b1: bv8, k: nat)
    requires k < 6
    ensures BitAt(Take(b0, b1, 2), k) <==> BitAt(b0, 2 + k)
  {
    if k == 0 {} else if k == 1 {} else if k == 2 {} else if k == 3 {} else if k == 4 {} else {}
  }

  lemma TakeBit4(b0: bv8, b1: bv8, k: nat)
    requires k < 6
    ensures BitAt(Take(b0, b1, 4), k) <==> if k < 4 then BitAt(b0, 4 + k) else BitAt(b1, k - 4)
  {
    if k == 0 {} else if k == 1 {} else if k == 2 {} else if k == 3 {} else if k == 4 {} else {}
  }

  lemma TakeBit6(b0: bv8, b1: bv8, k: nat)
    requires k < 6
    ensures BitAt(Take(b0, b1, 6), k) <==> if k < 2 then BitAt(b0, 6 + k) else BitAt(b1, k - 2)
  {
    if k == 0 {} else if k == 1 {} else if k == 2 {} else if k == 3 {} else if k == 4 {} else {}
  }

  /** Bit k of register r is bit 6r + k of the bytes, the least significant bits of each first. */
  lemma RegisterBit(p: Packed, r: nat, k: nat)
    requires r < REGISTERS && k < 6
    ensures (r * 6 + k) / 8 < |p| && (BitAt(Get(p, r), k) <==> BitAt(p[(r * 6 + k) / 8], (r * 6 + k) % 8))
  {
    TakeBit(p[ByteOf(r)], p[ByteOf(r) + 1], BitOf(r), k);
    NextBit(r * 6, k);
  }

  lemma NextBit(n: nat, k: nat)
    requires k < 8
    ensures n % 8 + k < 8 ==> (n + k) / 8 == n / 8 && (n + k) % 8 == n % 8 + k
    ensures n % 8 + k >= 8 ==> (n + k) / 8 == n / 8 + 1 && (n + k) % 8 == n % 8 + k - 8
  {
  }

  /** Four registers occupy three bytes. */
  lemma Place(r: nat)
    requires r < REGISTERS
    ensures r % 4 == 0 ==> ByteOf(r) == 3 * (r / 4) && BitOf(r) == 0
    ensures r % 4 == 1 ==> ByteOf(r) == 3 * (r / 4) && BitOf(r) == 6
    ensures r % 4 == 2 ==> ByteOf(r) == 3 * (r / 4) + 1 && BitOf(r) == 4
    ensures r % 4 == 3 ==> ByteOf(r) == 3 * (r / 4) + 2 && BitOf(r) == 2
  {
  }

  /** How far apart two registers start decides how their bytes meet. */
  lemma Layout(r: nat, q: nat)
    requires r < REGISTERS && q < REGISTERS && r != q
    ensures ByteOf(q) == ByteOf(r) ==> (BitOf(r) == 0 && BitOf(q) == 6) || (BitOf(r) == 6 && BitOf(q) == 0)
    ensures ByteOf(q) == ByteOf(r) + 1 ==>
              (BitOf(r) == 6 && BitOf(q) == 4) || (BitOf(r) == 4 && BitOf(q) == 2)
              || (BitOf(r) == 2 && (BitOf(q) == 0 || BitOf(q) == 6)) || (BitOf(r) == 0 && BitOf(q) == 4)
  {
    Place(r);
    Place(q);
  }

  /** Reading a register back gives what was stored, and no other register has changed. */
  lemma GetSet(p: Packed, r: nat, v: bv8, q: nat)
    requires r < REGISTERS && q < REGISTERS && v < 64
    ensures Get(Set(p, r, v), q) == if q == r then v else Get(p, q)
  {
    if q == r {
      TakePut(p[ByteOf(r)], p[ByteOf(r) + 1], v, BitOf(r));
    } else {
      Layout(r, q);
      Layout(q, r);
      if ByteOf(q) == ByteOf(r) {
        SharedByte(p[ByteOf(r)], p[ByteOf(r) + 1], v, BitOf(r), BitOf(q));
      } else if ByteOf(q) == ByteOf(r) + 1 {
        NextByte(p[ByteOf(q)], p[ByteOf(q) + 1], v, BitOf(r), BitOf(q));
      } else if ByteOf(r) == ByteOf(q) + 1 {
        PreviousByte(p[ByteOf(q)], p[ByteOf(r)], v, BitOf(r), BitOf(q));
      }
    }
  }

  /** The registers as plain numbers. */
  function Registers(p: Packed): (r: seq<nat>)
    ensures |r| == REGISTERS
    ensures forall i :: 0 <= i < REGISTERS ==> r[i] == Get(p, i) as nat
  {
    seq(REGISTERS, i requires 0 <= i < REGISTERS => Get(p, i) as nat)
  }

  lemma Narrow(v: nat)
    requires v <= REGISTER_MAX
    ensures (v as bv8) < 64 && (v as bv8) as nat == v
  {
  }

  lemma SetRegister(p: Packed, r: nat, v: nat)
    requires r < REGISTERS && v <= REGISTER_MAX
    ensures Registers(Set(p, r, v as bv8)) == Registers(p)[r := v]
  {
    Narrow(v);
    SetBits(p, r, v as bv8);
  }

  lemma SetBits(p: Packed, r: nat, b: bv8)
    requires r < REGISTERS && b < 64
    ensures Registers(Set(p, r, b)) == Registers(p)[r := b as nat]
  {
    forall q | 0 <= q < REGISTERS ensures Get(Set(p, r, b), q) == if q == r then b else Get(p, q) {
      GetSet(p, r, b, q);
    }
  }

  lemma ZeroRegisters(p: Packed)
    requires forall i :: 0 <= i <= DENSE_BYTES ==> p[i] == 0
    ensures Registers(p) == seq(REGISTERS, _ => 0)
  {
    forall i | 0 <= i < REGISTERS ensures Get(p, i) == 0 {
      ZeroByte(BitOf(i));
    }
  }

  lemma ZeroByte(fb: nat)
    requires Offset(fb)
    ensures Take(0, 0, fb) == 0
  {
    if fb == 0 {} else if fb == 2 {} else if fb == 4 {} else {}
  }
}
