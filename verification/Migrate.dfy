/** migrate.c: the payload of DUMP, checked by RESTORE. */
module Migrate {
  import opened Crc64

  const RDB_VERSION: bv16 := 6

  /** The n low bytes of x, the lowest first. */
  function LittleEndian(x: bv64, n: nat): (s: Octets)
    ensures |s| == n
  {
    if n == 0 then [] else [LowByte(x)] + LittleEndian(Shift8(x), n - 1)
  }

  /** The serialised object, the version and the checksum of both. */
  function Payload(body: Octets): Octets {
    (body + [6, 0]) + LittleEndian(Crc(0, body + [6, 0]), 8)
  }

  method CreateDumpPayload(body: Octets) returns (payload: Octets)
    ensures payload == Payload(body)
  {
    var version: Octets := [(RDB_VERSION & 0xff) as bv8, ((RDB_VERSION >> 8) & 0xff) as bv8];
    assert version == [6, 0];
    payload := body + version;
    var crc := Crc64.Crc64(0, payload);
    payload := payload + LittleEndian(crc, 8);
  }

  predicate Accepted(p: Octets) {
    && |p| >= 10
    && p[|p| - 10] == 6 && p[|p| - 9] == 0
    && p[|p| - 8..] == LittleEndian(Crc(0, p[..|p| - 8]), 8)
  }

  method VerifyDumpPayload(p: Octets) returns (ok: bool)
    ensures ok <==> Accepted(p)
  {
    if |p| < 10 { return false; }
    var footer := p[|p| - 10..];
    var version: bv16 := ((footer[1] as bv16) << 8) | (footer[0] as bv16);
    VersionBytes(footer[0], footer[1]);
    if version != RDB_VERSION { return false; }
    var crc := Crc64.Crc64(0, p[..|p| - 8]);
    assert footer[2..] == p[|p| - 8..];
    return LittleEndian(crc, 8) == footer[2..];
  }

  lemma VersionBytes(lo: bv8, hi: bv8)
    ensures ((hi as bv16) << 8) | (lo as bv16) == RDB_VERSION <==> lo == 6 && hi == 0
  {
  }

  /** What is accepted is what createDumpPayload makes, of some object. */
  lemma AcceptedIsCreated(p: Octets)
    ensures Accepted(p) <==> |p| >= 10 && p == Payload(p[..|p| - 10])
  {
    if |p| >= 10 {
      var body := p[..|p| - 10];
      if p[|p| - 10] == 6 && p[|p| - 9] == 0 {
        assert p[..|p| - 8] == body + [6, 0];
        assert p == p[..|p| - 8] + p[|p| - 8..];
      }
      if p == Payload(body) {
        assert p[..|p| - 8] == body + [6, 0];
        assert p[|p| - 10] == (body + [6, 0])[|body|] && p[|p| - 9] == (body + [6, 0])[|body| + 1];
        assert p[|p| - 8..] == LittleEndian(Crc(0, body + [6, 0]), 8);
      }
    }
  }

  lemma CreatedIsAccepted(body: Octets)
    ensures Accepted(Payload(body))
  {
    var p := Payload(body);
    assert p[..|p| - 10] == body;
    AcceptedIsCreated(p);
  }

  // ----- what is not accepted

  lemma ByteAndRest(x: bv64)
    ensures x == Xor(Wide(LowByte(x)), Up8(Shift8(x)))
  {
  }

  lemma {:induction false} LittleEndianInjective(x: bv64, y: bv64, n: nat)
    requires Below(x, n) && Below(y, n) && LittleEndian(x, n) == LittleEndian(y, n)
    ensures x == y
    decreases n
  {
    if n > 0 {
      assert LittleEndian(x, n)[1..] == LittleEndian(Shift8(x), n - 1);
      assert LittleEndian(y, n)[1..] == LittleEndian(Shift8(y), n - 1);
      assert LittleEndian(x, n)[0] == LittleEndian(y, n)[0];
      LittleEndianInjective(Shift8(x), Shift8(y), n - 1);
      ByteAndRest(x);
      ByteAndRest(y);
    }
  }

  lemma EightShifts(x: bv64)
    ensures Shift8(Shift8(Shift8(Shift8(Shift8(Shift8(Shift8(Shift8(x)))))))) == 0
  {
  }

  lemma BelowEight(x: bv64)
    ensures Below(x, 8)
  {
    EightShifts(x);
    var a := Shift8(x); var b := Shift8(a); var c := Shift8(b); var d := Shift8(c);
    var e := Shift8(d); var f := Shift8(e); var g := Shift8(f);
    assert Below(Shift8(g), 0);
    assert Below(g, 1);
    assert Below(f, 2);
    assert Below(e, 3);
    assert Below(d, 4);
    assert Below(c, 5);
    assert Below(b, 6);
    assert Below(a, 7);
  }

  /** Two payloads agree but for the bytes from i up to j. */
  predicate AgreeOutside(p: Octets, q: Octets, i: nat, j: nat) {
    |p| == |q| && forall k :: 0 <= k < |p| && !(i <= k < j) ==> p[k] == q[k]
  }

  lemma CutOut(p: Octets, i: nat, j: nat, n: nat)
    requires i <= j <= n <= |p|
    ensures p[..n] == p[..i] + (p[i..j] + p[j..n]) && p == p[..n] + p[n..]
  {
  }

  lemma Agreeing(p: Octets, q: Octets, i: nat, j: nat, n: nat)
    requires AgreeOutside(p, q, i, j) && i <= j <= n <= |p|
    ensures p[..i] == q[..i] && p[j..n] == q[j..n] && p[n..] == q[n..]
  {
  }

  /** A payload that differs from an accepted one within eight consecutive bytes of what the
      checksum covers is refused. */
  lemma BurstIsRefused(p: Octets, q: Octets, i: nat, j: nat)
    requires Accepted(p) && p != q && AgreeOutside(p, q, i, j)
    requires i <= j <= i + 8 && j <= |p| - 8
    ensures !Accepted(q)
  {
    var n := |p| - 8;
    CutOut(p, i, j, n);
    CutOut(q, i, j, n);
    Agreeing(p, q, i, j, n);
    BurstChangesCrc(p[..i], p[i..j], q[i..j], p[j..n]);
    DifferentCrcBytes(Crc(0, p[..n]), Crc(0, q[..n]));
  }

  lemma DifferentCrcBytes(x: bv64, y: bv64)
    requires x != y
    ensures LittleEndian(x, 8) != LittleEndian(y, 8)
  {
    BelowEight(x);
    BelowEight(y);
    if LittleEndian(x, 8) == LittleEndian(y, 8) {
      LittleEndianInjective(x, y, 8);
    }
  }

  /** So is one that differs in the checksum alone. */
  lemma ChangedChecksumIsRefused(p: Octets, q: Octets)
    requires Accepted(p) && p != q && AgreeOutside(p, q, |p| - 8, |p|)
    ensures !Accepted(q)
  {
    var n := |p| - 8;
    Agreeing(p, q, n, |p|, |p|);
    CutOut(p, n, n, n);
    CutOut(q, n, n, n);
  }
}
