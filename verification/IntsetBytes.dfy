/** Signed integers as the bytes of an intset: intset.c, _intsetGetEncoded and _intsetSet. */
module IntsetBytes {
  import opened Bytes

  function Pow256(n: nat): (p: nat)
    ensures p > 0
  {
    if n == 0 then 1 else 256 * Pow256(n - 1)
  }

  /** The n low bytes of a number, the lowest first. */
  function LittleEndian(u: nat, n: nat): (s: Text)
    ensures |s| == n
  {
    if n == 0 then [] else [u % 256] + LittleEndian(u / 256, n - 1)
  }

  function Unsigned(s: Text): (u: nat)
    ensures u < Pow256(|s|)
  {
    if s == [] then 0 else var low: nat := s[0]; low + 256 * Unsigned(s[1..])
  }

  lemma {:induction false} UnsignedOfBytes(u: nat, n: nat)
    requires u < Pow256(n)
    ensures Unsigned(LittleEndian(u, n)) == u
  {
    if n > 0 {
      UnsignedOfBytes(u / 256, n - 1);
      assert LittleEndian(u, n)[1..] == LittleEndian(u / 256, n - 1);
    }
  }

  /** v fits in n bytes. */
  predicate Fits(v: int, n: nat) { -(Pow256(n) as int) <= 2 * v < Pow256(n) }

  /** The bytes of v in two's complement. */
  function Encode(v: int, n: nat): (s: Text)
    requires Fits(v, n)
    ensures |s| == n
  {
    var u: nat := if v < 0 then v + Pow256(n) else v;
    LittleEndian(u, n)
  }

  function Decode(s: Text): (v: int)
    requires s != []
    ensures Fits(v, |s|)
  {
    var u := Unsigned(s);
    if 2 * u < Pow256(|s|) then u else u - Pow256(|s|)
  }

  lemma DecodeEncode(v: int, n: nat)
    requires Fits(v, n) && n > 0
    ensures Decode(Encode(v, n)) == v
  {
    UnsignedOfBytes(if v < 0 then v + Pow256(n) else v, n);
  }

  // ----- slots of a byte array

  /** The sizes in bytes of the three encodings. */
  type Width = w: int | w == 2 || w == 4 || w == 8 witness 2

  /** Where slot i begins, in bytes. */
  function Off(w: Width, i: nat): nat {
    if w == 2 then 2 * i else if w == 4 then 4 * i else 8 * i
  }

  lemma SlotBound(w: Width, i: nat, j: nat)
    ensures i <= j ==> Off(w, i) <= Off(w, j)
    ensures i < j ==> Off(w, i) + w <= Off(w, j)
    ensures Off(w, i + 1) == Off(w, i) + w
  {
  }

  /** The number at slot i; zero behind the end. */
  function At(s: Text, w: Width, i: nat): (v: int)
    ensures Fits(v, w)
  {
    ZeroFits(w);
    if Off(w, i) + w <= |s| then Decode(s[Off(w, i)..Off(w, i) + w]) else 0
  }

  lemma ZeroFits(n: nat)
    ensures Fits(0, n)
  {
  }

  /** The bytes after a number in its encoding was stored at slot i. */
  function Put(s: Text, w: Width, i: nat, bytes: Text): (t: Text)
    requires Off(w, i) + w <= |s| && |bytes| == w
    ensures |t| == |s|
  {
    Patched(s, Off(w, i), bytes)
  }

  function Patched(s: Text, p: nat, bytes: Text): (t: Text)
    requires p + |bytes| <= |s|
    ensures |t| == |s|
  {
    s[..p] + bytes + s[p + |bytes|..]
  }

  lemma PatchedSlices(s: Text, p: nat, bytes: Text, a: nat, b: nat)
    requires p + |bytes| <= |s| && a <= b <= |s|
    ensures Patched(s, p, bytes)[p..p + |bytes|] == bytes
    ensures b <= p || p + |bytes| <= a ==> Patched(s, p, bytes)[a..b] == s[a..b]
  {
  }

  lemma AtPut(s: Text, w: Width, i: nat, bytes: Text)
    requires Off(w, i) + w <= |s| && |bytes| == w
    ensures At(Put(s, w, i, bytes), w, i) == Decode(bytes)
  {
    PatchedSlices(s, Off(w, i), bytes, 0, 0);
  }

  /** A store leaves alone every slot, of either width, whose bytes lie apart from its own. */
  lemma AtApart(s: Text, w: Width, i: nat, bytes: Text, w': Width, j: nat)
    requires Off(w, i) + w <= |s| && |bytes| == w && Off(w', j) + w' <= |s|
    requires Off(w', j) + w' <= Off(w, i) || Off(w, i) + w <= Off(w', j)
    ensures At(Put(s, w, i, bytes), w', j) == At(s, w', j)
  {
    PatchedSlices(s, Off(w, i), bytes, Off(w', j), Off(w', j) + w');
  }

  /** The numbers in the first n slots. */
  function Slots(s: Text, w: Width, n: nat): (r: seq<int>)
    ensures |r| == n
  {
    if n == 0 then [] else Slots(s, w, n - 1) + [At(s, w, n - 1)]
  }

  lemma {:induction false} SlotsAt(s: Text, w: Width, n: nat, i: nat)
    requires i < n
    ensures Slots(s, w, n)[i] == At(s, w, i)
  {
    if i < n - 1 { SlotsAt(s, w, n - 1, i); }
  }

  lemma {:induction false} SlotsFit(s: Text, w: Width, n: nat)
    ensures forall i :: 0 <= i < n ==> Fits(Slots(s, w, n)[i], w)
  {
    if n > 0 { SlotsFit(s, w, n - 1); }
  }
}
