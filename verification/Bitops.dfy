/** bitops.c, redisBitpos and BITOP: bitmaps read and combined a word at a time. */
module Bitops {
  import opened Options

  /** A byte by its bits, the most significant first, as bitmaps number them. */
  type Octet = s: seq<bool> | |s| == 8 witness [false, false, false, false, false, false, false, false]

  const WORD: nat := 8

  function Fill(bit: bool): Octet { [bit, bit, bit, bit, bit, bit, bit, bit] }

  /** Bit i of a bitmap, which is padded with zeros on the right. */
  predicate Bit(s: seq<Octet>, i: nat) {
    i / 8 < |s| && s[i / 8][i % 8]
  }

  /** Every bit before n differs from the one looked for. */
  predicate NoneBefore(s: seq<Octet>, bit: bool, n: nat) {
    forall i: nat :: i < n ==> Bit(s, i) != bit
  }

  // ----- redisBitpos

  lemma SkipOctet(s: seq<Octet>, bit: bool, c: nat)
    requires c < |s| && s[c] == Fill(!bit) && NoneBefore(s, bit, 8 * c)
    ensures NoneBefore(s, bit, 8 * (c + 1))
  {
    forall i: nat | i < 8 * (c + 1) ensures Bit(s, i) != bit {
      if i >= 8 * c {
        assert i / 8 == c;
      }
    }
  }

  /** The eight octets from c on, as far as there are any, with zeros behind them. */
  function LoadWord(s: seq<Octet>, c: nat, n: nat): (w: seq<bool>)
    ensures |w| == 8 * n
  {
    if n == 0 then [] else LoadWord(s, c, n - 1) + (if c + (n - 1) < |s| then s[c + (n - 1)] else Fill(false))
  }

  lemma {:induction false} LoadedBits(s: seq<Octet>, c: nat, n: nat, k: nat)
    requires k < 8 * n
    ensures LoadWord(s, c, n)[k] == Bit(s, 8 * c + k)
  {
    if k < 8 * (n - 1) {
      LoadedBits(s, c, n - 1, k);
    } else {
      var j := k - 8 * (n - 1);
      assert (8 * c + k) / 8 == c + (n - 1) && (8 * c + k) % 8 == j;
    }
  }

  /** Loading: the word is shifted left by eight bits and the next byte put in. */
  method LoadLastWord(s: seq<Octet>, c0: nat) returns (word: seq<bool>)
    requires c0 <= |s|
    ensures word == LoadWord(s, c0, WORD)
  {
    word := seq(64, _ => false);
    var c := c0;
    for j := 0 to WORD
      invariant |word| == 64 && word[64 - 8 * j..] == LoadWord(s, c0, j)
      invariant c == if c0 + j < |s| then c0 + j else |s|
    {
      ghost var before := word;
      word := word[8..] + Fill(false);
      assert word[64 - 8 * (j + 1)..56] == before[64 - 8 * j..];
      if c < |s| {
        word := word[..56] + s[c];
        c := c + 1;
      }
      assert word[64 - 8 * (j + 1)..] == word[64 - 8 * (j + 1)..56] + word[56..];
    }
    assert word[0..] == word;
  }

  /** redisBitpos of a bitmap that begins at the given address: the first bit of the given kind. All
      zeros follow the bitmap, so a clear bit is always found; a set one may not be, then it is -1. */
  method RedisBitpos(s: seq<Octet>, address: nat, bit: bool) returns (pos: int)
    ensures pos == -1 ==> bit && forall i: nat :: !Bit(s, i)
    ensures pos != -1 ==> pos >= 0 && Bit(s, pos) == bit && NoneBefore(s, bit, pos)
    ensures -1 <= pos <= 8 * |s|
  {
    var c := SkipWords(s, address, bit);
    var word := LoadLastWord(s, c);
    if bit && word == seq(64, _ => false) {
      AllClear(s, c);
      return -1;
    }
    var k := 0;
    while k < 64 && word[k] != bit
      invariant k <= 64 && forall i :: 0 <= i < k ==> word[i] != bit
    {
      k := k + 1;
    }
    if k == 64 {
      WordHolds(s, bit, c, word);
      assert false;
    }
    FoundAt(s, bit, c, word, k);
    return 8 * c + k;
  }

  /** The loops that skip bytes up to a word boundary, and then words. */
  method SkipWords(s: seq<Octet>, address: nat, bit: bool) returns (c: nat)
    ensures c <= |s| && NoneBefore(s, bit, 8 * c)
    ensures |s| - c >= WORD ==> exists j :: c <= j < c + WORD && s[j] != Fill(!bit)
  {
    c := 0;
    while (address + c) % WORD != 0 && c < |s| && s[c] == Fill(!bit)
      invariant c <= |s| && NoneBefore(s, bit, 8 * c)
      decreases |s| - c
    {
      SkipOctet(s, bit, c);
      c := c + 1;
    }
    while |s| - c >= WORD && forall j :: c <= j < c + WORD ==> s[j] == Fill(!bit)
      invariant c <= |s| && NoneBefore(s, bit, 8 * c)
      decreases |s| - c
    {
      SkipWord(s, bit, c);
      c := c + WORD;
    }
  }

  lemma SkipWord(s: seq<Octet>, bit: bool, c: nat)
    requires c + WORD <= |s| && NoneBefore(s, bit, 8 * c) && forall j :: c <= j < c + WORD ==> s[j] == Fill(!bit)
    ensures NoneBefore(s, bit, 8 * (c + WORD))
  {
    SkipOctet(s, bit, c);
    SkipOctet(s, bit, c + 1);
    SkipOctet(s, bit, c + 2);
    SkipOctet(s, bit, c + 3);
    SkipOctet(s, bit, c + 4);
    SkipOctet(s, bit, c + 5);
    SkipOctet(s, bit, c + 6);
    SkipOctet(s, bit, c + 7);
  }

  /** The last word has a bit of each kind that is not excluded: the end of the function is not
      reached. */
  lemma WordHolds(s: seq<Octet>, bit: bool, c: nat, word: seq<bool>)
    requires c <= |s| && word == LoadWord(s, c, WORD) && (bit ==> word != seq(64, _ => false))
    requires |s| - c >= WORD ==> exists j :: c <= j < c + WORD && s[j] != Fill(!bit)
    ensures exists k :: 0 <= k < 64 && word[k] == bit
  {
    if bit {
      AllFalse(word);
    } else if |s| - c < WORD {
      var k := 8 * (|s| - c);
      LoadedBits(s, c, WORD, k);
      assert (8 * c + k) / 8 == |s|;
    } else {
      var j :| c <= j < c + WORD && s[j] != Fill(true);
      var i :| 0 <= i < 8 && !s[j][i];
      var k := 8 * (j - c) + i;
      LoadedBits(s, c, WORD, k);
      assert (8 * c + k) / 8 == j && (8 * c + k) % 8 == i;
    }
  }

  lemma FoundAt(s: seq<Octet>, bit: bool, c: nat, word: seq<bool>, k: nat)
    requires c <= |s| && word == LoadWord(s, c, WORD) && NoneBefore(s, bit, 8 * c)
    requires k < 64 && word[k] == bit && forall i :: 0 <= i < k ==> word[i] != bit
    ensures Bit(s, 8 * c + k) == bit && NoneBefore(s, bit, 8 * c + k) && 8 * c + k <= 8 * |s|
  {
    LoadedBits(s, c, WORD, k);
    forall i: nat | i < 8 * c + k ensures Bit(s, i) != bit {
      if i >= 8 * c { LoadedBits(s, c, WORD, i - 8 * c); }
    }
    BehindEnd(s, 8 * |s|);
    BehindEnd(s, 8 * c + k);
  }

  lemma BehindEnd(s: seq<Octet>, i: nat)
    ensures i >= 8 * |s| ==> !Bit(s, i)
  {
  }

  lemma AllFalse(w: seq<bool>)
    requires |w| == 64
    ensures (forall k :: 0 <= k < 64 ==> !w[k]) ==> w == seq(64, _ => false)
  {
  }

  lemma AllClear(s: seq<Octet>, c: nat)
    requires c <= |s| && NoneBefore(s, true, 8 * c) && LoadWord(s, c, WORD) == seq(64, _ => false)
    requires |s| - c >= WORD ==> exists j :: c <= j < c + WORD && s[j] != Fill(false)
    ensures forall i: nat :: !Bit(s, i)
  {
    if |s| - c >= WORD {
      var j :| c <= j < c + WORD && s[j] != Fill(false);
      var i :| 0 <= i < 8 && s[j][i];
      var k := 8 * (j - c) + i;
      LoadedBits(s, c, WORD, k);
      assert (8 * c + k) / 8 == j && (8 * c + k) % 8 == i;
    }
    forall i: nat ensures !Bit(s, i) {
      if 8 * c <= i < 8 * |s| { LoadedBits(s, c, WORD, i - 8 * c); }
    }
  }

  // ----- BITOP

  datatype Op = OpAnd | OpOr | OpXor | OpNot

  function Combine(op: Op, a: bool, b: bool): bool {
    match op
    case OpAnd => a && b
    case OpOr => a || b
    case OpXor => a != b
    case OpNot => a
  }

  /** The operation on two strings of bits: bytes in the slow loop, 64-bit words in the fast one. */
  function CombineBits(op: Op, a: seq<bool>, b: seq<bool>): (r: seq<bool>)
    requires |a| == |b|
    ensures |r| == |a| && forall i :: 0 <= i < |a| ==> r[i] == Combine(op, a[i], b[i])
  {
    seq(|a|, i requires 0 <= i < |a| => Combine(op, a[i], b[i]))
  }

  function Negated(a: seq<bool>): (r: seq<bool>)
    ensures |r| == |a| && forall i :: 0 <= i < |a| ==> r[i] == !a[i]
  {
    seq(|a|, i requires 0 <= i < |a| => !a[i])
  }

  /** Byte j of a source, zero behind its end and for a key that is missing. */
  function Source(src: Option<seq<Octet>>, j: nat): Octet {
    if src.Some? && j < |src.value| then src.value[j] else Fill(false)
  }

  function Length(src: Option<seq<Octet>>): nat { if src.Some? then |src.value| else 0 }

  /** Byte j of the result: the operation over all sources, in their order. */
  function Result(op: Op, srcs: seq<Option<seq<Octet>>>, j: nat): (r: Octet)
    requires srcs != []
  {
    if |srcs| == 1 then (if op == OpNot then Negated(Source(srcs[0], j)) else Source(srcs[0], j))
    else CombineBits(op, Result(op, srcs[..|srcs| - 1], j), Source(srcs[|srcs| - 1], j))
  }

  /** The longest and the shortest source; a missing key is as short as can be. */
  method Lengths(srcs: seq<Option<seq<Octet>>>) returns (maxlen: nat, minlen: nat)
    requires srcs != []
    ensures forall i :: 0 <= i < |srcs| ==> minlen <= Length(srcs[i]) <= maxlen
    ensures exists i :: 0 <= i < |srcs| && Length(srcs[i]) == maxlen
  {
    maxlen, minlen := 0, 0;
    ghost var longest := 0;
    for j := 0 to |srcs|
      invariant forall i :: 0 <= i < j ==> minlen <= Length(srcs[i]) <= maxlen
      invariant j > 0 ==> 0 <= longest < j && Length(srcs[longest]) == maxlen
      invariant j == 0 ==> maxlen == 0
    {
      if srcs[j].None? {
        minlen := 0;
        if j == 0 { longest := 0; }
      } else {
        var len := |srcs[j].value|;
        if len > maxlen || j == 0 { longest := j; }
        if len > maxlen { maxlen := len; }
        if j == 0 || len < minlen { minlen := len; }
      }
    }
  }

  /** A word of eight bytes in memory. */
  function Word(a: seq<Octet>, p: nat): (w: seq<bool>)
    requires p + WORD <= |a|
    ensures |w| == 64 && forall k: nat :: k < 64 ==> w[k] == a[p + k / 8][k % 8]
  {
    seq(64, k requires 0 <= k < 64 => a[p + k / 8][k % 8])
  }

  function Octets(w: seq<bool>): (r: seq<Octet>)
    requires |w| == 64
    ensures |r| == WORD && forall i :: 0 <= i < WORD ==> r[i] == w[8 * i..8 * i + 8]
  {
    seq(WORD, i requires 0 <= i < WORD => w[8 * i..8 * i + 8])
  }

  /** What one source does to a byte of the result. */
  function OctetStep(op: Op, a: Octet, b: Octet): Octet {
    if op == OpNot then Negated(a) else CombineBits(op, a, b)
  }

  /** A word operation is the operation on each of its bytes. */
  lemma WordByByte(op: Op, a: seq<Octet>, b: seq<Octet>, p: nat, i: nat)
    requires p + WORD <= |a| && p + WORD <= |b| && i < WORD
    ensures Octets(CombineBits(op, Word(a, p), Word(b, p)))[i] == CombineBits(op, a[p + i], b[p + i])
    ensures Octets(Negated(Word(a, p)))[i] == Negated(a[p + i])
  {
    var w, n := CombineBits(op, Word(a, p), Word(b, p)), Negated(Word(a, p));
    var x, y, at := a[p + i], b[p + i], 8 * i;
    forall k | 0 <= k < 8 ensures BitStands(op, x, y, w, n, at, k) {
      assert (8 * i + k) / 8 == i && (8 * i + k) % 8 == k;
    }
  }

  predicate BitStands(op: Op, a: Octet, b: Octet, w: seq<bool>, n: seq<bool>, at: nat, k: int)
    requires 0 <= k < 8 && at + 8 <= |w| && at + 8 <= |n|
  {
    w[at + k] == Combine(op, a[k], b[k]) && n[at + k] == !a[k]
  }

  /** One word of the result is combined with one word of a source, or complemented. */
  method WordStep(op: Op, res: array<Octet>, src: seq<Octet>, p: nat)
    requires p + WORD <= res.Length && p + WORD <= |src|
    modifies res
    ensures forall j :: 0 <= j < res.Length && !(p <= j < p + WORD) ==> res[j] == old(res[j])
    ensures forall j :: p <= j < p + WORD ==> res[j] == OctetStep(op, old(res[j]), src[j])
  {
    ghost var before := res[..];
    var w := if op == OpNot then Negated(Word(res[..], p)) else CombineBits(op, Word(res[..], p), Word(src, p));
    var bytes := Octets(w);
    forall i | 0 <= i < WORD { res[p + i] := bytes[i]; }
    forall i | 0 <= i < WORD
      ensures bytes[i] == OctetStep(op, before[p + i], src[p + i])
    {
      WordByByte(op, before, src, p, i);
    }
    assert forall j :: p <= j < p + WORD ==> res[j] == bytes[j - p];
  }

  /** Four words of the result. */
  method FourWords(op: Op, res: array<Octet>, src: seq<Octet>, p: nat)
    requires p + 32 <= res.Length && p + 32 <= |src|
    modifies res
    ensures forall j :: 0 <= j < res.Length && !(p <= j < p + 32) ==> res[j] == old(res[j])
    ensures forall j :: p <= j < p + 32 ==> res[j] == OctetStep(op, old(res[j]), src[j])
  {
    WordStep(op, res, src, p);
    WordStep(op, res, src, p + 8);
    WordStep(op, res, src, p + 16);
    WordStep(op, res, src, p + 24);
  }

  /** One block of 32 bytes of the result, from all sources. */
  method Block(op: Op, srcs: seq<Option<seq<Octet>>>, res: array<Octet>, j: nat)
    requires srcs != [] && (op == OpNot ==> |srcs| == 1) && j + 32 <= res.Length
    requires forall i :: 0 <= i < |srcs| ==> j + 32 <= Length(srcs[i])
    requires forall t :: j <= t < j + 32 ==> res[t] == Source(srcs[0], t)
    modifies res
    ensures forall t :: 0 <= t < res.Length && !(j <= t < j + 32) ==> res[t] == old(res[t])
    ensures forall t :: j <= t < j + 32 ==> res[t] == Result(op, srcs, t)
  {
    if op == OpNot {
      FourWords(op, res, srcs[0].value, j);
      return;
    }
    for i := 1 to |srcs|
      invariant forall t :: 0 <= t < res.Length && !(j <= t < j + 32) ==> res[t] == old(res[t])
      invariant forall t :: j <= t < j + 32 ==> res[t] == Result(op, srcs[..i], t)
    {
      FourWords(op, res, srcs[i].value, j);
      assert srcs[..i + 1][..i] == srcs[..i];
    }
    assert srcs[..|srcs|] == srcs;
  }

  /** The fast path: as far as all sources reach, four words at a time. */
  method FastPath(op: Op, srcs: seq<Option<seq<Octet>>>, res: array<Octet>, minlen: nat) returns (j: nat)
    requires srcs != [] && (op == OpNot ==> |srcs| == 1) && minlen <= res.Length
    requires forall i :: 0 <= i < |srcs| ==> minlen <= Length(srcs[i])
    modifies res
    ensures j <= minlen && forall t :: 0 <= t < j ==> res[t] == Result(op, srcs, t)
  {
    forall t | 0 <= t < minlen { res[t] := Source(srcs[0], t); }
    j := 0;
    while minlen - j >= 32
      invariant j <= minlen
      invariant forall t :: 0 <= t < j ==> res[t] == Result(op, srcs, t)
      invariant forall t :: j <= t < minlen ==> res[t] == Source(srcs[0], t)
      decreases minlen - j
    {
      Block(op, srcs, res, j);
      j := j + 32;
    }
  }

  /** The slow path: byte j from all sources, zero where one has ended. */
  method ByteAt(op: Op, srcs: seq<Option<seq<Octet>>>, j: nat) returns (output: Octet)
    requires srcs != [] && (op == OpNot ==> |srcs| == 1)
    ensures output == Result(op, srcs, j)
  {
    output := Source(srcs[0], j);
    if op == OpNot { output := Negated(output); }
    for i := 1 to |srcs|
      invariant output == Result(op, srcs[..i], j)
    {
      assert srcs[..i + 1][..i] == srcs[..i];
      output := CombineBits(op, output, Source(srcs[i], j));
    }
    assert srcs[..|srcs|] == srcs;
  }

  /** The bit of a string, clear behind its end and for a key that is missing. */
  predicate BitSet(src: Option<seq<Octet>>, j: nat, k: nat)
    requires k < 8
  {
    src.Some? && j < |src.value| && src.value[j][k]
  }

  /** In how many sources the bit is set. */
  function SetCount(srcs: seq<Option<seq<Octet>>>, j: nat, k: nat): nat
    requires k < 8
  {
    if srcs == [] then 0
    else SetCount(srcs[..|srcs| - 1], j, k) + if BitSet(srcs[|srcs| - 1], j, k) then 1 else 0
  }

  /** What a bit of the result is, by the bits of the sources: the complement of the only one, or a
      conjunction, a disjunction or a sum. */
  ghost predicate BitIs(op: Op, srcs: seq<Option<seq<Octet>>>, j: nat, k: nat, bit: bool)
    requires srcs != [] && k < 8
  {
    match op
    case OpNot => bit <==> !BitSet(srcs[0], j, k)
    case OpAnd => bit <==> forall i :: 0 <= i < |srcs| ==> BitSet(srcs[i], j, k)
    case OpOr => bit <==> exists i :: 0 <= i < |srcs| && BitSet(srcs[i], j, k)
    case OpXor => bit <==> SetCount(srcs, j, k) % 2 == 1
  }

  /** The bits of the result, for every number of sources but for the complement, which has one. */
  lemma {:induction false} ResultBit(op: Op, srcs: seq<Option<seq<Octet>>>, j: nat, k: nat)
    requires srcs != [] && (op == OpNot ==> |srcs| == 1) && k < 8
    ensures BitIs(op, srcs, j, k, Result(op, srcs, j)[k])
    decreases |srcs|
  {
    if |srcs| > 1 {
      var init := srcs[..|srcs| - 1];
      ResultBit(op, init, j, k);
      BitsMore(op, init, srcs[|srcs| - 1], j, k, Result(op, init, j)[k]);
      assert srcs == init + [srcs[|srcs| - 1]];
    } else {
      assert srcs[..0] == [] && SetCount([], j, k) == 0;
    }
  }

  /** One source more. */
  lemma BitsMore(op: Op, init: seq<Option<seq<Octet>>>, src: Option<seq<Octet>>, j: nat, k: nat, bit: bool)
    requires init != [] && op != OpNot && k < 8 && BitIs(op, init, j, k, bit)
    ensures BitIs(op, init + [src], j, k, Combine(op, bit, BitSet(src, j, k)))
  {
    var srcs := init + [src];
    assert srcs[..|srcs| - 1] == init && srcs[|init|] == src;
    assert forall i :: 0 <= i < |init| ==> (BitSet(srcs[i], j, k) <==> BitSet(init[i], j, k));
    assert BitSet(srcs[|init|], j, k) == BitSet(src, j, k);
    if op == OpOr && bit {
      var i :| 0 <= i < |init| && BitSet(init[i], j, k);
      assert BitSet(srcs[i], j, k);
    }
  }

  /** BITOP: as long as the longest source, each byte combined from all of them. */
  method Bitop(op: Op, srcs: seq<Option<seq<Octet>>>) returns (result: seq<Octet>)
    requires srcs != [] && (op == OpNot ==> |srcs| == 1)
    ensures forall i :: 0 <= i < |srcs| ==> Length(srcs[i]) <= |result|
    ensures exists i :: 0 <= i < |srcs| && Length(srcs[i]) == |result|
    ensures forall j: nat, k: nat :: j < |result| && k < 8 ==> BitIs(op, srcs, j, k, result[j][k])
    ensures forall j :: 0 <= j < |result| ==> result[j] == Result(op, srcs, j)
  {
    result := Combined(op, srcs);
    forall j: nat, k: nat | j < |result| && k < 8 ensures BitIs(op, srcs, j, k, result[j][k]) {
      ResultBit(op, srcs, j, k);
    }
  }

  method Combined(op: Op, srcs: seq<Option<seq<Octet>>>) returns (result: seq<Octet>)
    requires srcs != [] && (op == OpNot ==> |srcs| == 1)
    ensures forall i :: 0 <= i < |srcs| ==> Length(srcs[i]) <= |result|
    ensures exists i :: 0 <= i < |srcs| && Length(srcs[i]) == |result|
    ensures forall j :: 0 <= j < |result| ==> result[j] == Result(op, srcs, j)
  {
    var maxlen, minlen := Lengths(srcs);
    var res := new Octet[maxlen](_ => Fill(false));
    var j := 0;
    if minlen > 0 && |srcs| <= 16 {
      j := FastPath(op, srcs, res, minlen);
    }
    while j < maxlen
      invariant 0 <= j <= maxlen && forall t :: 0 <= t < j ==> res[t] == Result(op, srcs, t)
    {
      res[j] := ByteAt(op, srcs, j);
      j := j + 1;
    }
    result := res[..];
  }
}
