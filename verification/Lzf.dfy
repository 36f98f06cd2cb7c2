/** lzf_c.c and lzf_d.c: the compressor and the decompressor over byte buffers. */
module Lzf {
  import opened Bytes
  import opened LzfFormat

  const HSIZE: nat := 65536

  // ----- lzf_d.c

  datatype Errno = None | E2BIG | EINVAL

  /** lzf_decompress: the number of bytes written, or 0 and the error. */
  method Decompress(data: seq<Byte>, out: array<Byte>) returns (n: nat, errno: Errno)
    requires data != []
    modifies out
    ensures match Decode(data, 0, [], out.Length)
            case Done(s) => errno == None && n == |s| <= out.Length && out[..n] == s
            case TooBig => errno == E2BIG && n == 0
            case Invalid => errno == EINVAL && n == 0
  {
    var ip: nat, op: nat := 0, 0;
    errno := None;
    ghost var goal := Decode(data, 0, [], out.Length);
    while true
      invariant ip < |data| && op <= out.Length && errno == None
      invariant Decode(data, ip, out[..op], out.Length) == goal
      decreases |data| - ip
    {
      if data[ip] as int < 32 {
        errno, ip, op := ReadLiterals(data, ip, out, op);
      } else {
        errno, ip, op := ReadReference(data, ip, out, op);
      }
      if errno != None { return 0, errno; }
      if ip >= |data| { break; }
    }
    n := op;
  }

  /** What was read at ip brings the decoder to ip', or to an error. */
  ghost predicate Reads(data: seq<Byte>, ip: nat, out: seq<Byte>, cap: nat, errno: Errno, ip': nat, out': seq<Byte>)
    requires ip < |data|
  {
    match errno
    case None => ReadToken(data, ip, out, cap) == Go(ip', out')
    case E2BIG => ReadToken(data, ip, out, cap) == Over
    case EINVAL => ReadToken(data, ip, out, cap) == Broken
  }

  /** A control byte below 32: that many literal bytes, and one. */
  method ReadLiterals(data: seq<Byte>, ip: nat, out: array<Byte>, op: nat) returns (errno: Errno, ip': nat, op': nat)
    requires ip < |data| && op <= out.Length && data[ip] as int < 32
    modifies out
    ensures op' <= out.Length && Reads(data, ip, old(out[..op]), out.Length, errno, ip', out[..op'])
  {
    var ctrl: int := data[ip] as int + 1;
    ip', op' := ip + 1, op;
    if op + ctrl > out.Length { return E2BIG, ip', op; }
    if ip' + ctrl > |data| { return EINVAL, ip', op; }
    op' := CopyLiterals(data, ip', out, op, ctrl);
    ip' := ip' + ctrl;
    errno := None;
  }

  /** Any other control byte: a copy of earlier output. */
  method ReadReference(data: seq<Byte>, ip: nat, out: array<Byte>, op: nat) returns (errno: Errno, ip': nat, op': nat)
    requires ip < |data| && op <= out.Length && data[ip] as int >= 32
    modifies out
    ensures op' <= out.Length && Reads(data, ip, old(out[..op]), out.Length, errno, ip', out[..op'])
  {
    var ok, len, ref;
    ok, ip', len, ref := ReadHeader(data, ip, op);
    op' := op;
    if !ok { return EINVAL, ip', op; }
    errno, op' := CopyReference(out, op, ref, len, ip');
  }

  method CopyReference(out: array<Byte>, op: nat, ref: int, len: nat, ghost next: nat)
    returns (errno: Errno, op': nat)
    requires op <= out.Length && ref < op
    modifies out
    ensures op' <= out.Length
    ensures var t := ReferenceTurn(Fields(next, len, op - ref - 1), old(out[..op]), out.Length);
            match errno
            case None => t == Go(next, out[..op'])
            case E2BIG => t == Over
            case EINVAL => t == Broken
  {
    op' := op;
    if op + len + 2 > out.Length { return E2BIG, op; }
    if ref < 0 { return EINVAL, op; }
    op' := CopyBack(out, op, ref, len + 2);
    errno := None;
  }

  /** The two or three bytes of a reference: where the copy begins, below 0 for a bad one. */
  method ReadHeader(data: seq<Byte>, ip: nat, op: nat) returns (ok: bool, ip': nat, len: nat, ref: int)
    requires ip < |data|
    ensures match ReadFields(data, ip)
            case Cut => !ok
            case Fields(next, l, off) => ok && ip' == next && len == l && ref == op - off - 1
  {
    var ctrl: int := data[ip] as int;
    ip' := ip + 1;
    len := ctrl / 32;
    ref := op - (ctrl % 32) * 256 - 1;
    if ip' >= |data| { return false, ip', len, ref; }
    if len == 7 {
      len := len + data[ip'] as int;
      ip' := ip' + 1;
      if ip' >= |data| { return false, ip', len, ref; }
    }
    ref := ref - data[ip'] as int;
    ip' := ip' + 1;
    ok := true;
  }

  method CopyLiterals(data: seq<Byte>, ip: nat, out: array<Byte>, op: nat, count: nat) returns (op': nat)
    requires ip + count <= |data| && op + count <= out.Length
    modifies out
    ensures op' == op + count && out[..op'] == old(out[..op]) + data[ip..ip + count]
  {
    op' := op;
    while op' < op + count
      invariant op <= op' <= op + count
      invariant out[..op'] == old(out[..op]) + data[ip..ip + (op' - op)]
    {
      out[op'] := data[ip + (op' - op)];
      op' := op' + 1;
    }
  }

  /** `*op++ = *ref++`, len times. */
  method CopyBack(out: array<Byte>, op: nat, ref: nat, len: nat) returns (op': nat)
    requires ref < op && op + len <= out.Length
    modifies out
    ensures op' == op + len && out[..op'] == Copy(old(out[..op]), op - ref - 1, len)
  {
    op' := op;
    while op' < op + len
      invariant op <= op' <= op + len
      invariant Copy(out[..op'], op - ref - 1, op + len - op') == Copy(old(out[..op]), op - ref - 1, len)
    {
      ghost var before := out[..op'];
      out[op'] := out[ref + (op' - op)];
      op' := op' + 1;
      assert out[..op'] == before + [before[|before| - (op - ref - 1) - 1]];
    }
  }

  // ----- lzf_c.c

  /** The length of the match of input[ip..] with input[ref..], of which three bytes are
      known. The first sixteen comparisons are unrolled and do not look at maxlen. */
  method MatchLength(input: seq<Byte>, ref: nat, ip: nat, maxlen: nat) returns (len: nat)
    requires ref < ip && ip + 4 < |input|
    requires Matches(input, ref, ip, 3)
    requires maxlen == if |input| - ip - 2 > MAX_REF then MAX_REF else |input| - ip - 2
    ensures 3 <= len <= MAX_REF && ip + len <= |input|
    ensures Matches(input, ref, ip, len)
    ensures len < maxlen ==> input[ref + len] != input[ip + len]
  {
    len := 2;
    if maxlen > 16 {
      var n := 0;
      while n < 16
        invariant 0 <= n <= 16 && len == 2 + n
        invariant Matches(input, ref, ip, len + 1)
      {
        len := len + 1;
        MatchesOneMore(input, ref, ip, len);
        if input[ref + len] != input[ip + len] { return; }
        n := n + 1;
      }
    }
    len := len + 1;
    while len < maxlen && input[ref + len] == input[ip + len]
      invariant 3 <= len <= MAX_REF && ip + len <= |input|
      invariant Matches(input, ref, ip, len)
    {
      MatchesOneMore(input, ref, ip, len);
      len := len + 1;
    }
  }

  function Frst(input: seq<Byte>, p: nat): nat
    requires p + 1 < |input|
  {
    input[p] as int * 256 + input[p + 1] as int
  }

  /** NEXT, in the 32 bits of an unsigned int. */
  function Next(hval: nat, input: seq<Byte>, p: nat): nat
    requires p + 2 < |input|
  {
    (hval * 256 + input[p + 2] as int) % 0x1_0000_0000
  }

  /** IDX of the VERY_FAST configuration, in unsigned arithmetic. */
  function Idx(hval: nat): (i: nat)
    ensures i < HSIZE
  {
    (hval / 256 - hval * 5) % 65536
  }

  /** What the output buffer holds when input[..ip] has been consumed: complete tokens for
      all but the last lit bytes, a slot for the header of the pending run, and those bytes. */
  ghost predicate Progress(input: seq<Byte>, ip: int, out: seq<Byte>, op: int, lit: int, ts: seq<Token>) {
    && 0 <= lit <= ip <= |input| && lit < op <= |out|
    && Expandable(ts) && Expand(ts) == input[..ip - lit]
    && out[..op - lit - 1] == EncodeAll(ts)
    && out[op - lit..op] == input[ip - lit..ip]
  }

  /** Closing a pending run of lit > 0 bytes turns it into a token. */
  lemma CloseRun(input: seq<Byte>, ip: int, out: seq<Byte>, op: int, lit: int, ts: seq<Token>)
    requires Progress(input, ip, out, op, lit, ts) && 1 <= lit <= MAX_LIT
    ensures var t := Literal(input[ip - lit..ip]);
            && Expandable(ts + [t]) && Expand(ts + [t]) == input[..ip]
            && out[op - lit - 1 := lit - 1][..op] == EncodeAll(ts + [t])
  {
    var t := Literal(input[ip - lit..ip]);
    Snoc(ts, t);
    var out' := out[op - lit - 1 := lit - 1];
    assert out'[..op] == out[..op - lit - 1] + [lit - 1] + out[op - lit..op];
    assert input[..ip - lit] + input[ip - lit..ip] == input[..ip];
  }

  /** The output is longer than the input read by no more than the header that is pending, and one
      for every 32 bytes. */
  predicate Economical(ip: nat, op: nat, lit: nat) { 32 * (op - 1 - ip) <= ip - lit }

  /** A match has been found at ref: stop the pending run and write a reference, unless
      the room left is too small. */
  method EmitMatch(input: seq<Byte>, ip: nat, ref: nat, out: array<Byte>, outLen: nat, op: nat, lit: nat,
                   ghost ts: seq<Token>)
    returns (fits: bool, op': nat, len: nat, ghost ts': seq<Token>)
    requires out.Length == outLen + 1 && op <= outLen + 1 && lit < MAX_LIT
    requires Progress(input, ip, out[..], op, lit, ts)
    requires ref < ip && ip - ref - 1 < MAX_OFF && ip + 4 < |input| && Matches(input, ref, ip, 3)
    modifies out
    ensures fits ==> op' <= outLen && 3 <= len && ip + len <= |input| && Progress(input, ip + len, out[..], op', 0, ts')
    ensures if fits then op' <= op + len else op + 4 >= outLen
  {
    op', ts' := CloseRunIfAny(input, ip, out, op, lit, ts);
    len := 0;
    fits := op' + 3 + 1 < outLen;
    if fits {
      var maxlen := |input| - ip - 2;
      maxlen := if maxlen > MAX_REF then MAX_REF else maxlen;
      len := MatchLength(input, ref, ip, maxlen);
      op', ts' := PutMatch(input, ip, out, op', ip - ref - 1, len, ts');
    }
  }

  /** lzf_compress: the compressed size, or 0 when the result would not fit into the
      outLen bytes. The buffer has one spare byte after them, because the header of a run
      is stored before the capacity is checked. The hash table may hold anything. The first hash of
      an input of one byte also takes the byte behind it, and is not used. */
  method Compress(input: seq<Byte>, out: array<Byte>, outLen: nat, htab: array<int>) returns (n: nat)
    requires out.Length == outLen + 1 && htab.Length == HSIZE
    modifies out, htab
    ensures n <= outLen
    ensures n > 0 ==> Decompresses(out[..n], input) && n <= |input| + (|input| + 31) / 32
    ensures input != [] && outLen >= |input| + |input| / 32 + 4 ==> n > 0
  {
    if input == [] || outLen == 0 { return 0; }
    ghost var ts: seq<Token> := [];
    var ip: nat, op: nat, lit: nat := 0, 1, 0;
    var hval: nat := if |input| > 1 then Frst(input, ip) else 0;
    while ip < |input| - 2
      invariant lit < MAX_LIT && op <= outLen + 1
      invariant Progress(input, ip, out[..], op, lit, ts) && Economical(ip, op, lit)
      decreases |input| - ip
    {
      var fits;
      fits, hval, ip, op, lit, ts := CompressTurn(input, out, outLen, htab, hval, ip, op, lit, ts);
      if !fits { return 0; }
    }
    n := Finish(input, ip, out, outLen, op, lit, ts);
  }

  /** One turn of the main loop: a match or one more literal, unless the room left is too small. */
  method CompressTurn(input: seq<Byte>, out: array<Byte>, outLen: nat, htab: array<int>, hval0: nat,
                      ip0: nat, op0: nat, lit0: nat, ghost ts0: seq<Token>)
    returns (fits: bool, hval: nat, ip: nat, op: nat, lit: nat, ghost ts: seq<Token>)
    requires out.Length == outLen + 1 && htab.Length == HSIZE && ip0 < |input| - 2
    requires lit0 < MAX_LIT && op0 <= outLen + 1
    requires Progress(input, ip0, out[..], op0, lit0, ts0) && Economical(ip0, op0, lit0)
    modifies out, htab
    ensures fits ==> ip0 < ip && lit < MAX_LIT && op <= outLen + 1
    ensures fits ==> Progress(input, ip, out[..], op, lit, ts) && Economical(ip, op, lit)
    ensures outLen >= |input| + |input| / 32 + 4 ==> fits
  {
    hval := Next(hval0, input, ip0);
    var ref := htab[Idx(hval)];
    htab[Idx(hval)] := ip0;
    var off := ip0 - ref - 1;
    if 0 <= off < MAX_OFF && ip0 + 4 < |input| && ref > 0
       && input[ref] == input[ip0] && input[ref + 1] == input[ip0 + 1] && input[ref + 2] == input[ip0 + 2]
    {
      ThreeBytesMatch(input, ref, ip0);
      var len;
      fits, op, len, ts := EmitMatch(input, ip0, ref, out, outLen, op0, lit0, ts0);
      lit, ip := 0, ip0 + len;
      if fits && ip < |input| - 2 {
        hval := RememberTail(input, ip, htab);
      }
    } else {
      fits, ip, op, lit, ts := op0 < outLen, ip0, op0, lit0, ts0;
      if fits {
        lit, op, ip, ts := PutLiteral(input, ip0, out, op0, lit0, ts0);
      }
    }
  }

  /** The last bytes are too few to match: they go out as literals. */
  method Finish(input: seq<Byte>, ip: nat, out: array<Byte>, outLen: nat, op: nat, lit: nat, ghost ts: seq<Token>)
    returns (n: nat)
    requires out.Length == outLen + 1 && lit < MAX_LIT && |input| - 2 <= ip && input != []
    requires Progress(input, ip, out[..], op, lit, ts) && Economical(ip, op, lit)
    modifies out
    ensures n <= outLen && (n == 0 ==> op + 3 > outLen)
    ensures n > 0 ==> Decompresses(out[..n], input) && n <= |input| + (|input| + 31) / 32
  {
    if op + 3 > outLen { return 0; }
    var ip, op, lit := ip, op, lit;
    ghost var ts := ts;
    while ip < |input|
      invariant lit < MAX_LIT && |input| - ip <= 2 && Progress(input, ip, out[..], op, lit, ts)
      invariant Economical(ip, op, lit)
      invariant op + (|input| - ip) + (if lit + (|input| - ip) >= MAX_LIT then 1 else 0) <= outLen
    {
      lit, op, ip, ts := PutLiteral(input, ip, out, op, lit, ts);
    }
    op, ts := CloseRunIfAny(input, ip, out, op, lit, ts);
    n := op;
    EncodingDecompresses(ts, input);
  }

  /** The two positions before the end of a match are entered into the hash table. */
  method RememberTail(input: seq<Byte>, ip: nat, htab: array<int>) returns (hval: nat)
    requires 3 <= ip < |input| - 2 && htab.Length == HSIZE
    modifies htab
  {
    hval := Frst(input, ip - 2);
    hval := Next(hval, input, ip - 2);
    htab[Idx(hval)] := ip - 2;
    hval := Next(hval, input, ip - 1);
    htab[Idx(hval)] := ip - 1;
  }

  /** lzf_decompress turns data into input whenever it is given room for it. */
  ghost predicate Decompresses(data: seq<Byte>, input: seq<Byte>) {
    data != [] && forall cap :: cap >= |input| ==> Decode(data, 0, [], cap) == Done(input)
  }

  lemma EncodingDecompresses(ts: seq<Token>, input: seq<Byte>)
    requires Expandable(ts) && Expand(ts) == input[..|input|] && input != []
    ensures Decompresses(EncodeAll(ts), input)
  {
    assert input[..|input|] == input;
    forall cap: nat | cap >= |input| ensures Decode(EncodeAll(ts), 0, [], cap) == Done(input) {
      DecodeEncode(ts, cap);
    }
    DecodeEncode(ts, |input|);
  }

  /** Compressing and then decompressing gives the input back. */
  method RoundTrip(input: seq<Byte>, outLen: nat, htab: array<int>) returns (ok: bool, result: seq<Byte>)
    requires htab.Length == HSIZE
    modifies htab
    ensures if ok then result == input else result == []
    ensures input != [] && outLen >= |input| + |input| / 32 + 4 ==> ok
  {
    var packed := new Byte[outLen + 1];
    var n := Compress(input, packed, outLen, htab);
    if n == 0 { return false, []; }
    var unpacked := new Byte[|input|];
    var m, errno := Decompress(packed[..n], unpacked);
    ok, result := true, unpacked[..m];
  }

  /** Stop the pending run; undo its header when it is empty. */
  method CloseRunIfAny(input: seq<Byte>, ip: nat, out: array<Byte>, op: nat, lit: nat, ghost ts: seq<Token>)
    returns (op': nat, ghost ts': seq<Token>)
    requires Progress(input, ip, out[..], op, lit, ts) && lit < MAX_LIT
    modifies out
    ensures op' == op - if lit == 0 then 1 else 0
    ensures Expandable(ts') && Expand(ts') == input[..ip] && out[..op'] == EncodeAll(ts')
  {
    ghost var before := out[..];
    var header: Byte := (lit - 1) % 256;
    HeaderByte(lit);
    out[op - lit - 1] := header;
    op' := op - if lit == 0 then 1 else 0;
    assert out[..] == before[op - lit - 1 := header];
    ts' := ts;
    if lit > 0 {
      CloseRun(input, ip, before, op, lit, ts);
      ts' := ts + [Literal(input[ip - lit..ip])];
    } else {
      UpdateBehind(before, op - 1, header);
    }
  }

  lemma HeaderByte(lit: nat)
    requires lit <= MAX_LIT
    ensures (lit - 1) % 256 == if lit > 0 then lit - 1 else 255
  {
  }

  lemma UpdateBehind(out: seq<Byte>, n: nat, b: Byte)
    requires n < |out|
    ensures out[n := b][..n] == out[..n]
  {
  }

  /** The two or three bytes of a back reference. */
  method PutRef(out: array<Byte>, op: nat, off: nat, len: nat) returns (op': nat)
    requires op + 3 <= out.Length && Ref(off, len).Ok()
    modifies out
    ensures op' == op + if len - 2 < 7 then 2 else 3
    ensures out[..op'] == old(out[..op]) + Ref(off, len).Encode()
  {
    var l := len - 2;
    op' := op;
    if l < 7 {
      out[op'] := off / 256 + l * 32;
      op' := op' + 1;
    } else {
      out[op'] := off / 256 + 7 * 32;
      op' := op' + 1;
      out[op'] := l - 7;
      op' := op' + 1;
    }
    out[op'] := off % 256;
    op' := op' + 1;
  }

  /** A match of len bytes, written as a reference, moves the input position past it. */
  method PutMatch(input: seq<Byte>, ip: nat, out: array<Byte>, op: nat, off: nat, len: nat, ghost ts: seq<Token>)
    returns (op': nat, ghost ts': seq<Token>)
    requires off < ip && ip + len <= |input| && op + 4 < out.Length && Ref(off, len).Ok()
    requires Matches(input, ip - off - 1, ip, len)
    requires Expandable(ts) && Expand(ts) == input[..ip] && out[..op] == EncodeAll(ts)
    modifies out
    ensures op' == op + (if len - 2 < 7 then 3 else 4) && Progress(input, ip + len, out[..], op', 0, ts')
  {
    CopyReproduces(input, ip, off, len);
    Snoc(ts, Ref(off, len));
    ts' := ts + [Ref(off, len)];
    op' := PutRef(out, op, off, len);
    op' := op' + 1;
  }

  /** One more literal byte; a run of MAX_LIT bytes is closed at once. */
  method PutLiteral(input: seq<Byte>, ip: nat, out: array<Byte>, op: nat, lit: nat, ghost ts: seq<Token>)
    returns (lit': nat, op': nat, ip': nat, ghost ts': seq<Token>)
    requires Progress(input, ip, out[..], op, lit, ts) && lit < MAX_LIT
    requires ip < |input| && op + 1 < out.Length
    modifies out
    ensures ip' == ip + 1 && lit' == (if lit + 1 == MAX_LIT then 0 else lit + 1)
    ensures op' == op + if lit + 1 == MAX_LIT then 2 else 1
    ensures Progress(input, ip', out[..], op', lit', ts')
  {
    out[op] := input[ip];
    lit', op', ip', ts' := lit + 1, op + 1, ip + 1, ts;
    assert out[op - lit..op'] == out[op - lit..op] + [input[ip]];
    assert input[ip - lit..ip'] == input[ip - lit..ip] + [input[ip]];
    assert Progress(input, ip', out[..], op', lit', ts);
    if lit' == MAX_LIT {
      ghost var before := out[..];
      CloseRun(input, ip', before, op', lit', ts);
      ts' := ts + [Literal(input[ip' - lit'..ip'])];
      out[op' - lit' - 1] := lit' - 1;
      lit', op' := 0, op' + 1;
    }
  }
}
