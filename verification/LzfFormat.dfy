/** The LZF compressed format: literal runs and back references, how they are laid out in
    bytes, what they expand to, and how the decompressor reads them back. */
module LzfFormat {

  import opened Bytes

  const MAX_LIT: nat := 32     // 1 << 5
  const MAX_OFF: nat := 8192   // 1 << 13
  const MAX_REF: nat := 264    // (1 << 8) + (1 << 3)

  /** A run of literal bytes, or a copy of len bytes starting off + 1 bytes back. */
  datatype Token = Literal(bytes: seq<Byte>) | Ref(off: nat, len: nat) {
    predicate Ok() {
      match this
      case Literal(bytes) => 1 <= |bytes| <= MAX_LIT
      case Ref(off, len) => off < MAX_OFF && 3 <= len <= MAX_REF
    }

    /** 000LLLLL bytes, LLLooooo oooooooo or 111ooooo LLLLLLLL oooooooo. */
    function Encode(): (r: seq<Byte>)
      requires Ok()
    {
      match this
      case Literal(bytes) => [|bytes| - 1] + bytes
      case Ref(off, len) =>
        if len - 2 < 7 then [off / 256 + (len - 2) * 32, off % 256]
        else [off / 256 + 7 * 32, len - 2 - 7, off % 256]
    }
  }

  /** Byte by byte copying, so that a reference may overlap its own output. */
  function Copy(out: seq<Byte>, off: nat, len: nat): (r: seq<Byte>)
    requires off < |out|
    ensures |r| == |out| + len && r[..|out|] == out
    decreases len
  {
    if len == 0 then out else Copy(out + [out[|out| - off - 1]], off, len - 1)
  }

  function Apply(out: seq<Byte>, t: Token): (r: seq<Byte>)
    requires t.Ref? ==> t.off < |out|
  {
    match t
    case Literal(bytes) => out + bytes
    case Ref(off, len) => Copy(out, off, len)
  }

  /** Every reference of ts reaches back to a byte that exists. */
  predicate Expandable(ts: seq<Token>)
    decreases |ts|, 0
  {
    ts == [] ||
    var t := ts[|ts| - 1];
    Expandable(ts[..|ts| - 1]) && t.Ok() && (t.Ref? ==> t.off < |Expand(ts[..|ts| - 1])|)
  }

  function Expand(ts: seq<Token>): seq<Byte>
    requires Expandable(ts)
    decreases |ts|, 1
  {
    if ts == [] then [] else Apply(Expand(ts[..|ts| - 1]), ts[|ts| - 1])
  }

  function EncodeAll(ts: seq<Token>): seq<Byte>
    requires Expandable(ts)
  {
    if ts == [] then [] else EncodeAll(ts[..|ts| - 1]) + ts[|ts| - 1].Encode()
  }

  /** Adding one token at the end. */
  lemma Snoc(ts: seq<Token>, t: Token)
    requires Expandable(ts) && t.Ok() && (t.Ref? ==> t.off < |Expand(ts)|)
    ensures Expandable(ts + [t])
    ensures Expand(ts + [t]) == Apply(Expand(ts), t)
    ensures EncodeAll(ts + [t]) == EncodeAll(ts) + t.Encode()
  {
    assert (ts + [t])[..|ts|] == ts;
  }

  // ----- reading

  /** The bytes produced, E2BIG, or EINVAL. */
  datatype Outcome = Done(out: seq<Byte>) | TooBig | Invalid

  /** One turn of the decoder: where it goes on and what it has produced, or E2BIG, or EINVAL. */
  datatype Turn = Go(ip: nat, out: seq<Byte>) | Over | Broken

  /** The bytes of a back reference: they end before the reference does, or they give the position
      behind it, the length less two and the distance less one. */
  datatype Fields = Cut | Fields(next: nat, len: nat, off: nat)

  function ReadFields(data: seq<Byte>, ip: nat): (f: Fields)
    requires ip < |data|
    ensures f.Fields? ==> ip < f.next <= |data|
  {
    var ctrl: int := data[ip];
    var long := ctrl / 32 == 7;
    var last := if long then ip + 2 else ip + 1;
    if last >= |data| then Cut
    else Fields(last + 1, if long then data[ip + 1] as int + 7 else ctrl / 32, (ctrl % 32) * 256 + data[last] as int)
  }

  /** The turn of a reference with the given fields. */
  function ReferenceTurn(f: Fields, out: seq<Byte>, cap: nat): Turn {
    match f
    case Cut => Broken
    case Fields(next, len, off) =>
      if |out| + len + 2 > cap then Over
      else if off >= |out| then Broken
      else Go(next, Copy(out, off, len + 2))
  }

  /** What lzf_decompress makes of the token at byte ip, when it has produced out and may produce up
      to cap bytes. */
  function ReadToken(data: seq<Byte>, ip: nat, out: seq<Byte>, cap: nat): (r: Turn)
    requires ip < |data|
    ensures r.Go? ==> ip < r.ip <= |data|
  {
    var ctrl: int := data[ip];
    if ctrl < 32 then
      if |out| + ctrl + 1 > cap then Over
      else if ip + 1 + ctrl + 1 > |data| then Broken
      else Go(ip + 1 + ctrl + 1, out + data[ip + 1..ip + 1 + ctrl + 1])
    else ReferenceTurn(ReadFields(data, ip), out, cap)
  }

  /** What lzf_decompress makes of the rest of its input, byte ip onwards. */
  function Decode(data: seq<Byte>, ip: nat, out: seq<Byte>, cap: nat): Outcome
    requires ip < |data|
    decreases |data| - ip, 0
  {
    match ReadToken(data, ip, out, cap)
    case Go(ip', out') => Continue(data, ip', out', cap)
    case Over => TooBig
    case Broken => Invalid
  }

  function Continue(data: seq<Byte>, ip: nat, out: seq<Byte>, cap: nat): Outcome
    requires ip <= |data|
    decreases |data| - ip, 1
  {
    if ip < |data| then Decode(data, ip, out, cap) else Done(out)
  }

  /** The bytes of a token stand at position ip. */
  predicate TokenAt(data: seq<Byte>, ip: nat, t: Token)
    requires t.Ok()
  {
    ip + |t.Encode()| <= |data| && data[ip..ip + |t.Encode()|] == t.Encode()
  }

  lemma DecodeLiteral(data: seq<Byte>, ip: nat, out: seq<Byte>, cap: nat, bytes: seq<Byte>)
    requires Literal(bytes).Ok() && TokenAt(data, ip, Literal(bytes)) && |out| + |bytes| <= cap
    ensures ReadToken(data, ip, out, cap) == Go(ip + 1 + |bytes|, out + bytes)
  {
    var e := Literal(bytes).Encode();
    assert data[ip] == data[ip..ip + |e|][0] == |bytes| - 1;
    assert data[ip + 1..ip + |e|] == data[ip..ip + |e|][1..] == bytes;
  }

  /** Splitting the control byte of a reference gives its two fields back. */
  lemma ControlByte(off: int, l: int)
    requires 0 <= off < MAX_OFF && 0 <= l <= 7
    ensures 0 <= off / 256 < 32 && (off / 256 + l * 32) / 32 == l && (off / 256 + l * 32) % 32 == off / 256
    ensures (off / 256) * 256 + off % 256 == off
  {
  }

  /** The bytes of a reference, as the decoder finds them. */
  lemma RefBytes(data: seq<Byte>, ip: nat, off: nat, len: nat)
    requires Ref(off, len).Ok() && TokenAt(data, ip, Ref(off, len))
    ensures var l := if len - 2 < 7 then len - 2 else 7;
      var last := if l == 7 then ip + 2 else ip + 1;
      && |Ref(off, len).Encode()| == last + 1 - ip && last < |data|
      && data[ip] as int == off / 256 + l * 32 && data[last] as int == off % 256
      && (l == 7 ==> data[ip + 1] as int == len - 9)
  {
    var e := Ref(off, len).Encode();
    assert data[ip] == data[ip..ip + |e|][0];
    assert data[ip + |e| - 1] == data[ip..ip + |e|][|e| - 1];
    if len - 2 >= 7 {
      assert data[ip + 1] == data[ip..ip + |e|][1];
    }
  }

  lemma DecodeRef(data: seq<Byte>, ip: nat, out: seq<Byte>, cap: nat, off: nat, len: nat)
    requires Ref(off, len).Ok() && off < |out| && TokenAt(data, ip, Ref(off, len)) && |out| + len <= cap
    ensures ReadToken(data, ip, out, cap) == Go(ip + |Ref(off, len).Encode()|, Copy(out, off, len))
  {
    var l := if len - 2 < 7 then len - 2 else 7;
    RefBytes(data, ip, off, len);
    ControlByte(off, l);
    DecodeFields(data, ip, out, cap, off, len, l);
  }

  /** The decoder on a reference whose fields are known. */
  lemma DecodeFields(data: seq<Byte>, ip: nat, out: seq<Byte>, cap: nat, off: nat, len: nat, l: nat)
    requires off < |out| && |out| + len <= cap && l == (if len - 2 < 7 then len - 2 else 7) && len >= 3
    requires var last := if l == 7 then ip + 2 else ip + 1;
      && last < |data| && data[ip] as int / 32 == l && (data[ip] as int % 32) * 256 + data[last] as int == off
      && (l == 7 ==> data[ip + 1] as int == len - 9)
    ensures ReadToken(data, ip, out, cap) == Go(if l == 7 then ip + 3 else ip + 2, Copy(out, off, len))
  {
  }

  /** One token is read back as itself. */
  lemma DecodeToken(data: seq<Byte>, ip: nat, out: seq<Byte>, cap: nat, t: Token)
    requires t.Ok() && (t.Ref? ==> t.off < |out|) && TokenAt(data, ip, t) && |Apply(out, t)| <= cap
    ensures ReadToken(data, ip, out, cap) == Go(ip + |t.Encode()|, Apply(out, t))
  {
    match t
    case Literal(bytes) => DecodeLiteral(data, ip, out, cap, bytes);
    case Ref(off, len) => DecodeRef(data, ip, out, cap, off, len);
  }

  /** The token at a position that has been reached is read next. */
  lemma NextToken(data: seq<Byte>, ip: nat, t: Token, out: seq<Byte>, cap: nat)
    requires t.Ok() && (t.Ref? ==> t.off < |out|) && |Apply(out, t)| <= cap && TokenAt(data, ip, t)
    ensures Continue(data, ip, out, cap) == Continue(data, ip + |t.Encode()|, Apply(out, t), cap)
  {
    DecodeToken(data, ip, out, cap, t);
  }

  lemma PrefixParts(a: seq<Byte>, b: seq<Byte>, data: seq<Byte>)
    requires a + b <= data
    ensures a <= data && |a| + |b| <= |data| && data[|a|..|a| + |b|] == b
  {
    assert data[..|a| + |b|] == a + b;
    assert data[|a|..|a| + |b|] == data[..|a| + |b|][|a|..];
    assert a == (a + b)[..|a|] == data[..|a|];
  }

  lemma LastTokenStands(ts: seq<Token>, data: seq<Byte>)
    requires Expandable(ts) && ts != [] && EncodeAll(ts) <= data
    ensures var init, t := ts[..|ts| - 1], ts[|ts| - 1];
      EncodeAll(init) <= data && TokenAt(data, |EncodeAll(init)|, t)
      && |EncodeAll(ts)| == |EncodeAll(init)| + |t.Encode()|
  {
    PrefixParts(EncodeAll(ts[..|ts| - 1]), ts[|ts| - 1].Encode(), data);
  }

  /** Reading the encoding of ts off the front of some input produces its expansion: r, what reading
      from the start comes to, is what reading from behind the encoding comes to. */
  lemma {:induction false} DecodePrefix(ts: seq<Token>, data: seq<Byte>, cap: nat, r: Outcome)
    requires Expandable(ts) && |Expand(ts)| <= cap && EncodeAll(ts) <= data
    requires r == Continue(data, 0, [], cap)
    ensures r == Continue(data, |EncodeAll(ts)|, Expand(ts), cap)
    decreases |ts|
  {
    if ts != [] {
      LastTokenStands(ts, data);
      DecodePrefix(ts[..|ts| - 1], data, cap, r);
      LastToken(ts, data, cap);
    }
  }

  lemma LastTokenApplies(ts: seq<Token>)
    requires Expandable(ts) && ts != []
    ensures var init, t := ts[..|ts| - 1], ts[|ts| - 1];
      t.Ok() && Expand(ts) == Apply(Expand(init), t) && (t.Ref? ==> t.off < |Expand(init)|)
  {
  }

  lemma LastToken(ts: seq<Token>, data: seq<Byte>, cap: nat)
    requires Expandable(ts) && ts != [] && |Expand(ts)| <= cap && EncodeAll(ts) <= data
    ensures var init := ts[..|ts| - 1];
      Continue(data, |EncodeAll(init)|, Expand(init), cap) == Continue(data, |EncodeAll(ts)|, Expand(ts), cap)
  {
    LastTokenStands(ts, data);
    LastTokenApplies(ts);
    var n, out, t := |EncodeAll(ts[..|ts| - 1])|, Expand(ts[..|ts| - 1]), ts[|ts| - 1];
    NextToken(data, n, t, out, cap);
  }

  /** Whatever tokens a compressor chooses, the decompressor gives back what they expand to. */
  lemma DecodeEncode(ts: seq<Token>, cap: nat)
    requires Expandable(ts) && ts != [] && |Expand(ts)| <= cap
    ensures |EncodeAll(ts)| > 0 && Decode(EncodeAll(ts), 0, [], cap) == Done(Expand(ts))
  {
    DecodePrefix(ts, EncodeAll(ts), cap, Continue(EncodeAll(ts), 0, [], cap));
  }

  /** The len bytes at ref and at ip are the same. */
  predicate Matches(input: seq<Byte>, ref: nat, ip: nat, len: nat)
    requires ref <= ip && ip + len <= |input|
  {
    input[ref..ref + len] == input[ip..ip + len]
  }

  lemma MatchesOneMore(input: seq<Byte>, ref: nat, ip: nat, len: nat)
    requires ref <= ip && ip + len < |input| && Matches(input, ref, ip, len)
    ensures input[ref + len] == input[ip + len] ==> Matches(input, ref, ip, len + 1)
  {
    assert input[ref..ref + len + 1] == input[ref..ref + len] + [input[ref + len]];
    assert input[ip..ip + len + 1] == input[ip..ip + len] + [input[ip + len]];
  }

  lemma ThreeBytesMatch(input: seq<Byte>, ref: nat, ip: nat)
    requires ref <= ip && ip + 3 <= |input|
    requires input[ref] == input[ip] && input[ref + 1] == input[ip + 1] && input[ref + 2] == input[ip + 2]
    ensures Matches(input, ref, ip, 3)
  {
  }

  /** A reference to an earlier match of the bytes to come reproduces them, even when the
      match runs into the bytes it produces. */
  lemma {:induction false} CopyReproduces(input: seq<Byte>, ip: nat, off: nat, len: nat)
    requires off < ip && ip + len <= |input| && Matches(input, ip - off - 1, ip, len)
    ensures Copy(input[..ip], off, len) == input[..ip + len]
    decreases len
  {
    var ref := ip - off - 1;
    if len > 0 {
      assert input[ref] == input[ref..ref + len][0] == input[ip..ip + len][0] == input[ip];
      assert input[..ip] + [input[ip]] == input[..ip + 1];
      assert input[ref + 1..ref + len] == input[ref..ref + len][1..];
      assert input[ip + 1..ip + len] == input[ip..ip + len][1..];
      CopyReproduces(input, ip + 1, off, len - 1);
    }
  }
}
