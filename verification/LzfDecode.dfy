/** Which inputs the decompressor of lzf_d.c accepts, and how it fails on the others. */
module LzfDecode {
  import opened Bytes
  import opened LzfFormat

  // ----- the tokens that were read

  lemma LiteralRead(data: seq<Byte>, ip: nat, n: nat) returns (t: Token)
    requires ip + 1 + n <= |data| && data[ip] as int == n - 1 && 1 <= n <= MAX_LIT
    ensures t == Literal(data[ip + 1..ip + 1 + n]) && t.Ok() && TokenAt(data, ip, t)
  {
    t := Literal(data[ip + 1..ip + 1 + n]);
  }

  lemma FieldsInRange(ctrl: int, last: int)
    requires 32 <= ctrl < 256 && 0 <= last < 256
    ensures var off := (ctrl % 32) * 256 + last;
      0 <= off < MAX_OFF && off / 256 == ctrl % 32 && off % 256 == last && 1 <= ctrl / 32 <= 7
      && (ctrl % 32) + (ctrl / 32) * 32 == ctrl
  {
  }

  /** The fields of a reference are those of a token that stands there. */
  lemma ReferenceRead(data: seq<Byte>, ip: nat) returns (t: Token)
    requires ip < |data| && data[ip] as int >= 32 && ReadFields(data, ip).Fields?
    ensures var f := ReadFields(data, ip);
      t == Ref(f.off, f.len + 2) && t.Ok() && TokenAt(data, ip, t) && f.next == ip + |t.Encode()|
  {
    var f := ReadFields(data, ip);
    FieldsInRange(data[ip], data[f.next - 1]);
    t := Ref(f.off, f.len + 2);
  }

  /** Whatever one turn reads is a token, and the turn does what it says. */
  lemma TokenRead(data: seq<Byte>, ip: nat, out: seq<Byte>, cap: nat) returns (t: Token)
    requires ip < |data| && ReadToken(data, ip, out, cap).Go?
    ensures t.Ok() && (t.Ref? ==> t.off < |out|) && TokenAt(data, ip, t) && |Apply(out, t)| <= cap
    ensures ReadToken(data, ip, out, cap) == Go(ip + |t.Encode()|, Apply(out, t))
  {
    if data[ip] as int < 32 {
      t := LiteralRead(data, ip, data[ip] as int + 1);
    } else {
      t := ReferenceRead(data, ip);
    }
  }

  // ----- where decoding gets stuck

  /** The bytes of a reference: two, or three for a long one. */
  function RefBytes(ctrl: Byte): nat { if ctrl as int >= 224 then 3 else 2 }

  /** How many bytes the first token of the text is to produce: literals, or a copy. */
  function Produces(s: seq<Byte>): nat
    requires s != []
  {
    if s[0] as int < 32 then s[0] as int + 1
    else if s[0] as int >= 224 then (if |s| >= 2 then s[1] as int + 9 else 9)
    else s[0] as int / 32 + 2
  }

  /** How far back the copy is to begin. */
  function Distance(s: seq<Byte>): nat
    requires s != [] && |s| >= RefBytes(s[0])
  {
    (s[0] as int % 32) * 256 + s[RefBytes(s[0]) - 1] as int + 1
  }

  /** The first token would exceed the room; for a copy that is found out only when it is all there. */
  predicate Exceeds(s: seq<Byte>, out: seq<Byte>, cap: nat) {
    s != [] && (s[0] as int < 32 || |s| >= RefBytes(s[0])) && |out| + Produces(s) > cap
  }

  /** The first token is not all there, or it fits but is to copy from before the beginning. */
  predicate Faulty(s: seq<Byte>, out: seq<Byte>, cap: nat) {
    s != [] &&
    if s[0] as int < 32 then |s| < 1 + Produces(s) && |out| + Produces(s) <= cap
    else |s| < RefBytes(s[0]) || (|out| + Produces(s) <= cap && Distance(s) > |out|)
  }

  lemma LiteralStuck(data: seq<Byte>, ip: nat, out: seq<Byte>, cap: nat)
    requires ip < |data| && data[ip] as int < 32
    ensures ReadToken(data, ip, out, cap) == Over <==> Exceeds(data[ip..], out, cap)
    ensures ReadToken(data, ip, out, cap) == Broken <==> Faulty(data[ip..], out, cap)
  {
  }

  lemma ReferenceStuck(data: seq<Byte>, ip: nat, out: seq<Byte>, cap: nat)
    requires ip < |data| && data[ip] as int >= 32
    ensures ReadToken(data, ip, out, cap) == Over <==> Exceeds(data[ip..], out, cap)
    ensures ReadToken(data, ip, out, cap) == Broken <==> Faulty(data[ip..], out, cap)
  {
    var s := data[ip..];
    assert |s| >= RefBytes(s[0]) ==> s[RefBytes(s[0]) - 1] == data[ip + RefBytes(s[0]) - 1];
    assert |s| >= 2 ==> s[1] == data[ip + 1];
  }

  lemma Stuck(data: seq<Byte>, ip: nat, out: seq<Byte>, cap: nat)
    requires ip < |data|
    ensures ReadToken(data, ip, out, cap) == Over <==> Exceeds(data[ip..], out, cap)
    ensures ReadToken(data, ip, out, cap) == Broken <==> Faulty(data[ip..], out, cap)
  {
    if data[ip] as int < 32 {
      LiteralStuck(data, ip, out, cap);
    } else {
      ReferenceStuck(data, ip, out, cap);
    }
  }

  // ----- what decoding comes to

  /** The input begins with the encoding of tokens that can be expanded into the room there is, and tail is
      what follows. */
  ghost predicate Reaches(data: seq<Byte>, cap: nat, ts: seq<Token>, tail: seq<Byte>) {
    Expandable(ts) && |Expand(ts)| <= cap && data == EncodeAll(ts) + tail
  }

  /** How decoding ends, by what follows the tokens: nothing, a token that does not fit, or a bad one. */
  predicate EndsAs(r: Outcome, out: seq<Byte>, tail: seq<Byte>, cap: nat) {
    match r
    case Done(s) => s == out && tail == []
    case TooBig => Exceeds(tail, out, cap)
    case Invalid => Faulty(tail, out, cap)
  }

  /** The tokens ts stand in front, and produce out. */
  ghost predicate Front(data: seq<Byte>, cap: nat, ts: seq<Token>, read: seq<Byte>, out: seq<Byte>) {
    Expandable(ts) && EncodeAll(ts) == read && read <= data && Expand(ts) == out && |out| <= cap
  }

  /** One token more. */
  lemma {:induction false} FrontNext(data: seq<Byte>, cap: nat, ts: seq<Token>, read: seq<Byte>, out: seq<Byte>,
          t: Token)
    requires Front(data, cap, ts, read, out) && t.Ok() && (t.Ref? ==> t.off < |out|)
    requires TokenAt(data, |read|, t) && |Apply(out, t)| <= cap
    ensures Front(data, cap, ts + [t], read + t.Encode(), Apply(out, t)) && |t.Encode()| > 0
  {
    Snoc(ts, t);
    Extends(read, t.Encode(), data);
  }

  lemma Extends(a: seq<Byte>, b: seq<Byte>, data: seq<Byte>)
    requires a <= data && |a| + |b| <= |data| && data[|a|..|a| + |b|] == b
    ensures a + b <= data
  {
    assert data[..|a| + |b|] == data[..|a|] + data[|a|..|a| + |b|];
  }

  lemma Rest(a: seq<Byte>, data: seq<Byte>)
    requires a <= data
    ensures data == a + data[|a|..]
  {
  }

  lemma {:induction false} EndsHere(r: Outcome, data: seq<Byte>, ip: nat, out: seq<Byte>, cap: nat)
    requires ip <= |data| && r == Continue(data, ip, out, cap)
    requires ip < |data| ==> !ReadToken(data, ip, out, cap).Go?
    ensures EndsAs(r, out, data[ip..], cap)
  {
    if ip < |data| {
      Stuck(data, ip, out, cap);
      assert Continue(data, ip, out, cap) == Decode(data, ip, out, cap);
    }
  }

  lemma {:induction false} NextTurn(data: seq<Byte>, ip: nat, out: seq<Byte>, cap: nat, t: Token)
    requires ip < |data| && t.Ok() && (t.Ref? ==> t.off < |out|)
    requires ip + |t.Encode()| <= |data| && ReadToken(data, ip, out, cap) == Go(ip + |t.Encode()|, Apply(out, t))
    ensures Continue(data, ip, out, cap) == Continue(data, ip + |t.Encode()|, Apply(out, t), cap)
  {
    assert Continue(data, ip, out, cap) == Decode(data, ip, out, cap);
  }

  lemma {:induction false} GoesOn(r: Outcome, data: seq<Byte>, cap: nat, ts: seq<Token>, read: seq<Byte>,
          out: seq<Byte>)
    returns (next: seq<Token>, read': seq<Byte>, out': seq<Byte>)
    requires Front(data, cap, ts, read, out) && r == Continue(data, |read|, out, cap)
    requires |read| < |data| && ReadToken(data, |read|, out, cap).Go?
    ensures Front(data, cap, next, read', out') && r == Continue(data, |read'|, out', cap) && |read| < |read'|
  {
    var t := TokenRead(data, |read|, out, cap);
    FrontNext(data, cap, ts, read, out, t);
    NextTurn(data, |read|, out, cap, t);
    next, read', out' := ts + [t], read + t.Encode(), Apply(out, t);
  }

  lemma {:induction false} Goes(r: Outcome, data: seq<Byte>, cap: nat, ts: seq<Token>, read: seq<Byte>, out: seq<Byte>)
    returns (ts': seq<Token>, tail: seq<Byte>)
    requires Front(data, cap, ts, read, out) && r == Continue(data, |read|, out, cap)
    ensures Reaches(data, cap, ts', tail) && EndsAs(r, Expand(ts'), tail, cap)
    decreases |data| - |read|
  {
    if |read| < |data| && ReadToken(data, |read|, out, cap).Go? {
      var next, read', out' := GoesOn(r, data, cap, ts, read, out);
      ts', tail := Goes(r, data, cap, next, read', out');
    } else {
      Rest(read, data);
      EndsHere(r, data, |read|, out, cap);
      ts', tail := ts, data[|read|..];
    }
  }

  /** Every outcome is the one that the tokens in front of the input and what follows them call for:
      success exactly on the encodings of what fits, with their expansion; E2BIG exactly at a token that
      exceeds the room; EINVAL exactly at one that is cut off or copies from before the beginning. */
  lemma DecodeIff(data: seq<Byte>, cap: nat, r: Outcome)
    requires data != []
    ensures Decode(data, 0, [], cap) == r
      <==> exists ts, tail :: Reaches(data, cap, ts, tail) && EndsAs(r, Expand(ts), tail, cap)
  {
    var d := Continue(data, 0, [], cap);
    assert Front(data, cap, [], [], []);
    var ts0, tail0 := Goes(d, data, cap, [], [], []);
    if ts, tail :| Reaches(data, cap, ts, tail) && EndsAs(r, Expand(ts), tail, cap) {
      EndsSo(data, cap, ts, tail, r, d);
    }
  }

  lemma {:induction false} EndsSo(data: seq<Byte>, cap: nat, ts: seq<Token>, tail: seq<Byte>, r: Outcome, d: Outcome)
    requires data != [] && Reaches(data, cap, ts, tail) && EndsAs(r, Expand(ts), tail, cap)
    requires d == Continue(data, 0, [], cap)
    ensures d == r
  {
    DecodePrefix(ts, data, cap, d);
    var ip := |EncodeAll(ts)|;
    assert data[ip..] == tail;
    if tail != [] { Stuck(data, ip, Expand(ts), cap); }
  }
}
