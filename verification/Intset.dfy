/** A set of 64-bit integers in a sorted array of the narrowest width that holds them: intset.c. */
module Intset {
  import opened Bytes
  import opened IntsetBytes

  /** _intsetValueEncoding. */
  function WidthFor(v: int): (w: Width)
    requires Fits(v, 8)
    ensures Fits(v, w)
  {
    Widths(v);
    if v < -0x8000_0000 || v > 0x7fff_ffff then 8
    else if v < -0x8000 || v > 0x7fff then 4
    else 2
  }

  /** The width is the least that holds the value. */
  lemma WidthIsLeast(v: int, w: Width)
    requires Fits(v, 8)
    ensures Fits(v, w) <==> WidthFor(v) <= w
  {
    Widths(v);
  }

  lemma WiderFits(v: int, w: Width, w': Width)
    requires w <= w' && Fits(v, w)
    ensures Fits(v, w')
  {
    Widths(v);
  }

  lemma Widths(v: int)
    ensures Fits(v, 2) <==> -0x8000 <= v <= 0x7fff
    ensures Fits(v, 4) <==> -0x8000_0000 <= v <= 0x7fff_ffff
    ensures Fits(v, 8) <==> -0x8000_0000_0000_0000 <= v <= 0x7fff_ffff_ffff_ffff
  {
    assert Pow256(2) == 0x1_0000;
    assert Pow256(4) == 0x1_0000_0000;
    assert Pow256(6) == 0x1_0000_0000_0000;
    assert Pow256(8) == 0x1_0000_0000_0000_0000;
  }

  // ----- sorted sequences as sets

  predicate Increasing(s: seq<int>) { forall i, j :: 0 <= i < j < |s| ==> s[i] < s[j] }

  function Members(s: seq<int>): set<int> { set x | x in s }

  /** v belongs at position p: everything before is smaller, everything from p on is not. */
  predicate Position(s: seq<int>, v: int, p: nat) {
    && p <= |s|
    && (forall i :: 0 <= i < p ==> s[i] < v)
    && (forall i :: p <= i < |s| ==> v <= s[i])
  }

  lemma InsertKeeps(s: seq<int>, v: int, p: nat)
    requires Increasing(s) && Position(s, v, p) && v !in s
    ensures Increasing(s[..p] + [v] + s[p..]) && Members(s[..p] + [v] + s[p..]) == Members(s) + {v}
  {
    var t := s[..p] + [v] + s[p..];
    forall i, j | 0 <= i < j < |t| ensures t[i] < t[j] {
      if j > p { assert t[j] == s[j - 1] && t[j] != v; }
    }
    assert s == s[..p] + s[p..];
    forall x ensures x in t <==> x in s || x == v {
      assert x in t <==> x in s[..p] || x == v || x in s[p..];
      assert x in s <==> x in s[..p] || x in s[p..];
    }
  }

  lemma EndKeeps(s: seq<int>, v: int)
    requires Increasing(s)
    ensures (forall i :: 0 <= i < |s| ==> v < s[i]) ==> Increasing([v] + s)
    ensures (forall i :: 0 <= i < |s| ==> s[i] < v) ==> Increasing(s + [v])
  {
  }

  lemma RemoveKeeps(s: seq<int>, p: nat)
    requires Increasing(s) && p < |s|
    ensures Increasing(s[..p] + s[p + 1..]) && Members(s[..p] + s[p + 1..]) == Members(s) - {s[p]}
  {
    var t := s[..p] + s[p + 1..];
    assert s == s[..p] + [s[p]] + s[p + 1..];
    forall x ensures x in t <==> x in s && x != s[p] {
      assert x in t <==> x in s[..p] || x in s[p + 1..];
      assert x in s <==> x in s[..p] || x == s[p] || x in s[p + 1..];
    }
  }

  /** Everything before lo is smaller than v and everything from hi on is greater. */
  predicate Between(s: seq<int>, v: int, lo: int, hi: int) {
    && 0 <= lo <= hi <= |s|
    && (forall i :: 0 <= i < lo ==> s[i] < v)
    && (forall i :: hi <= i < |s| ==> v < s[i])
  }

  lemma Narrowed(s: seq<int>, v: int, lo: int, hi: int, mid: int)
    requires Increasing(s) && Between(s, v, lo, hi) && lo <= mid < hi
    ensures s[mid] < v ==> Between(s, v, mid + 1, hi)
    ensures v < s[mid] ==> Between(s, v, lo, mid)
    ensures s[mid] == v ==> Position(s, v, mid) && v in s
  {
  }

  lemma NotBetween(s: seq<int>, v: int, p: int)
    requires Between(s, v, p, p)
    ensures Position(s, v, p) && v !in s
  {
  }

  /** The numbers below v, in a sorted sequence, are those before its position. */
  lemma PositionDecides(s: seq<int>, v: int, p: nat)
    requires Increasing(s) && Position(s, v, p)
    ensures v in s <==> p < |s| && s[p] == v
  {
  }

  // ----- the set

  class IntSet {
    var encoding: Width
    var length: nat
    var contents: array<Byte>

    ghost predicate Sized()
      reads this
    {
      contents.Length == Off(encoding, length)
    }

    /** The numbers as they lie in the array. */
    ghost function Elements(): (r: seq<int>)
      requires Sized()
      reads this, contents
      ensures |r| == length
    {
      Slots(contents[..], encoding, length)
    }

    ghost predicate Valid()
      reads this, contents
    {
      Sized() && Increasing(Elements())
    }

    ghost function Set(): set<int>
      requires Valid()
      reads this, contents
    {
      Members(Elements())
    }

    /** intsetNew. */
    constructor ()
      ensures Valid() && fresh(contents) && Set() == {} && encoding == 2
    {
      encoding, length := 2, 0;
      contents := new Byte[0];
    }

    method GetEncoded(pos: nat, width: Width) returns (v: int)
      requires Off(width, pos) + width <= contents.Length
      ensures v == At(contents[..], width, pos)
    {
      v := Decode(contents[Off(width, pos)..Off(width, pos) + width]);
      assert contents[..][Off(width, pos)..Off(width, pos) + width]
        == contents[Off(width, pos)..Off(width, pos) + width];
    }

    method Get(pos: nat) returns (v: int)
      requires Sized() && pos < length
      ensures v == Elements()[pos]
    {
      SlotBound(encoding, pos, length);
      SlotsAt(contents[..], encoding, length, pos);
      v := GetEncoded(pos, encoding);
    }

    method SetAt(pos: nat, v: int)
      requires Off(encoding, pos) + encoding <= contents.Length && Fits(v, encoding)
      modifies contents
      ensures contents[..] == Put(old(contents[..]), encoding, pos, Encode(v, encoding))
    {
      var bytes := Encode(v, encoding);
      var base := Off(encoding, pos);
      ghost var was := contents[..];
      forall k | 0 <= k < encoding { contents[base + k] := bytes[k]; }
      assert contents[..] == Patched(was, base, bytes);
    }

    /** intsetResize: a new block that begins like the old one. */
    method Resize(slots: nat)
      modifies this`contents
      ensures fresh(contents) && contents.Length == Off(encoding, slots)
      ensures forall k :: 0 <= k < contents.Length && k < old(contents.Length) ==> contents[k] == old(contents[k])
    {
      var size := Off(encoding, slots);
      var block := new Byte[size];
      var n := if contents.Length < size then contents.Length else size;
      forall k | 0 <= k < n { block[k] := contents[k]; }
      contents := block;
    }

    /** intsetSearch: where the value is, or where it would go. */
    method Search(value: int) returns (found: bool, pos: nat)
      requires Valid()
      ensures Position(Elements(), value, pos) && (found <==> value in Elements())
    {
      if length == 0 { return false, 0; }
      var last := Get(length - 1);
      if value > last { return false, length; }
      var first := Get(0);
      if value < first { return false, 0; }
      found, pos := Bisect(value);
    }

    method Bisect(value: int) returns (found: bool, pos: nat)
      requires Valid()
      ensures Position(Elements(), value, pos) && (found <==> value in Elements())
    {
      ghost var s := Elements();
      var min, max := 0, length - 1;
      while min <= max
        invariant 0 <= min <= max + 1 <= |s| == length
        invariant Between(s, value, min, max + 1)
      {
        var mid := (min + max) / 2;
        var cur := Get(mid);
        Narrowed(s, value, min, max + 1, mid);
        if value > cur {
          min := mid + 1;
        } else if value < cur {
          max := mid - 1;
        } else {
          return true, mid;
        }
      }
      NotBetween(s, value, min);
      return false, min;
    }

    /** intsetFind. */
    method Find(value: int) returns (found: bool)
      requires Valid() && Fits(value, 8)
      ensures found <==> value in Set()
    {
      var width := WidthFor(value);
      if width <= encoding {
        var pos;
        found, pos := Search(value);
      } else {
        SlotsFit(contents[..], encoding, length);
        TooWide(Elements(), encoding, value);
        found := false;
      }
    }

    /** intsetMoveTail: memmove of the slots from one on, to the place of another. */
    method MoveTail(from: nat, to: nat)
      requires from <= length && Off(encoding, from) + Off(encoding, length - from) <= contents.Length
      requires Off(encoding, to) + Off(encoding, length - from) <= contents.Length
      modifies contents
      ensures contents[..]
        == Moved(old(contents[..]), Off(encoding, from), Off(encoding, to), Off(encoding, length - from))
    {
      MoveBytes(Off(encoding, from), Off(encoding, to), Off(encoding, length - from));
    }

    method MoveBytes(src: nat, dst: nat, n: nat)
      requires src + n <= contents.Length && dst + n <= contents.Length
      modifies contents
      ensures contents[..] == Moved(old(contents[..]), src, dst, n)
    {
      ghost var was := contents[..];
      forall k | 0 <= k < n { contents[dst + k] := contents[src + k]; }
      MovedPointwise(was, contents[..], src, dst, n);
    }

    /** intsetUpgradeAndAdd. The slots are widened from the last to the first, so that none is
        overwritten before it was read. */
    method UpgradeAndAdd(value: int)
      requires Valid() && Fits(value, 8) && WidthFor(value) > encoding
      modifies this, contents
      ensures Valid() && fresh(contents)
      ensures Elements() == if value < 0 then [value] + old(Elements()) else old(Elements()) + [value]
      ensures encoding == WidthFor(value)
    {
      ghost var e := Elements();
      SlotsFit(contents[..], encoding, length);
      TooWide(e, encoding, value);
      EndKeeps(e, value);
      Widen(value, e);
      length := length + 1;
      assert Sized();
      assert Elements() == if value < 0 then [value] + e else e + [value];
    }

    method Widen(value: int, ghost e: seq<int>)
      requires Sized() && Elements() == e && Fits(value, 8) && WidthFor(value) > encoding
      modifies this`encoding, this`contents
      ensures encoding == WidthFor(value) && fresh(contents) && contents.Length == Off(encoding, length + 1)
      ensures Slots(contents[..], encoding, length + 1) == if value < 0 then [value] + e else e + [value]
    {
      var narrow, prepend := encoding, if value < 0 then 1 else 0;
      SlotsFit(contents[..], narrow, length);
      encoding := WidthFor(value);
      GrowBy(narrow, e);
      forall i | 0 <= i < length ensures Fits(e[i], encoding) { WiderFits(e[i], narrow, encoding); }
      WidenAll(narrow, length, prepend, e);
      StoreAtEnd(prepend, value, e);
    }

    method StoreAtEnd(prepend: nat, value: int, ghost e: seq<int>)
      requires |e| == length && prepend <= 1 && contents.Length == Off(encoding, length + 1)
      requires Holds(contents[..], encoding, 0, length, e, prepend) && Fits(value, encoding)
      modifies contents
      ensures Slots(contents[..], encoding, length + 1) == if prepend == 1 then [value] + e else e + [value]
    {
      ghost var s := contents[..];
      SlotBound(encoding, length, length + 1);
      SlotBound(encoding, 0, length + 1);
      StoredEither(s, encoding, length, e, value, prepend);
      if prepend == 1 {
        SetAt(0, value);
      } else {
        SetAt(length, value);
      }
    }

    /** Making room for one more slot of the new width. */
    method GrowBy(narrow: Width, ghost e: seq<int>)
      requires narrow <= encoding && contents.Length == Off(narrow, length) && Slots(contents[..], narrow, length) == e
      modifies this`contents
      ensures fresh(contents) && contents.Length == Off(encoding, length + 1)
      ensures Holds(contents[..], narrow, 0, length, e, 0)
    {
      Room(narrow, encoding, length);
      ghost var was := contents[..];
      Resize(length + 1);
      assert was == contents[..Off(narrow, length)];
      GrownHolds(was, contents[..], narrow, length, e);
    }

    /** The loop that widens. */
    method WidenAll(narrow: Width, n: nat, prepend: nat, ghost e: seq<int>)
      requires |e| == n && prepend <= 1 && narrow < encoding && contents.Length == Off(encoding, n + 1)
      requires Holds(contents[..], narrow, 0, n, e, 0)
      requires forall i :: 0 <= i < n ==> Fits(e[i], encoding)
      modifies contents
      ensures Holds(contents[..], encoding, 0, n, e, prepend)
    {
      var i: nat := n;
      while i > 0
        invariant i <= n
        invariant Holds(contents[..], narrow, 0, i, e, 0) && Holds(contents[..], encoding, i, n, e, prepend)
      {
        i := i - 1;
        SlotBound(encoding, i + prepend, n + 1);
        ghost var s := contents[..];
        assert Slot(s, narrow, i + 0, e[i]);
        var v := GetEncoded(i, narrow);
        SetAt(i + prepend, v);
        DecodeEncode(v, encoding);
        WidenOne(s, narrow, encoding, i, n, prepend, e, Encode(v, encoding));
      }
    }

    /** intsetAdd. */
    method Add(value: int) returns (success: bool)
      requires Valid() && Fits(value, 8)
      modifies this, contents
      ensures Valid() && (contents == old(contents) || fresh(contents))
      ensures Set() == old(Set()) + {value} && success == (value !in old(Set()))
      ensures encoding == if WidthFor(value) > old(encoding) then WidthFor(value) else old(encoding)
    {
      ghost var e := Elements();
      if WidthFor(value) > encoding {
        SlotsFit(contents[..], encoding, length);
        TooWide(e, encoding, value);
        UpgradeAndAdd(value);
        EndMembers(e, value);
        return true;
      }
      WidthIsLeast(value, encoding);
      success := AddInPlace(value);
    }

    method AddInPlace(value: int) returns (success: bool)
      requires Valid() && Fits(value, encoding)
      modifies this, contents
      ensures Valid() && (contents == old(contents) || fresh(contents))
      ensures Set() == old(Set()) + {value} && success == (value !in old(Set()))
      ensures encoding == old(encoding)
    {
      ghost var e := Elements();
      var found, pos := Search(value);
      if found {
        MemberAdded(e, value);
        return false;
      }
      InsertKeeps(e, value, pos);
      InsertAt(pos, value, e);
      return true;
    }

    method InsertAt(pos: nat, value: int, ghost e: seq<int>)
      requires Sized() && Elements() == e && pos <= length && Fits(value, encoding)
      modifies this`contents, this`length
      ensures fresh(contents) && Sized() && Elements() == e[..pos] + [value] + e[pos..]
    {
      GrowBy(encoding, e);
      ghost var s := contents[..];
      OpenGap(pos);
      StoreInGap(pos, value, s, e);
    }

    method StoreInGap(pos: nat, value: int, ghost s: Text, ghost e: seq<int>)
      requires |e| == length && pos <= length && Fits(value, encoding)
      requires |s| == Off(encoding, length + 1) && Holds(s, encoding, 0, length, e, 0)
      requires contents[..] == Opened(s, encoding, length, pos)
      modifies contents, this`length
      ensures contents == old(contents) && Sized() && Elements() == e[..pos] + [value] + e[pos..]
    {
      SlotBound(encoding, pos, length + 1);
      DecodeEncode(value, encoding);
      Inserted(s, encoding, length, pos, Encode(value, encoding), e);
      SetAt(pos, value);
      length := length + 1;
    }

    method OpenGap(pos: nat)
      requires contents.Length == Off(encoding, length + 1) && pos <= length
      modifies contents
      ensures contents[..] == Opened(old(contents[..]), encoding, length, pos)
    {
      if pos < length {
        GapBounds(encoding, length, pos);
        MoveTail(pos, pos + 1);
      }
    }

    method CloseGap(pos: nat)
      requires contents.Length == Off(encoding, length) && pos < length
      modifies contents
      ensures contents[..] == Closed(old(contents[..]), encoding, length, pos)
    {
      if pos < length - 1 {
        GapBounds(encoding, length - 1, pos);
        MoveTail(pos + 1, pos);
      }
    }

    /** intsetRemove. */
    method Remove(value: int) returns (success: bool)
      requires Valid() && Fits(value, 8)
      modifies this, contents
      ensures Valid() && (contents == old(contents) || fresh(contents))
      ensures Set() == old(Set()) - {value} && success == (value in old(Set()))
      ensures encoding == old(encoding)
    {
      ghost var e := Elements();
      if WidthFor(value) > encoding {
        SlotsFit(contents[..], encoding, length);
        TooWide(e, encoding, value);
        return false;
      }
      var found, pos := Search(value);
      if !found { return false; }
      PositionDecides(e, value, pos);
      RemoveKeeps(e, pos);
      RemoveAt(pos, e);
      return true;
    }

    method RemoveAt(pos: nat, ghost e: seq<int>)
      requires Sized() && Elements() == e && pos < length
      modifies this`contents, this`length, contents
      ensures fresh(contents) && Sized() && Elements() == e[..pos] + e[pos + 1..]
    {
      ghost var s := contents[..];
      CloseGap(pos);
      Removed(s, encoding, length, pos, e);
      Shrink();
      ghost var t := contents[..];
      assert Slots(t, encoding, length - 1) == e[..pos] + e[pos + 1..];
      length := length - 1;
      assert contents[..] == t;
    }

    /** Giving back the last slot. */
    method Shrink()
      requires contents.Length == Off(encoding, length) && length > 0
      modifies this`contents
      ensures fresh(contents) && contents.Length == Off(encoding, length - 1) && contents.Length <= old(contents.Length)
      ensures contents[..] == old(contents[..])[..Off(encoding, length - 1)]
    {
      SlotBound(encoding, length - 1, length);
      Resize(length - 1);
    }
  }

  /** Slots lo + shift up to hi + shift hold the numbers lo up to hi. */
  ghost predicate Holds(s: Text, w: Width, lo: nat, hi: nat, e: seq<int>, shift: nat) {
    hi <= |e| && forall i :: lo <= i < hi ==> Slot(s, w, i + shift, e[i])
  }

  ghost predicate Slot(s: Text, w: Width, k: nat, v: int) {
    Off(w, k) + w <= |s| && At(s, w, k) == v
  }

  lemma WidenBelow(s: Text, narrow: Width, wide: Width, i: nat, p: nat, bytes: Text, j: nat)
    requires narrow < wide && j < i <= p && Off(wide, p) + wide <= |s| && |bytes| == wide
    ensures Off(narrow, j) + narrow <= |s| && At(Put(s, wide, p, bytes), narrow, j) == At(s, narrow, j)
  {
    SlotBound(narrow, j, i);
    Wider(narrow, wide, i, p);
    AtApart(s, wide, p, bytes, narrow, j);
  }

  lemma WidenAbove(s: Text, wide: Width, p: nat, bytes: Text, j: nat)
    requires p < j && Off(wide, j) + wide <= |s| && |bytes| == wide
    ensures Off(wide, p) + wide <= |s| && At(Put(s, wide, p, bytes), wide, j) == At(s, wide, j)
  {
    SlotBound(wide, p, j);
    AtApart(s, wide, p, bytes, wide, j);
  }

  /** Storing a widened number spoils neither the narrow ones still to be read nor the wide ones. */
  lemma WidenOne(s: Text, narrow: Width, wide: Width, i: nat, n: nat, shift: nat, e: seq<int>, bytes: Text)
    requires narrow < wide && i < n <= |e| && Off(wide, i + shift) + wide <= |s|
    requires |bytes| == wide && Decode(bytes) == e[i]
    requires Holds(s, narrow, 0, i + 1, e, 0) && Holds(s, wide, i + 1, n, e, shift)
    ensures Holds(Put(s, wide, i + shift, bytes), narrow, 0, i, e, 0)
    ensures Holds(Put(s, wide, i + shift, bytes), wide, i, n, e, shift)
  {
    WidenKeepsNarrow(s, narrow, wide, i, shift, e, bytes);
    WidenKeepsWide(s, wide, i, n, shift, e, bytes);
  }

  lemma WidenKeepsNarrow(s: Text, narrow: Width, wide: Width, i: nat, shift: nat, e: seq<int>, bytes: Text)
    requires narrow < wide && i < |e| && Off(wide, i + shift) + wide <= |s| && |bytes| == wide
    requires Holds(s, narrow, 0, i + 1, e, 0)
    ensures Holds(Put(s, wide, i + shift, bytes), narrow, 0, i, e, 0)
  {
    var t := Put(s, wide, i + shift, bytes);
    forall j | 0 <= j < i ensures Slot(t, narrow, j + 0, e[j]) {
      assert Slot(s, narrow, j + 0, e[j]);
      WidenBelow(s, narrow, wide, i, i + shift, bytes, j);
    }
  }

  lemma WidenKeepsWide(s: Text, wide: Width, i: nat, n: nat, shift: nat, e: seq<int>, bytes: Text)
    requires i < n <= |e| && Off(wide, i + shift) + wide <= |s| && |bytes| == wide && Decode(bytes) == e[i]
    requires Holds(s, wide, i + 1, n, e, shift)
    ensures Holds(Put(s, wide, i + shift, bytes), wide, i, n, e, shift)
  {
    var t := Put(s, wide, i + shift, bytes);
    AtPut(s, wide, i + shift, bytes);
    forall j | i < j < n ensures Slot(t, wide, j + shift, e[j]) {
      assert Slot(s, wide, j + shift, e[j]);
      WidenAbove(s, wide, i + shift, bytes, j + shift);
    }
  }

  lemma {:induction false} HoldsAll(s: Text, w: Width, n: nat, e: seq<int>)
    requires n <= |e| && Off(w, n) <= |s| && Holds(s, w, 0, n, e, 0)
    ensures Slots(s, w, n) == e[..n]
  {
    if n > 0 {
      SlotBound(w, n - 1, n);
      HoldsAll(s, w, n - 1, e);
      assert Slot(s, w, (n - 1) + 0, e[n - 1]);
      assert e[..n] == e[..n - 1] + [e[n - 1]];
    }
  }

  lemma HoldsExactly(s: Text, w: Width, e: seq<int>)
    requires Off(w, |e|) <= |s| && Holds(s, w, 0, |e|, e, 0)
    ensures Slots(s, w, |e|) == e
  {
    HoldsAll(s, w, |e|, e);
    assert e[..|e|] == e;
  }

  lemma StoredBefore(s: Text, w: Width, n: nat, e: seq<int>, bytes: Text)
    requires |e| == n && |s| == Off(w, n + 1) && Holds(s, w, 0, n, e, 1) && |bytes| == w
    ensures w <= |s| && Slots(Put(s, w, 0, bytes), w, n + 1) == [Decode(bytes)] + e
  {
    var e' := [Decode(bytes)] + e;
    SlotBound(w, 0, n + 1);
    var t := Put(s, w, 0, bytes);
    AtPut(s, w, 0, bytes);
    forall i | 0 <= i < n + 1 ensures Slot(t, w, i + 0, e'[i]) {
      if i > 0 {
        assert Slot(s, w, (i - 1) + 1, e[i - 1]);
        WidenAbove(s, w, 0, bytes, i);
      }
    }
    HoldsExactly(t, w, e');
  }

  lemma StoredBehind(s: Text, w: Width, n: nat, e: seq<int>, bytes: Text)
    requires |e| == n && |s| == Off(w, n + 1) && Holds(s, w, 0, n, e, 0) && |bytes| == w
    ensures Off(w, n) + w <= |s| && Slots(Put(s, w, n, bytes), w, n + 1) == e + [Decode(bytes)]
  {
    var e' := e + [Decode(bytes)];
    SlotBound(w, n, n + 1);
    var t := Put(s, w, n, bytes);
    AtPut(s, w, n, bytes);
    forall i | 0 <= i < n + 1 ensures Slot(t, w, i + 0, e'[i]) {
      if i < n {
        assert Slot(s, w, i + 0, e[i]);
        SlotBound(w, i, n);
        AtApart(s, w, n, bytes, w, i);
      }
    }
    HoldsExactly(t, w, e');
  }

  lemma StoredEither(s: Text, w: Width, n: nat, e: seq<int>, v: int, prepend: nat)
    requires |e| == n && |s| == Off(w, n + 1) && prepend <= 1 && Holds(s, w, 0, n, e, prepend) && Fits(v, w)
    ensures w <= |s| && Off(w, n) + w <= |s|
    ensures prepend == 1 ==> Slots(Put(s, w, 0, Encode(v, w)), w, n + 1) == [v] + e
    ensures prepend == 0 ==> Slots(Put(s, w, n, Encode(v, w)), w, n + 1) == e + [v]
  {
    SlotBound(w, n, n + 1);
    SlotBound(w, 0, n + 1);
    DecodeEncode(v, w);
    if prepend == 1 { StoredBefore(s, w, n, e, Encode(v, w)); } else { StoredBehind(s, w, n, e, Encode(v, w)); }
  }

  lemma Wider(narrow: Width, wide: Width, i: nat, j: nat)
    requires narrow <= wide && i <= j
    ensures Off(narrow, i) <= Off(wide, j)
  {
    SlotBound(narrow, i, j);
  }

  lemma Room(narrow: Width, wide: Width, n: nat)
    requires narrow <= wide
    ensures Off(narrow, n) <= Off(wide, n + 1) && Off(wide, n) + wide == Off(wide, n + 1)
  {
    Wider(narrow, wide, n, n + 1);
    SlotBound(wide, n, n + 1);
  }

  lemma Together(k: nat, i: nat, j: nat, w: Width)
    requires k == i + j
    ensures Off(w, k) == Off(w, i) + Off(w, j)
  {
  }

  lemma Distribute(i: nat, j: nat, w: Width)
    ensures Off(w, i + j) == Off(w, i) + Off(w, j)
  {
  }

  lemma SameSlot(s: Text, t: Text, w: Width, i: nat)
    requires Off(w, i) + w <= |s| <= |t| && t[..|s|] == s
    ensures At(t, w, i) == At(s, w, i)
  {
    var a, b := Off(w, i), Off(w, i) + w;
    assert t[..|s|][a..b] == t[a..b];
  }

  /** A longer array that begins alike holds the same numbers. */
  lemma GrownHolds(s: Text, t: Text, w: Width, n: nat, e: seq<int>)
    requires |s| == Off(w, n) <= |t| && t[..|s|] == s && |e| == n && Slots(s, w, n) == e
    ensures Holds(t, w, 0, n, e, 0)
  {
    forall i | 0 <= i < n ensures Slot(t, w, i + 0, e[i]) {
      SlotBound(w, i, n);
      SlotsAt(s, w, n, i);
      SameSlot(s, t, w, i);
    }
  }

  /** memmove. */
  function Moved(s: Text, src: nat, dst: nat, n: nat): (t: Text)
    requires src + n <= |s| && dst + n <= |s|
  {
    s[..dst] + s[src..src + n] + s[dst + n..]
  }

  lemma MovedPointwise(s: Text, t: Text, src: nat, dst: nat, n: nat)
    requires src + n <= |s| && dst + n <= |s| && |t| == |s|
    requires forall k :: dst <= k < dst + n ==> t[k] == s[src + (k - dst)]
    requires forall k :: 0 <= k < |s| && !(dst <= k < dst + n) ==> t[k] == s[k]
    ensures t == Moved(s, src, dst, n)
  {
    var a, b, c := s[..dst], s[src..src + n], s[dst + n..];
    assert a == t[..dst] && b == t[dst..dst + n] && c == t[dst + n..];
  }

  /** A number that needs a greater width than the array has lies beyond all its numbers. */
  lemma TooWide(s: seq<int>, w: Width, v: int)
    requires Fits(v, 8) && WidthFor(v) > w && forall i :: 0 <= i < |s| ==> Fits(s[i], w)
    ensures if v < 0 then forall i :: 0 <= i < |s| ==> v < s[i] else forall i :: 0 <= i < |s| ==> s[i] < v
    ensures v !in s
  {
    Widths(v);
    forall i | 0 <= i < |s| ensures if v < 0 then v < s[i] else s[i] < v { Widths(s[i]); }
  }

  lemma EndMembers(s: seq<int>, v: int)
    ensures Members([v] + s) == Members(s) + {v} && Members(s + [v]) == Members(s) + {v}
  {
  }

  lemma MemberAdded(s: seq<int>, v: int)
    requires v in s
    ensures Members(s) + {v} == Members(s)
  {
  }

  lemma GapBounds(w: Width, n: nat, pos: nat)
    requires pos <= n
    ensures Off(w, pos) + Off(w, n - pos) == Off(w, n) && Off(w, pos + 1) + Off(w, n - pos) == Off(w, n + 1)
    ensures Off(w, n) + w == Off(w, n + 1)
  {
    Distribute(pos, n - pos, w);
    Distribute(pos + 1, n - pos, w);
    SlotBound(w, n, n);
  }

  /** n slots with a gap opened at pos, in an array with room for one more. */
  function Opened(s: Text, w: Width, n: nat, pos: nat): (t: Text)
    requires |s| == Off(w, n + 1) && pos <= n
    ensures |t| == |s|
  {
    GapBounds(w, n, pos);
    if pos < n then Moved(s, Off(w, pos), Off(w, pos + 1), Off(w, n - pos)) else s
  }

  /** The gap left by slot pos of n closed. */
  function Closed(s: Text, w: Width, n: nat, pos: nat): (t: Text)
    requires |s| == Off(w, n) && pos < n
    ensures |t| == |s|
  {
    GapBounds(w, n - 1, pos);
    if pos < n - 1 then Moved(s, Off(w, pos + 1), Off(w, pos), Off(w, n - (pos + 1))) else s
  }

  lemma MovedBefore(s: Text, src: nat, dst: nat, n: nat, a: nat, b: nat)
    requires src + n <= |s| && dst + n <= |s| && a <= b <= dst
    ensures Moved(s, src, dst, n)[a..b] == s[a..b]
  {
  }

  lemma MovedWithin(s: Text, src: nat, dst: nat, n: nat, a: nat, b: nat)
    requires src + n <= |s| && dst + n <= |s| && a <= b <= n
    ensures Moved(s, src, dst, n)[dst + a..dst + b] == s[src + a..src + b]
  {
    var t := Moved(s, src, dst, n);
    assert t[dst..dst + n] == s[src..src + n];
    SliceOfSlice(t, dst, n, a, b);
    SliceOfSlice(s, src, n, a, b);
  }

  lemma SliceOfSlice(s: Text, p: nat, n: nat, a: nat, b: nat)
    requires p + n <= |s| && a <= b <= n
    ensures s[p..p + n][a..b] == s[p + a..p + b]
  {
    var l, r := s[p..p + n][a..b], s[p + a..p + b];
    forall k | 0 <= k < b - a ensures l[k] == r[k] {
      assert l[k] == s[p..p + n][a + k] && s[p..p + n][a + k] == s[p + (a + k)];
    }
  }

  lemma OpenedBefore(s: Text, w: Width, n: nat, pos: nat, i: nat)
    requires |s| == Off(w, n + 1) && i < pos <= n
    ensures Off(w, i) + w <= |s| && At(Opened(s, w, n, pos), w, i) == At(s, w, i)
  {
    SlotBound(w, i, n + 1);
    SlotBound(w, i, pos);
    GapBounds(w, n, pos);
    if pos < n { MovedBefore(s, Off(w, pos), Off(w, pos + 1), Off(w, n - pos), Off(w, i), Off(w, i) + w); }
  }

  lemma OpenedAfter(s: Text, w: Width, n: nat, pos: nat, i: nat)
    requires |s| == Off(w, n + 1) && pos <= i < n
    ensures Off(w, i) + w <= |s| && Off(w, i + 1) + w <= |s| && At(Opened(s, w, n, pos), w, i + 1) == At(s, w, i)
  {
    SlotBound(w, i, n + 1);
    SlotBound(w, i + 1, n + 1);
    GapBounds(w, n, pos);
    var k := i - pos;
    SlotBound(w, k, n - pos);
    Together(i, pos, k, w);
    Together(i + 1, pos + 1, k, w);
    MovedWithin(s, Off(w, pos), Off(w, pos + 1), Off(w, n - pos), Off(w, k), Off(w, k) + w);
  }

  lemma ClosedBefore(s: Text, w: Width, n: nat, pos: nat, i: nat)
    requires |s| == Off(w, n) && i < pos < n
    ensures Off(w, i) + w <= |s| && At(Closed(s, w, n, pos), w, i) == At(s, w, i)
  {
    SlotBound(w, i, n);
    SlotBound(w, i, pos);
    GapBounds(w, n - 1, pos);
    if pos < n - 1 { MovedBefore(s, Off(w, pos + 1), Off(w, pos), Off(w, n - (pos + 1)), Off(w, i), Off(w, i) + w); }
  }

  lemma ClosedAfter(s: Text, w: Width, n: nat, pos: nat, i: nat)
    requires |s| == Off(w, n) && pos <= i < n - 1
    ensures Off(w, i) + w <= |s| && Off(w, i + 1) + w <= |s| && At(Closed(s, w, n, pos), w, i) == At(s, w, i + 1)
  {
    SlotBound(w, i, n);
    SlotBound(w, i + 1, n);
    GapBounds(w, n - 1, pos);
    var k := i - pos;
    SlotBound(w, k, n - (pos + 1));
    Together(i, pos, k, w);
    Together(i + 1, pos + 1, k, w);
    MovedWithin(s, Off(w, pos + 1), Off(w, pos), Off(w, n - (pos + 1)), Off(w, k), Off(w, k) + w);
  }

  lemma SplicedIn(e: seq<int>, pos: nat, v: int, i: nat)
    requires pos <= |e| && i <= |e|
    ensures (e[..pos] + [v] + e[pos..])[i] == if i < pos then e[i] else if i > pos then e[i - 1] else v
  {
  }

  lemma SplicedOut(e: seq<int>, pos: nat, i: nat)
    requires pos < |e| && i < |e| - 1
    ensures (e[..pos] + e[pos + 1..])[i] == if i < pos then e[i] else e[i + 1]
  {
  }

  lemma Inserted(s: Text, w: Width, n: nat, pos: nat, bytes: Text, e: seq<int>)
    requires |e| == n && pos <= n && |s| == Off(w, n + 1) && Holds(s, w, 0, n, e, 0) && |bytes| == w
    ensures Off(w, pos) + w <= |s|
    ensures Slots(Put(Opened(s, w, n, pos), w, pos, bytes), w, n + 1) == e[..pos] + [Decode(bytes)] + e[pos..]
  {
    SlotBound(w, pos, n + 1);
    var e' := e[..pos] + [Decode(bytes)] + e[pos..];
    var t := Opened(s, w, n, pos);
    var u := Put(t, w, pos, bytes);
    forall i | 0 <= i < n + 1 ensures Slot(u, w, i + 0, e'[i]) {
      InsertedSlot(s, w, n, pos, bytes, e, i);
      SplicedIn(e, pos, Decode(bytes), i);
    }
    HoldsExactly(u, w, e');
  }

  lemma InsertedSlot(s: Text, w: Width, n: nat, pos: nat, bytes: Text, e: seq<int>, i: nat)
    requires |e| == n && pos <= n && i <= n && |s| == Off(w, n + 1) && Holds(s, w, 0, n, e, 0) && |bytes| == w
    requires Off(w, pos) + w <= |s|
    ensures Slot(Put(Opened(s, w, n, pos), w, pos, bytes), w, i,
                 if i < pos then e[i] else if i > pos then e[i - 1] else Decode(bytes))
  {
    SlotBound(w, i, n + 1);
    if i < pos {
      InsertedBefore(s, w, n, pos, bytes, e, i);
    } else if i > pos {
      InsertedAfter(s, w, n, pos, bytes, e, i);
    } else {
      AtPut(Opened(s, w, n, pos), w, pos, bytes);
    }
  }

  lemma InsertedBefore(s: Text, w: Width, n: nat, pos: nat, bytes: Text, e: seq<int>, i: nat)
    requires |e| == n && i < pos <= n && |s| == Off(w, n + 1) && Holds(s, w, 0, n, e, 0) && |bytes| == w
    requires Off(w, pos) + w <= |s|
    ensures Slot(Put(Opened(s, w, n, pos), w, pos, bytes), w, i, e[i])
  {
    assert Slot(s, w, i + 0, e[i]);
    OpenedBefore(s, w, n, pos, i);
    SlotBound(w, i, pos);
    AtApart(Opened(s, w, n, pos), w, pos, bytes, w, i);
  }

  lemma InsertedAfter(s: Text, w: Width, n: nat, pos: nat, bytes: Text, e: seq<int>, i: nat)
    requires |e| == n && pos < i <= n && |s| == Off(w, n + 1) && Holds(s, w, 0, n, e, 0) && |bytes| == w
    requires Off(w, pos) + w <= |s|
    ensures Slot(Put(Opened(s, w, n, pos), w, pos, bytes), w, i, e[i - 1])
  {
    assert Slot(s, w, (i - 1) + 0, e[i - 1]);
    OpenedAfter(s, w, n, pos, i - 1);
    SlotBound(w, pos, i);
    AtApart(Opened(s, w, n, pos), w, pos, bytes, w, i);
  }

  lemma Removed(s: Text, w: Width, n: nat, pos: nat, e: seq<int>)
    requires |e| == n && pos < n && |s| == Off(w, n) && Slots(s, w, n) == e
    ensures Off(w, n - 1) <= |s|
    ensures Slots(Closed(s, w, n, pos)[..Off(w, n - 1)], w, n - 1) == e[..pos] + e[pos + 1..]
  {
    SlotBound(w, n - 1, n);
    var e' := e[..pos] + e[pos + 1..];
    var t := Closed(s, w, n, pos);
    var u := t[..Off(w, n - 1)];
    GrownHolds(s, s, w, n, e);
    forall i | 0 <= i < n - 1 ensures Slot(u, w, i + 0, e'[i]) {
      RemovedSlot(s, w, n, pos, e, i);
      SplicedOut(e, pos, i);
    }
    HoldsExactly(u, w, e');
  }

  lemma RemovedSlot(s: Text, w: Width, n: nat, pos: nat, e: seq<int>, i: nat)
    requires |e| == n && pos < n && |s| == Off(w, n) && Holds(s, w, 0, n, e, 0) && i < n - 1
    ensures Off(w, n - 1) <= |s|
    ensures Slot(Closed(s, w, n, pos)[..Off(w, n - 1)], w, i, if i < pos then e[i] else e[i + 1])
  {
    SlotBound(w, n - 1, n);
    SlotBound(w, i, n - 1);
    if i < pos {
      assert Slot(s, w, i + 0, e[i]);
      ClosedBefore(s, w, n, pos, i);
    } else {
      assert Slot(s, w, (i + 1) + 0, e[i + 1]);
      ClosedAfter(s, w, n, pos, i);
    }
    var t := Closed(s, w, n, pos);
    SameSlot(t[..Off(w, n - 1)], t, w, i);
  }
}
