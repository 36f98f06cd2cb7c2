/** The command format shared by clients and the append only file: counted bulk strings. */
module Resp {
  import opened Bytes
  import opened Options

  type Argv = seq<Text>

  const CR: Byte := 13
  const LF: Byte := 10
  const STAR: Byte := 42
  const DOLLAR: Byte := 36

  predicate IsDigit(b: Byte) { 48 <= b <= 57 }

  // ----- decimal numbers

  /** What ll2string prints for a number that is not negative. */
  function Digits(n: nat): (s: Text)
    ensures |s| > 0 && (s[0] == 48 ==> n == 0 && |s| == 1)
    ensures forall i :: 0 <= i < |s| ==> IsDigit(s[i])
    decreases n
  {
    if n < 10 then [48 + n] else Digits(n / 10) + [48 + n % 10]
  }

  /** The value of the digits a text starts with, continuing from acc, and how many there are. */
  function DigitRun(s: Text, acc: nat): (r: (nat, nat))
    ensures r.1 <= |s|
    decreases s
  {
    if s == [] || !IsDigit(s[0]) then (acc, 0)
    else var t := DigitRun(s[1..], 10 * acc + (s[0] - 48)); (t.0, t.1 + 1)
  }

  lemma {:induction false} DigitRunOfDigits(n: nat, rest: Text)
    ensures DigitRun(Digits(n) + rest, 0) == (DigitRun(rest, n).0, |Digits(n)| + DigitRun(rest, n).1)
    decreases n
  {
    if n < 10 {
      assert Digits(n) + rest == [48 + n] + rest && ([48 + n] + rest)[1..] == rest;
    } else {
      var d: Text := [48 + n % 10];
      assert Digits(n) + rest == Digits(n / 10) + (d + rest);
      DigitRunOfDigits(n / 10, d + rest);
      assert (d + rest)[1..] == rest;
    }
  }

  const MAX: int := 0x7FFF_FFFF_FFFF_FFFF

  /** string2ll: digits and nothing else, with no leading zero but for zero itself; a minus sign
      only before a number that is not zero; no value beyond 64 bits. */
  function Number(s: Text): (r: Option<int>)
    ensures r.Some? ==> -MAX - 1 <= r.value <= MAX
  {
    if s == [] then None
    else if |s| == 1 && s[0] == 48 then Some(0)
    else if s[0] == 45 then
      var run := DigitRun(s[1..], 0);
      var v: int := run.0;
      if |s| > 1 && s[1] != 48 && run.1 == |s| - 1 && v <= MAX + 1 then Some(-v) else None
    else
      var run := DigitRun(s, 0);
      var v: int := run.0;
      if s[0] != 48 && run.1 == |s| && v <= MAX then Some(v) else None
  }

  lemma NumberOfDigits(n: nat)
    requires n <= MAX
    ensures Number(Digits(n)) == Some(n)
  {
    DigitRunOfDigits(n, []);
    assert Digits(n) + [] == Digits(n);
  }

  lemma {:induction false} DigitsUpTo(n: nat, k: nat)
    requires k >= 1 && n < Power10(k)
    ensures |Digits(n)| <= k
    decreases k
  {
    if n >= 10 { DigitsUpTo(n / 10, k - 1); }
  }

  function Power10(k: nat): (p: nat)
    ensures p >= 1
  {
    if k == 0 then 1 else 10 * Power10(k - 1)
  }

  /** A size that fits a signed 64-bit integer has at most 19 digits. */
  lemma DigitsFit(n: nat)
    requires n <= MAX
    ensures |Digits(n)| <= 19
  {
    assert Power10(10) == 10_000_000_000;
    assert Power10(19) == 10_000_000_000_000_000_000;
    DigitsUpTo(n, 19);
  }

  // ----- commands

  function Header(c: Byte, n: nat): (s: Text)
    ensures |s| >= 4 && s[0] == c
  {
    [c] + (Digits(n) + [CR, LF])
  }

  function Bulk(a: Text): Text { Header(DOLLAR, |a|) + (a + [CR, LF]) }

  function Bulks(argv: Argv): Text {
    if argv == [] then [] else Bulk(argv[0]) + Bulks(argv[1..])
  }

  /** A command as clients send it and as the append only file keeps it. */
  function Wire(argv: Argv): (s: Text)
    ensures |s| > 0
  {
    Header(STAR, |argv|) + Bulks(argv)
  }

  function Wires(cmds: seq<Argv>): Text {
    if cmds == [] then [] else Wire(cmds[0]) + Wires(cmds[1..])
  }

  lemma {:induction false} BulksSnoc(argv: Argv, a: Text)
    ensures Bulks(argv + [a]) == Bulks(argv) + Bulk(a)
  {
    if argv == [] {
      assert (argv + [a])[0] == a && (argv + [a])[1..] == [];
      assert Bulks([]) == [];
    } else {
      assert (argv + [a])[1..] == argv[1..] + [a] && (argv + [a])[0] == argv[0];
      BulksSnoc(argv[1..], a);
    }
  }

  /** catAppendOnlyGenericCommand. */
  method CatCommand(dst: Text, argv: Argv) returns (out: Text)
    ensures out == dst + Wire(argv)
  {
    out := dst + Header(STAR, |argv|);
    for j := 0 to |argv|
      invariant out == dst + (Header(STAR, |argv|) + Bulks(argv[..j]))
    {
      assert argv[..j + 1] == argv[..j] + [argv[j]];
      BulksSnoc(argv[..j], argv[j]);
      out := CatBulk(out, argv[j]);
    }
    assert argv[..|argv|] == argv;
  }

  method CatBulk(dst: Text, a: Text) returns (out: Text)
    ensures out == dst + Bulk(a)
  {
    out := dst + Header(DOLLAR, |a|);
    out := out + a;
    out := out + [CR, LF];
  }
}
