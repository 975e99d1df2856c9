/** Positional numerals: decimal text, fixed-width hex words, and their parsers. */
module Numerals {
  import opened Wrappers

  // ----- Digits -----

  datatype Radix = Decimal | Hex {
    function Size(): nat {
      if Decimal? then 10 else 16
    }

    function Times(v: nat): nat {
      if Decimal? then v * 10 else v * 16
    }

    function Quotient(n: nat): nat {
      if Decimal? then n / 10 else n / 16
    }

    function Remainder(n: nat): (d: nat)
      ensures d < Size() && n == Times(Quotient(n)) + d
    {
      if Decimal? then n % 10 else n % 16
    }

    lemma TimesIsMonotone(a: nat, b: nat, d: nat)
      requires a < b && d < Size()
      ensures Times(a) + d < Times(b)
    {
    }

    lemma SplitsBack(q: nat, d: nat)
      requires d < Size()
      ensures Quotient(Times(q) + d) == q && Remainder(Times(q) + d) == d
    {
    }
  }

  /** The digits of n, most significant first and without leading zeros. */
  function Digits(n: nat, r: Radix): (ds: seq<nat>)
    ensures |ds| >= 1
    ensures forall i :: 0 <= i < |ds| ==> ds[i] < r.Size()
    ensures ds[0] == 0 ==> |ds| == 1 && n == 0
  {
    if n < r.Size() then [n] else Digits(r.Quotient(n), r) + [r.Remainder(n)]
  }

  function Value(ds: seq<nat>, r: Radix): nat {
    if ds == [] then 0 else r.Times(Value(ds[..|ds| - 1], r)) + ds[|ds| - 1]
  }

  lemma {:induction false} ValueOfDigits(n: nat, r: Radix)
    ensures Value(Digits(n, r), r) == n
  {
    var ds := Digits(n, r);
    if n < r.Size() {
      assert ds[..0] == [];
    } else {
      ValueOfDigits(r.Quotient(n), r);
      assert ds[..|ds| - 1] == Digits(r.Quotient(n), r);
    }
  }

  /** A digit string without a leading zero is the only one with its value. */
  lemma {:induction false} DigitsOfValue(ds: seq<nat>, r: Radix)
    requires |ds| >= 1
    requires forall i :: 0 <= i < |ds| ==> ds[i] < r.Size()
    requires ds[0] == 0 ==> |ds| == 1
    ensures Digits(Value(ds, r), r) == ds
    ensures ds[0] != 0 ==> Value(ds, r) >= 1
  {
    var front, last := ds[..|ds| - 1], ds[|ds| - 1];
    if |ds| == 1 {
      assert front == [];
    } else {
      DigitsOfValue(front, r);
      r.SplitsBack(Value(front, r), last);
      assert ds == front + [last];
    }
  }

  /** Exactly `width` digits, leading zeros included. */
  function FixedDigits(n: nat, r: Radix, width: nat): (ds: seq<nat>)
    ensures |ds| == width
    ensures forall i :: 0 <= i < |ds| ==> ds[i] < r.Size()
    decreases width
  {
    if width == 0 then [] else FixedDigits(r.Quotient(n), r, width - 1) + [r.Remainder(n)]
  }

  function Power(r: Radix, width: nat): nat {
    if width == 0 then 1 else r.Times(Power(r, width - 1))
  }

  lemma {:induction false} ValueOfFixedDigits(n: nat, r: Radix, width: nat)
    requires n < Power(r, width)
    ensures Value(FixedDigits(n, r, width), r) == n
    decreases width
  {
    if width > 0 {
      var ds := FixedDigits(n, r, width);
      ValueOfFixedDigits(r.Quotient(n), r, width - 1);
      assert ds[..|ds| - 1] == FixedDigits(r.Quotient(n), r, width - 1);
    }
  }

  lemma {:induction false} FixedDigitsOfValue(ds: seq<nat>, r: Radix)
    requires forall i :: 0 <= i < |ds| ==> ds[i] < r.Size()
    ensures FixedDigits(Value(ds, r), r, |ds|) == ds
    ensures Value(ds, r) < Power(r, |ds|)
    decreases |ds|
  {
    if ds != [] {
      var front, last := ds[..|ds| - 1], ds[|ds| - 1];
      FixedDigitsOfValue(front, r);
      assert Value(ds, r) == r.Times(Value(front, r)) + last;
      r.SplitsBack(Value(front, r), last);
      r.TimesIsMonotone(Value(front, r), Power(r, |front|), last);
      assert ds == front + [last];
    }
  }

  // ----- Text -----

  const ALPHABET := "0123456789abcdef"

  function DigitChar(d: nat): (c: char)
    requires d < 16
    ensures d < 10 ==> c == '0' + d as char
    ensures d >= 10 ==> c == 'a' + (d - 10) as char
  {
    ALPHABET[d]
  }

  predicate IsDecimalChar(c: char) {
    '0' <= c <= '9'
  }

  predicate IsHexChar(c: char) {
    '0' <= c <= '9' || 'a' <= c <= 'f' || 'A' <= c <= 'F'
  }

  predicate AllDecimal(s: string) {
    forall i :: 0 <= i < |s| ==> IsDecimalChar(s[i])
  }

  predicate AllHex(s: string) {
    forall i :: 0 <= i < |s| ==> IsHexChar(s[i])
  }

  function HexValue(c: char): (d: nat)
    requires IsHexChar(c)
    ensures d < 16
  {
    if c <= '9' then (c - '0') as nat
    else if c <= 'F' then (c - 'A') as nat + 10
    else (c - 'a') as nat + 10
  }

  function ToText(ds: seq<nat>): (s: string)
    requires forall i :: 0 <= i < |ds| ==> ds[i] < 16
    ensures |s| == |ds|
    ensures forall i :: 0 <= i < |s| ==> s[i] == DigitChar(ds[i])
  {
    seq(|ds|, i requires 0 <= i < |ds| => DigitChar(ds[i]))
  }

  function ToDigits(s: string): (ds: seq<nat>)
    requires AllHex(s)
    ensures |ds| == |s|
    ensures forall i :: 0 <= i < |ds| ==> ds[i] == HexValue(s[i]) && ds[i] < 16
  {
    seq(|s|, i requires 0 <= i < |s| => HexValue(s[i]))
  }

  lemma DigitsOfText(ds: seq<nat>)
    requires forall i :: 0 <= i < |ds| ==> ds[i] < 16
    ensures AllHex(ToText(ds)) && ToDigits(ToText(ds)) == ds
  {
  }

  function DecimalText(n: nat): (s: string)
    ensures |s| >= 1 && AllDecimal(s)
  {
    ToText(Digits(n, Decimal))
  }

  /** Base-10 digits, leading zeros allowed. */
  function DecimalValue(s: string): nat
    requires AllDecimal(s)
  {
    Value(ToDigits(s), Decimal)
  }

  /** The canonical form `0|[1-9][0-9]*`. */
  predicate IsCanonicalDecimal(s: string) {
    |s| >= 1 && AllDecimal(s) && (s[0] == '0' ==> |s| == 1)
  }

  lemma DecimalRoundTrip(n: nat)
    ensures IsCanonicalDecimal(DecimalText(n)) && DecimalValue(DecimalText(n)) == n
  {
    var ds := Digits(n, Decimal);
    var s := ToText(ds);
    assert ToDigits(s) == ds;
    ValueOfDigits(n, Decimal);
  }

  lemma DecimalDigits(s: string)
    requires AllDecimal(s)
    ensures forall i :: 0 <= i < |s| ==> ToDigits(s)[i] < 10
    ensures ToText(ToDigits(s)) == s
  {
    forall i | 0 <= i < |s|
      ensures ToDigits(s)[i] < 10 && DigitChar(ToDigits(s)[i]) == s[i]
    {
      assert IsDecimalChar(s[i]);
    }
  }

  /** Printing undoes parsing on canonical text, so canonical text is unique for its value. */
  lemma CanonicalDecimalIsPrinted(s: string)
    requires IsCanonicalDecimal(s)
    ensures DecimalText(DecimalValue(s)) == s
  {
    var ds := ToDigits(s);
    DecimalDigits(s);
    DigitsOfValue(ds, Decimal);
  }

  lemma DecimalTextInjective(m: nat, n: nat)
    requires DecimalText(m) == DecimalText(n)
    ensures m == n
  {
    DecimalRoundTrip(m);
    DecimalRoundTrip(n);
  }

  function HexWord(n: nat, width: nat): (s: string)
    ensures |s| == width && AllHex(s)
  {
    ToText(FixedDigits(n, Hex, width))
  }

  function HexNumber(s: string): nat
    requires AllHex(s)
  {
    Value(ToDigits(s), Hex)
  }

  lemma HexWordRoundTrip(n: nat, width: nat)
    requires n < Power(Hex, width)
    ensures HexNumber(HexWord(n, width)) == n
  {
    assert ToDigits(HexWord(n, width)) == FixedDigits(n, Hex, width);
    ValueOfFixedDigits(n, Hex, width);
  }

  /** A hex word is the printed form of its number, up to letter case. */
  lemma HexWordOfNumber(s: string)
    requires AllHex(s)
    ensures HexNumber(s) < Power(Hex, |s|)
    ensures ToDigits(HexWord(HexNumber(s), |s|)) == ToDigits(s)
  {
    var ds := ToDigits(s);
    FixedDigitsOfValue(ds, Hex);
    assert HexWord(HexNumber(s), |s|) == ToText(ds);
    DigitsOfText(ds);
  }

  // ----- Letter case and padding -----

  function LowerChar(c: char): char {
    if 'A' <= c <= 'Z' then (c as int + 32) as char else c
  }

  function Lower(s: string): (r: string)
    ensures |r| == |s|
    ensures forall i :: 0 <= i < |r| ==> r[i] == LowerChar(s[i])
  {
    seq(|s|, i requires 0 <= i < |s| => LowerChar(s[i]))
  }

  /** Lower-case hex is the printed form of its digits. */
  lemma LowerOfHex(s: string)
    requires AllHex(s)
    ensures Lower(s) == ToText(ToDigits(s))
  {
  }

  function Zeros(k: nat): (ds: seq<nat>)
    ensures |ds| == k && forall i :: 0 <= i < k ==> ds[i] == 0
  {
    seq(k, _ => 0)
  }

  lemma {:induction false} ValueOfPadded(k: nat, ds: seq<nat>, r: Radix)
    ensures Value(Zeros(k) + ds, r) == Value(ds, r)
    decreases |ds|, k
  {
    var all := Zeros(k) + ds;
    if ds != [] {
      assert all[..|all| - 1] == Zeros(k) + ds[..|ds| - 1];
      ValueOfPadded(k, ds[..|ds| - 1], r);
    } else if k > 0 {
      assert all[..|all| - 1] == Zeros(k - 1) + [];
      ValueOfPadded(k - 1, [], r);
    }
  }

  lemma PaddedDigits(ds: seq<nat>, r: Radix, k: nat)
    requires forall i :: 0 <= i < |ds| ==> ds[i] < r.Size()
    ensures |Zeros(k) + ds| == k + |ds|
    ensures forall i :: 0 <= i < |Zeros(k) + ds| ==> (Zeros(k) + ds)[i] < r.Size()
  {
  }

  /** A word wide enough for fewer digits starts with zeros. */
  lemma FixedDigitsPadded(ds: seq<nat>, r: Radix, k: nat)
    requires forall i :: 0 <= i < |ds| ==> ds[i] < r.Size()
    ensures FixedDigits(Value(ds, r), r, k + |ds|) == Zeros(k) + ds
  {
    PaddedDigits(ds, r, k);
    ValueOfPadded(k, ds, r);
    FixedDigitsOfValue(Zeros(k) + ds, r);
  }

  // ----- Text cut at a delimiter -----

  predicate Without(s: string, c: char) {
    forall i :: 0 <= i < |s| ==> s[i] != c
  }

  /** Two texts that agree and are cut at the first delimiter agree on both sides of it. */
  lemma {:induction false} CutAtDelimiter(a: string, b: string, c: char, r: string, s: string)
    requires Without(a, c) && Without(b, c)
    requires a + [c] + r == b + [c] + s
    ensures a == b && r == s
    decreases |a|
  {
    var x, y := a + [c] + r, b + [c] + s;
    assert x[0] == if a == [] then c else a[0];
    assert y[0] == if b == [] then c else b[0];
    if a == [] {
      assert b == [];
      assert r == x[1..] == y[1..] == s;
    } else {
      assert x[1..] == a[1..] + [c] + r && y[1..] == b[1..] + [c] + s;
      CutAtDelimiter(a[1..], b[1..], c, r, s);
      assert a == [a[0]] + a[1..] && b == [b[0]] + b[1..];
    }
  }

  lemma DropPrefix<T>(p: seq<T>, r: seq<T>, s: seq<T>)
    requires p + r == p + s
    ensures r == s
  {
    assert r == (p + r)[|p|..] == (p + s)[|p|..] == s;
  }
}
