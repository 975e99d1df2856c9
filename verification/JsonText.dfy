/** Strings as JavaScript prints them in JSON: UTF-16 code units, quoted and escaped. */
module JsonText {
  import opened Numerals

  type Unit = u: nat | u < 0x1_0000
  type Text = seq<Unit>

  const QUOTE: Unit := 34
  const BACKSLASH: Unit := 92
  const LETTER_U: Unit := 117

  predicate IsHigh(u: Unit) {
    0xD800 <= u <= 0xDBFF
  }

  predicate IsLow(u: Unit) {
    0xDC00 <= u <= 0xDFFF
  }

  /** The letter of a two-character escape, or 0. */
  function ShortEscape(u: Unit): Unit {
    if u == 34 then 34 else if u == 92 then 92
    else if u == 8 then 98 else if u == 9 then 116 else if u == 10 then 110
    else if u == 12 then 102 else if u == 13 then 114
    else 0
  }

  function FromShortEscape(c: Unit): Unit {
    if c == 98 then 8 else if c == 116 then 9 else if c == 110 then 10 else if c == 102 then 12 else if c == 114 then 13
    else c
  }

  function HexUnit(d: nat): Unit
    requires d < 16
  {
    if d < 10 then 48 + d else 87 + d
  }

  function FromHexUnit(c: Unit): (d: nat)
    ensures d < 16
  {
    if 48 <= c <= 57 then c - 48 else if 97 <= c <= 102 then c - 87 else 0
  }

  /** Lower-case hex of a code unit. */
  function FourHex(u: Unit): (h: Text)
    ensures |h| == 4
  {
    var high, middle, low := u / 16 / 16 / 16, u / 16 / 16, u / 16;
    [HexUnit(high), HexUnit(middle % 16), HexUnit(low % 16), HexUnit(u % 16)]
  }

  function FromFourHex(h: Text): Unit
    requires |h| == 4
  {
    ((FromHexUnit(h[0]) * 16 + FromHexUnit(h[1])) * 16 + FromHexUnit(h[2])) * 16 + FromHexUnit(h[3])
  }

  lemma HexUnitReadsBack(d: nat)
    requires d < 16
    ensures FromHexUnit(HexUnit(d)) == d
  {
  }

  lemma FourHexReadsBack(u: Unit)
    ensures FromFourHex(FourHex(u)) == u
  {
    var high, middle, low := u / 16 / 16 / 16, u / 16 / 16, u / 16;
    HexUnitReadsBack(high);
    HexUnitReadsBack(middle % 16);
    HexUnitReadsBack(low % 16);
    HexUnitReadsBack(u % 16);
  }

  /** One unit that is not half of a surrogate pair. */
  function EscapeUnit(u: Unit): (e: Text)
    ensures e != []
  {
    if ShortEscape(u) != 0 then [BACKSLASH, ShortEscape(u)]
    else if u < 32 || IsHigh(u) || IsLow(u) then [BACKSLASH, LETTER_U] + FourHex(u)
    else [u]
  }

  /** Surrogate pairs stay; lone surrogates and control characters are escaped. */
  function Escape(s: Text): Text {
    if s == [] then []
    else if |s| >= 2 && IsHigh(s[0]) && IsLow(s[1]) then [s[0], s[1]] + Escape(s[2..])
    else EscapeUnit(s[0]) + Escape(s[1..])
  }

  function Quoted(s: Text): Text {
    [QUOTE] + Escape(s) + [QUOTE]
  }

  // ----- Reading quoted text back -----

  function HeadLength(t: Text): (n: nat)
    requires t != []
    ensures 1 <= n <= |t|
  {
    if t[0] != BACKSLASH || |t| == 1 then 1 else if |t| >= 6 && t[1] == LETTER_U then 6 else 2
  }

  function HeadUnit(t: Text): Unit
    requires t != []
  {
    if HeadLength(t) == 1 then t[0] else if HeadLength(t) == 6 then FromFourHex(t[2..6]) else FromShortEscape(t[1])
  }

  /** The text up to the closing quote, unescaped. */
  function Content(t: Text): Text
    decreases |t|
  {
    if t == [] || t[0] == QUOTE then [] else [HeadUnit(t)] + Content(t[HeadLength(t)..])
  }

  /** What follows the closing quote. */
  function AfterQuote(t: Text): Text
    decreases |t|
  {
    if t == [] then [] else if t[0] == QUOTE then t[1..] else AfterQuote(t[HeadLength(t)..])
  }

  lemma UnitReadsBack(u: Unit, rest: Text)
    ensures var t := EscapeUnit(u) + rest;
            t[0] != QUOTE && HeadUnit(t) == u && t[HeadLength(t)..] == rest
  {
    var t := EscapeUnit(u) + rest;
    if ShortEscape(u) != 0 {
      assert t[1] == ShortEscape(u);
    } else if u < 32 || IsHigh(u) || IsLow(u) {
      FourHexReadsBack(u);
      assert t[2..6] == FourHex(u);
    }
  }

  lemma RawReadsBack(u: Unit, rest: Text)
    requires u != QUOTE && u != BACKSLASH
    ensures var t := [u] + rest;
            t[0] != QUOTE && HeadUnit(t) == u && t[HeadLength(t)..] == rest
  {
  }

  /** A text that starts with one spelled unit reads as that unit and what follows. */
  lemma ReadsOne(t: Text, u: Unit, rest: Text)
    requires t != [] && t[0] != QUOTE && HeadUnit(t) == u && t[HeadLength(t)..] == rest
    ensures Content(t) == [u] + Content(rest) && AfterQuote(t) == AfterQuote(rest)
  {
  }

  /** A unit that stands for itself reads as itself. */
  lemma ReadsRaw(u: Unit, rest: Text)
    requires u != QUOTE && u != BACKSLASH
    ensures Content([u] + rest) == [u] + Content(rest) && AfterQuote([u] + rest) == AfterQuote(rest)
  {
    RawReadsBack(u, rest);
    ReadsOne([u] + rest, u, rest);
  }

  lemma EscapedPair(s: Text, tail: Text)
    requires |s| >= 2 && IsHigh(s[0]) && IsLow(s[1])
    ensures Escape(s) + tail == [s[0]] + ([s[1]] + (Escape(s[2..]) + tail))
  {
  }

  lemma EscapePair(s: Text, tail: Text)
    requires |s| >= 2 && IsHigh(s[0]) && IsLow(s[1])
    ensures var after := Escape(s[2..]) + tail;
            && Content(Escape(s) + tail) == s[..2] + Content(after)
            && AfterQuote(Escape(s) + tail) == AfterQuote(after)
  {
    var after := Escape(s[2..]) + tail;
    ReadsRaw(s[1], after);
    ReadsRaw(s[0], [s[1]] + after);
    EscapedPair(s, tail);
    assert s[..2] + Content(after) == [s[0]] + ([s[1]] + Content(after));
  }

  lemma EscapedOne(s: Text, tail: Text)
    requires s != [] && !(|s| >= 2 && IsHigh(s[0]) && IsLow(s[1]))
    ensures Escape(s) + tail == EscapeUnit(s[0]) + (Escape(s[1..]) + tail)
  {
  }

  lemma EscapeOne(s: Text, tail: Text)
    requires s != [] && !(|s| >= 2 && IsHigh(s[0]) && IsLow(s[1]))
    ensures var after := Escape(s[1..]) + tail;
            && Content(Escape(s) + tail) == [s[0]] + Content(after)
            && AfterQuote(Escape(s) + tail) == AfterQuote(after)
  {
    var after := Escape(s[1..]) + tail;
    UnitReadsBack(s[0], after);
    ReadsOne(EscapeUnit(s[0]) + after, s[0], after);
    EscapedOne(s, tail);
  }

  /** Unescaping undoes escaping, up to the closing quote. */
  lemma {:induction false} EscapeReadsBack(s: Text, rest: Text)
    ensures Content(Escape(s) + ([QUOTE] + rest)) == s
    ensures AfterQuote(Escape(s) + ([QUOTE] + rest)) == rest
    decreases |s|
  {
    if s == [] {
      assert Escape(s) + ([QUOTE] + rest) == [QUOTE] + rest;
    } else if |s| >= 2 && IsHigh(s[0]) && IsLow(s[1]) {
      EscapeReadsBack(s[2..], rest);
      EscapePair(s, [QUOTE] + rest);
      assert s == s[..2] + s[2..];
    } else {
      EscapeReadsBack(s[1..], rest);
      EscapeOne(s, [QUOTE] + rest);
      assert s == [s[0]] + s[1..];
    }
  }

  /** Quoted text is unambiguous in any context. */
  lemma QuotedIsUnique(a: Text, b: Text, r: Text, s: Text)
    requires Quoted(a) + r == Quoted(b) + s
    ensures a == b && r == s
  {
    var x, y := Escape(a) + ([QUOTE] + r), Escape(b) + ([QUOTE] + s);
    assert x == (Quoted(a) + r)[1..] && y == (Quoted(b) + s)[1..];
    EscapeReadsBack(a, r);
    EscapeReadsBack(b, s);
  }

  // ----- Order of keys -----

  /** The order in which JavaScript sorts strings: by code units. */
  predicate UpTo(a: Text, b: Text) {
    if a == [] then true else if b == [] then false
    else if a[0] != b[0] then a[0] < b[0]
    else UpTo(a[1..], b[1..])
  }

  lemma {:induction false} UpToTotal(a: Text, b: Text)
    ensures UpTo(a, b) || UpTo(b, a)
    ensures UpTo(a, b) && UpTo(b, a) ==> a == b
  {
    if a != [] && b != [] && a[0] == b[0] {
      UpToTotal(a[1..], b[1..]);
      assert a == [a[0]] + a[1..] && b == [b[0]] + b[1..];
    }
  }

  lemma {:induction false} UpToTransitive(a: Text, b: Text, c: Text)
    requires UpTo(a, b) && UpTo(b, c)
    ensures UpTo(a, c)
  {
    if a != [] && a[0] == b[0] == c[0] {
      UpToTransitive(a[1..], b[1..], c[1..]);
    }
  }
}
