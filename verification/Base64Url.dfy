/** Unpadded base64url (RFC 4648, section 5) as Node's Buffer encodes and decodes it. */
module Base64Url {

  type Byte = n: nat | n < 256
  type Sextet = n: nat | n < 64

  // ----- Sextets as text -----

  predicate IsSymbol(c: char) {
    'A' <= c <= 'Z' || 'a' <= c <= 'z' || '0' <= c <= '9' || c == '-' || c == '_'
  }

  predicate AllSymbols(s: string) {
    forall i :: 0 <= i < |s| ==> IsSymbol(s[i])
  }

  function Symbol(n: Sextet): (c: char)
    ensures IsSymbol(c) && SymbolValue(c) == n
  {
    if n < 26 then 'A' + n as char
    else if n < 52 then 'a' + (n - 26) as char
    else if n < 62 then '0' + (n - 52) as char
    else if n == 62 then '-'
    else '_'
  }

  function SymbolValue(c: char): Sextet
    requires IsSymbol(c)
  {
    if 'A' <= c <= 'Z' then (c - 'A') as nat
    else if 'a' <= c <= 'z' then (c - 'a') as nat + 26
    else if '0' <= c <= '9' then (c - '0') as nat + 52
    else if c == '-' then 62
    else 63
  }

  function Text(values: seq<Sextet>): (s: string)
    ensures |s| == |values| && AllSymbols(s)
    ensures forall i :: 0 <= i < |s| ==> s[i] == Symbol(values[i])
  {
    seq(|values|, i requires 0 <= i < |values| => Symbol(values[i]))
  }

  function Values(s: string): (values: seq<Sextet>)
    requires AllSymbols(s)
    ensures |values| == |s|
    ensures forall i :: 0 <= i < |s| ==> values[i] == SymbolValue(s[i])
  {
    seq(|s|, i requires 0 <= i < |s| => SymbolValue(s[i]))
  }

  lemma ValuesOfText(values: seq<Sextet>)
    ensures Values(Text(values)) == values
  {
  }

  lemma TextOfValues(s: string)
    requires AllSymbols(s)
    ensures Text(Values(s)) == s
  {
  }

  // ----- Bytes as sextets -----

  /** The bytes of a group, from neighbouring sextets. */
  function Byte0(v0: nat, v1: nat): nat {
    v0 * 4 + v1 / 16
  }

  function Byte1(v1: nat, v2: nat): nat {
    v1 % 16 * 16 + v2 / 4
  }

  function Byte2(v2: nat, v3: nat): nat {
    v2 % 4 * 64 + v3
  }

  /** The inner sextets of a group, from neighbouring bytes. */
  function Sextet1(b0: nat, b1: nat): nat {
    b0 % 4 * 16 + b1 / 16
  }

  function Sextet2(b1: nat, b2: nat): nat {
    b1 % 16 * 4 + b2 / 64
  }

  function Split(b: seq<Byte>): (v: seq<Sextet>)
    ensures b != [] ==> v != []
  {
    if b == [] then []
    else if |b| == 1 then [b[0] / 4, Sextet1(b[0], 0)]
    else if |b| == 2 then [b[0] / 4, Sextet1(b[0], b[1]), Sextet2(b[1], 0)]
    else [b[0] / 4, Sextet1(b[0], b[1]), Sextet2(b[1], b[2]), b[2] % 64] + Split(b[3..])
  }

  /** Lenient: a lone last sextet and the unused low bits of the last group are ignored. */
  function Join(v: seq<Sextet>): seq<Byte> {
    if |v| <= 1 then []
    else if |v| == 2 then [Byte0(v[0], v[1])]
    else if |v| == 3 then [Byte0(v[0], v[1]), Byte1(v[1], v[2])]
    else [Byte0(v[0], v[1]), Byte1(v[1], v[2]), Byte2(v[2], v[3])] + Join(v[4..])
  }

  lemma GroupJoins(b0: Byte, b1: Byte, b2: Byte)
    ensures Byte0(b0 / 4, Sextet1(b0, b1)) == b0
    ensures Byte1(Sextet1(b0, b1), Sextet2(b1, b2)) == b1
    ensures Byte2(Sextet2(b1, b2), b2 % 64) == b2
  {
  }

  lemma {:induction false} JoinSplit(b: seq<Byte>)
    ensures Join(Split(b)) == b
  {
    if |b| >= 3 {
      GroupJoins(b[0], b[1], b[2]);
      var v := Split(b);
      assert v[4..] == Split(b[3..]);
      JoinSplit(b[3..]);
      assert Join(v) == [b[0], b[1], b[2]] + Join(v[4..]);
    } else if |b| == 2 {
      GroupJoins(b[0], b[1], 0);
      assert Join(Split(b)) == [b[0], b[1]];
    } else if |b| == 1 {
      GroupJoins(b[0], 0, 0);
      assert Join(Split(b)) == [b[0]];
    }
  }

  /** No lone last sextet, and no unused bits set in the last group. */
  predicate Tight(v: seq<Sextet>) {
    var tail := |v| % 4;
    && tail != 1
    && (tail == 2 ==> v[|v| - 1] % 16 == 0)
    && (tail == 3 ==> v[|v| - 1] % 4 == 0)
  }

  lemma GroupSplits(v0: Sextet, v1: Sextet, v2: Sextet, v3: Sextet)
    ensures Byte0(v0, v1) / 4 == v0
    ensures Sextet1(Byte0(v0, v1), Byte1(v1, v2)) == v1
    ensures Sextet2(Byte1(v1, v2), Byte2(v2, v3)) == v2
    ensures Byte2(v2, v3) % 64 == v3
  {
  }

  lemma TailSplits(v0: Sextet, v1: Sextet, v2: Sextet)
    ensures Sextet1(Byte0(v0, v1), 0) == v1 <==> v1 % 16 == 0
    ensures Sextet2(Byte1(v1, v2), 0) == v2 <==> v2 % 4 == 0
  {
  }

  lemma {:induction false} SplitJoin(v: seq<Sextet>)
    ensures Split(Join(v)) == v <==> Tight(v)
  {
    var b := Join(v);
    if |v| >= 4 {
      var rest := v[4..];
      SplitJoin(rest);
      GroupSplits(v[0], v[1], v[2], v[3]);
      assert b[3..] == Join(rest);
      assert Split(b) == [v[0], v[1], v[2], v[3]] + Split(Join(rest));
      SameAfter([v[0], v[1], v[2], v[3]], Split(Join(rest)), rest);
      assert v == [v[0], v[1], v[2], v[3]] + rest;
      TightTail(v);
    } else if |v| == 3 {
      GroupSplits(v[0], v[1], v[2], 0);
      TailSplits(v[0], v[1], v[2]);
      assert Split(b) == [v[0], v[1], Sextet2(b[1], 0)];
      assert v == [v[0], v[1], v[2]];
    } else if |v| == 2 {
      GroupSplits(v[0], v[1], 0, 0);
      TailSplits(v[0], v[1], 0);
      assert Split(b) == [v[0], Sextet1(b[0], 0)];
      assert v == [v[0], v[1]];
    }
  }

  lemma SameAfter(head: seq<Sextet>, a: seq<Sextet>, b: seq<Sextet>)
    ensures head + a == head + b <==> a == b
  {
    if head + a == head + b {
      assert a == (head + a)[|head|..] == (head + b)[|head|..] == b;
    }
  }

  lemma TightTail(v: seq<Sextet>)
    requires |v| >= 4
    ensures Tight(v) <==> Tight(v[4..])
  {
  }

  // ----- The codec -----

  function Encode(bytes: seq<Byte>): (s: string)
    ensures AllSymbols(s)
    ensures bytes != [] ==> s != []
  {
    Text(Split(bytes))
  }

  function Decode(s: string): seq<Byte>
    requires AllSymbols(s)
  {
    Join(Values(s))
  }

  /** Decoding undoes encoding on all bytes; encoding undoes decoding exactly on tight text. */
  lemma Base64RoundTrip(bytes: seq<Byte>, s: string)
    requires AllSymbols(s)
    ensures Decode(Encode(bytes)) == bytes
    ensures Encode(Decode(s)) == s <==> Tight(Values(s))
  {
    ValuesOfText(Split(bytes));
    JoinSplit(bytes);
    TextOfValues(s);
    ValuesOfText(Split(Decode(s)));
    SplitJoin(Values(s));
  }
}
