/** The strings that name proof attempts upstream and records in the store. */
module ProverKeys {
  import opened Numerals

  predicate IsDigest(s: string) {
    |s| == 64 && forall i :: 0 <= i < |s| ==> '0' <= s[i] <= '9' || 'a' <= s[i] <= 'f'
  }

  function IdempotencyKey(digest: string, attempt: nat): string {
    "privatepons-" + digest + (if attempt == 0 then "" else "-r" + DecimalText(attempt))
  }

  function CursorKey(digest: string): string {
    "proof:" + (digest + ":cursor")
  }

  function TerminalKey(digest: string, attempt: nat): string {
    "proof:" + (digest + (":terminal:" + DecimalText(attempt)))
  }

  /** Different requests and different attempts never share an idempotency key. */
  lemma IdempotencyKeysDiffer(d1: string, n1: nat, d2: string, n2: nat)
    requires IsDigest(d1) && IsDigest(d2)
    requires IdempotencyKey(d1, n1) == IdempotencyKey(d2, n2)
    ensures d1 == d2 && n1 == n2
  {
    var p := "privatepons-";
    var r1 := if n1 == 0 then "" else "-r" + DecimalText(n1);
    var r2 := if n2 == 0 then "" else "-r" + DecimalText(n2);
    assert IdempotencyKey(d1, n1) == p + (d1 + r1);
    assert IdempotencyKey(d2, n2) == p + (d2 + r2);
    DropPrefix(p, d1 + r1, d2 + r2);
    assert d1 == (d1 + r1)[..64] == (d2 + r2)[..64] == d2;
    DropPrefix(d1, r1, r2);
    if n1 > 0 && n2 > 0 {
      DropPrefix("-r", DecimalText(n1), DecimalText(n2));
      DecimalTextInjective(n1, n2);
    }
  }

  lemma KeyParts(d1: string, r1: string, d2: string, r2: string)
    requires |d1| == |d2|
    requires "proof:" + (d1 + r1) == "proof:" + (d2 + r2)
    ensures d1 == d2 && r1 == r2
  {
    DropPrefix("proof:", d1 + r1, d2 + r2);
    assert d1 == (d1 + r1)[..|d1|] == (d2 + r2)[..|d2|] == d2;
    DropPrefix(d1, r1, r2);
  }

  /** Records of different requests, and the cursor and terminals of one, never collide. */
  lemma StoreKeysDiffer(d1: string, n1: nat, d2: string, n2: nat)
    requires IsDigest(d1) && IsDigest(d2)
    ensures CursorKey(d1) == CursorKey(d2) ==> d1 == d2
    ensures TerminalKey(d1, n1) == TerminalKey(d2, n2) ==> d1 == d2 && n1 == n2
    ensures CursorKey(d1) != TerminalKey(d2, n2)
  {
    if CursorKey(d1) == CursorKey(d2) {
      KeyParts(d1, ":cursor", d2, ":cursor");
    }
    if TerminalKey(d1, n1) == TerminalKey(d2, n2) {
      KeyParts(d1, ":terminal:" + DecimalText(n1), d2, ":terminal:" + DecimalText(n2));
      DropPrefix(":terminal:", DecimalText(n1), DecimalText(n2));
      DecimalTextInjective(n1, n2);
    }
    assert ":cursor"[1] == 'c' && (":terminal:" + DecimalText(n2))[1] == 't';
    if CursorKey(d1) == TerminalKey(d2, n2) {
      KeyParts(d1, ":cursor", d2, ":terminal:" + DecimalText(n2));
    }
  }
}
