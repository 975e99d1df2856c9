/** Merging positions rediscovered on chain into the saved records. */
module PositionMerge {
  import opened Wrappers
  import opened Integers
  import opened Requests
  import opened Sorting

  datatype Kind = Launched | Traded

  datatype Status =
    | Funding | Launching | Buying | Held | Selling | Returning | ReturnFailed | BuyFailed | Failed | Closed

  datatype Position = Position(
    id: string,
    kind: Kind,
    name: string,
    symbol: string,
    token: Option<Address>,
    accountIndex: nat,
    account: Address,
    status: Status,
    usdcCommitted: string,
    tokenAmount: Option<string>,
    launchTxHash: Option<string>,
    buyTxHash: Option<string>,
    sellTxHash: Option<string>,
    lastError: Option<string>,
    createdAt: int,
    updatedAt: int)

  function Key(p: Position): (Address, Option<Address>) {
    (p.account, p.token)
  }

  predicate NewestFirst(a: Position, b: Position) {
    a.updatedAt >= b.updatedAt
  }

  /** On-chain custody wins; identity, cost and transaction details fall back to the record. */
  function Combine(saved: Position, found: Position): Position {
    Position(
      saved.id,
      found.kind,
      found.name,
      found.symbol,
      found.token.Or(saved.token),
      found.accountIndex,
      found.account,
      Held,
      if found.usdcCommitted != "0" then found.usdcCommitted else saved.usdcCommitted,
      found.tokenAmount.Or(saved.tokenAmount),
      found.launchTxHash.Or(saved.launchTxHash),
      found.buyTxHash.Or(saved.buyTxHash),
      if saved.sellTxHash.Some? && saved.sellTxHash.value != "" then saved.sellTxHash
      else found.sellTxHash.Or(saved.sellTxHash),
      found.lastError,
      Min(saved.createdAt, found.createdAt),
      Max(saved.updatedAt, found.updatedAt))
  }

  /** The first record with this key, or -1. */
  function FindIndex(s: seq<Position>, key: (Address, Option<Address>)): (i: int)
    ensures -1 <= i < |s|
    ensures i >= 0 ==> Key(s[i]) == key
    ensures forall j :: 0 <= j < (if i >= 0 then i else |s|) ==> Key(s[j]) != key
  {
    if s == [] then -1
    else if Key(s[0]) == key then 0
    else
      var rest := FindIndex(s[1..], key);
      if rest == -1 then -1 else rest + 1
  }

  function Place(s: seq<Position>, found: Position): seq<Position> {
    var i := FindIndex(s, Key(found));
    if i == -1 then s + [found] else s[i := Combine(s[i], found)]
  }

  function PlaceAll(s: seq<Position>, found: seq<Position>): seq<Position> {
    if found == [] then s else Place(PlaceAll(s, found[..|found| - 1]), found[|found| - 1])
  }

  function Merged(existing: seq<Position>, recovered: seq<Position>): seq<Position> {
    Sort(PlaceAll(existing, recovered), NewestFirst)
  }

  method MergeRecoveredPositions(existing: seq<Position>, recovered: seq<Position>) returns (merged: seq<Position>)
    ensures merged == Merged(existing, recovered)
  {
    var next := existing;
    for k := 0 to |recovered|
      invariant next == PlaceAll(existing, recovered[..k])
    {
      var discovered := recovered[k];
      var matchIndex := FindIndex(next, Key(discovered));
      assert recovered[..k + 1][..k] == recovered[..k];
      if matchIndex == -1 {
        next := next + [discovered];
      } else {
        next := next[matchIndex := Combine(next[matchIndex], discovered)];
      }
    }
    assert recovered[..|recovered|] == recovered;
    return Sort(next, NewestFirst);
  }

  // ----- What merging means -----

  ghost predicate DistinctKeys(s: seq<Position>) {
    DistinctBy(s, Key)
  }

  ghost predicate HasKey(s: seq<Position>, key: (Address, Option<Address>)) {
    exists p :: p in s && Key(p) == key
  }

  /** The record a merge may contain: untouched, combined, or new. */
  ghost predicate ComesFrom(q: Position, existing: seq<Position>, recovered: seq<Position>) {
    || (q in existing && !HasKey(recovered, Key(q)))
    || (q in recovered && !HasKey(existing, Key(q)))
    || exists p, d :: p in existing && d in recovered && Key(p) == Key(d) && q == Combine(p, d)
  }

  /**
   * Combining forgets nothing that either record knows: the saved identity, the longer
   * time span, the amounts and every transaction hash; what the chain shows wins, except
   * for a sale that only the saved record knows.
   */
  predicate Remembers(c: Position, saved: Position, found: Position) {
    && c.id == saved.id && c.kind == found.kind && c.name == found.name && c.symbol == found.symbol
    && c.status == Held && c.lastError == found.lastError
    && Key(c).0 == Key(found).0 && c.accountIndex == found.accountIndex
    && c.createdAt <= saved.createdAt && c.createdAt <= found.createdAt
    && c.createdAt in {saved.createdAt, found.createdAt}
    && c.updatedAt >= saved.updatedAt && c.updatedAt >= found.updatedAt
    && c.updatedAt in {saved.updatedAt, found.updatedAt}
    && (found.usdcCommitted != "0" ==> c.usdcCommitted == found.usdcCommitted)
    && (found.usdcCommitted == "0" ==> c.usdcCommitted == saved.usdcCommitted)
    && Recalls(c.token, saved.token, found.token) && Recalls(c.tokenAmount, saved.tokenAmount, found.tokenAmount)
    && Recalls(c.launchTxHash, saved.launchTxHash, found.launchTxHash)
    && Recalls(c.buyTxHash, saved.buyTxHash, found.buyTxHash)
    && (saved.sellTxHash.GetOr("") != "" ==> c.sellTxHash == saved.sellTxHash)
    && (saved.sellTxHash.GetOr("") == "" ==> Recalls(c.sellTxHash, saved.sellTxHash, found.sellTxHash))
  }

  /** What was found, else what was saved. */
  predicate Recalls<T(==)>(combined: Option<T>, saved: Option<T>, found: Option<T>) {
    (found.Some? ==> combined == found) && (found.None? ==> combined == saved)
  }

  lemma CombineKeepsKey(p: Position, d: Position)
    requires Key(p) == Key(d)
    ensures Key(Combine(p, d)) == Key(d)
  {
  }

  lemma PlaceKeepsDistinct(s: seq<Position>, d: Position)
    requires DistinctKeys(s)
    ensures DistinctKeys(Place(s, d))
    ensures forall key :: HasKey(Place(s, d), key) <==> HasKey(s, key) || key == Key(d)
  {
    var i, next := FindIndex(s, Key(d)), Place(s, d);
    forall j | 0 <= j < |s|
      ensures Key(next[j]) == Key(s[j])
    {
    }
    forall key
      ensures HasKey(next, key) <==> HasKey(s, key) || key == Key(d)
    {
      if HasKey(next, key) {
        var p :| p in next && Key(p) == key;
        var j :| 0 <= j < |next| && next[j] == p;
        if j < |s| { assert s[j] in s; }
      }
      if HasKey(s, key) {
        var p :| p in s && Key(p) == key;
        var j :| 0 <= j < |s| && s[j] == p;
        assert next[j] in next && Key(next[j]) == key;
      }
      if key == Key(d) {
        assert next[if i == -1 then |s| else i] in next;
      }
    }
  }

  /** The members after placing one record whose key is new to the placed ones. */
  lemma PlaceMembers(s: seq<Position>, d: Position, q: Position)
    requires DistinctKeys(s)
    ensures q in Place(s, d) <==>
              || (q in s && Key(q) != Key(d))
              || (!HasKey(s, Key(d)) && q == d)
              || exists p :: p in s && Key(p) == Key(d) && q == Combine(p, d)
  {
    var i, next := FindIndex(s, Key(d)), Place(s, d);
    if q in next {
      var j :| 0 <= j < |next| && next[j] == q;
      if i == -1 {
        if j < |s| { assert q == s[j]; }
      } else if j == i {
        assert s[i] in s;
      } else {
        assert q == s[j] && Key(s[j]) != Key(s[i]);
      }
    }
    if q in s && Key(q) != Key(d) {
      var j :| 0 <= j < |s| && s[j] == q;
      assert next[j] == q;
    }
    if i >= 0 {
      assert next[i] == Combine(s[i], d);
      forall p | p in s && Key(p) == Key(d)
        ensures p == s[i]
      {
      }
    } else {
      assert next[|s|] == d;
    }
  }

  lemma {:induction false} PlaceAllMeaning(existing: seq<Position>, recovered: seq<Position>)
    requires DistinctKeys(existing) && DistinctKeys(recovered)
    ensures DistinctKeys(PlaceAll(existing, recovered))
    ensures forall key ::
              HasKey(PlaceAll(existing, recovered), key) <==> HasKey(existing, key) || HasKey(recovered, key)
    ensures forall q :: q in PlaceAll(existing, recovered) <==> ComesFrom(q, existing, recovered)
    decreases |recovered|
  {
    if recovered == [] {
      forall q
        ensures q in existing <==> ComesFrom(q, existing, [])
      {
      }
    } else {
      var front, d := recovered[..|recovered| - 1], recovered[|recovered| - 1];
      var s := PlaceAll(existing, front);
      assert recovered == front + [d];
      PlaceAllMeaning(existing, front);
      PlaceKeepsDistinct(s, d);
      assert !HasKey(front, Key(d));
      forall key
        ensures HasKey(recovered, key) <==> HasKey(front, key) || key == Key(d)
      {
        if HasKey(front, key) {
          var p :| p in front && Key(p) == key;
          assert p in recovered;
        }
        assert d in recovered;
      }
      forall q
        ensures q in Place(s, d) <==> ComesFrom(q, existing, recovered)
      {
        PlaceMembers(s, d, q);
        StepComesFrom(q, existing, front, d);
      }
    }
  }

  lemma StepComesFrom(q: Position, existing: seq<Position>, front: seq<Position>, d: Position)
    requires DistinctKeys(existing) && DistinctKeys(front + [d])
    requires !HasKey(front, Key(d))
    requires forall p :: p in PlaceAll(existing, front) <==> ComesFrom(p, existing, front)
    requires forall key :: HasKey(PlaceAll(existing, front), key) <==> HasKey(existing, key) || HasKey(front, key)
    ensures var s := PlaceAll(existing, front);
            (|| (q in s && Key(q) != Key(d))
             || (!HasKey(s, Key(d)) && q == d)
             || exists p :: p in s && Key(p) == Key(d) && q == Combine(p, d))
            <==> ComesFrom(q, existing, front + [d])
  {
  }

  /**
   * Merging with distinct keys on each side: one record for every key of either side,
   * sorted newest first; records without a match are untouched, matched records keep their
   * saved id and forget nothing, and nothing else appears.
   */
  lemma MergeIsUnion(existing: seq<Position>, recovered: seq<Position>)
    requires DistinctKeys(existing) && DistinctKeys(recovered)
    ensures Sorted(Merged(existing, recovered), NewestFirst)
    ensures DistinctKeys(Merged(existing, recovered))
    ensures forall key ::
              HasKey(Merged(existing, recovered), key) <==> HasKey(existing, key) || HasKey(recovered, key)
    ensures forall q :: q in Merged(existing, recovered) <==> ComesFrom(q, existing, recovered)
    ensures forall p, d :: p in existing && d in recovered && Key(p) == Key(d)
              ==> Combine(p, d) in Merged(existing, recovered) && Remembers(Combine(p, d), p, d)
  {
    var placed, merged := PlaceAll(existing, recovered), Merged(existing, recovered);
    PlaceAllMeaning(existing, recovered);
    SortSorts(placed, NewestFirst);
    PermutationKeepsDistinct(placed, merged, Key);
    forall key
      ensures HasKey(merged, key) <==> HasKey(placed, key)
    {
    }
    forall p, d | p in existing && d in recovered && Key(p) == Key(d)
      ensures Combine(p, d) in merged
    {
      assert ComesFrom(Combine(p, d), existing, recovered);
    }
  }

  // ----- Merging twice -----

  /** A record that combining with `d` no longer changes. */
  ghost predicate Absorbs(s: seq<Position>, d: Position) {
    exists p :: p in s && Key(p) == Key(d) && Combine(p, d) == p
  }

  lemma CombineTwice(p: Position, d: Position)
    requires Key(p) == Key(d)
    ensures Combine(Combine(p, d), d) == Combine(p, d)
  {
  }

  lemma AbsorbedPlaceDoesNothing(s: seq<Position>, d: Position)
    requires DistinctKeys(s) && Absorbs(s, d)
    ensures Place(s, d) == s
  {
  }

  lemma {:induction false} AbsorbedPlaceAllDoesNothing(s: seq<Position>, found: seq<Position>)
    requires DistinctKeys(s)
    requires forall d :: d in found ==> Absorbs(s, d)
    ensures PlaceAll(s, found) == s
    decreases |found|
  {
    if found != [] {
      assert found[|found| - 1] in found;
      AbsorbedPlaceAllDoesNothing(s, found[..|found| - 1]);
      AbsorbedPlaceDoesNothing(s, found[|found| - 1]);
    }
  }

  /** Recovering the same positions again changes nothing. */
  lemma MergeIsIdempotent(existing: seq<Position>, recovered: seq<Position>)
    requires DistinctKeys(existing) && DistinctKeys(recovered)
    requires forall d :: d in recovered ==> d.status == Held
    ensures Merged(Merged(existing, recovered), recovered) == Merged(existing, recovered)
  {
    var merged := Merged(existing, recovered);
    MergeIsUnion(existing, recovered);
    forall d | d in recovered
      ensures Absorbs(merged, d)
    {
      if HasKey(existing, Key(d)) {
        var p :| p in existing && Key(p) == Key(d);
        CombineTwice(p, d);
        CombineKeepsKey(p, d);
        assert Combine(p, d) in merged;
      } else {
        assert ComesFrom(d, existing, recovered);
        assert Combine(d, d) == d;
      }
    }
    AbsorbedPlaceAllDoesNothing(merged, recovered);
    SortKeepsSorted(merged, NewestFirst);
  }
}
