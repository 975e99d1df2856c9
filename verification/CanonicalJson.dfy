/**
 * The canonical JSON whose digest names a proof request: object keys are sorted at every
 * depth, so requests that differ only in key order share their digest, and others do not.
 */
module CanonicalJson {
  import opened Numerals
  import opened Sorting
  import opened JsonText

  /** A JSON value; a number is the integer its printed form spells. */
  datatype Json =
    | Null
    | Bool(b: bool)
    | Number(n: int)
    | Str(s: Text)
    | Arr(items: seq<Json>)
    | Obj(members: seq<Member>)

  datatype Member = Member(key: Text, value: Json)

  const COMMA: Unit := 44
  const COLON: Unit := 58
  const MINUS: Unit := 45
  const OPEN_BRACKET: Unit := 91
  const CLOSE_BRACKET: Unit := 93
  const OPEN_BRACE: Unit := 123
  const CLOSE_BRACE: Unit := 125
  const NULL_TEXT: Text := [110, 117, 108, 108]
  const TRUE_TEXT: Text := [116, 114, 117, 101]
  const FALSE_TEXT: Text := [102, 97, 108, 115, 101]

  predicate ByKey(a: Member, b: Member) {
    UpTo(a.key, b.key)
  }

  // ----- Printing -----

  function DigitUnits(ds: seq<nat>): (t: Text)
    requires forall i :: 0 <= i < |ds| ==> ds[i] < 10
    ensures |t| == |ds| && forall i :: 0 <= i < |t| ==> t[i] == 48 + ds[i]
  {
    seq(|ds|, i requires 0 <= i < |ds| => 48 + ds[i])
  }

  function NumberText(n: int): (t: Text)
    ensures |t| >= 1
  {
    if n < 0 then [MINUS] + DigitUnits(Digits(-n, Decimal)) else DigitUnits(Digits(n, Decimal))
  }

  function Print(v: Json): Text {
    match v
    case Null => NULL_TEXT
    case Bool(b) => if b then TRUE_TEXT else FALSE_TEXT
    case Number(n) => NumberText(n)
    case Str(s) => Quoted(s)
    case Arr(items) => [OPEN_BRACKET] + PrintItems(items)
    case Obj(members) => [OPEN_BRACE] + PrintMembers(members)
  }

  /** The items and the closing bracket. */
  function PrintItems(items: seq<Json>): Text {
    if items == [] then [CLOSE_BRACKET] else Print(items[0]) + MoreItems(items[1..])
  }

  function MoreItems(items: seq<Json>): Text {
    if items == [] then [CLOSE_BRACKET] else [COMMA] + Print(items[0]) + MoreItems(items[1..])
  }

  function PrintMember(m: Member): Text {
    Quoted(m.key) + [COLON] + Print(m.value)
  }

  function PrintMembers(members: seq<Member>): Text {
    if members == [] then [CLOSE_BRACE] else PrintMember(members[0]) + MoreMembers(members[1..])
  }

  function MoreMembers(members: seq<Member>): Text {
    if members == [] then [CLOSE_BRACE] else [COMMA] + PrintMember(members[0]) + MoreMembers(members[1..])
  }

  /** The same value with its object keys sorted at every depth. */
  function Ordered(v: Json): Json {
    match v
    case Arr(items) => Arr(OrderedItems(items))
    case Obj(members) => Obj(Sort(OrderedMembers(members), ByKey))
    case _ => v
  }

  function OrderedItems(items: seq<Json>): (r: seq<Json>)
    ensures |r| == |items|
    ensures forall i :: 0 <= i < |r| ==> r[i] == Ordered(items[i])
  {
    if items == [] then [] else [Ordered(items[0])] + OrderedItems(items[1..])
  }

  function OrderedMembers(members: seq<Member>): (r: seq<Member>)
    ensures |r| == |members|
    ensures forall i :: 0 <= i < |r| ==> r[i] == Member(members[i].key, Ordered(members[i].value))
  {
    if members == [] then []
    else [Member(members[0].key, Ordered(members[0].value))] + OrderedMembers(members[1..])
  }

  /** The text that is hashed into a request digest. */
  function Canonical(v: Json): Text {
    Print(Ordered(v))
  }

  // ----- Printing is injective -----

  /** A value ends where its text does, or before a comma or a closing bracket. */
  predicate Delimited(r: Text) {
    r == [] || r[0] == COMMA || r[0] == CLOSE_BRACKET || r[0] == CLOSE_BRACE
  }

  /** What the first unit says about a value. */
  predicate Starts(v: Json, u: Unit) {
    match v
    case Null => u == 110
    case Bool(b) => u == if b then 116 else 102
    case Number(n) => if n < 0 then u == MINUS else 48 <= u <= 57
    case Str(_) => u == QUOTE
    case Arr(_) => u == OPEN_BRACKET
    case Obj(_) => u == OPEN_BRACE
  }

  lemma FirstUnit(v: Json)
    ensures Print(v) != [] && Starts(v, Print(v)[0])
  {
  }

  lemma FirstUnits(v: Json, w: Json, r: Text, s: Text)
    requires Print(v) + r == Print(w) + s
    ensures Starts(v, Print(v)[0]) && Starts(w, Print(v)[0])
  {
    FirstUnit(v);
    FirstUnit(w);
    assert Print(v)[0] == (Print(v) + r)[0] == (Print(w) + s)[0] == Print(w)[0];
  }

  predicate AllDigits(t: Text) {
    forall i :: 0 <= i < |t| ==> 48 <= t[i] <= 57
  }

  lemma Head(a: Text, r: Text)
    ensures a + r != [] ==> (a + r)[0] == if a == [] then r[0] else a[0]
    ensures a == [] ==> a + r == r
    ensures a != [] ==> (a + r)[1..] == a[1..] + r
  {
  }

  lemma {:induction false} DigitRun(a: Text, b: Text, r: Text, s: Text)
    requires AllDigits(a) && AllDigits(b) && Delimited(r) && Delimited(s)
    requires a + r == b + s
    ensures a == b && r == s
    decreases |a|
  {
    Head(a, r);
    Head(b, s);
    if a != [] && b != [] {
      DigitRun(a[1..], b[1..], r, s);
      assert a == [a[0]] + a[1..] && b == [b[0]] + b[1..];
    }
  }

  lemma DigitsUnique(a: seq<nat>, b: seq<nat>, r: Text, s: Text)
    requires forall i :: 0 <= i < |a| ==> a[i] < 10
    requires forall i :: 0 <= i < |b| ==> b[i] < 10
    requires Delimited(r) && Delimited(s)
    requires DigitUnits(a) + r == DigitUnits(b) + s
    ensures a == b && r == s
  {
    DigitRun(DigitUnits(a), DigitUnits(b), r, s);
    assert |a| == |b|;
    forall i | 0 <= i < |a|
      ensures a[i] == b[i]
    {
      assert DigitUnits(a)[i] == DigitUnits(b)[i];
    }
  }

  lemma NumberUnique(m: int, n: int, r: Text, s: Text)
    requires Delimited(r) && Delimited(s) && (m < 0 <==> n < 0)
    requires NumberText(m) + r == NumberText(n) + s
    ensures m == n && r == s
  {
    var a, b := Digits(if m < 0 then -m else m, Decimal), Digits(if n < 0 then -n else n, Decimal);
    ValueOfDigits(if m < 0 then -m else m, Decimal);
    ValueOfDigits(if n < 0 then -n else n, Decimal);
    if m < 0 {
      SignSplit(DigitUnits(a), DigitUnits(b), r, s);
    }
    DigitsUnique(a, b, r, s);
  }

  lemma SignSplit(a: Text, b: Text, r: Text, s: Text)
    requires [MINUS] + a + r == [MINUS] + b + s
    ensures a + r == b + s
  {
    assert [MINUS] + a + r == [MINUS] + (a + r) && [MINUS] + b + s == [MINUS] + (b + s);
    DropPrefix([MINUS], a + r, b + s);
  }

  /** Concatenation regrouped to the right. */
  lemma Regroup(c: Text, p: Text, q: Text, r: Text)
    ensures c + p + q + r == c + (p + (q + r))
    ensures p + q + r == p + (q + r)
  {
  }

  /** A printed value is unambiguous in any context in which values are printed. */
  lemma {:induction false} PrintUnique(v: Json, w: Json, r: Text, s: Text)
    requires Delimited(r) && Delimited(s)
    requires Print(v) + r == Print(w) + s
    ensures v == w && r == s
    decreases v
  {
    FirstUnits(v, w, r, s);
    match v
    case Null => DropPrefix(NULL_TEXT, r, s);
    case Bool(b) => DropPrefix(Print(v), r, s);
    case Number(n) => NumberUnique(n, w.n, r, s);
    case Str(t) => QuotedIsUnique(t, w.s, r, s);
    case Arr(items) =>
      Regroup([], [OPEN_BRACKET], PrintItems(items), r);
      Regroup([], [OPEN_BRACKET], PrintItems(w.items), s);
      DropPrefix([OPEN_BRACKET], PrintItems(items) + r, PrintItems(w.items) + s);
      ItemsUnique(items, w.items, r, s);
    case Obj(members) =>
      Regroup([], [OPEN_BRACE], PrintMembers(members), r);
      Regroup([], [OPEN_BRACE], PrintMembers(w.members), s);
      DropPrefix([OPEN_BRACE], PrintMembers(members) + r, PrintMembers(w.members) + s);
      MembersUnique(members, w.members, r, s);
  }

  lemma {:induction false} ItemsUnique(a: seq<Json>, b: seq<Json>, r: Text, s: Text)
    requires PrintItems(a) + r == PrintItems(b) + s
    ensures a == b && r == s
    decreases a
  {
    ItemsStart(a, r);
    ItemsStart(b, s);
    if a == [] {
      DropPrefix([CLOSE_BRACKET], r, s);
    } else {
      MoreItemsStart(a[1..], r);
      MoreItemsStart(b[1..], s);
      Regroup([], Print(a[0]), MoreItems(a[1..]), r);
      Regroup([], Print(b[0]), MoreItems(b[1..]), s);
      PrintUnique(a[0], b[0], MoreItems(a[1..]) + r, MoreItems(b[1..]) + s);
      MoreItemsUnique(a[1..], b[1..], r, s);
      assert a == [a[0]] + a[1..] && b == [b[0]] + b[1..];
    }
  }

  lemma {:induction false} MoreItemsUnique(a: seq<Json>, b: seq<Json>, r: Text, s: Text)
    requires MoreItems(a) + r == MoreItems(b) + s
    ensures a == b && r == s
    decreases a
  {
    MoreItemsStart(a, r);
    MoreItemsStart(b, s);
    if a == [] {
      DropPrefix([CLOSE_BRACKET], r, s);
    } else {
      var x, y := MoreItems(a[1..]) + r, MoreItems(b[1..]) + s;
      MoreItemsStart(a[1..], r);
      MoreItemsStart(b[1..], s);
      Regroup([COMMA], Print(a[0]), MoreItems(a[1..]), r);
      Regroup([COMMA], Print(b[0]), MoreItems(b[1..]), s);
      DropPrefix([COMMA], Print(a[0]) + x, Print(b[0]) + y);
      PrintUnique(a[0], b[0], x, y);
      MoreItemsUnique(a[1..], b[1..], r, s);
      assert a == [a[0]] + a[1..] && b == [b[0]] + b[1..];
    }
  }

  lemma ItemsStart(a: seq<Json>, r: Text)
    ensures PrintItems(a) != [] && (a == [] <==> (PrintItems(a) + r)[0] == CLOSE_BRACKET)
  {
  }

  lemma MoreItemsStart(a: seq<Json>, r: Text)
    ensures MoreItems(a) != [] && (MoreItems(a) + r)[0] == if a == [] then CLOSE_BRACKET else COMMA
    ensures Delimited(MoreItems(a) + r)
  {
  }

  lemma {:induction false} MemberUnique(a: Member, b: Member, r: Text, s: Text)
    requires Delimited(r) && Delimited(s)
    requires PrintMember(a) + r == PrintMember(b) + s
    ensures a == b && r == s
    decreases a
  {
    var x, y := Print(a.value) + r, Print(b.value) + s;
    Regroup(Quoted(a.key), [COLON], Print(a.value), r);
    Regroup(Quoted(b.key), [COLON], Print(b.value), s);
    QuotedIsUnique(a.key, b.key, [COLON] + x, [COLON] + y);
    DropPrefix([COLON], x, y);
    PrintUnique(a.value, b.value, r, s);
  }

  lemma {:induction false} MembersUnique(a: seq<Member>, b: seq<Member>, r: Text, s: Text)
    requires PrintMembers(a) + r == PrintMembers(b) + s
    ensures a == b && r == s
    decreases a
  {
    MembersStart(a, r);
    MembersStart(b, s);
    if a == [] {
      DropPrefix([CLOSE_BRACE], r, s);
    } else {
      MoreMembersStart(a[1..], r);
      MoreMembersStart(b[1..], s);
      Regroup([], PrintMember(a[0]), MoreMembers(a[1..]), r);
      Regroup([], PrintMember(b[0]), MoreMembers(b[1..]), s);
      MemberUnique(a[0], b[0], MoreMembers(a[1..]) + r, MoreMembers(b[1..]) + s);
      MoreMembersUnique(a[1..], b[1..], r, s);
      assert a == [a[0]] + a[1..] && b == [b[0]] + b[1..];
    }
  }

  lemma {:induction false} MoreMembersUnique(a: seq<Member>, b: seq<Member>, r: Text, s: Text)
    requires MoreMembers(a) + r == MoreMembers(b) + s
    ensures a == b && r == s
    decreases a
  {
    MoreMembersStart(a, r);
    MoreMembersStart(b, s);
    if a == [] {
      DropPrefix([CLOSE_BRACE], r, s);
    } else {
      MoreMembersStart(a[1..], r);
      MoreMembersStart(b[1..], s);
      var x, y := MoreMembers(a[1..]) + r, MoreMembers(b[1..]) + s;
      Regroup([COMMA], PrintMember(a[0]), MoreMembers(a[1..]), r);
      Regroup([COMMA], PrintMember(b[0]), MoreMembers(b[1..]), s);
      DropPrefix([COMMA], PrintMember(a[0]) + x, PrintMember(b[0]) + y);
      MemberUnique(a[0], b[0], x, y);
      MoreMembersUnique(a[1..], b[1..], r, s);
      assert a == [a[0]] + a[1..] && b == [b[0]] + b[1..];
    }
  }

  lemma MembersStart(a: seq<Member>, r: Text)
    ensures PrintMembers(a) != [] && (a == [] <==> (PrintMembers(a) + r)[0] == CLOSE_BRACE)
  {
  }

  lemma MoreMembersStart(a: seq<Member>, r: Text)
    ensures MoreMembers(a) != [] && (MoreMembers(a) + r)[0] == if a == [] then CLOSE_BRACE else COMMA
    ensures Delimited(MoreMembers(a) + r)
  {
  }

  // ----- Equal up to the order of keys -----

  /** Objects have distinct keys at every depth, as JavaScript objects do. */
  ghost predicate DistinctKeys(v: Json) {
    match v
    case Arr(items) => forall i :: 0 <= i < |items| ==> DistinctKeys(items[i])
    case Obj(members) =>
      && KeysDiffer(members)
      && (forall i :: 0 <= i < |members| ==> DistinctKeys(members[i].value))
    case _ => true
  }

  /** The same value, whatever the order of the keys of any object in it. */
  ghost predicate Same(v: Json, w: Json) {
    match v
    case Arr(items) =>
      w.Arr? && |items| == |w.items| && forall i :: 0 <= i < |items| ==> Same(items[i], w.items[i])
    case Obj(members) =>
      w.Obj? && |members| == |w.members| && forall i :: 0 <= i < |members| ==> SameIn(members[i], w.members)
    case _ => v == w
  }

  ghost predicate SameIn(m: Member, members: seq<Member>) {
    exists j :: 0 <= j < |members| && m.key == members[j].key && Same(m.value, members[j].value)
  }

  lemma ByKeyOrders()
    ensures TotalOrder(ByKey)
  {
    forall a: Member, b: Member
      ensures ByKey(a, b) || ByKey(b, a)
    {
      UpToTotal(a.key, b.key);
    }
    forall a: Member, b: Member, c: Member | ByKey(a, b) && ByKey(b, c)
      ensures ByKey(a, c)
    {
      UpToTransitive(a.key, b.key, c.key);
    }
  }

  ghost predicate KeysDiffer(a: seq<Member>) {
    forall i, j :: 0 <= i < j < |a| ==> a[i].key != a[j].key
  }

  ghost predicate Contained(a: seq<Member>, b: seq<Member>) {
    forall m :: m in a ==> m in b
  }

  /** Sequences without repetition, one of which contains the other, are rearrangements. */
  lemma {:induction false} SameMembers(a: seq<Member>, b: seq<Member>)
    requires |a| == |b| && KeysDiffer(a) && KeysDiffer(b)
    requires Contained(a, b)
    ensures multiset(a) == multiset(b)
    decreases |a|
  {
    if a != [] {
      var j := IndexIn(a, b);
      RemoveOne(a, b, j);
      SameMembers(a[1..], Dropping(b, j));
      HeadOut(a);
      TakenOut(b, j);
    }
  }

  lemma IndexIn(a: seq<Member>, b: seq<Member>) returns (j: nat)
    requires a != [] && Contained(a, b)
    ensures j < |b| && b[j] == a[0]
  {
    assert a[0] in a && a[0] in b;
    j :| 0 <= j < |b| && b[j] == a[0];
  }

  function Dropping(s: seq<Member>, j: nat): (r: seq<Member>)
    requires j < |s|
    ensures |r| == |s| - 1
  {
    s[..j] + s[j + 1..]
  }

  lemma HeadOut(s: seq<Member>)
    requires s != []
    ensures multiset(s) == multiset{s[0]} + multiset(s[1..])
  {
    assert s == [s[0]] + s[1..];
  }

  lemma TakenOut(s: seq<Member>, j: nat)
    requires j < |s|
    ensures multiset(s) == multiset{s[j]} + multiset(Dropping(s, j))
  {
    assert s == s[..j] + [s[j]] + s[j + 1..];
  }

  lemma RemoveOne(a: seq<Member>, b: seq<Member>, j: nat)
    requires a != [] && j < |b| && b[j] == a[0] && KeysDiffer(a) && KeysDiffer(b)
    requires Contained(a, b)
    ensures KeysDiffer(Dropping(b, j)) && Contained(a[1..], Dropping(b, j))
  {
    var rest := Dropping(b, j);
    forall i | 1 <= i < |a|
      ensures a[i] in rest
    {
      assert a[i] in b && a[0].key != a[i].key;
      var k :| 0 <= k < |b| && b[k] == a[i];
      assert if k < j then rest[k] == a[i] else rest[k - 1] == a[i];
    }
  }

  ghost predicate Alike(m: Member, members: seq<Member>) {
    exists j :: 0 <= j < |members| && m.key == members[j].key && Ordered(m.value) == Ordered(members[j].value)
  }

  ghost predicate AllAlike(a: seq<Member>, b: seq<Member>) {
    forall i :: 0 <= i < |a| ==> Alike(a[i], b)
  }

  lemma {:induction false} OrderedIsSame(v: Json, w: Json)
    requires DistinctKeys(v) && DistinctKeys(w)
    ensures Ordered(v) == Ordered(w) <==> Same(v, w)
    decreases v
  {
    if v.Arr? && w.Arr? {
      if |v.items| == |w.items| {
        forall i | 0 <= i < |v.items|
          ensures Ordered(v.items[i]) == Ordered(w.items[i]) <==> Same(v.items[i], w.items[i])
        {
          OrderedIsSame(v.items[i], w.items[i]);
        }
        OrderedItemsAgree(v.items, w.items);
      }
    } else if v.Obj? && w.Obj? {
      forall i | 0 <= i < |v.members|
        ensures Alike(v.members[i], w.members) <==> SameIn(v.members[i], w.members)
      {
        AlikeIsSame(v.members[i], w.members);
      }
      ObjectsAgree(v.members, w.members);
    }
  }

  lemma {:induction false} AlikeIsSame(m: Member, members: seq<Member>)
    requires DistinctKeys(m.value) && forall j :: 0 <= j < |members| ==> DistinctKeys(members[j].value)
    ensures Alike(m, members) <==> SameIn(m, members)
    decreases m
  {
    forall j | 0 <= j < |members|
      ensures Ordered(m.value) == Ordered(members[j].value) <==> Same(m.value, members[j].value)
    {
      OrderedIsSame(m.value, members[j].value);
    }
  }

  lemma OrderedItemsAgree(a: seq<Json>, b: seq<Json>)
    requires |a| == |b|
    ensures OrderedItems(a) == OrderedItems(b) <==> forall i :: 0 <= i < |a| ==> Ordered(a[i]) == Ordered(b[i])
  {
  }

  lemma AlikeAt(a: seq<Member>, b: seq<Member>, i: nat, j: nat)
    requires i < |a| && j < |b| && OrderedMembers(a)[i] == OrderedMembers(b)[j]
    ensures Alike(a[i], b)
  {
  }

  /** Members have their likes on the other side exactly when their ordered forms are there. */
  lemma MembersAlike(a: seq<Member>, b: seq<Member>)
    ensures AllAlike(a, b) <==> Contained(OrderedMembers(a), OrderedMembers(b))
  {
    var x, y := OrderedMembers(a), OrderedMembers(b);
    if AllAlike(a, b) {
      forall m | m in x
        ensures m in y
      {
        var i :| 0 <= i < |a| && x[i] == m;
        assert Alike(a[i], b);
        var j :| 0 <= j < |b| && a[i].key == b[j].key && Ordered(a[i].value) == Ordered(b[j].value);
        assert y[j] == m;
      }
    }
    if Contained(x, y) {
      forall i | 0 <= i < |a|
        ensures Alike(a[i], b)
      {
        assert x[i] in y;
        var j :| 0 <= j < |b| && y[j] == x[i];
        AlikeAt(a, b, i, j);
      }
    }
  }

  /** Objects are ordered alike exactly when each member of one has its like in the other. */
  lemma ObjectsAgree(a: seq<Member>, b: seq<Member>)
    requires KeysDiffer(a) && KeysDiffer(b)
    ensures Ordered(Obj(a)) == Ordered(Obj(b)) <==> |a| == |b| && AllAlike(a, b)
  {
    OrderedKeepsDistinct(a);
    OrderedKeepsDistinct(b);
    SortsAgree(OrderedMembers(a), OrderedMembers(b));
    MembersAlike(a, b);
  }

  lemma OrderedKeepsDistinct(a: seq<Member>)
    requires KeysDiffer(a)
    ensures KeysDiffer(OrderedMembers(a))
  {
  }

  /** Distinct members sort to the same sequence exactly when they are the same members. */
  lemma SortsAgree(a: seq<Member>, b: seq<Member>)
    requires KeysDiffer(a) && KeysDiffer(b)
    ensures Sort(a, ByKey) == Sort(b, ByKey) <==> |a| == |b| && Contained(a, b)
  {
    if Sort(a, ByKey) == Sort(b, ByKey) {
      assert multiset(a) == multiset(Sort(a, ByKey)) == multiset(b);
      SameElements(a, b);
    }
    if |a| == |b| && Contained(a, b) {
      SameMembers(a, b);
      PermutationsSortAlike(a, b);
    }
  }

  lemma PermutationsSortAlike(a: seq<Member>, b: seq<Member>)
    requires multiset(a) == multiset(b) && KeysDiffer(a)
    ensures Sort(a, ByKey) == Sort(b, ByKey)
  {
    ByKeyOrders();
    SortSorts(a, ByKey);
    SortSorts(b, ByKey);
    forall m, n | m in Sort(a, ByKey) && n in Sort(a, ByKey) && ByKey(m, n) && ByKey(n, m)
      ensures m == n
    {
      UpToTotal(m.key, n.key);
      var i :| 0 <= i < |a| && a[i] == m;
      var j :| 0 <= j < |a| && a[j] == n;
    }
    SortedIsUnique(Sort(a, ByKey), Sort(b, ByKey), ByKey);
  }

  /** Two values have the same canonical text exactly when they differ at most in the order of object keys. */
  lemma CanonicalIsExact(v: Json, w: Json)
    requires DistinctKeys(v) && DistinctKeys(w)
    ensures Canonical(v) == Canonical(w) <==> Same(v, w)
  {
    OrderedIsSame(v, w);
    if Canonical(v) == Canonical(w) {
      assert Print(Ordered(v)) + [] == Print(Ordered(w)) + [];
      PrintUnique(Ordered(v), Ordered(w), [], []);
    }
  }
}
