/** The canonical text a wallet signs to authorise a direct recovery. */
module WalletMessage {
  import opened Wrappers
  import opened Numerals
  import opened Requests
  import opened Sorting

  const MAX_ACCOUNTS := 20

  datatype MessageError = InvalidChain | InvalidDeadline | AccountCount | AmountNotPositive | DuplicateAccount

  datatype MessageArgs = MessageArgs(
    chainId: int,
    factory: Address,
    recipient: Address,
    accounts: seq<RecoveryEntry>,
    deadline: int)

  /** Fixed-width lower-case hex compares as the numbers do. */
  predicate ByAccount(a: RecoveryEntry, b: RecoveryEntry) {
    a.account <= b.account
  }

  function Join(lines: seq<string>): string {
    if lines == [] then ""
    else if |lines| == 1 then lines[0]
    else lines[0] + ['\n'] + Join(lines[1..])
  }

  function EntryLine(e: RecoveryEntry, upper: Checksum): string {
    AddressText(e.account, upper) + [':'] + DecimalText(e.amount)
  }

  function EntryLines(entries: seq<RecoveryEntry>, upper: Checksum): (lines: seq<string>)
    ensures |lines| == |entries|
    ensures forall i :: 0 <= i < |lines| ==> lines[i] == EntryLine(entries[i], upper)
  {
    seq(|entries|, i requires 0 <= i < |entries| => EntryLine(entries[i], upper))
  }

  const PREAMBLE := [
    "PonsButPrivate direct wallet recovery",
    "",
    "This action publicly links the listed position accounts to your wallet."]

  function Terms(args: MessageArgs, upper: Checksum): seq<string>
    requires args.chainId >= 0 && args.deadline >= 0
  {
    [ "Chain ID: " + DecimalText(args.chainId),
      "Factory: " + AddressText(args.factory, upper),
      "Recipient: " + AddressText(args.recipient, upper),
      "Deadline: " + DecimalText(args.deadline),
      "Accounts:" ]
  }

  function Body(args: MessageArgs, entries: seq<RecoveryEntry>, upper: Checksum): seq<string>
    requires args.chainId >= 0 && args.deadline >= 0
  {
    Terms(args, upper) + EntryLines(entries, upper)
  }

  function WalletRecoveryMessage(args: MessageArgs, upper: Checksum): Result<string, MessageError> {
    if !(0 < args.chainId <= MAX_SAFE_INTEGER) then Failure(InvalidChain)
    else if args.deadline <= 0 then Failure(InvalidDeadline)
    else if args.accounts == [] || |args.accounts| > MAX_ACCOUNTS then Failure(AccountCount)
    else if exists e :: e in args.accounts && e.amount == 0 then Failure(AmountNotPositive)
    else
      var normalized := Sort(args.accounts, ByAccount);
      if !DistinctAccounts(normalized) then Failure(DuplicateAccount)
      else Success(Join(PREAMBLE + Body(args, normalized, upper)))
  }

  // ----- Reading the message back -----

  lemma JoinBreaks(lines: seq<string>)
    requires lines != []
    requires Without(lines[0], '\n')
    ensures |lines| == 1 <==> Without(Join(lines), '\n')
  {
    if |lines| > 1 {
      assert Join(lines)[|lines[0]|] == '\n';
    }
  }

  lemma {:induction false} JoinInjective(a: seq<string>, b: seq<string>)
    requires a != [] && b != []
    requires forall i :: 0 <= i < |a| ==> Without(a[i], '\n')
    requires forall i :: 0 <= i < |b| ==> Without(b[i], '\n')
    requires Join(a) == Join(b)
    ensures a == b
    decreases |a|
  {
    JoinBreaks(a);
    JoinBreaks(b);
    assert a == [a[0]] + a[1..] && b == [b[0]] + b[1..];
    if |a| > 1 {
      CutAtDelimiter(a[0], b[0], '\n', Join(a[1..]), Join(b[1..]));
      JoinInjective(a[1..], b[1..]);
    }
  }

  lemma {:induction false} JoinAppend(a: seq<string>, b: seq<string>)
    requires a != [] && b != []
    ensures Join(a + b) == Join(a) + ['\n'] + Join(b)
    decreases |a|
  {
    assert (a + b)[1..] == a[1..] + b;
    if |a| > 1 {
      JoinAppend(a[1..], b);
      assert Join(a + b) == a[0] + ['\n'] + (Join(a[1..]) + ['\n'] + Join(b));
    } else {
      assert a[1..] + b == b;
    }
  }

  lemma EntryLineInjective(a: RecoveryEntry, b: RecoveryEntry, upper: Checksum)
    requires EntryLine(a, upper) == EntryLine(b, upper)
    ensures a == b
  {
    AddressTextIsHex(a.account, upper);
    AddressTextIsHex(b.account, upper);
    AddressHasNo(a.account, upper);
    AddressHasNo(b.account, upper);
    CutAtDelimiter(AddressText(a.account, upper), AddressText(b.account, upper), ':',
                   DecimalText(a.amount), DecimalText(b.amount));
    DecimalTextInjective(a.amount, b.amount);
  }

  lemma AddressHasNo(a: Address, upper: Checksum)
    ensures Without(AddressText(a, upper), ':') && Without(AddressText(a, upper), '\n')
  {
    var s := AddressText(a, upper);
    AddressTextIsHex(a, upper);
    forall i | 0 <= i < |s|
      ensures s[i] != ':' && s[i] != '\n'
    {
      if i < 2 { assert s[i] == s[..2][i]; } else { assert s[i] == s[2..][i - 2]; }
    }
  }

  lemma TermsHaveNoBreaks(args: MessageArgs, upper: Checksum)
    requires args.chainId > 0 && args.deadline > 0
    ensures forall i :: 0 <= i < |Terms(args, upper)| ==> Without(Terms(args, upper)[i], '\n')
  {
    AddressHasNo(args.factory, upper);
    AddressHasNo(args.recipient, upper);
    DecimalHasNoBreak(args.chainId);
    DecimalHasNoBreak(args.deadline);
    FiveLines(DecimalText(args.chainId), AddressText(args.factory, upper), AddressText(args.recipient, upper),
              DecimalText(args.deadline));
  }

  lemma FiveLines(chain: string, factory: string, recipient: string, deadline: string)
    requires Without(chain, '\n') && Without(factory, '\n') && Without(recipient, '\n') && Without(deadline, '\n')
    ensures var lines := ["Chain ID: " + chain, "Factory: " + factory, "Recipient: " + recipient,
                          "Deadline: " + deadline, "Accounts:"];
            forall i :: 0 <= i < |lines| ==> Without(lines[i], '\n')
  {
  }

  lemma DecimalHasNoBreak(n: nat)
    ensures Without(DecimalText(n), '\n')
  {
  }

  lemma EntriesHaveNoBreaks(entries: seq<RecoveryEntry>, upper: Checksum)
    ensures forall i :: 0 <= i < |entries| ==> Without(EntryLines(entries, upper)[i], '\n')
  {
    forall i | 0 <= i < |entries|
      ensures Without(EntryLine(entries[i], upper), '\n')
    {
      AddressHasNo(entries[i].account, upper);
    }
  }

  lemma BodyHasNoBreaks(args: MessageArgs, entries: seq<RecoveryEntry>, upper: Checksum)
    requires args.chainId > 0 && args.deadline > 0
    ensures forall i :: 0 <= i < |Body(args, entries, upper)| ==> Without(Body(args, entries, upper)[i], '\n')
  {
    TermsHaveNoBreaks(args, upper);
    EntriesHaveNoBreaks(entries, upper);
    AppendKeeps(Terms(args, upper), EntryLines(entries, upper));
  }

  lemma AppendKeeps(a: seq<string>, b: seq<string>)
    requires forall i :: 0 <= i < |a| ==> Without(a[i], '\n')
    requires forall i :: 0 <= i < |b| ==> Without(b[i], '\n')
    ensures forall i :: 0 <= i < |a + b| ==> Without((a + b)[i], '\n')
  {
  }

  lemma SameLinesSameEntries(a: seq<RecoveryEntry>, b: seq<RecoveryEntry>, upper: Checksum)
    requires EntryLines(a, upper) == EntryLines(b, upper)
    ensures a == b
  {
    assert |a| == |EntryLines(a, upper)| == |b|;
    forall i | 0 <= i < |a|
      ensures a[i] == b[i]
    {
      EntryLineInjective(a[i], b[i], upper);
    }
  }

  /** The order in which the accounts are given does not matter. */
  lemma SortedEntriesAgree(a: seq<RecoveryEntry>, b: seq<RecoveryEntry>)
    requires multiset(a) == multiset(b)
    requires DistinctAccounts(Sort(a, ByAccount))
    ensures Sort(a, ByAccount) == Sort(b, ByAccount)
  {
    SortSorts(a, ByAccount);
    SortSorts(b, ByAccount);
    SortedIsUnique(Sort(a, ByAccount), Sort(b, ByAccount), ByAccount);
  }

  /** What a message says: everything except the order of the accounts. */
  ghost predicate SameAuthorization(a: MessageArgs, b: MessageArgs) {
    && a.chainId == b.chainId
    && a.factory == b.factory
    && a.recipient == b.recipient
    && a.deadline == b.deadline
    && multiset(a.accounts) == multiset(b.accounts)
  }

  lemma SameTerms(a: MessageArgs, b: MessageArgs, upper: Checksum)
    requires a.chainId > 0 && b.chainId > 0 && a.deadline > 0 && b.deadline > 0
    requires Terms(a, upper) == Terms(b, upper)
    ensures a.chainId == b.chainId && a.factory == b.factory && a.recipient == b.recipient && a.deadline == b.deadline
  {
    var x, y := Terms(a, upper), Terms(b, upper);
    assert x[0] == y[0] && x[1] == y[1] && x[2] == y[2] && x[3] == y[3];
    DropPrefix("Chain ID: ", DecimalText(a.chainId), DecimalText(b.chainId));
    DropPrefix("Factory: ", AddressText(a.factory, upper), AddressText(b.factory, upper));
    DropPrefix("Recipient: ", AddressText(a.recipient, upper), AddressText(b.recipient, upper));
    DropPrefix("Deadline: ", DecimalText(a.deadline), DecimalText(b.deadline));
    DecimalTextInjective(a.chainId, b.chainId);
    DecimalTextInjective(a.deadline, b.deadline);
    AddressTextInjective(a.factory, b.factory, upper);
    AddressTextInjective(a.recipient, b.recipient, upper);
  }

  lemma SameBodySameAuthorization(
    a: MessageArgs, b: MessageArgs, x: seq<RecoveryEntry>, y: seq<RecoveryEntry>, upper: Checksum)
    requires a.chainId > 0 && b.chainId > 0 && a.deadline > 0 && b.deadline > 0
    requires Join(PREAMBLE + Body(a, x, upper)) == Join(PREAMBLE + Body(b, y, upper))
    ensures a.chainId == b.chainId && a.factory == b.factory && a.recipient == b.recipient && a.deadline == b.deadline
    ensures x == y
  {
    var bodyA, bodyB := Body(a, x, upper), Body(b, y, upper);
    JoinAppend(PREAMBLE, bodyA);
    JoinAppend(PREAMBLE, bodyB);
    DropPrefix(Join(PREAMBLE) + ['\n'], Join(bodyA), Join(bodyB));
    BodyHasNoBreaks(a, x, upper);
    BodyHasNoBreaks(b, y, upper);
    JoinInjective(bodyA, bodyB);
    assert Terms(a, upper) == bodyA[..5] == bodyB[..5] == Terms(b, upper);
    assert EntryLines(x, upper) == bodyA[5..] == bodyB[5..] == EntryLines(y, upper);
    SameLinesSameEntries(x, y, upper);
    SameTerms(a, b, upper);
  }

  /** What a written message consists of. */
  lemma MessageParts(a: MessageArgs, upper: Checksum)
    requires WalletRecoveryMessage(a, upper).Success?
    ensures a.chainId > 0 && a.deadline > 0 && DistinctAccounts(Sort(a.accounts, ByAccount))
    ensures WalletRecoveryMessage(a, upper).value == Join(PREAMBLE + Body(a, Sort(a.accounts, ByAccount), upper))
  {
  }

  lemma SameTextSameAuthorization(
    a: MessageArgs, b: MessageArgs, x: seq<RecoveryEntry>, y: seq<RecoveryEntry>, upper: Checksum)
    requires a.chainId > 0 && b.chainId > 0 && a.deadline > 0 && b.deadline > 0
    requires multiset(x) == multiset(a.accounts) && multiset(y) == multiset(b.accounts)
    requires SameAuthorization(a, b) ==> x == y
    ensures Join(PREAMBLE + Body(a, x, upper)) == Join(PREAMBLE + Body(b, y, upper)) <==> SameAuthorization(a, b)
  {
    if Join(PREAMBLE + Body(a, x, upper)) == Join(PREAMBLE + Body(b, y, upper)) {
      SameBodySameAuthorization(a, b, x, y, upper);
    }
  }

  /**
   * Two authorisations have the same message exactly when they name the same chain,
   * factory, recipient and deadline and the same amount for every account.
   */
  lemma MessageIsExact(a: MessageArgs, b: MessageArgs, upper: Checksum)
    requires WalletRecoveryMessage(a, upper).Success? && WalletRecoveryMessage(b, upper).Success?
    ensures WalletRecoveryMessage(a, upper) == WalletRecoveryMessage(b, upper) <==> SameAuthorization(a, b)
  {
    MessageParts(a, upper);
    MessageParts(b, upper);
    var x, y := Sort(a.accounts, ByAccount), Sort(b.accounts, ByAccount);
    if SameAuthorization(a, b) {
      SortedEntriesAgree(a.accounts, b.accounts);
    }
    SameTextSameAuthorization(a, b, x, y, upper);
  }
}
