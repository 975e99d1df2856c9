/**
 * Private funding: withdraw and burn once, then wait for Relay to deliver. The cursor
 * record in browser storage makes a burn resumable; every call may stop at any await,
 * and any storage write may be kept, ignored or refused.
 */
module Funding {
  import opened Wrappers
  import opened Numerals
  import opened Requests
  import opened RelayQuotes

  // ----- Storage -----

  const SCOPE_LIMIT := 0x1_0000_0000_0000_0000_0000_0000_0000_0000_0000_0000_0000_0000_0000_0000_0000_0000

  /** The 32-byte hash of an identity signature. */
  type Scope = n: nat | n < SCOPE_LIMIT

  /** The records of one transport: a cursor per recovery scope, a legacy record per wallet, a write probe. */
  datatype Key = CursorOf(scope: Scope) | LegacyOf(wallet: Address) | Probe

  function KeyText(prefix: string, key: Key): string {
    match key
    case CursorOf(scope) => prefix + (":v2:0x" + HexWord(scope, 64))
    case LegacyOf(wallet) => prefix + (":0x" + HexWord(wallet, 40))
    case Probe => prefix + ":probe"
  }

  /** Different records have different storage keys. */
  lemma KeyTextInjective(prefix: string, a: Key, b: Key)
    requires KeyText(prefix, a) == KeyText(prefix, b)
    ensures a == b
  {
    var x, y := KeyText(prefix, a)[|prefix|..], KeyText(prefix, b)[|prefix|..];
    assert x[1] == (match a case CursorOf(_) => 'v' case LegacyOf(_) => '0' case Probe => 'p');
    assert y[1] == (match b case CursorOf(_) => 'v' case LegacyOf(_) => '0' case Probe => 'p');
    match a
    case CursorOf(scope) =>
      DropPrefix(prefix, ":v2:0x" + HexWord(scope, 64), ":v2:0x" + HexWord(b.scope, 64));
      DropPrefix(":v2:0x", HexWord(scope, 64), HexWord(b.scope, 64));
      ScopeLimit();
      HexWordRoundTrip(scope, 64);
      HexWordRoundTrip(b.scope, 64);
    case LegacyOf(wallet) =>
      DropPrefix(prefix, ":0x" + HexWord(wallet, 40), ":0x" + HexWord(b.wallet, 40));
      DropPrefix(":0x", HexWord(wallet, 40), HexWord(b.wallet, 40));
      AddressLimit();
      HexWordRoundTrip(wallet, 40);
      HexWordRoundTrip(b.wallet, 40);
    case Probe =>
  }

  lemma ScopeLimit()
    ensures Power(Hex, 64) == SCOPE_LIMIT
  {
    AddressLimit();
    EightMoreNibbles(40);
    EightMoreNibbles(48);
    EightMoreNibbles(56);
  }

  /** A cursor record as it is read back; amounts are what BigInt reads from their text. */
  datatype CursorRecord = CursorRecord(
    version: Field<int>,
    recoveryScope: Field<Scope>,
    requestId: Field<string>,
    burnTxHash: Field<string>,
    amount: Field<int>,
    outputAmount: Field<int>,
    minimumOutputAmount: Field<int>,
    depositAddress: Field<Address>,
    sessionAccount: Field<Address>,
    sessionOwner: Field<Address>,
    accountIndex: Field<int>,
    channel: Field<string>,
    commitmentH: Field<int>,
    createdAt: Field<int>)

  const EMPTY_RECORD := CursorRecord(Missing, Missing, Missing, Missing, Missing, Missing, Missing,
                                     Missing, Missing, Missing, Missing, Missing, Missing, Missing)

  datatype Item = Blank | NotJson | Digits(value: int) | Record(record: CursorRecord)

  type Items = map<Key, Item>

  function Parse(item: Item): Option<CursorRecord> {
    match item
    case Record(record) => Some(record)
    case Digits(_) => Some(EMPTY_RECORD)
    case _ => None
  }

  /** Whether the scope has a stored cursor, readable or not. */
  predicate Live(items: Items, scope: Scope) {
    CursorOf(scope) in items && !items[CursorOf(scope)].Blank?
  }

  predicate IsHexText(s: string) {
    |s| >= 3 && s[..2] == "0x" && AllHex(s[2..])
  }

  predicate Complete(r: CursorRecord) {
    && r.requestId.Is? && r.burnTxHash.Is? && r.amount.Is? && r.outputAmount.Is? && r.minimumOutputAmount.Is?
    && r.depositAddress.Is? && r.sessionAccount.Is? && r.sessionOwner.Is? && r.accountIndex.Is?
    && r.channel.Is? && r.commitmentH.Is?
  }

  predicate Legible(r: CursorRecord, scope: Scope) {
    && Complete(r)
    && r.version == Is(2) && r.recoveryScope == Is(scope)
    && IsRequestId(r.requestId.value)
    && IsHexText(r.burnTxHash.value)
    && r.channel.value != ""
    && 0 <= r.accountIndex.value <= MAX_SAFE_INTEGER
  }

  /** The stored cursor of the scope, when there is a legible one. */
  predicate Resumable(items: Items, scope: Scope) {
    Live(items, scope) && items[CursorOf(scope)].Record? && Legible(items[CursorOf(scope)].record, scope)
  }

  // ----- One call -----

  datatype FundingArgs = FundingArgs(
    scope: Scope,
    wallet: Address,
    account: Address,
    owner: Address,
    accountIndex: nat,
    channel: string,
    amount: int,
    staging: Address)

  /** What a storage write does: keeps the value, silently ignores it, or throws (or the tab is gone). */
  datatype Fate = Kept | Ignored | Refused

  datatype BurnAnswer = NotBurned | BurnedUnseen | BurnSeen(hash: string, commitment: nat)

  datatype Delivery = Delivery(status: string, destinationTxHash: Option<string>)

  /** Everything the outside answers; None also stands for a call that never returns. */
  datatype Answers = Answers(
    migration: Fate,
    legacyRemoved: bool,
    probe: Fate,
    maxFee: Option<int>,
    fundingBody: Option<QuoteBody>,
    returnBody: Option<QuoteBody>,
    burn: BurnAnswer,
    save: Fate,
    delivery: Option<Delivery>,
    cleared: bool,
    nowMs: int)

  datatype FundResult = FundResult(
    burnTxHash: string,
    accountIndex: int,
    eoaAddress: Address,
    depositWallet: Address,
    commitmentH: int,
    forwardTxHash: string,
    amountDelivered: int,
    minimumAmountDelivered: int,
    relayRequestId: string,
    relayStatus: string,
    channel: string)

  datatype FundingError =
    | LegacyCorrupt
    | CursorCorrupt
    | OtherAccountUnfinished
    | StorageNotWritable
    | FeeConsumesAmount
    | Relay(error: RelayError)
    | RecoveryUnavailable
    | RecoveryTooSmall
    | NotPersisted
    | Stopped

  datatype BurnOrder = BurnOrder(
    args: FundingArgs,
    maxFee: int,
    destination: Address,
    quote: RelayQuote,
    recovery: RelayQuote)

  datatype Event =
    | Migrated(scope: Scope, record: CursorRecord)
    | LegacyRemoved(wallet: Address)
    | Probed
    | Burned(scope: Scope, order: BurnOrder)
    | Saved(scope: Scope, record: CursorRecord)
    | Delivered(requestId: string)
    | Cleared(scope: Scope, record: CursorRecord)
    | Discarded(scope: Scope, item: Item)

  function Apply(items: Items, e: Event): Items {
    match e
    case Migrated(scope, record) => items[CursorOf(scope) := Record(record)]
    case LegacyRemoved(wallet) => items - {LegacyOf(wallet)}
    case Probed => items - {Probe}
    case Saved(scope, record) => items[CursorOf(scope) := Record(record)]
    case Cleared(scope, _) => items - {CursorOf(scope)}
    case Discarded(scope, _) => items - {CursorOf(scope)}
    case _ => items
  }

  function Applied(items: Items, log: seq<Event>): Items {
    if log == [] then items else Apply(Applied(items, log[..|log| - 1]), log[|log| - 1])
  }

  const DEFAULT_FEE_BUFFER := 500_000

  /** The Relay client a transport is given, and the buffer the final private merge needs. */
  datatype Terms = Terms(relay: Quoter, feeBuffer: nat)

  /** A burn is safe: it pays a validated quote's deposit address, and the way back is worth taking. */
  ghost predicate SafeOrder(o: BurnOrder, terms: Terms) {
    var a := o.args;
    && 0 <= o.maxFee < a.amount
    && o.destination == o.quote.depositAddress
    && QuotedFor(terms.relay, FundingQuoteRequest(a.owner, a.account, a.owner, a.amount - o.maxFee), o.quote)
    && QuotedFor(terms.relay, ReturnQuoteRequest(a.account, a.staging, a.owner, o.quote.minimumOutputAmount, true),
                 o.recovery)
    && o.recovery.minimumOutputAmount > terms.feeBuffer
  }

  function SavedRecord(o: BurnOrder, hash: string, commitment: nat, nowMs: int): CursorRecord {
    CursorRecord(Is(2), Is(o.args.scope), Is(o.quote.requestId), Is(hash), Is(o.args.amount), Is(o.quote.outputAmount),
                 Is(o.quote.minimumOutputAmount), Is(o.quote.depositAddress), Is(o.args.account), Is(o.args.owner),
                 Is(o.args.accountIndex), Is(o.args.channel), Is(commitment), Is(nowMs))
  }

  /** What may happen next, given the records and the event just before it. */
  ghost predicate Allowed(items: Items, previous: Option<Event>, e: Event, terms: Terms) {
    match e
    case Migrated(scope, record) => !Live(items, scope) && record.version == Is(2) && record.recoveryScope == Is(scope)
    case Burned(scope, order) => !Live(items, scope) && order.args.scope == scope && SafeOrder(order, terms)
    case Saved(scope, record) =>
      && previous.Some? && previous.value.Burned? && previous.value.scope == scope
      && exists hash, commitment, nowMs :: record == SavedRecord(previous.value.order, hash, commitment, nowMs)
    case Cleared(scope, record) =>
      && record.requestId.Is? && previous == Some(Delivered(record.requestId.value))
      && CursorOf(scope) in items && items[CursorOf(scope)] == Record(record)
    case Discarded(scope, item) =>
      Live(items, scope) && items[CursorOf(scope)] == item && !Resumable(items, scope)
    case _ => true
  }

  function Last(log: seq<Event>): Option<Event> {
    if log == [] then None else Some(log[|log| - 1])
  }

  datatype Kind = Burns | Saves | Migrations | Clears | Discards

  predicate OfKind(e: Event, kind: Kind, scope: Scope) {
    match e
    case Burned(s, _) => kind.Burns? && s == scope
    case Saved(s, _) => kind.Saves? && s == scope
    case Migrated(s, _) => kind.Migrations? && s == scope
    case Cleared(s, _) => kind.Clears? && s == scope
    case Discarded(s, _) => kind.Discards? && s == scope
    case _ => false
  }

  function Count(log: seq<Event>, kind: Kind, scope: Scope): nat {
    if log == [] then 0
    else Count(log[..|log| - 1], kind, scope) + if OfKind(log[|log| - 1], kind, scope) then 1 else 0
  }

  /** Burns of the scope whose record was not saved. */
  function Unsaved(log: seq<Event>, scope: Scope): int {
    Count(log, Burns, scope) - Count(log, Saves, scope)
  }

  ghost predicate GoodLog(items: Items, log: seq<Event>, terms: Terms)
    decreases |log|
  {
    log == [] ||
    var front := log[..|log| - 1];
    GoodLog(items, front, terms) && Allowed(Applied(items, front), Last(front), log[|log| - 1], terms)
  }

  lemma Extend(items: Items, log: seq<Event>, e: Event, terms: Terms)
    ensures Applied(items, log + [e]) == Apply(Applied(items, log), e)
    ensures GoodLog(items, log, terms) && Allowed(Applied(items, log), Last(log), e, terms)
            ==> GoodLog(items, log + [e], terms)
    ensures Last(log + [e]) == Some(e)
    ensures forall kind, scope ::
              Count(log + [e], kind, scope) == Count(log, kind, scope) + if OfKind(e, kind, scope) then 1 else 0
  {
  }

  /** The cursor is for the session that asks. */
  predicate Belongs(c: CursorRecord, args: FundingArgs) {
    c.sessionAccount == Is(args.account) && c.accountIndex == Is(args.accountIndex)
  }

  function CursorResult(c: CursorRecord, d: Delivery): FundResult
    requires Complete(c)
  {
    FundResult(c.burnTxHash.value, c.accountIndex.value, c.sessionOwner.value, c.sessionAccount.value,
               c.commitmentH.value, d.destinationTxHash.GetOr(c.requestId.value), c.outputAmount.value,
               c.minimumOutputAmount.value, c.requestId.value, d.status, c.channel.value)
  }

  /** One quote, if the answer arrives and validates. */
  function Ask(terms: Terms, request: QuoteRequest, body: Option<QuoteBody>): (r: Result<RelayQuote, FundingError>)
    ensures r.Success? ==> QuotedFor(terms.relay, request, r.value)
  {
    if body.None? then Failure(Stopped)
    else
      var quote := terms.relay(request, body.value);
      if quote.Failure? then Failure(Relay(quote.error)) else Success(quote.value)
  }

  /** The quotes behind a burn, checked before any money moves. */
  function Prepare(terms: Terms, args: FundingArgs, answers: Answers): (r: Result<BurnOrder, FundingError>)
    ensures r.Success? ==> r.value.args == args && SafeOrder(r.value, terms)
  {
    if answers.maxFee.None? then Failure(Stopped)
    else if !(0 <= answers.maxFee.value < args.amount) then Failure(FeeConsumesAmount)
    else
      var maxFee := answers.maxFee.value;
      var quote :- Ask(terms, FundingQuoteRequest(args.owner, args.account, args.owner, args.amount - maxFee),
                       answers.fundingBody);
      var reverse := ReturnQuoteRequest(args.account, args.staging, args.owner, quote.minimumOutputAmount, true);
      var recovery := Ask(terms, reverse, answers.returnBody);
      if recovery.Failure? then Failure(RecoveryUnavailable)
      else if recovery.value.minimumOutputAmount <= terms.feeBuffer then Failure(RecoveryTooSmall)
      else Success(BurnOrder(args, maxFee, quote.depositAddress, quote, recovery.value))
  }

  /** The record that a burn saves, or why there is none. */
  function BurnResult(terms: Terms, args: FundingArgs, answers: Answers): (r: Result<CursorRecord, FundingError>)
    ensures r.Success? ==>
              && Prepare(terms, args, answers).Success? && answers.burn.BurnSeen?
              && r.value == SavedRecord(Prepare(terms, args, answers).value, answers.burn.hash, answers.burn.commitment,
                                        answers.nowMs)
  {
    if !answers.probe.Kept? then Failure(StorageNotWritable)
    else
      var order :- Prepare(terms, args, answers);
      if !answers.burn.BurnSeen? then Failure(Stopped)
      else if !answers.save.Kept? then Failure(NotPersisted)
      else Success(SavedRecord(order, answers.burn.hash, answers.burn.commitment, answers.nowMs))
  }

  function FinishResult(record: CursorRecord, answers: Answers): Result<FundResult, FundingError>
    requires Complete(record)
  {
    if answers.delivery.Some? && answers.cleared then Success(CursorResult(record, answers.delivery.value))
    else Failure(Stopped)
  }

  function SlotResult(terms: Terms, items: Items, args: FundingArgs, answers: Answers)
    : Result<FundResult, FundingError>
  {
    if !Live(items, args.scope) then
      var record :- BurnResult(terms, args, answers);
      FinishResult(record, answers)
    else if !Resumable(items, args.scope) then Failure(CursorCorrupt)
    else if !Belongs(items[CursorOf(args.scope)].record, args) then Failure(OtherAccountUnfinished)
    else FinishResult(items[CursorOf(args.scope)].record, answers)
  }

  // ----- What one call does to the records -----

  function MovedRecord(record: CursorRecord, scope: Scope): CursorRecord {
    record.(version := Is(2), recoveryScope := Is(scope))
  }

  predicate HasLegacy(items: Items, wallet: Address) {
    LegacyOf(wallet) in items && !items[LegacyOf(wallet)].Blank?
  }

  /** How the migration ends: nothing to move, or moved (or superseded) and removed, or why not. */
  function MigrationResult(items: Items, args: FundingArgs, answers: Answers): Result<(), FundingError> {
    if !HasLegacy(items, args.wallet) then Success(())
    else
      var moved := Parse(items[LegacyOf(args.wallet)]).Some? && !answers.migration.Refused?;
      var _ :- Need(Live(items, args.scope) || moved, LegacyCorrupt);
      Need(answers.legacyRemoved, Stopped)
  }

  /** The record moved into an empty slot, if it parses and the write is kept. */
  function MoveEvents(items: Items, args: FundingArgs, answers: Answers): seq<Event>
    requires HasLegacy(items, args.wallet)
  {
    var parsed := Parse(items[LegacyOf(args.wallet)]);
    if Live(items, args.scope) || parsed.None? || !answers.migration.Kept? then []
    else [Migrated(args.scope, MovedRecord(parsed.value, args.scope))]
  }

  function MigrationEvents(items: Items, args: FundingArgs, answers: Answers): seq<Event> {
    if !HasLegacy(items, args.wallet) then []
    else MoveEvents(items, args, answers)
         + if MigrationResult(items, args, answers).Success? then [LegacyRemoved(args.wallet)] else []
  }

  function FinishEvents(scope: Scope, record: CursorRecord, answers: Answers): seq<Event>
    requires record.requestId.Is?
  {
    if answers.delivery.None? then []
    else [Delivered(record.requestId.value)] + if answers.cleared then [Cleared(scope, record)] else []
  }

  function BurnEvents(terms: Terms, args: FundingArgs, answers: Answers): seq<Event> {
    var saved := BurnResult(terms, args, answers);
    if !answers.probe.Kept? then []
    else if Prepare(terms, args, answers).Failure? || answers.burn.NotBurned? then [Probed]
    else [Probed, Burned(args.scope, Prepare(terms, args, answers).value)]
         + if saved.Success? then [Saved(args.scope, saved.value)] else []
  }

  /** After the migration: burn for an empty slot, discard an unreadable one, resume a readable one. */
  function SlotEvents(terms: Terms, items: Items, args: FundingArgs, answers: Answers): seq<Event> {
    if !Live(items, args.scope) then
      var saved := BurnResult(terms, args, answers);
      BurnEvents(terms, args, answers)
      + if saved.Success? then FinishEvents(args.scope, saved.value, answers) else []
    else if !Resumable(items, args.scope) then [Discarded(args.scope, items[CursorOf(args.scope)])]
    else if !Belongs(items[CursorOf(args.scope)].record, args) then []
    else FinishEvents(args.scope, items[CursorOf(args.scope)].record, answers)
  }

  /** Everything one funding call does, in order. */
  function CallEvents(terms: Terms, items: Items, args: FundingArgs, answers: Answers): seq<Event> {
    var moved := MigrationEvents(items, args, answers);
    if MigrationResult(items, args, answers).Failure? then moved
    else moved + SlotEvents(terms, Applied(items, moved), args, answers)
  }

  function CallResult(terms: Terms, items: Items, args: FundingArgs, answers: Answers)
    : Result<FundResult, FundingError>
  {
    var _ :- MigrationResult(items, args, answers);
    SlotResult(terms, Applied(items, MigrationEvents(items, args, answers)), args, answers)
  }

  lemma {:induction false} AppliedAppend(items: Items, a: seq<Event>, b: seq<Event>)
    ensures Applied(items, a + b) == Applied(Applied(items, a), b)
    decreases |b|
  {
    if b == [] {
      assert a + b == a;
    } else {
      assert (a + b)[..|a + b| - 1] == a + b[..|b| - 1];
      AppliedAppend(items, a, b[..|b| - 1]);
    }
  }

  lemma AppliedOne(items: Items, e: Event)
    ensures Applied(items, [e]) == Apply(items, e)
  {
    Extend(items, [], e, Terms((_, _) => Failure(AmountNotPositive), 0));
    assert [] + [e] == [e];
  }

  /** The migration fills empty slots only: an existing cursor stays as it is. */
  lemma MigrationKeepsCursor(items: Items, args: FundingArgs, answers: Answers)
    requires Live(items, args.scope)
    ensures var moved := Applied(items, MigrationEvents(items, args, answers));
            CursorOf(args.scope) in moved && moved[CursorOf(args.scope)] == items[CursorOf(args.scope)]
  {
    if HasLegacy(items, args.wallet) {
      assert MoveEvents(items, args, answers) == [];
      AppliedOne(items, LegacyRemoved(args.wallet));
      assert [] + [LegacyRemoved(args.wallet)] == [LegacyRemoved(args.wallet)];
    }
  }

  /** The durable storage of one browser, and (as history) everything funding calls did to it. */
  class FundingStorage {
    const terms: Terms
    var items: Items
    ghost const start: Items
    ghost var history: seq<Event>

    /** The history explains the records, and every event in it was allowed where it happened. */
    ghost predicate Valid()
      reads this
    {
      items == Applied(start, history) && GoodLog(start, history, terms)
    }

    constructor (items: Items, terms: Terms)
      ensures Valid() && history == [] && this.items == this.start == items && this.terms == terms
    {
      this.items := items;
      this.terms := terms;
      this.start := items;
      this.history := [];
    }

    /** Makes one allowed event happen. */
    method Commit(e: Event)
      requires Valid() && Allowed(items, Last(history), e, terms)
      modifies this
      ensures Valid() && history == old(history) + [e]
      ensures items == Apply(old(items), e) == Applied(old(items), [e])
    {
      Extend(start, history, e, terms);
      AppliedOne(items, e);
      items := Apply(items, e);
      history := history + [e];
    }

    /** Moves the wallet's legacy record under the recovery scope; an existing cursor wins. */
    method MigrateLegacyCursor(args: FundingArgs, answers: Answers) returns (r: Result<(), FundingError>)
      requires Valid()
      modifies this
      ensures Valid() && r == MigrationResult(old(items), args, answers)
      ensures history == old(history) + MigrationEvents(old(items), args, answers)
      ensures items == Applied(old(items), MigrationEvents(old(items), args, answers))
    {
      if !HasLegacy(items, args.wallet) {
        return Success(());
      }
      ghost var before, moved, removed := history, MoveEvents(items, args, answers), [LegacyRemoved(args.wallet)];
      var ok := MoveLegacyRecord(args, answers);
      assert moved + [] == moved;
      if !ok {
        return Failure(LegacyCorrupt);
      }
      if !answers.legacyRemoved {
        return Failure(Stopped);
      }
      AppliedAppend(old(items), moved, removed);
      Commit(LegacyRemoved(args.wallet));
      Regroup(before, moved, removed);
      return Success(());
    }

    /** Moves a legacy record into an empty slot; whether the legacy record may now go. */
    method MoveLegacyRecord(args: FundingArgs, answers: Answers) returns (ok: bool)
      requires Valid() && HasLegacy(items, args.wallet)
      modifies this
      ensures Valid()
      ensures ok <==> || Live(old(items), args.scope)
                      || (Parse(old(items)[LegacyOf(args.wallet)]).Some? && !answers.migration.Refused?)
      ensures history == old(history) + MoveEvents(old(items), args, answers)
      ensures items == Applied(old(items), MoveEvents(old(items), args, answers))
    {
      if Live(items, args.scope) {
        return true;
      }
      var parsed := Parse(items[LegacyOf(args.wallet)]);
      if parsed.None? {
        return false;
      }
      if answers.migration.Kept? {
        Commit(Migrated(args.scope, MovedRecord(parsed.value, args.scope)));
      }
      return !answers.migration.Refused?;
    }

    /** The stored cursor; a record that cannot be read is cleared and reported. */
    method ReadCursor(args: FundingArgs) returns (r: Result<Option<CursorRecord>, FundingError>)
      requires Valid()
      modifies this
      ensures Valid()
      ensures r == if !Live(old(items), args.scope) then Success(None)
                   else if !Resumable(old(items), args.scope) then Failure(CursorCorrupt)
                   else Success(Some(old(items)[CursorOf(args.scope)].record))
      ensures r.Success? ==> history == old(history) && items == old(items)
      ensures r.Failure? ==>
                var discarded := [Discarded(args.scope, old(items)[CursorOf(args.scope)])];
                history == old(history) + discarded && items == Applied(old(items), discarded)
    {
      var key := CursorOf(args.scope);
      if !Live(items, args.scope) {
        return Success(None);
      }
      if items[key].Record? && Legible(items[key].record, args.scope) {
        return Success(Some(items[key].record));
      }
      Commit(Discarded(args.scope, items[key]));
      return Failure(CursorCorrupt);
    }

    /** Waits for the delivery of the stored cursor and clears it. */
    method Finish(scope: Scope, answers: Answers, record: CursorRecord) returns (r: Result<FundResult, FundingError>)
      requires Valid() && Complete(record)
      requires CursorOf(scope) in items && items[CursorOf(scope)] == Record(record)
      modifies this
      ensures Valid()
      ensures r == FinishResult(record, answers)
      ensures history == old(history) + FinishEvents(scope, record, answers)
      ensures items == Applied(old(items), FinishEvents(scope, record, answers))
    {
      if answers.delivery.None? {
        return Failure(Stopped);
      }
      var delivered := Delivered(record.requestId.value);
      Commit(delivered);
      if !answers.cleared {
        return Failure(Stopped);
      }
      AppliedAppend(old(items), [delivered], [Cleared(scope, record)]);
      Commit(Cleared(scope, record));
      assert [delivered] + [Cleared(scope, record)] == FinishEvents(scope, record, answers);
      return Success(CursorResult(record, answers.delivery.value));
    }

    /** Burns for a scope without a cursor, and stores the record of this burn that resumes it. */
    method Burn(args: FundingArgs, answers: Answers) returns (r: Result<CursorRecord, FundingError>)
      requires Valid() && !Live(items, args.scope)
      modifies this
      ensures Valid()
      ensures r == BurnResult(terms, args, answers)
      ensures r.Success? ==>
                && CursorOf(args.scope) in items && items[CursorOf(args.scope)] == Record(r.value)
      ensures history == old(history) + BurnEvents(terms, args, answers)
      ensures items == Applied(old(items), BurnEvents(terms, args, answers))
    {
      if !answers.probe.Kept? {
        return Failure(StorageNotWritable);
      }
      Commit(Probed);
      var order :- Prepare(terms, args, answers);
      if answers.burn.NotBurned? {
        return Failure(Stopped);
      }
      AppliedAppend(old(items), [Probed], [Burned(args.scope, order)]);
      Commit(Burned(args.scope, order));
      assert [Probed] + [Burned(args.scope, order)] == [Probed, Burned(args.scope, order)];
      if answers.burn.BurnedUnseen? {
        return Failure(Stopped);
      }
      if !answers.save.Kept? {
        return Failure(NotPersisted);
      }
      var record := SavedRecord(order, answers.burn.hash, answers.burn.commitment, answers.nowMs);
      AppliedAppend(old(items), [Probed, Burned(args.scope, order)], [Saved(args.scope, record)]);
      Commit(Saved(args.scope, record));
      return Success(record);
    }

    /**
     * One funding call: resume the stored cursor, or quote, burn, store the cursor and
     * wait. Its result, its events and so the records it leaves are exactly those its
     * arguments, the records it found and the answers call for.
     */
    method Fund(args: FundingArgs, answers: Answers) returns (r: Result<FundResult, FundingError>)
      requires Valid()
      modifies this
      ensures Valid() && r == CallResult(terms, old(items), args, answers)
      ensures history == old(history) + CallEvents(terms, old(items), args, answers)
      ensures items == Applied(old(items), CallEvents(terms, old(items), args, answers))
    {
      ghost var before, moved := history, MigrationEvents(items, args, answers);
      var migrated := MigrateLegacyCursor(args, answers);
      if migrated.Failure? {
        return Failure(migrated.error);
      }
      ghost var events := SlotEvents(terms, items, args, answers);
      AppliedAppend(old(items), moved, events);
      r := FundSlot(args, answers);
      Regroup(before, moved, events);
    }

    /** The part of a call after the migration. */
    method FundSlot(args: FundingArgs, answers: Answers) returns (r: Result<FundResult, FundingError>)
      requires Valid()
      modifies this
      ensures Valid() && r == SlotResult(terms, old(items), args, answers)
      ensures history == old(history) + SlotEvents(terms, old(items), args, answers)
      ensures items == Applied(old(items), SlotEvents(terms, old(items), args, answers))
    {
      var cursor := ReadCursor(args);
      if cursor.Failure? {
        return Failure(cursor.error);
      }
      if cursor.value.None? {
        r := BurnAndFinish(args, answers);
      } else if !Belongs(cursor.value.value, args) {
        r := Failure(OtherAccountUnfinished);
      } else {
        r := Finish(args.scope, answers, cursor.value.value);
      }
    }

    method BurnAndFinish(args: FundingArgs, answers: Answers) returns (r: Result<FundResult, FundingError>)
      requires Valid() && !Live(items, args.scope)
      modifies this
      ensures Valid() && r == SlotResult(terms, old(items), args, answers)
      ensures history == old(history) + SlotEvents(terms, old(items), args, answers)
      ensures items == Applied(old(items), SlotEvents(terms, old(items), args, answers))
    {
      ghost var before, burned := history, BurnEvents(terms, args, answers);
      var saved := Burn(args, answers);
      if saved.Failure? {
        assert SlotEvents(terms, old(items), args, answers) == burned;
        return Failure(saved.error);
      }
      ghost var finished := FinishEvents(args.scope, saved.value, answers);
      AppliedAppend(old(items), burned, finished);
      r := Finish(args.scope, answers, saved.value);
      Regroup(before, burned, finished);
      assert SlotEvents(terms, old(items), args, answers) == burned + finished;
    }
  }

  lemma Regroup(a: seq<Event>, b: seq<Event>, c: seq<Event>)
    ensures a + b + c == a + (b + c)
  {
  }
}
