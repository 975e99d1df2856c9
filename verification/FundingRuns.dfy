/** What every history of funding calls, failures and lost tabs keeps. */
module FundingRuns {
  import opened Wrappers
  import opened Numerals
  import opened Requests
  import opened RelayQuotes
  import opened Funding

  lemma {:induction false} GoodPrefix(items: Items, log: seq<Event>, n: nat, terms: Terms)
    requires GoodLog(items, log, terms) && n <= |log|
    ensures GoodLog(items, log[..n], terms)
    decreases |log|
  {
    if n < |log| {
      var front := log[..|log| - 1];
      GoodPrefix(items, front, n, terms);
      assert front[..n] == log[..n];
    } else {
      assert log[..n] == log;
    }
  }

  /** Every event of a history was allowed where it happened. */
  lemma EventWasAllowed(items: Items, log: seq<Event>, i: nat, terms: Terms)
    requires GoodLog(items, log, terms) && i < |log|
    ensures Allowed(Applied(items, log[..i]), Last(log[..i]), log[i], terms)
  {
    var prefix := log[..i + 1];
    GoodPrefix(items, log, i + 1, terms);
    assert prefix[..|prefix| - 1] == log[..i];
  }

  /**
   * No burn happens while a cursor for its scope is stored, and every burn pays the deposit
   * address of a validated quote, whose exact transfer calldata the quote carried, when the
   * reverse quote for its protected output delivers more than the fee buffer. A cursor is
   * cleared only right after Relay reported the success of its own transfer.
   */
  lemma EventsAreSafe(items: Items, log: seq<Event>, i: nat, terms: Terms)
    requires terms.relay == QuoteStrictDepositRoute
    requires GoodLog(items, log, terms) && i < |log|
    ensures log[i].Burned? ==>
              var o := log[i].order;
              && !Live(Applied(items, log[..i]), log[i].scope)
              && o.destination == o.quote.depositAddress
              && Lower(o.quote.deposit.data) == EncodeTransfer(Transfer(o.destination, o.quote.inputAmount))
              && o.quote.inputAmount == o.args.amount - o.maxFee > 0
              && o.recovery.inputAmount == o.quote.minimumOutputAmount
              && o.recovery.minimumOutputAmount > terms.feeBuffer
              && o.quote.deposit.chainId == ARBITRUM_CHAIN_ID && o.quote.deposit.to == ARBITRUM_NATIVE_USDC
              && o.quote.deposit.from == o.args.owner
              && QuotedFor(terms.relay, ForwardRequest(o.args, o.maxFee), o.quote)
              && QuotedFor(terms.relay, BackwardRequest(o.args, o.quote.minimumOutputAmount), o.recovery)
    ensures log[i].Cleared? ==>
              i > 0 && log[i].record.requestId.Is? && log[i - 1] == Delivered(log[i].record.requestId.value)
  {
    EventWasAllowed(items, log, i, terms);
    if log[i].Burned? {
      DepositSpends(log[i].order, terms);
      RecoverySpends(log[i].order, terms);
    }
  }

  /** From the owner's USDC on Arbitrum to USDG for the session's account, refunded to the owner. */
  function ForwardRequest(a: FundingArgs, maxFee: int): QuoteRequest
    requires maxFee <= a.amount
  {
    QuoteRequest(a.owner, ARBITRUM_CHAIN_ID, ROBINHOOD_CHAIN_ID, ARBITRUM_NATIVE_USDC, ROBINHOOD_USDG,
                 a.amount - maxFee, a.account, a.owner, true, true, 100, false)
  }

  /** From the account's USDG back to USDC for the staging account, gas included, refunded to the owner. */
  function BackwardRequest(a: FundingArgs, amount: nat): QuoteRequest {
    QuoteRequest(a.account, ROBINHOOD_CHAIN_ID, ARBITRUM_CHAIN_ID, ROBINHOOD_USDG, ARBITRUM_NATIVE_USDC,
                 amount, a.staging, a.owner, true, true, 100, true)
  }

  lemma DepositSpends(o: BurnOrder, terms: Terms)
    requires terms.relay == QuoteStrictDepositRoute && SafeOrder(o, terms)
    ensures Lower(o.quote.deposit.data) == EncodeTransfer(Transfer(o.destination, o.quote.inputAmount))
    ensures o.quote.inputAmount == o.args.amount - o.maxFee > 0
    ensures o.quote.deposit.chainId == ARBITRUM_CHAIN_ID && o.quote.deposit.to == ARBITRUM_NATIVE_USDC
    ensures o.quote.deposit.from == o.args.owner
    ensures IsRequestId(o.quote.requestId)
  {
    var a := o.args;
    QuoteSpends(terms.relay, FundingQuoteRequest(a.owner, a.account, a.owner, a.amount - o.maxFee), o.quote);
  }

  lemma RecoverySpends(o: BurnOrder, terms: Terms)
    requires terms.relay == QuoteStrictDepositRoute && SafeOrder(o, terms)
    ensures o.recovery.inputAmount == o.quote.minimumOutputAmount
  {
    var a := o.args;
    var reverse := ReturnQuoteRequest(a.account, a.staging, a.owner, o.quote.minimumOutputAmount, true);
    QuoteSpends(terms.relay, reverse, o.recovery);
  }

  function Stored(items: Items, scope: Scope): nat {
    if Live(items, scope) then 1 else 0
  }

  /** A record is saved right after its burn, so into an empty slot. */
  lemma SavesFollowBurns(items: Items, log: seq<Event>, terms: Terms)
    requires GoodLog(items, log, terms) && log != [] && log[|log| - 1].Saved?
    ensures |log| >= 2 && log[|log| - 2].Burned? && log[|log| - 2].scope == log[|log| - 1].scope
    ensures !Live(Applied(items, log[..|log| - 1]), log[|log| - 1].scope)
  {
  }

  lemma {:induction false} UnsavedIsNonNegative(items: Items, log: seq<Event>, scope: Scope, terms: Terms)
    requires GoodLog(items, log, terms)
    ensures Unsaved(log, scope) >= if log != [] && OfKind(log[|log| - 1], Burns, scope) then 1 else 0
    decreases |log|
  {
    if log != [] {
      var front := log[..|log| - 1];
      UnsavedIsNonNegative(items, front, scope, terms);
      if log[|log| - 1].Saved? {
        SavesFollowBurns(items, log, terms);
        assert front[|front| - 1] == log[|log| - 2];
      }
    }
  }

  lemma {:induction false} SlotBalance(items: Items, log: seq<Event>, scope: Scope, terms: Terms)
    requires GoodLog(items, log, terms)
    ensures Stored(items, scope) + Count(log, Saves, scope) + Count(log, Migrations, scope)
            == Stored(Applied(items, log), scope) + Count(log, Clears, scope) + Count(log, Discards, scope)
    decreases |log|
  {
    if log != [] {
      SlotBalance(items, log[..|log| - 1], scope, terms);
      if log[|log| - 1].Saved? {
        SavesFollowBurns(items, log, terms);
      }
    }
  }

  /**
   * Conservation over every history: what was burned or migrated has been cleared after
   * delivery, or is still stored, or its record could not be saved, or it was discarded as
   * corrupt. Starting from an empty slot, clears account for all but the stored burn exactly
   * when no record went unsaved or was discarded.
   */
  lemma BurnsAreConserved(items: Items, log: seq<Event>, scope: Scope, terms: Terms)
    requires GoodLog(items, log, terms)
    ensures var final := Applied(items, log);
            && Unsaved(log, scope) >= 0
            && Stored(items, scope) + Count(log, Burns, scope) + Count(log, Migrations, scope)
               == Stored(final, scope) + Count(log, Clears, scope) + Count(log, Discards, scope) + Unsaved(log, scope)
    ensures !Live(items, scope) && Count(log, Migrations, scope) == 0 ==>
              (Count(log, Burns, scope) - Count(log, Clears, scope) == Stored(Applied(items, log), scope)
               <==> Unsaved(log, scope) == 0 && Count(log, Discards, scope) == 0)
  {
    SlotBalance(items, log, scope, terms);
    UnsavedIsNonNegative(items, log, scope, terms);
  }

  // ----- When a cursor is discarded -----

  /** A saved record reads back exactly when its burn hash is hex, its channel is named and its index is safe. */
  lemma SavedRecordReadsBack(terms: Terms, o: BurnOrder, hash: string, commitment: nat, nowMs: int)
    requires terms.relay == QuoteStrictDepositRoute && SafeOrder(o, terms)
    ensures Legible(SavedRecord(o, hash, commitment, nowMs), o.args.scope)
            <==> IsHexText(hash) && o.args.channel != "" && o.args.accountIndex <= MAX_SAFE_INTEGER
  {
    DepositSpends(o, terms);
  }

  /** Every record put into the scope's slot reads back. */
  ghost predicate AllLegible(log: seq<Event>, scope: Scope) {
    forall i :: 0 <= i < |log| && (log[i].Saved? || log[i].Migrated?) && log[i].scope == scope ==>
      Legible(log[i].record, scope)
  }

  /** Where records read back, nothing is discarded and whatever is stored can be resumed. */
  lemma {:induction false} LegibleRecordsStay(items: Items, log: seq<Event>, scope: Scope, terms: Terms)
    requires GoodLog(items, log, terms) && AllLegible(log, scope)
    requires Live(items, scope) ==> Resumable(items, scope)
    ensures Count(log, Discards, scope) == 0
    ensures Live(Applied(items, log), scope) ==> Resumable(Applied(items, log), scope)
    decreases |log|
  {
    if log != [] {
      LegibleRecordsStay(items, log[..|log| - 1], scope, terms);
    }
  }

  /**
   * With legible records and no burn left unsaved, burns and migrated records exceed
   * clears by one while a resumable cursor is stored and by nothing otherwise.
   */
  lemma AtMostOneUnfinishedBurn(items: Items, log: seq<Event>, scope: Scope, terms: Terms)
    requires GoodLog(items, log, terms) && !Live(items, scope)
    requires AllLegible(log, scope) && Unsaved(log, scope) == 0
    ensures Count(log, Discards, scope) == 0
    ensures Count(log, Burns, scope) + Count(log, Migrations, scope) - Count(log, Clears, scope)
            == if Resumable(Applied(items, log), scope) then 1 else 0
  {
    BurnsAreConserved(items, log, scope, terms);
    LegibleRecordsStay(items, log, scope, terms);
  }

  // ----- What a call's result means -----

  predicate EndsDelivered(events: seq<Event>, answers: Answers, scope: Scope, r: FundResult) {
    && events != [] && events[|events| - 1].Cleared? && events[|events| - 1].scope == scope
    && Complete(events[|events| - 1].record) && answers.delivery.Some?
    && r == CursorResult(events[|events| - 1].record, answers.delivery.value)
  }

  lemma FinishIsDelivered(record: CursorRecord, scope: Scope, answers: Answers)
    requires Complete(record) && FinishResult(record, answers).Success?
    ensures EndsDelivered(FinishEvents(scope, record, answers), answers, scope, FinishResult(record, answers).value)
  {
  }

  lemma SlotIsDelivered(terms: Terms, items: Items, args: FundingArgs, answers: Answers)
    requires SlotResult(terms, items, args, answers).Success?
    ensures EndsDelivered(SlotEvents(terms, items, args, answers), answers, args.scope,
                          SlotResult(terms, items, args, answers).value)
  {
    if Live(items, args.scope) {
      FinishIsDelivered(items[CursorOf(args.scope)].record, args.scope, answers);
    } else {
      FinishIsDelivered(BurnResult(terms, args, answers).value, args.scope, answers);
    }
  }

  /** A call succeeds only with the cursor it has just cleared, delivered. */
  lemma ResultIsDelivered(terms: Terms, items: Items, args: FundingArgs, answers: Answers)
    requires CallResult(terms, items, args, answers).Success?
    ensures EndsDelivered(CallEvents(terms, items, args, answers), answers, args.scope,
                          CallResult(terms, items, args, answers).value)
  {
    SlotIsDelivered(terms, Applied(items, MigrationEvents(items, args, answers)), args, answers);
  }

  lemma WithoutLegacy(terms: Terms, items: Items, args: FundingArgs, answers: Answers)
    requires !HasLegacy(items, args.wallet)
    ensures CallEvents(terms, items, args, answers) == SlotEvents(terms, items, args, answers)
    ensures CallResult(terms, items, args, answers) == SlotResult(terms, items, args, answers)
  {
    assert MigrationEvents(items, args, answers) == [] && Applied(items, []) == items;
    assert [] + SlotEvents(terms, items, args, answers) == SlotEvents(terms, items, args, answers);
  }

  /**
   * Without a legacy record: a stored cursor is resumed for its own account and index, and
   * succeeds with delivery; for any other it refuses and touches nothing; in neither case
   * does it burn. An empty slot succeeds exactly when the burn is saved and delivered.
   */
  lemma CallResumesOrBurns(terms: Terms, items: Items, args: FundingArgs, answers: Answers)
    requires !HasLegacy(items, args.wallet)
    ensures Resumable(items, args.scope) ==>
              var c := items[CursorOf(args.scope)].record;
              if c.sessionAccount == Is(args.account) && c.accountIndex == Is(args.accountIndex) then
                && CallResult(terms, items, args, answers) == FinishResult(c, answers)
                && Count(CallEvents(terms, items, args, answers), Burns, args.scope) == 0
              else
                && CallResult(terms, items, args, answers) == Failure(OtherAccountUnfinished)
                && CallEvents(terms, items, args, answers) == []
    ensures !Live(items, args.scope) ==>
              (CallResult(terms, items, args, answers).Success?
               <==> BurnResult(terms, args, answers).Success? && answers.delivery.Some? && answers.cleared)
  {
    WithoutLegacy(terms, items, args, answers);
    if Resumable(items, args.scope) {
      NoneCounted(CallEvents(terms, items, args, answers), Burns, args.scope);
    }
  }

  // ----- Runs of calls -----

  datatype FundingCall = FundingCall(args: FundingArgs, answers: Answers)

  /**
   * What keeps a call's burn resumable: either nothing burned, or the burn was seen, its
   * record was kept, and its hash is hex, its channel named and its index safe.
   */
  predicate Orderly(args: FundingArgs, answers: Answers) {
    || answers.burn.NotBurned?
    || (&& answers.burn.BurnSeen? && answers.save.Kept?
        && IsHexText(answers.burn.hash) && args.channel != "" && args.accountIndex <= MAX_SAFE_INTEGER)
  }

  /** Every legacy record that parses is legible once it is moved under the scope. */
  ghost predicate LegacyReadable(items: Items, scope: Scope) {
    forall wallet :: LegacyOf(wallet) in items && Parse(items[LegacyOf(wallet)]).Some? ==>
      Legible(MovedRecord(Parse(items[LegacyOf(wallet)]).value, scope), scope)
  }

  lemma {:induction false} CountAppend(a: seq<Event>, b: seq<Event>, kind: Kind, scope: Scope)
    ensures Count(a + b, kind, scope) == Count(a, kind, scope) + Count(b, kind, scope)
    decreases |b|
  {
    if b == [] {
      assert a + b == a;
    } else {
      assert (a + b)[..|a + b| - 1] == a + b[..|b| - 1];
      CountAppend(a, b[..|b| - 1], kind, scope);
    }
  }

  lemma {:induction false} NoneCounted(log: seq<Event>, kind: Kind, scope: Scope)
    requires forall i :: 0 <= i < |log| ==> !OfKind(log[i], kind, scope)
    ensures Count(log, kind, scope) == 0
    decreases |log|
  {
    if log != [] { NoneCounted(log[..|log| - 1], kind, scope); }
  }

  lemma CountOne(e: Event, kind: Kind, scope: Scope)
    ensures Count([e], kind, scope) == if OfKind(e, kind, scope) then 1 else 0
  {
    assert [e][..0] == [];
  }

  /** Histories that neither lose a burn nor store an unreadable record. */
  ghost predicate Tidy(log: seq<Event>, scope: Scope) {
    Unsaved(log, scope) == 0 && AllLegible(log, scope)
  }

  lemma TidyAppend(a: seq<Event>, b: seq<Event>, scope: Scope)
    requires Tidy(a, scope) && Tidy(b, scope)
    ensures Tidy(a + b, scope)
  {
    CountAppend(a, b, Burns, scope);
    CountAppend(a, b, Saves, scope);
  }

  /** Calls only ever remove legacy records. */
  lemma {:induction false} LegacyOnlyShrinks(items: Items, log: seq<Event>, wallet: Address)
    ensures LegacyOf(wallet) in Applied(items, log) ==>
              LegacyOf(wallet) in items && Applied(items, log)[LegacyOf(wallet)] == items[LegacyOf(wallet)]
    decreases |log|
  {
    if log != [] { LegacyOnlyShrinks(items, log[..|log| - 1], wallet); }
  }

  lemma MoveIsTidy(items: Items, args: FundingArgs, answers: Answers, scope: Scope)
    requires LegacyReadable(items, scope) && HasLegacy(items, args.wallet)
    ensures Tidy(MoveEvents(items, args, answers), scope)
  {
    NoneCounted(MoveEvents(items, args, answers), Burns, scope);
    NoneCounted(MoveEvents(items, args, answers), Saves, scope);
  }

  lemma MigrationIsTidy(items: Items, args: FundingArgs, answers: Answers, scope: Scope)
    requires LegacyReadable(items, scope)
    ensures Tidy(MigrationEvents(items, args, answers), scope)
  {
    if HasLegacy(items, args.wallet) {
      var moved, removed := MoveEvents(items, args, answers), [LegacyRemoved(args.wallet)];
      MoveIsTidy(items, args, answers, scope);
      NoneCounted(removed, Burns, scope);
      NoneCounted(removed, Saves, scope);
      TidyAppend(moved, removed, scope);
      assert moved + [] == moved;
    }
  }

  lemma FinishIsTidy(record: CursorRecord, args: FundingArgs, answers: Answers, scope: Scope)
    requires record.requestId.Is?
    ensures Tidy(FinishEvents(args.scope, record, answers), scope)
  {
    NoneCounted(FinishEvents(args.scope, record, answers), Burns, scope);
    NoneCounted(FinishEvents(args.scope, record, answers), Saves, scope);
  }

  lemma BurnIsTidy(terms: Terms, args: FundingArgs, answers: Answers, scope: Scope)
    requires terms.relay == QuoteStrictDepositRoute
    requires args.scope == scope ==> Orderly(args, answers)
    ensures Tidy(BurnEvents(terms, args, answers), scope)
  {
    var saved := BurnResult(terms, args, answers);
    BurnCounts(terms, args, answers, scope);
    if saved.Success? {
      SavedRecordReadsBack(terms, Prepare(terms, args, answers).value, answers.burn.hash, answers.burn.commitment,
                           answers.nowMs);
    }
  }

  /** A call for an empty slot burns once exactly when it prepares and burns, and clears nothing. */
  lemma BurnCounts(terms: Terms, args: FundingArgs, answers: Answers, scope: Scope)
    ensures var events := BurnEvents(terms, args, answers);
            var burns := answers.probe.Kept? && Prepare(terms, args, answers).Success? && !answers.burn.NotBurned?;
            && Count(events, Burns, scope) == (if burns && args.scope == scope then 1 else 0)
            && Count(events, Saves, scope) ==
                 (if BurnResult(terms, args, answers).Success? && args.scope == scope then 1 else 0)
            && Count(events, Clears, scope) == 0
  {
    var events := BurnEvents(terms, args, answers);
    NoneCounted(events, Clears, scope);
    if |events| <= 1 {
      NoneCounted(events, Burns, scope);
      NoneCounted(events, Saves, scope);
    } else {
      var burned := Burned(args.scope, Prepare(terms, args, answers).value);
      assert events == [Probed] + ([burned] + events[2..]);
      forall kind
        ensures Count(events, kind, scope) ==
                Count([Probed], kind, scope) + Count([burned], kind, scope) + Count(events[2..], kind, scope)
      {
        CountAppend([Probed], [burned] + events[2..], kind, scope);
        CountAppend([burned], events[2..], kind, scope);
      }
      CountOne(Probed, Burns, scope);
      CountOne(Probed, Saves, scope);
      CountOne(burned, Burns, scope);
      CountOne(burned, Saves, scope);
      if |events| == 3 {
        assert events[2..] == [events[2]];
        CountOne(events[2], Burns, scope);
        CountOne(events[2], Saves, scope);
      }
    }
  }

  lemma CallIsTidy(terms: Terms, items: Items, args: FundingArgs, answers: Answers, scope: Scope)
    requires terms.relay == QuoteStrictDepositRoute && LegacyReadable(items, scope)
    requires args.scope == scope ==> Orderly(args, answers)
    ensures Tidy(CallEvents(terms, items, args, answers), scope)
    ensures LegacyReadable(Applied(items, CallEvents(terms, items, args, answers)), scope)
  {
    var moved := MigrationEvents(items, args, answers);
    MigrationIsTidy(items, args, answers, scope);
    SlotIsTidy(terms, Applied(items, moved), args, answers, scope);
    TidyAppend(moved, SlotEvents(terms, Applied(items, moved), args, answers), scope);
    assert moved + [] == moved;
    forall wallet
      ensures LegacyOf(wallet) in Applied(items, CallEvents(terms, items, args, answers)) ==>
                && LegacyOf(wallet) in items
                && Applied(items, CallEvents(terms, items, args, answers))[LegacyOf(wallet)] == items[LegacyOf(wallet)]
    {
      LegacyOnlyShrinks(items, CallEvents(terms, items, args, answers), wallet);
    }
  }

  lemma SlotIsTidy(terms: Terms, items: Items, args: FundingArgs, answers: Answers, scope: Scope)
    requires terms.relay == QuoteStrictDepositRoute
    requires args.scope == scope ==> Orderly(args, answers)
    ensures Tidy(SlotEvents(terms, items, args, answers), scope)
  {
    if !Live(items, args.scope) {
      var saved := BurnResult(terms, args, answers);
      BurnIsTidy(terms, args, answers, scope);
      if saved.Success? {
        FinishIsTidy(saved.value, args, answers, scope);
        TidyAppend(BurnEvents(terms, args, answers), FinishEvents(args.scope, saved.value, answers), scope);
      } else {
        assert BurnEvents(terms, args, answers) + [] == BurnEvents(terms, args, answers);
      }
    } else if Resumable(items, args.scope) && Belongs(items[CursorOf(args.scope)].record, args) {
      FinishIsTidy(items[CursorOf(args.scope)].record, args, answers, scope);
    } else {
      NoneCounted(SlotEvents(terms, items, args, answers), Burns, scope);
      NoneCounted(SlotEvents(terms, items, args, answers), Saves, scope);
    }
  }

  // ----- Without legacy records -----

  ghost predicate NoLegacy(items: Items) {
    forall wallet :: LegacyOf(wallet) !in items
  }

  lemma BurnNeverMigrates(terms: Terms, args: FundingArgs, answers: Answers, scope: Scope)
    ensures Count(BurnEvents(terms, args, answers), Migrations, scope) == 0
  {
    NoneCounted(BurnEvents(terms, args, answers), Migrations, scope);
  }

  lemma FinishNeverMigrates(record: CursorRecord, args: FundingArgs, answers: Answers, scope: Scope)
    requires record.requestId.Is?
    ensures Count(FinishEvents(args.scope, record, answers), Migrations, scope) == 0
  {
    NoneCounted(FinishEvents(args.scope, record, answers), Migrations, scope);
  }

  lemma SlotNeverMigrates(terms: Terms, items: Items, args: FundingArgs, answers: Answers, scope: Scope)
    ensures Count(SlotEvents(terms, items, args, answers), Migrations, scope) == 0
  {
    if !Live(items, args.scope) {
      var burned, saved := BurnEvents(terms, args, answers), BurnResult(terms, args, answers);
      BurnNeverMigrates(terms, args, answers, scope);
      if saved.Success? {
        FinishNeverMigrates(saved.value, args, answers, scope);
        CountAppend(burned, FinishEvents(args.scope, saved.value, answers), Migrations, scope);
      } else {
        assert burned + [] == burned;
      }
    } else if Resumable(items, args.scope) && Belongs(items[CursorOf(args.scope)].record, args) {
      FinishNeverMigrates(items[CursorOf(args.scope)].record, args, answers, scope);
    } else {
      NoneCounted(SlotEvents(terms, items, args, answers), Migrations, scope);
    }
  }

  /** A call that finds no legacy records migrates nothing, and leaves none. */
  lemma CallNeverMigrates(terms: Terms, items: Items, args: FundingArgs, answers: Answers, scope: Scope)
    requires NoLegacy(items)
    ensures Count(CallEvents(terms, items, args, answers), Migrations, scope) == 0
    ensures NoLegacy(Applied(items, CallEvents(terms, items, args, answers)))
  {
    WithoutLegacy(terms, items, args, answers);
    SlotNeverMigrates(terms, items, args, answers, scope);
    forall wallet
      ensures LegacyOf(wallet) !in Applied(items, CallEvents(terms, items, args, answers))
    {
      LegacyOnlyShrinks(items, CallEvents(terms, items, args, answers), wallet);
    }
  }

  /**
   * Every sequential run of funding calls, of this and other scopes, that starts with an
   * empty slot and whose calls for the scope are orderly: nothing is discarded, and burns
   * and migrated records exceed clears by one while a resumable cursor is stored and by
   * nothing otherwise. In a browser without legacy records that is burns alone.
   */
  method FundAll(storage: FundingStorage, calls: seq<FundingCall>, scope: Scope)
    returns (results: seq<Result<FundResult, FundingError>>)
    requires storage.Valid() && storage.history == [] && storage.terms.relay == QuoteStrictDepositRoute
    requires !Live(storage.items, scope) && LegacyReadable(storage.items, scope)
    requires forall i :: 0 <= i < |calls| && calls[i].args.scope == scope ==> Orderly(calls[i].args, calls[i].answers)
    modifies storage
    ensures storage.Valid() && |results| == |calls|
    ensures Count(storage.history, Discards, scope) == 0
    ensures Count(storage.history, Burns, scope) + Count(storage.history, Migrations, scope)
            - Count(storage.history, Clears, scope) == if Resumable(storage.items, scope) then 1 else 0
    ensures NoLegacy(old(storage.items)) ==> Count(storage.history, Migrations, scope) == 0
  {
    results := [];
    assert storage.items == storage.start;
    for i := 0 to |calls|
      invariant storage.Valid() && |results| == i
      invariant Tidy(storage.history, scope) && LegacyReadable(storage.items, scope)
      invariant NoLegacy(old(storage.items)) ==>
                  NoLegacy(storage.items) && Count(storage.history, Migrations, scope) == 0
    {
      ghost var before, items := storage.history, storage.items;
      var call := calls[i];
      CallIsTidy(storage.terms, items, call.args, call.answers, scope);
      if NoLegacy(items) { CallNeverMigrates(storage.terms, items, call.args, call.answers, scope); }
      var r := storage.Fund(call.args, call.answers);
      TidyAppend(before, CallEvents(storage.terms, items, call.args, call.answers), scope);
      CountAppend(before, CallEvents(storage.terms, items, call.args, call.answers), Migrations, scope);
      results := results + [r];
    }
    AtMostOneUnfinishedBurn(storage.start, storage.history, scope, storage.terms);
  }

  // ----- A burn comes home -----

  /** What Prepare asks Relay for, and what it makes of the answers. */
  lemma OrderIsExact(terms: Terms, args: FundingArgs, answers: Answers)
    requires Prepare(terms, args, answers).Success?
    ensures answers.maxFee.Some? && 0 <= answers.maxFee.value < args.amount
    ensures answers.fundingBody.Some? && answers.returnBody.Some?
    ensures var o := Prepare(terms, args, answers).value;
            && o.args == args && o.maxFee == answers.maxFee.value && o.destination == o.quote.depositAddress
            && terms.relay(ForwardRequest(args, o.maxFee), answers.fundingBody.value) == Success(o.quote)
            && terms.relay(BackwardRequest(args, o.quote.minimumOutputAmount), answers.returnBody.value)
               == Success(o.recovery)
  {
  }

  /**
   * A burn is made and kept exactly when the storage takes a probe, a fee below the amount
   * is quoted, Relay's quotes there and back validate, the way back delivers more than the
   * buffer, the burn is seen, and its record is kept.
   */
  lemma BurnSucceeds(terms: Terms, args: FundingArgs, answers: Answers)
    ensures BurnResult(terms, args, answers).Success? <==>
              && answers.probe.Kept? && answers.burn.BurnSeen? && answers.save.Kept?
              && answers.maxFee.Some? && 0 <= answers.maxFee.value < args.amount
              && answers.fundingBody.Some? && answers.returnBody.Some?
              && var quote := terms.relay(ForwardRequest(args, answers.maxFee.value), answers.fundingBody.value);
                 && quote.Success?
                 && var recovery := terms.relay(BackwardRequest(args, quote.value.minimumOutputAmount),
                                                answers.returnBody.value);
                    recovery.Success? && recovery.value.minimumOutputAmount > terms.feeBuffer
  {
  }

  lemma BurnStores(terms: Terms, items: Items, args: FundingArgs, answers: Answers)
    requires BurnResult(terms, args, answers).Success?
    ensures var left := Applied(items, BurnEvents(terms, args, answers));
            CursorOf(args.scope) in left
            && left[CursorOf(args.scope)] == Record(BurnResult(terms, args, answers).value)
  {
    var burned := Burned(args.scope, Prepare(terms, args, answers).value);
    var saved := Saved(args.scope, BurnResult(terms, args, answers).value);
    AppliedAppend(items, [Probed, burned], [saved]);
    AppliedOne(Applied(items, [Probed, burned]), saved);
  }

  lemma FinishCounts(scope: Scope, record: CursorRecord, answers: Answers)
    requires record.requestId.Is? && answers.delivery.Some? && answers.cleared
    ensures Count(FinishEvents(scope, record, answers), Burns, scope) == 0
    ensures Count(FinishEvents(scope, record, answers), Clears, scope) == 1
  {
    var delivered, cleared := [Delivered(record.requestId.value)], [Cleared(scope, record)];
    CountAppend(delivered, cleared, Burns, scope);
    CountAppend(delivered, cleared, Clears, scope);
    CountOne(delivered[0], Burns, scope);
    CountOne(delivered[0], Clears, scope);
    CountOne(cleared[0], Burns, scope);
    CountOne(cleared[0], Clears, scope);
  }

  /** A call that finds an empty slot, burns, keeps its record, and is interrupted: one burn, and its record. */
  method BurnAndStop(storage: FundingStorage, args: FundingArgs, answers: Answers)
    requires storage.Valid() && !Live(storage.items, args.scope) && !HasLegacy(storage.items, args.wallet)
    requires BurnResult(storage.terms, args, answers).Success? && answers.delivery.None?
    modifies storage
    ensures storage.Valid() && !HasLegacy(storage.items, args.wallet) && CursorOf(args.scope) in storage.items
    ensures storage.items[CursorOf(args.scope)] == Record(BurnResult(storage.terms, args, answers).value)
    ensures Count(storage.history, Burns, args.scope) == Count(old(storage.history), Burns, args.scope) + 1
    ensures Count(storage.history, Clears, args.scope) == Count(old(storage.history), Clears, args.scope)
  {
    ghost var before, items, events := storage.history, storage.items, BurnEvents(storage.terms, args, answers);
    WithoutLegacy(storage.terms, items, args, answers);
    assert events + [] == events;
    BurnStores(storage.terms, items, args, answers);
    BurnCounts(storage.terms, args, answers, args.scope);
    CountAppend(before, events, Burns, args.scope);
    CountAppend(before, events, Clears, args.scope);
    LegacyOnlyShrinks(items, events, args.wallet);
    var _ := storage.Fund(args, answers);
  }

  /** A call that finds a readable record of its own session, delivered and cleared: no burn, and its result. */
  method ResumeStored(storage: FundingStorage, args: FundingArgs, answers: Answers, ghost record: CursorRecord)
    returns (r: Result<FundResult, FundingError>)
    requires storage.Valid() && !HasLegacy(storage.items, args.wallet) && CursorOf(args.scope) in storage.items
    requires storage.items[CursorOf(args.scope)] == Record(record) && Legible(record, args.scope)
    requires record.sessionAccount == Is(args.account) && record.accountIndex == Is(args.accountIndex)
    requires answers.delivery.Some? && answers.cleared
    modifies storage
    ensures storage.Valid() && r == FinishResult(record, answers)
    ensures Count(storage.history, Burns, args.scope) == Count(old(storage.history), Burns, args.scope)
    ensures Count(storage.history, Clears, args.scope) == Count(old(storage.history), Clears, args.scope) + 1
  {
    ghost var before, events := storage.history, FinishEvents(args.scope, record, answers);
    WithoutLegacy(storage.terms, storage.items, args, answers);
    CallResumesOrBurns(storage.terms, storage.items, args, answers);
    FinishCounts(args.scope, record, answers);
    CountAppend(before, events, Burns, args.scope);
    CountAppend(before, events, Clears, args.scope);
    r := storage.Fund(args, answers);
  }

  /** What the second call reports of the first one's burn. */
  lemma HomeResult(terms: Terms, args: FundingArgs, first: Answers, second: Answers)
    requires BurnResult(terms, args, first).Success? && second.delivery.Some? && second.cleared
    ensures first.maxFee.Some? && first.maxFee.value < args.amount && first.fundingBody.Some?
    ensures var request := QuoteRequest(args.owner, ARBITRUM_CHAIN_ID, ROBINHOOD_CHAIN_ID, ARBITRUM_NATIVE_USDC,
                                        ROBINHOOD_USDG, args.amount - first.maxFee.value, args.account, args.owner,
                                        true, true, 100, false);
            var quote := terms.relay(request, first.fundingBody.value);
            && quote.Success?
            && FinishResult(BurnResult(terms, args, first).value, second) ==
                 Success(FundResult(
                           first.burn.hash, args.accountIndex, args.owner, args.account, first.burn.commitment,
                           second.delivery.value.destinationTxHash.GetOr(quote.value.requestId),
                           quote.value.outputAmount, quote.value.minimumOutputAmount, quote.value.requestId,
                           second.delivery.value.status, args.channel))
  {
    OrderIsExact(terms, args, first);
  }

  /**
   * A burn comes home: a call that burns for an empty slot and is interrupted once its
   * record is kept, and the same call again, delivered. The second one reports the first
   * one's burn, its session and its quote, and nothing is burned twice.
   */
  method BurnComesHome(storage: FundingStorage, args: FundingArgs, first: Answers, second: Answers)
    returns (r: Result<FundResult, FundingError>)
    requires storage.Valid() && storage.history == [] && storage.terms.relay == QuoteStrictDepositRoute
    requires !Live(storage.items, args.scope) && !HasLegacy(storage.items, args.wallet)
    requires first.probe.Kept? && Prepare(storage.terms, args, first).Success? && first.delivery.None?
    requires first.burn.BurnSeen? && first.save.Kept? && Orderly(args, first)
    requires second.delivery.Some? && second.cleared
    modifies storage
    ensures storage.Valid()
    ensures Count(storage.history, Burns, args.scope) == Count(storage.history, Clears, args.scope) == 1
    ensures first.maxFee.Some? && first.maxFee.value < args.amount && first.fundingBody.Some?
    ensures var request := QuoteRequest(args.owner, ARBITRUM_CHAIN_ID, ROBINHOOD_CHAIN_ID, ARBITRUM_NATIVE_USDC,
                                        ROBINHOOD_USDG, args.amount - first.maxFee.value, args.account, args.owner,
                                        true, true, 100, false);
            var quote := storage.terms.relay(request, first.fundingBody.value);
            && quote.Success?
            && r == Success(FundResult(
                              first.burn.hash, args.accountIndex, args.owner, args.account, first.burn.commitment,
                              second.delivery.value.destinationTxHash.GetOr(quote.value.requestId),
                              quote.value.outputAmount, quote.value.minimumOutputAmount, quote.value.requestId,
                              second.delivery.value.status, args.channel))
  {
    ghost var order := Prepare(storage.terms, args, first).value;
    SavedRecordReadsBack(storage.terms, order, first.burn.hash, first.burn.commitment, first.nowMs);
    BurnAndStop(storage, args, first);
    r := ResumeStored(storage, args, second, BurnResult(storage.terms, args, first).value);
    HomeResult(storage.terms, args, first, second);
  }

  /**
   * A legacy record comes home: its wallet's first call moves it under the recovery scope,
   * resumes it without a burn, and reports the record's own burn, session and quote.
   */
  method LegacyComesHome(storage: FundingStorage, args: FundingArgs, answers: Answers, ghost record: CursorRecord)
    returns (r: Result<FundResult, FundingError>)
    requires storage.Valid() && storage.history == [] && !Live(storage.items, args.scope)
    requires LegacyOf(args.wallet) in storage.items && storage.items[LegacyOf(args.wallet)] == Record(record)
    requires Complete(record) && IsRequestId(record.requestId.value) && IsHexText(record.burnTxHash.value)
    requires record.channel.value != "" && args.accountIndex <= MAX_SAFE_INTEGER
    requires record.sessionAccount == Is(args.account) && record.accountIndex == Is(args.accountIndex)
    requires answers.migration.Kept? && answers.legacyRemoved && answers.delivery.Some? && answers.cleared
    modifies storage
    ensures storage.Valid() && !Live(storage.items, args.scope) && LegacyOf(args.wallet) !in storage.items
    ensures Count(storage.history, Burns, args.scope) == 0
    ensures r == Success(FundResult(
                           record.burnTxHash.value, args.accountIndex, record.sessionOwner.value, args.account,
                           record.commitmentH.value,
                           answers.delivery.value.destinationTxHash.GetOr(record.requestId.value),
                           record.outputAmount.value, record.minimumOutputAmount.value, record.requestId.value,
                           answers.delivery.value.status, record.channel.value))
  {
    LegacyEvents(storage.terms, storage.items, args, answers, record);
    CountAppend([], CallEvents(storage.terms, storage.items, args, answers), Burns, args.scope);
    r := storage.Fund(args, answers);
  }

  lemma LegacyEvents(terms: Terms, items: Items, args: FundingArgs, answers: Answers, record: CursorRecord)
    requires !Live(items, args.scope)
    requires LegacyOf(args.wallet) in items && items[LegacyOf(args.wallet)] == Record(record)
    requires Complete(record) && IsRequestId(record.requestId.value) && IsHexText(record.burnTxHash.value)
    requires record.channel.value != "" && args.accountIndex <= MAX_SAFE_INTEGER
    requires record.sessionAccount == Is(args.account) && record.accountIndex == Is(args.accountIndex)
    requires answers.migration.Kept? && answers.legacyRemoved && answers.delivery.Some? && answers.cleared
    ensures var moved := record.(version := Is(2), recoveryScope := Is(args.scope));
            var events := CallEvents(terms, items, args, answers);
            && CallResult(terms, items, args, answers) == Success(CursorResult(moved, answers.delivery.value))
            && Count(events, Burns, args.scope) == 0
            && Applied(items, events) == items - {LegacyOf(args.wallet)} - {CursorOf(args.scope)}
  {
    var moved := record.(version := Is(2), recoveryScope := Is(args.scope));
    var migrated, removed := Migrated(args.scope, moved), LegacyRemoved(args.wallet);
    var delivered, cleared := Delivered(record.requestId.value), Cleared(args.scope, moved);
    AppliedOne(items, migrated);
    AppliedAppend(items, [migrated], [removed]);
    AppliedOne(Applied(items, [migrated]), removed);
    var after := Applied(items, [migrated] + [removed]);
    assert MigrationEvents(items, args, answers) == [migrated] + [removed];
    assert after == items[CursorOf(args.scope) := Record(moved)] - {LegacyOf(args.wallet)};
    assert SlotEvents(terms, after, args, answers) == [delivered] + [cleared];
    AppliedOne(after, delivered);
    AppliedAppend(after, [delivered], [cleared]);
    AppliedOne(Applied(after, [delivered]), cleared);
    AppliedAppend(items, [migrated] + [removed], [delivered] + [cleared]);
    assert after - {CursorOf(args.scope)} == items - {LegacyOf(args.wallet)} - {CursorOf(args.scope)};
    assert CallEvents(terms, items, args, answers) == [migrated] + [removed] + ([delivered] + [cleared]);
    CountAppend([migrated] + [removed], [delivered] + [cleared], Burns, args.scope);
    NoneCounted([migrated] + [removed], Burns, args.scope);
    NoneCounted([delivered] + [cleared], Burns, args.scope);
  }

  // ----- Where orderly calls are needed -----

  /** A call that burns for an empty slot and is interrupted before Relay delivers. */
  predicate Interrupted(terms: Terms, args: FundingArgs, answers: Answers) {
    && answers.probe.Kept? && Prepare(terms, args, answers).Success? && !answers.burn.NotBurned?
    && answers.delivery.None?
  }

  /** What it leaves on storage without other records. */
  function Leftover(terms: Terms, args: FundingArgs, answers: Answers): Items {
    var saved := BurnResult(terms, args, answers);
    if saved.Success? then map[CursorOf(args.scope) := Record(saved.value)] else map[]
  }

  lemma BurnLeavesRecord(terms: Terms, args: FundingArgs, answers: Answers)
    requires Interrupted(terms, args, answers)
    ensures Applied(map[], BurnEvents(terms, args, answers)) == Leftover(terms, args, answers)
  {
    var empty: Items := map[];
    var saved, burned := BurnResult(terms, args, answers), Burned(args.scope, Prepare(terms, args, answers).value);
    AppliedOne(empty, Probed);
    AppliedAppend(empty, [Probed], [burned]);
    AppliedOne(empty, burned);
    assert [Probed] + [burned] == [Probed, burned];
    assert empty - {Probe} == empty;
    if saved.Success? {
      AppliedAppend(empty, [Probed, burned], [Saved(args.scope, saved.value)]);
      AppliedOne(empty, Saved(args.scope, saved.value));
    } else {
      assert [Probed, burned] + [] == [Probed, burned];
    }
  }

  /** On empty storage such a call leaves the saved record, if any, and one burn. */
  lemma InterruptedLeavesRecord(terms: Terms, args: FundingArgs, answers: Answers)
    requires Interrupted(terms, args, answers)
    ensures var events := CallEvents(terms, map[], args, answers);
            && Applied(map[], events) == Leftover(terms, args, answers)
            && Count(events, Burns, args.scope) == 1 && Count(events, Clears, args.scope) == 0
  {
    BurnCounts(terms, args, answers, args.scope);
    BurnLeavesRecord(terms, args, answers);
    WithoutLegacy(terms, map[], args, answers);
    assert BurnEvents(terms, args, answers) + [] == BurnEvents(terms, args, answers);
  }

  /** A call that finds only an unreadable record discards it, and does nothing else. */
  lemma UnreadableIsDiscarded(terms: Terms, args: FundingArgs, answers: Answers, record: CursorRecord)
    requires !Legible(record, args.scope)
    ensures var items: Items := map[CursorOf(args.scope) := Record(record)];
            var events := CallEvents(terms, items, args, answers);
            && Applied(items, events) == map[] && CallResult(terms, items, args, answers) == Failure(CursorCorrupt)
            && Count(events, Burns, args.scope) == 0 && Count(events, Clears, args.scope) == 0
  {
    var items: Items := map[CursorOf(args.scope) := Record(record)];
    var discarded := Discarded(args.scope, Record(record));
    assert Live(items, args.scope) && !Resumable(items, args.scope) && !HasLegacy(items, args.wallet);
    WithoutLegacy(terms, items, args, answers);
    assert SlotEvents(terms, items, args, answers) == [discarded];
    AppliedOne(items, discarded);
    assert items - {CursorOf(args.scope)} == map[];
    CountOne(discarded, Burns, args.scope);
    CountOne(discarded, Clears, args.scope);
  }

  method BurnOnce(storage: FundingStorage, args: FundingArgs, answers: Answers)
    requires storage.Valid() && storage.items == map[] && Interrupted(storage.terms, args, answers)
    modifies storage
    ensures storage.Valid() && storage.items == Leftover(storage.terms, args, answers)
    ensures Count(storage.history, Burns, args.scope) == Count(old(storage.history), Burns, args.scope) + 1
    ensures Count(storage.history, Clears, args.scope) == Count(old(storage.history), Clears, args.scope)
  {
    ghost var before, events := storage.history, CallEvents(storage.terms, map[], args, answers);
    InterruptedLeavesRecord(storage.terms, args, answers);
    CountAppend(before, events, Burns, args.scope);
    CountAppend(before, events, Clears, args.scope);
    var _ := storage.Fund(args, answers);
  }

  method DiscardUnreadable(
    storage: FundingStorage, args: FundingArgs, answers: Answers, ghost record: CursorRecord)
    requires storage.Valid() && storage.items == map[CursorOf(args.scope) := Record(record)]
    requires !Legible(record, args.scope)
    modifies storage
    ensures storage.Valid() && storage.items == map[]
    ensures Count(storage.history, Burns, args.scope) == Count(old(storage.history), Burns, args.scope)
    ensures Count(storage.history, Clears, args.scope) == Count(old(storage.history), Clears, args.scope)
  {
    ghost var before, events := storage.history, CallEvents(storage.terms, storage.items, args, answers);
    UnreadableIsDiscarded(storage.terms, args, answers, record);
    CountAppend(before, events, Burns, args.scope);
    CountAppend(before, events, Clears, args.scope);
    var _ := storage.Fund(args, answers);
  }

  /**
   * Orderly is exactly what a run needs: whenever an interrupted call is not orderly,
   * repeating the same call on empty storage burns a second time with nothing cleared,
   * at once if the record was lost, and after one discard if it cannot be read.
   */
  method BurnAgain(terms: Terms, args: FundingArgs, answers: Answers) returns (storage: FundingStorage)
    requires terms.relay == QuoteStrictDepositRoute
    requires Interrupted(terms, args, answers) && !Orderly(args, answers)
    ensures fresh(storage) && storage.Valid() && storage.start == map[] && storage.terms == terms
    ensures Count(storage.history, Burns, args.scope) == 2 && Count(storage.history, Clears, args.scope) == 0
  {
    storage := new FundingStorage(map[], terms);
    BurnOnce(storage, args, answers);
    if answers.burn.BurnSeen? && answers.save.Kept? {
      SavedRecordReadsBack(terms, Prepare(terms, args, answers).value, answers.burn.hash, answers.burn.commitment,
                           answers.nowMs);
      DiscardUnreadable(storage, args, answers, BurnResult(terms, args, answers).value);
    }
    BurnOnce(storage, args, answers);
  }

  lemma HonestAnswerIsTaken(
    terms: Terms, request: QuoteRequest, id: string, deposit: Address, output: nat, minimum: nat)
    requires terms.relay == QuoteStrictDepositRoute && IsRequestId(id)
    requires 0 < request.amount < Power(Hex, 64) && 0 < minimum <= output && request.slippageBps == DEFAULT_SLIPPAGE_BPS
    ensures var quote := Ask(terms, request, Some(HonestBody(request, id, deposit, output, minimum)));
            quote.Success? && quote.value.minimumOutputAmount == minimum
  {
    HonestBodyValidates(request, id, deposit, output, minimum);
  }

  /** Answers of an honest Relay, whose storage keeps everything, to a call that is interrupted after its burn. */
  function HonestAnswers(terms: Terms, args: FundingArgs, burn: BurnAnswer, id: string, deposit: Address): Answers
    requires args.amount > 0
  {
    var request := FundingQuoteRequest(args.owner, args.account, args.owner, args.amount);
    var reverse := ReturnQuoteRequest(args.account, args.staging, args.owner, args.amount, true);
    Answers(Kept, true, Kept, Some(0), Some(HonestBody(request, id, deposit, args.amount + 1, args.amount)),
            Some(HonestBody(reverse, id, deposit, terms.feeBuffer + 2, terms.feeBuffer + 1)), burn, Kept, None, false,
            0)
  }

  lemma QuotesPrepare(terms: Terms, args: FundingArgs, answers: Answers, output: nat)
    requires answers.maxFee == Some(0) && args.amount > 0
    requires var request := FundingQuoteRequest(args.owner, args.account, args.owner, args.amount);
             var quote := Ask(terms, request, answers.fundingBody);
             quote.Success? && quote.value.minimumOutputAmount == output
    requires var request := ReturnQuoteRequest(args.account, args.staging, args.owner, output, true);
             var reverse := Ask(terms, request, answers.returnBody);
             reverse.Success? && reverse.value.minimumOutputAmount > terms.feeBuffer
    ensures Prepare(terms, args, answers).Success?
  {
  }

  lemma HonestCallIsInterrupted(terms: Terms, args: FundingArgs, burn: BurnAnswer, id: string, deposit: Address)
    requires terms.relay == QuoteStrictDepositRoute && IsRequestId(id)
    requires 0 < args.amount < Power(Hex, 64) && !burn.NotBurned?
    ensures Interrupted(terms, args, HonestAnswers(terms, args, burn, id, deposit))
  {
    HonestAnswerIsTaken(terms, FundingQuoteRequest(args.owner, args.account, args.owner, args.amount), id, deposit,
                        args.amount + 1, args.amount);
    HonestAnswerIsTaken(terms, ReturnQuoteRequest(args.account, args.staging, args.owner, args.amount, true), id,
                        deposit, terms.feeBuffer + 2, terms.feeBuffer + 1);
    QuotesPrepare(terms, args, HonestAnswers(terms, args, burn, id, deposit), args.amount);
  }

  /** With an honest Relay, any session whose burn hash is not hex can burn twice. */
  method NonHexHashBurnsTwice(args: FundingArgs, hash: string) returns (storage: FundingStorage)
    requires 0 < args.amount < Power(Hex, 64) && !IsHexText(hash)
    ensures storage.Valid() && storage.start == map[]
    ensures storage.terms == Terms(QuoteStrictDepositRoute, DEFAULT_FEE_BUFFER)
    ensures Count(storage.history, Burns, args.scope) == 2 && Count(storage.history, Clears, args.scope) == 0
  {
    var terms := Terms(QuoteStrictDepositRoute, DEFAULT_FEE_BUFFER);
    HonestCallIsInterrupted(terms, args, BurnSeen(hash, 0), "request-1", args.staging);
    storage := BurnAgain(terms, args, HonestAnswers(terms, args, BurnSeen(hash, 0), "request-1", args.staging));
  }

  /** The concrete run: five dollars, an empty browser, and the hash "unknown". */
  method UnknownHashBurnsTwice() returns (storage: FundingStorage)
    ensures storage.Valid() && storage.start == map[]
    ensures storage.terms == Terms(QuoteStrictDepositRoute, DEFAULT_FEE_BUFFER)
    ensures Count(storage.history, Burns, 1) == 2 && Count(storage.history, Clears, 1) == 0
  {
    assert !IsHexText("unknown") by { assert "unknown"[..2][0] == 'u'; }
    ScopeLimit();
    storage := NonHexHashBurnsTwice(FundingArgs(1, 2, 3, 4, 0, "pons", 5_000_000, 5), "unknown");
  }
}
