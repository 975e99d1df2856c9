/**
 * Returning several idle positions at once: one transfer per positive source, largest
 * first, then one shared deposit and one private merge.
 */
module BatchReturn {
  import opened Wrappers
  import opened Numerals
  import opened Requests
  import opened Sorting
  import opened RelayQuotes

  datatype Source = Source(account: Address, owner: Address, accountIndex: nat, amount: int)

  /** What the outside answers for one source; None also stands for a call that fails. */
  datatype Leg = Leg(body: Option<QuoteBody>, submitted: bool, executed: bool, relayed: bool, balance: Option<nat>)

  datatype Deposit = Deposit(deposited: bool, net: int)

  datatype Merge = Merge(confirmed: bool, txHash: string)

  datatype Answers = Answers(
    balance: Option<nat>,
    nativeBalance: Option<nat>,
    leg: nat -> Leg,
    deposit: Option<Deposit>,
    merge: Option<Merge>)

  /** One transfer the source account is asked to execute. */
  datatype Submission = Submission(
    accountIndex: nat,
    target: Address,
    data: string,
    requestId: string,
    attestation: string)

  datatype Returned = Returned(
    amountReturned: int,
    claimTxHash: string,
    ranFreshBurn: bool,
    alreadyClaimed: bool,
    sourceAccountIndexes: seq<nat>)

  datatype BatchError =
    | DuplicateAccount
    | Unreachable
    | Relay(error: RelayError)
    | NativeValueNeeded
    | MissingAttestation
    | DepositReverted
    | DeliveredTooLittle
    | TooSmallToMerge
    | DepositTooSmall
    | NotConfirmed

  predicate LargestFirst(a: Source, b: Source) {
    a.amount >= b.amount
  }

  function Positive(sources: seq<Source>): seq<Source> {
    if sources == [] then []
    else (if sources[0].amount > 0 then [sources[0]] else []) + Positive(sources[1..])
  }

  function Ordered(sources: seq<Source>): seq<Source> {
    Sort(Positive(sources), LargestFirst)
  }

  predicate DistinctIndexes(sources: seq<Source>) {
    forall i, j :: 0 <= i < j < |sources| ==> sources[i].accountIndex != sources[j].accountIndex
  }

  function LegRequest(source: Source, staging: Address, topupGas: bool): QuoteRequest {
    ReturnQuoteRequest(source.account, staging, source.owner, if source.amount > 0 then source.amount else 0, topupGas)
  }

  function LegSubmission(source: Source, quote: RelayQuote): Submission {
    Submission(source.accountIndex, quote.deposit.to, quote.deposit.data, quote.requestId, quote.attestation.GetOr(""))
  }

  // ----- What the legs come to -----

  /** A quote that may be submitted. */
  function LegQuote(relay: Quoter, request: QuoteRequest, leg: Leg): (r: Result<RelayQuote, BatchError>)
    ensures r.Success? ==> QuotedFor(relay, request, r.value) && r.value.deposit.value == 0 && r.value.attestation.Some?
  {
    if leg.body.None? then Failure(Unreachable)
    else
      var quote := relay(request, leg.body.value);
      if quote.Failure? then Failure(Relay(quote.error))
      else if quote.value.deposit.value != 0 then Failure(NativeValueNeeded)
      else if quote.value.attestation.None? then Failure(MissingAttestation)
      else Success(quote.value)
  }

  /** The staging balance after a submitted leg, which must grow by the quote's minimum. */
  function LegDelivery(quote: RelayQuote, leg: Leg, delivered: nat): Result<nat, BatchError> {
    if !leg.submitted then Failure(Unreachable)
    else if !leg.executed then Failure(DepositReverted)
    else if !leg.relayed || leg.balance.None? then Failure(Unreachable)
    else if leg.balance.value < delivered + quote.minimumOutputAmount then Failure(DeliveredTooLittle)
    else Success(leg.balance.value)
  }

  /** The sources in order, where they go, what the staging account starts with, and the answers. */
  datatype Route = Route(
    relay: Quoter,
    sources: seq<Source>,
    staging: Address,
    initial: nat,
    needsGas: bool,
    leg: nat -> Leg)
  {
    /** The k-th request: only the first may top up gas. */
    function Request(k: nat): QuoteRequest
      requires k < |sources|
    {
      LegRequest(sources[k], staging, needsGas && k == 0)
    }

    function Quote(k: nat): (r: Result<RelayQuote, BatchError>)
      requires k < |sources|
    {
      LegQuote(relay, Request(k), leg(k))
    }

    /** The balance after the first n legs, or the first leg's failure. */
    function Delivered(n: nat): Result<nat, BatchError>
      requires n <= |sources|
    {
      if n == 0 then Success(initial) else AfterLeg(n - 1, Delivered(n - 1))
    }

    /** The k-th leg, from the balance before it. */
    function AfterLeg(k: nat, before: Result<nat, BatchError>): Result<nat, BatchError>
      requires k < |sources|
    {
      if before.Failure? then before
      else if Quote(k).Failure? then Failure(Quote(k).error)
      else LegDelivery(Quote(k).value, leg(k), before.value)
    }

    function Minimum(k: nat): nat
      requires k < |sources|
    {
      if Quote(k).Success? then Quote(k).value.minimumOutputAmount else 0
    }

    /** The protected outputs of the first n quotes. */
    function Minimums(n: nat): nat
      requires n <= |sources|
    {
      if n == 0 then 0 else Minimums(n - 1) + Minimum(n - 1)
    }

    /** The first n requests. */
    function Requests(n: nat): seq<QuoteRequest>
      requires n <= |sources|
    {
      if n == 0 then [] else Requests(n - 1) + [Request(n - 1)]
    }

    /** The transfer that the k-th quote asks its source for. */
    function Offer(k: nat): seq<Submission>
      requires k < |sources|
    {
      if Quote(k).Failure? then [] else [LegSubmission(sources[k], Quote(k).value)]
    }

    /** The transfers of the first n quotes. */
    function Offers(n: nat): seq<Submission>
      requires n <= |sources|
    {
      if n == 0 then [] else Offers(n - 1) + Offer(n - 1)
    }

    /** The account indexes of the first n sources. */
    function Indexes(n: nat): (r: seq<nat>)
      requires n <= |sources|
      ensures |r| == n && forall k :: 0 <= k < n ==> r[k] == sources[k].accountIndex
    {
      if n == 0 then [] else Indexes(n - 1) + [sources[n - 1].accountIndex]
    }

    /** Only the first request may top up gas, and each request is for its own source. */
    lemma {:induction false} RequestsInOrder(n: nat)
      requires n <= |sources|
      ensures |Requests(n)| == n
      ensures forall k :: 0 <= k < n ==> Requests(n)[k] == Request(k) && (Requests(n)[k].topupGas ==> k == 0)
    {
      if n > 0 { RequestsInOrder(n - 1); }
    }

    /** As long as every quote validates, each source has exactly one transfer, in order. */
    lemma {:induction false} OffersInOrder(n: nat)
      requires n <= |sources| && forall k :: 0 <= k < n ==> Quote(k).Success?
      ensures |Offers(n)| == n
      ensures forall k :: 0 <= k < n ==> Offers(n)[k] == LegSubmission(sources[k], Quote(k).value)
    {
      if n > 0 {
        assert Quote(n - 1).Success?;
        OffersInOrder(n - 1);
      }
    }

    /** The number of legs that were asked for before one failed. */
    function Reached(n: nat): (k: nat)
      requires n <= |sources|
      ensures k <= n
    {
      if n == 0 then 0 else if Delivered(n - 1).Success? then n else Reached(n - 1)
    }

    /** A failed leg fails everything after it. */
    lemma {:induction false} DeliveredStops(n: nat, m: nat)
      requires n <= m <= |sources| && Delivered(n).Failure?
      ensures Delivered(m) == Delivered(n) && Reached(m) == Reached(n)
      decreases m
    {
      if n < m { DeliveredStops(n, m - 1); }
    }

    /** After every leg the staging account holds its initial balance and all the minimums so far. */
    lemma {:induction false} DeliveredCoversMinimums(n: nat)
      requires n <= |sources| && Delivered(n).Success?
      ensures Delivered(n).value >= initial + Minimums(n)
      ensures forall k :: 0 <= k < n ==> Quote(k).Success?
    {
      if n > 0 {
        LegAdds(n - 1);
        DeliveredCoversMinimums(n - 1);
      }
    }

    lemma LegAdds(k: nat)
      requires k < |sources| && Delivered(k + 1).Success?
      ensures Delivered(k).Success? && Quote(k).Success?
      ensures Delivered(k + 1).value - Minimums(k + 1) >= Delivered(k).value - Minimums(k)
    {
    }
  }

  /** The shared deposit and private merge of everything delivered. */
  function Merged(delivered: nat, feeBuffer: nat, answers: Answers, indexes: seq<nat>): Result<Returned, BatchError> {
    var _ :- Need(delivered > feeBuffer, TooSmallToMerge);
    var _ :- Need(answers.deposit.Some?, Unreachable);
    var deposit := answers.deposit.value;
    var _ :- Need(deposit.deposited && deposit.net > feeBuffer, DepositTooSmall);
    var _ :- Need(answers.merge.Some?, Unreachable);
    var _ :- Need(answers.merge.value.confirmed, NotConfirmed);
    Success(Returned(deposit.net - feeBuffer, answers.merge.value.txHash, true, false, indexes))
  }

  /** The route of a batch once both balances of the staging account are known. */
  function RouteOf(relay: Quoter, given: seq<Source>, staging: Address, answers: Answers): Route {
    Route(relay, Ordered(given), staging, answers.balance.GetOr(0), answers.nativeBalance == Some(0), answers.leg)
  }

  function Outcome(route: Route, feeBuffer: nat, answers: Answers): Result<Returned, BatchError> {
    var _ :- Need(DistinctIndexes(route.sources), DuplicateAccount);
    var _ :- Need(answers.balance.Some?, Unreachable);
    if route.sources == [] && answers.balance.value == 0 then Success(Returned(0, "", false, true, []))
    else
      var _ :- Need(answers.nativeBalance.Some?, Unreachable);
      var delivered :- route.Delivered(|route.sources|);
      Merged(delivered, feeBuffer, answers, route.Indexes(|route.sources|))
  }

  /** How many sources a batch tries to route: none with a duplicate, or without both balances. */
  function Attempted(route: Route, answers: Answers): (n: nat)
    ensures n <= |route.sources|
  {
    if !DistinctIndexes(route.sources) || answers.balance.None? || answers.nativeBalance.None? then 0
    else route.Reached(|route.sources|)
  }

  // ----- The batch -----

  method FindDuplicate(sources: seq<Source>) returns (duplicate: bool)
    ensures duplicate <==> !DistinctIndexes(sources)
  {
    var indexes: set<nat> := {};
    for i := 0 to |sources|
      invariant indexes == set k | 0 <= k < i :: sources[k].accountIndex
      invariant DistinctIndexes(sources[..i])
    {
      if sources[i].accountIndex in indexes {
        return true;
      }
      indexes := indexes + {sources[i].accountIndex};
    }
    assert sources[..|sources|] == sources;
    return false;
  }

  /** One leg: quote, submit the quoted deposit, and await its delivery. */
  method RouteSource(route: Route, k: nat, topupGas: bool, delivered: nat)
    returns (r: Result<nat, BatchError>, request: QuoteRequest, submission: seq<Submission>)
    requires k < |route.sources| && topupGas == (route.needsGas && k == 0)
    ensures request == route.Request(k)
    ensures r == route.AfterLeg(k, Success(delivered))
    ensures submission == route.Offer(k)
  {
    request := LegRequest(route.sources[k], route.staging, topupGas);
    var quote := LegQuote(route.relay, request, route.leg(k));
    if quote.Failure? {
      return Failure(quote.error), request, [];
    }
    return LegDelivery(quote.value, route.leg(k), delivered), request, [LegSubmission(route.sources[k], quote.value)];
  }

  /** Routes one transfer per source until one fails, topping up gas in the first at most. */
  method RouteSources(route: Route)
    returns (
      r: Result<nat, BatchError>,
      asked: seq<QuoteRequest>,
      submitted: seq<Submission>,
      sourceAccountIndexes: seq<nat>)
    ensures r == route.Delivered(|route.sources|)
    ensures asked == route.Requests(route.Reached(|route.sources|))
    ensures submitted == route.Offers(route.Reached(|route.sources|))
    ensures r.Success? ==> sourceAccountIndexes == route.Indexes(|route.sources|)
  {
    asked, submitted, sourceAccountIndexes := [], [], [];
    var delivered, needsGasTopup := route.initial, route.needsGas;
    for index := 0 to |route.sources|
      invariant needsGasTopup == (route.needsGas && index == 0)
      invariant route.Delivered(index) == Success(delivered)
      invariant route.Reached(index) == index
      invariant asked == route.Requests(index) && submitted == route.Offers(index)
      invariant sourceAccountIndexes == route.Indexes(index)
    {
      var next, request, submission := RouteSource(route, index, needsGasTopup, delivered);
      asked := asked + [request];
      submitted := submitted + submission;
      if next.Failure? {
        route.DeliveredStops(index + 1, |route.sources|);
        return next, asked, submitted, sourceAccountIndexes;
      }
      delivered := next.value;
      needsGasTopup := false;
      sourceAccountIndexes := sourceAccountIndexes + [route.sources[index].accountIndex];
    }
    r := Success(delivered);
  }

  /**
   * Rejects duplicate positions before any transfer; then routes the positive sources,
   * largest first; then deposits and merges what has arrived.
   */
  method ReturnBatch(relay: Quoter, given: seq<Source>, staging: Address, feeBuffer: nat, answers: Answers)
    returns (r: Result<Returned, BatchError>, asked: seq<QuoteRequest>, submitted: seq<Submission>)
    ensures r == Outcome(RouteOf(relay, given, staging, answers), feeBuffer, answers)
    ensures var route := RouteOf(relay, given, staging, answers);
            && asked == route.Requests(Attempted(route, answers))
            && submitted == route.Offers(Attempted(route, answers))
  {
    asked, submitted := [], [];
    var sources := Ordered(given);
    var duplicate := FindDuplicate(sources);
    if duplicate {
      return Failure(DuplicateAccount), asked, submitted;
    }
    if answers.balance.None? {
      return Failure(Unreachable), asked, submitted;
    }
    if sources == [] && answers.balance.value == 0 {
      return Success(Returned(0, "", false, true, [])), asked, submitted;
    }
    if answers.nativeBalance.None? {
      return Failure(Unreachable), asked, submitted;
    }
    var delivered, sourceAccountIndexes;
    delivered, asked, submitted, sourceAccountIndexes := RouteSources(RouteOf(relay, given, staging, answers));
    if delivered.Failure? {
      return Failure(delivered.error), asked, submitted;
    }
    r := Merged(delivered.value, feeBuffer, answers, sourceAccountIndexes);
  }

  // ----- What the results mean -----

  /** The sources of a batch are exactly the positive ones, largest amount first. */
  lemma OrderedIsPositive(given: seq<Source>)
    ensures Sorted(Ordered(given), LargestFirst)
    ensures multiset(Ordered(given)) == multiset(Positive(given))
    ensures forall s :: s in Ordered(given) <==> s in given && s.amount > 0
  {
    SortSorts(Positive(given), LargestFirst);
    PositiveMembers(given);
  }

  lemma {:induction false} PositiveMembers(given: seq<Source>)
    ensures forall s :: s in Positive(given) <==> s in given && s.amount > 0
  {
    if given != [] {
      PositiveMembers(given[1..]);
      assert given == [given[0]] + given[1..];
    }
  }

  /**
   * A batch that succeeds returns either nothing, from no source and an empty staging
   * account, or the net deposit less the buffer, which is positive, for every source of
   * its route in order, out of a balance above the buffer that covers the initial balance
   * and every quote's minimum.
   */
  lemma SuccessfulBatch(route: Route, feeBuffer: nat, answers: Answers, result: Returned)
    requires Outcome(route, feeBuffer, answers) == Success(result)
    ensures DistinctIndexes(route.sources)
    ensures result.alreadyClaimed ==>
              && route.sources == [] && answers.balance == Some(0)
              && result.amountReturned == 0 && result.sourceAccountIndexes == []
    ensures Attempted(route, answers) == |route.sources| == |route.Offers(|route.sources|)|
    ensures !result.alreadyClaimed ==>
              var delivered := route.Delivered(|route.sources|);
              && result.sourceAccountIndexes == route.Indexes(|route.sources|)
              && answers.deposit.Some? && result.amountReturned == answers.deposit.value.net - feeBuffer > 0
              && delivered.Success? && delivered.value > feeBuffer
              && delivered.value >= route.initial + route.Minimums(|route.sources|)
  {
    if !result.alreadyClaimed {
      route.DeliveredCoversMinimums(|route.sources|);
      route.OffersInOrder(|route.sources|);
    }
  }

  /**
   * Each request of a batch is for its own source, largest first: its USDG on Robinhood for
   * USDC in the staging account on Arbitrum, refunded to its owner, under a strict deposit
   * address; gas is topped up by the first one exactly when the staging account has none.
   */
  lemma RequestsAreExact(relay: Quoter, given: seq<Source>, staging: Address, answers: Answers, n: nat, k: nat)
    requires k < n <= |Ordered(given)|
    ensures var asked := RouteOf(relay, given, staging, answers).Requests(n);
            var source := Ordered(given)[k];
            && |asked| == n && source.amount > 0
            && asked[k] == QuoteRequest(source.account, ROBINHOOD_CHAIN_ID, ARBITRUM_CHAIN_ID, ROBINHOOD_USDG,
                                        ARBITRUM_NATIVE_USDC, source.amount, staging, source.owner, true, true, 100,
                                        k == 0 && answers.nativeBalance == Some(0))
  {
    RouteOf(relay, given, staging, answers).RequestsInOrder(n);
    OrderedIsPositive(given);
    assert Ordered(given)[k] in Ordered(given);
  }

  /** A leg that holds: an attested quote without native value, executed, relayed, and at least its minimum more. */
  ghost predicate LegHolds(route: Route, k: nat)
    requires k < |route.sources|
  {
    var leg := route.leg(k);
    && leg.body.Some? && leg.submitted && leg.executed && leg.relayed && leg.balance.Some?
    && var quote := route.relay(route.Request(k), leg.body.value);
       && quote.Success? && quote.value.deposit.value == 0 && quote.value.attestation.Some?
       && leg.balance.value >= Before(route, k) + quote.value.minimumOutputAmount
  }

  /** The staging balance before a leg: at first the initial one, then that after the leg before. */
  function Before(route: Route, k: nat): nat
    requires k <= |route.sources|
  {
    if k == 0 then route.initial else route.leg(k - 1).balance.GetOr(0)
  }

  /** The first n legs deliver exactly when each of them holds, and then what is in the staging account. */
  lemma {:induction false} DeliveredExactly(route: Route, n: nat)
    requires n <= |route.sources|
    ensures route.Delivered(n).Success? <==> forall k :: 0 <= k < n ==> LegHolds(route, k)
    ensures route.Delivered(n).Success? ==> route.Delivered(n).value == Before(route, n)
  {
    if n > 0 {
      DeliveredExactly(route, n - 1);
      LegDecides(route, n - 1);
    }
  }

  lemma LegDecides(route: Route, k: nat)
    requires k < |route.sources|
    requires route.Delivered(k).Success? ==> route.Delivered(k).value == Before(route, k)
    ensures route.Delivered(k + 1).Success? <==> route.Delivered(k).Success? && LegHolds(route, k)
    ensures route.Delivered(k + 1).Success? ==> route.Delivered(k + 1).value == Before(route, k + 1)
  {
  }

  /**
   * A batch succeeds exactly when no position is named twice, both balances are read, and
   * either there is nothing at all, or every leg holds and the deposit and the merge of what
   * has arrived succeed above the fee buffer; and then it reports the merge.
   */
  lemma BatchSucceeds(relay: Quoter, given: seq<Source>, staging: Address, feeBuffer: nat, answers: Answers)
    ensures var route := RouteOf(relay, given, staging, answers);
            var r := Outcome(route, feeBuffer, answers);
            var nothing := Ordered(given) == [] && answers.balance == Some(0);
            && (r.Success? <==>
                  && DistinctIndexes(Ordered(given)) && answers.balance.Some?
                  && (nothing ||
                      (&& answers.nativeBalance.Some?
                       && (forall k :: 0 <= k < |Ordered(given)| ==> LegHolds(route, k))
                       && Before(route, |Ordered(given)|) > feeBuffer
                       && answers.deposit.Some? && answers.deposit.value.deposited
                       && answers.deposit.value.net > feeBuffer
                       && answers.merge.Some? && answers.merge.value.confirmed)))
            && (r.Success? && !nothing ==>
                  && r.value.amountReturned == answers.deposit.value.net - feeBuffer
                  && r.value.claimTxHash == answers.merge.value.txHash
                  && r.value.ranFreshBurn && !r.value.alreadyClaimed
                  && |r.value.sourceAccountIndexes| == |Ordered(given)|
                  && forall k :: 0 <= k < |Ordered(given)| ==>
                       r.value.sourceAccountIndexes[k] == Ordered(given)[k].accountIndex)
            && (r.Success? && nothing ==> r.value == Returned(0, "", false, true, []))
  {
    DeliveredExactly(RouteOf(relay, given, staging, answers), |Ordered(given)|);
  }

  /** Every submitted transfer moves exactly its source's amount from that source to the quote's deposit address. */
  lemma SubmissionsAreExact(route: Route, k: nat)
    requires route.relay == QuoteStrictDepositRoute && k < |route.sources| && route.Offer(k) != []
    ensures var quote, submission := route.Quote(k).value, route.Offer(k)[0];
            && route.sources[k].amount > 0
            && submission.accountIndex == route.sources[k].accountIndex
            && submission.requestId == quote.requestId && Some(submission.attestation) == quote.attestation
            && submission.target == ROBINHOOD_USDG && quote.deposit.from == route.sources[k].account
            && Lower(submission.data) == EncodeTransfer(Transfer(quote.depositAddress, route.sources[k].amount))
  {
    QuoteSpends(route.relay, route.Request(k), route.Quote(k).value);
  }
}
