/** The adapter and the policy agree: what is built from a chain state is accepted on it. */
module PolicyAcceptance {
  import opened Wrappers
  import opened Requests
  import opened CurveQuote
  import opened PonsCalls
  import opened PonsAdapter
  import opened PonsPolicy

  /** A request of this account for these calls, as the client prepares it. */
  ghost predicate Carries(request: PonsRequest, calls: seq<PonsCall>, account: Address, prefund: nat, d: Deployment) {
    request.calls == calls && request.account == account && request.prefund == prefund && request.chainId == d.chainId
  }

  // ----- What the adapter builds -----

  /** The curve is that of an active launch of the token, in USDG and of this factory. */
  ghost predicate LiveCurve(token: Address, curve: Address, chain: Chain, d: Deployment) {
    var launch, contract := chain.launchOf(token), chain.curveAt(curve);
    && launch.registered && launch.phase == 0 && launch.token == token && launch.curve == curve
    && launch.pairToken == d.usdg && contract.token == token && contract.pairToken == d.usdg
    && contract.factory == d.factory
  }

  /** The largest minimum that gives up no less than the slippage share of an amount. */
  predicate GivesUp(amount: nat, m: nat, slippageBps: int) {
    amount * slippageBps <= (amount - m) * BPS < amount * slippageBps + BPS
  }

  lemma SlippageIsExact(amount: nat, slippageBps: int)
    ensures var minimum := ApplySlippage(amount, slippageBps);
            && (minimum.Success? <==> 0 <= slippageBps <= 5_000 && amount * (BPS - slippageBps) >= BPS)
            && (minimum.Success? ==> 0 < minimum.value <= amount && GivesUp(amount, minimum.value, slippageBps))
  {
    assert amount * (BPS - slippageBps) == amount * BPS - amount * slippageBps;
  }

  /**
   * A sell is built exactly for a live curve that is not ready to graduate, with a quote, a
   * slippage of at most 50% and a minimum of at least one; and then it approves the curve
   * for the tokens it sells, and gives up exactly the trader's slippage.
   */
  lemma BuiltSellIsExact(intent: TradeIntent, account: Address, chain: Chain, d: Deployment) returns (m: nat)
    ensures var quoteOut := QuoteSell(chain.curveAt(intent.curve).For(account), intent.amount);
            var built := BuildCloseCalls(intent, account, chain, d);
            && (built.Success? <==>
                  && LiveCurve(intent.token, intent.curve, chain, d)
                  && !chain.curveAt(intent.curve).readyToGraduate
                  && quoteOut.Success? && 0 <= intent.slippageBps <= 5_000
                  && quoteOut.value * (BPS - intent.slippageBps) >= BPS)
            && (built.Success? ==>
                  && intent.amount > 0 && 0 < m <= quoteOut.value
                  && built.value == [Call(intent.token, 0, Approve(intent.curve, intent.amount)),
                                     Call(intent.curve, 0, Sell(intent.amount, m, account))]
                  && GivesUp(quoteOut.value, m, intent.slippageBps))
  {
    m := 0;
    var quoteOut := QuoteSell(chain.curveAt(intent.curve).For(account), intent.amount);
    if quoteOut.Success? {
      SlippageIsExact(quoteOut.value, intent.slippageBps);
      var minimum := ApplySlippage(quoteOut.value, intent.slippageBps);
      if minimum.Success? { m := minimum.value; }
    }
  }

  /**
   * Likewise a buy, whose minimum gives up the trader's slippage of the tokens that the
   * whole input would buy at the quoted rate.
   */
  lemma BuiltBuyIsExact(intent: TradeIntent, account: Address, chain: Chain, d: Deployment)
    returns (m: nat, rate: nat)
    ensures var q := QuoteBuy(chain.curveAt(intent.curve).For(account), intent.amount);
            var built := BuildOpenCalls(intent, account, chain, d);
            && (q.Success? ==>
                  rate * q.value.spent <= q.value.tokensOut * intent.amount < rate * q.value.spent + q.value.spent)
            && (built.Success? <==>
                  && LiveCurve(intent.token, intent.curve, chain, d)
                  && q.Success? && 0 <= intent.slippageBps <= 5_000
                  && rate * (BPS - intent.slippageBps) >= BPS)
            && (built.Success? ==>
                  && intent.amount > 0 && 0 < m <= rate
                  && built.value == [Call(d.usdg, 0, Approve(intent.curve, intent.amount)),
                                     Call(intent.curve, 0, Buy(intent.amount, m, account))]
                  && GivesUp(rate, m, intent.slippageBps))
  {
    m, rate := 0, 0;
    var quote := QuoteBuy(chain.curveAt(intent.curve).For(account), intent.amount);
    if quote.Success? {
      var q := quote.value;
      BuyQuoteIsSound(chain.curveAt(intent.curve).For(account), intent.amount, q);
      rate := RateNormalized(q.tokensOut, q.spent, intent.amount);
      SlippageIsExact(rate, intent.slippageBps);
      var minimum := ApplySlippage(rate, intent.slippageBps);
      if minimum.Success? { m := minimum.value; }
    }
  }

  // ----- What the policy accepts -----

  /** The policy allows 50% slippage: half an amount rounds to zero exactly below two. */
  lemma HalfRoundsToZero(amount: nat)
    ensures ApplySlippage(amount, MAX_SLIPPAGE_BPS).Success? <==> amount >= 2
  {
  }

  /**
   * On equal reads every buy batch the adapter builds is accepted, for every slippage it
   * allows, exactly when the rate-normalised output is at least two: at one, the policy's
   * own 50% minimum rounds to zero.
   */
  lemma BuiltBuyIsAccepted(
    intent: TradeIntent, account: Address, chain: Chain, d: Deployment, env: Environment,
    calls: seq<PonsCall>, request: PonsRequest)
    requires BuildOpenCalls(intent, account, chain, d) == Success(calls)
    requires Carries(request, calls, account, 0, d)
    ensures var q := QuoteBuy(chain.curveAt(intent.curve).For(account), intent.amount);
            && q.Success? && q.value.spent > 0 && intent.amount > 0
            && (ValidateRequest(request, chain, d, env).Success?
                <==> RateNormalized(q.value.tokensOut, q.value.spent, intent.amount) >= 2)
  {
    var q := QuoteBuy(chain.curveAt(intent.curve).For(account), intent.amount).value;
    BuyQuoteIsSound(chain.curveAt(intent.curve).For(account), intent.amount, q);
    var rate := RateNormalized(q.tokensOut, q.spent, intent.amount);
    HalfRoundsToZero(rate);
    SlippageAntitone(rate, intent.slippageBps, MAX_SLIPPAGE_BPS);
  }

  /** A fee-free curve that has two tokens against some USDG. */
  function SmallCurve(token: Address, reserve: nat, d: Deployment): CurveContract {
    CurveContract(token, d.usdg, d.factory, reserve, 2, 2, 0, 0, _ => 0, false)
  }

  function SmallChain(token: Address, curve: Address, reserve: nat, d: Deployment): Chain {
    Chain(_ => SmallCurve(token, reserve, d), _ => Launch(true, 0, token, curve, d.usdg), _ => true, 0, 0, _ => true,
          _ => true, (_, _) => 1)
  }

  lemma FreeInput(amount: nat)
    ensures NetInput(amount, 0, 0, 0) == amount
  {
    assert CurveQuote.Fee(amount, 0) == 0;
  }

  lemma FreeBuy(c: Curve, quoteIn: int, output: nat)
    requires quoteIn > 0 && c.feeBps == c.creatorTaxBps == c.rawSnipeTaxBps == 0 && 0 < output <= c.sellable
    requires ConstantProductAmountOut(quoteIn, c.quoteReserve, c.tokenReserve) == Success(output)
    ensures QuoteBuy(c, quoteIn) == Success(BuyQuote(output, quoteIn, 0, 0))
  {
    FreeInput(quoteIn);
  }

  /** Doubling the reserve of such a curve buys one of its two tokens. */
  lemma OneOfTwo(reserve: nat, tokens: nat)
    requires reserve > 0 && tokens == 2
    ensures ConstantProductAmountOut(reserve, reserve, tokens) == Success(1)
  {
    BuysAtLeast(reserve, reserve, tokens, 1);
    BuysAtLeast(reserve, reserve, tokens, 2);
  }

  lemma SmallMinimum(amount: nat)
    requires amount == 1
    ensures ApplySlippage(amount, 0) == Success(1)
    ensures ApplySlippage(amount, MAX_SLIPPAGE_BPS) == Failure(MinimumRoundsToZero)
  {
    SlippageIsExact(amount, 0);
    SlippageIsExact(amount, MAX_SLIPPAGE_BPS);
  }

  lemma SmallRate(spent: nat)
    requires spent > 0
    ensures BuyMinimumFromQuote(1, spent, spent, 0) == Success(1)
    ensures BuyMinimumFromQuote(1, spent, spent, MAX_SLIPPAGE_BPS) == Failure(MinimumRoundsToZero)
  {
    DivAtLeast(spent, spent, 1);
    DivAtLeast(spent, spent, 2);
    SmallMinimum(1);
  }

  /** How the policy decides on a buy of an active launch: by its own minimum of the live quote. */
  lemma BuyVerdict(
    curve: Address, amount: nat, minTokensOut: nat, account: Address, chain: Chain, d: Deployment, env: Environment,
    request: PonsRequest, q: BuyQuote)
    requires Carries(request, [ApproveCall(d.usdg, curve, amount), Call(curve, 0, Buy(amount, minTokensOut, account))],
                     account, 0, d)
    requires var contract := chain.curveAt(curve);
             && contract.factory == d.factory && contract.pairToken == d.usdg
             && ActiveLaunch(chain.launchOf(contract.token), contract.token, curve, d)
             && QuoteBuy(contract.For(account), amount) == Success(q)
    requires amount > 0 && minTokensOut > 0
    ensures ValidateRequest(request, chain, d, env) ==
              var least := BuyMinimumFromQuote(q.tokensOut, q.spent, amount, MAX_SLIPPAGE_BPS);
              if least.Failure? then Failure(PolicyError.Quote(least.error))
              else Need(minTokensOut >= least.value, MinimumTooLow)
  {
  }

  /** What the adapter builds from a quote and its minimum. */
  lemma BuyFrom(
    intent: TradeIntent, account: Address, chain: Chain, d: Deployment, q: BuyQuote, minTokensOut: nat)
    requires LiveCurve(intent.token, intent.curve, chain, d)
    requires QuoteBuy(chain.curveAt(intent.curve).For(account), intent.amount) == Success(q) && intent.amount > 0
    requires BuyMinimumFromQuote(q.tokensOut, q.spent, intent.amount, intent.slippageBps) == Success(minTokensOut)
    ensures BuildOpenCalls(intent, account, chain, d) ==
              Success([ApproveCall(d.usdg, intent.curve, intent.amount),
                       Call(intent.curve, 0, Buy(intent.amount, minTokensOut, account))])
  {
  }

  /**
   * The smallest case: whatever buys one token, on whatever live curve, the buy without
   * slippage is quoted and built, and refused on the same chain because the policy's own
   * minimum throws.
   */
  lemma OneTokenBuyIsRefused(
    token: Address, curve: Address, amount: nat, account: Address, chain: Chain, d: Deployment, env: Environment,
    request: PonsRequest, q: BuyQuote)
    requires LiveCurve(token, curve, chain, d) && amount > 0
    requires QuoteBuy(chain.curveAt(curve).For(account), amount) == Success(q) && q.tokensOut == 1 && q.spent == amount
    requires Carries(request, [ApproveCall(d.usdg, curve, amount), Call(curve, 0, Buy(amount, 1, account))],
                     account, 0, d)
    ensures BuildOpenCalls(TradeIntent(token, curve, amount, 0), account, chain, d) == Success(request.calls)
    ensures ValidateRequest(request, chain, d, env) == Failure(PolicyError.Quote(MinimumRoundsToZero))
  {
    SmallRate(amount);
    BuyFrom(TradeIntent(token, curve, amount, 0), account, chain, d, q, 1);
    BuyVerdict(curve, amount, 1, account, chain, d, env, request, q);
  }

  /** There are such buys: any amount, against a fee-free curve that holds as much and two tokens. */
  lemma OneTokenIsQuoted(token: Address, curve: Address, amount: nat, account: Address, d: Deployment)
    requires amount > 0
    ensures LiveCurve(token, curve, SmallChain(token, curve, amount, d), d)
    ensures QuoteBuy(SmallChain(token, curve, amount, d).curveAt(curve).For(account), amount)
            == Success(BuyQuote(1, amount, 0, 0))
  {
    OneOfTwo(amount, 2);
    FreeBuy(SmallChain(token, curve, amount, d).curveAt(curve).For(account), amount, 1);
  }

  /** Likewise for sells: accepted exactly when the quoted output is at least two. */
  lemma BuiltSellIsAccepted(
    intent: TradeIntent, account: Address, chain: Chain, d: Deployment, env: Environment,
    calls: seq<PonsCall>, request: PonsRequest)
    requires BuildCloseCalls(intent, account, chain, d) == Success(calls)
    requires Carries(request, calls, account, 0, d)
    ensures var quoteOut := QuoteSell(chain.curveAt(intent.curve).For(account), intent.amount);
            quoteOut.Success? && (ValidateRequest(request, chain, d, env).Success? <==> quoteOut.value >= 2)
  {
    var quoteOut := QuoteSell(chain.curveAt(intent.curve).For(account), intent.amount).value;
    HalfRoundsToZero(quoteOut);
    SlippageAntitone(quoteOut, intent.slippageBps, MAX_SLIPPAGE_BPS);
  }

  /** Every launch batch is accepted exactly when it is prefunded with the launch fee. */
  lemma BuiltLaunchIsAccepted(
    intent: LaunchIntent, account: Address, chain: Chain, d: Deployment, env: Environment,
    calls: seq<PonsCall>, request: PonsRequest)
    requires BuildLaunchCalls(intent, account, chain, d) == Success(calls)
    requires Carries(request, calls, account, request.prefund, d)
    ensures ValidateRequest(request, chain, d, env).Success? <==> request.prefund == chain.launchFee
  {
  }

  /**
   * What acceptance of a trade means: the approval is for exactly the traded amount and
   * the traded curve, the curve is an active recorded launch, the proceeds go to the
   * account, and the signed minimum is at least half of what the live curve quotes.
   */
  lemma AcceptedTradeIsBounded(request: PonsRequest, chain: Chain, d: Deployment, env: Environment)
    requires |request.calls| == 2 && ValidateRequest(request, chain, d, env).Success?
    ensures var approval, trade := request.calls[0], request.calls[1];
            var contract := chain.curveAt(trade.target);
            && approval.data.Approve? && approval.data.spender == trade.target
            && approval.value == 0 && trade.value == 0 && request.prefund == 0
            && LiveCurve(contract.token, trade.target, chain, d)
            && (trade.data.Buy? || trade.data.Sell?)
            && trade.data.recipient == request.account
            && (trade.data.Buy? ==>
                  && approval.target == d.usdg && approval.data.amount == trade.data.quoteIn
                  && var q := QuoteBuy(contract.For(request.account), trade.data.quoteIn);
                     && q.Success?
                     && 2 * trade.data.minTokensOut + 1 >= q.value.tokensOut)
            && (trade.data.Sell? ==>
                  && approval.target == contract.token && approval.data.amount == trade.data.tokensIn
                  && !contract.readyToGraduate
                  && var quoteOut := QuoteSell(contract.For(request.account), trade.data.tokensIn);
                     quoteOut.Success? && 2 * trade.data.minQuoteOut + 1 >= quoteOut.value)
  {
    var trade := request.calls[1];
    var contract := chain.curveAt(trade.target);
    if trade.data.Buy? {
      var q := QuoteBuy(contract.For(request.account), trade.data.quoteIn).value;
      BuyQuoteIsSound(contract.For(request.account), trade.data.quoteIn, q);
      DivAtLeast(q.tokensOut * trade.data.quoteIn, q.spent, q.tokensOut);
      Times(q.spent, trade.data.quoteIn, q.tokensOut);
    }
  }

  // ----- What the policy accepts can be built -----

  lemma {:induction false} TrimTwice(s: string)
    ensures Trim(Trim(s)) == Trim(s)
    decreases |s|
  {
    if s != "" && IsSpace(s[0]) {
      TrimTwice(s[1..]);
    } else if s != "" && IsSpace(s[|s| - 1]) {
      TrimTwice(s[..|s| - 1]);
    }
  }

  /** The intent that asks for a launch call's own parameters. */
  function IntentOf(p: LaunchParams, configId: nat): LaunchIntent {
    var s := p.socials;
    LaunchIntent(p.name, p.symbol, Some(p.logo), Some(p.description), Some(s.twitter), Some(s.telegram),
                 Some(s.discord), Some(s.website), Some(s.farcaster), Some(p.creatorTaxBps), Some(p.buybackEnabled),
                 Some(configId), p.salt)
  }

  /** What the adapter demands of launch parameters and the policy does not. */
  predicate Buildable(p: LaunchParams) {
    Trim(p.name) == p.name && Trim(p.symbol) == p.symbol && p.creatorTaxBps <= 10_000 && IsBytes32(p.salt)
  }

  /** Some intent makes the adapter build these calls for the account. */
  ghost predicate CanBuild(calls: seq<PonsCall>, account: Address, chain: Chain, d: Deployment) {
    exists intent :: BuildLaunchCalls(intent, account, chain, d) == Success(calls)
  }

  lemma BuiltFromIntent(
    intent: LaunchIntent, calls: seq<PonsCall>, account: Address, chain: Chain, d: Deployment)
    requires BuildLaunchCalls(intent, account, chain, d) == Success(calls)
    ensures |calls| == 1 && calls[0].data.LaunchToken?
    ensures var p := calls[0].data.params;
            && p.name == Trim(intent.name) && p.symbol == Trim(intent.symbol) && p.salt == intent.salt
            && IsBytes32(p.salt) && p.creatorTaxBps <= 10_000
  {
  }

  lemma BuiltIsBuildable(calls: seq<PonsCall>, account: Address, chain: Chain, d: Deployment)
    requires CanBuild(calls, account, chain, d)
    ensures |calls| == 1 && calls[0].data.LaunchToken? && Buildable(calls[0].data.params)
  {
    var intent :| BuildLaunchCalls(intent, account, chain, d) == Success(calls);
    BuiltFromIntent(intent, calls, account, chain, d);
    TrimTwice(intent.name);
    TrimTwice(intent.symbol);
  }

  /** The guards that an accepted launch has passed. */
  lemma LaunchGuards(request: PonsRequest, chain: Chain, d: Deployment, env: Environment)
    requires |request.calls| == 1 && request.calls[0].target == d.factory
    requires ValidateRequest(request, chain, d, env).Success?
    ensures var call := request.calls[0];
            && call.data.LaunchToken? && call.data.pairToken == d.usdg && call.value == chain.launchFee
            && MetadataFits(call.data.params)
            && call.data.params.creatorFeeRecipient == request.account
            && call.data.params.expectedEconomics == chain.economics(call.data.configId, d.usdg) != 0
            && call.data.params.creatorTaxBps <= chain.maxCreatorTaxBps
            && chain.canLaunch(request.account) && chain.configEnabled(call.data.configId) && chain.pairApproved(d.usdg)
  {
  }

  lemma FittingIntentIsValid(p: LaunchParams, configId: nat)
    requires MetadataFits(p) && Buildable(p)
    ensures ValidateLaunchIntent(IntentOf(p, configId)).Success?
  {
  }

  lemma AcceptedParamsBuild(request: PonsRequest, chain: Chain, d: Deployment, env: Environment)
    requires |request.calls| == 1 && request.calls[0].target == d.factory
    requires ValidateRequest(request, chain, d, env).Success? && Buildable(request.calls[0].data.params)
    ensures CanBuild(request.calls, request.account, chain, d)
  {
    LaunchGuards(request, chain, d, env);
    var data := request.calls[0].data;
    var intent := IntentOf(data.params, data.configId);
    FittingIntentIsValid(data.params, data.configId);
    assert request.calls == [Call(d.factory, chain.launchFee, LaunchToken(data.params, data.configId, d.usdg))];
    assert BuildLaunchCalls(intent, request.account, chain, d) == Success(request.calls);
  }

  /**
   * The policy accepts no launch that the adapter could not have built from some intent for
   * the same account, except one whose name or symbol has outer spaces, whose tax is above
   * 100% (where the factory allows that), or whose salt is not 32 bytes.
   */
  lemma AcceptedLaunchIsBuilt(request: PonsRequest, chain: Chain, d: Deployment, env: Environment)
    requires |request.calls| == 1 && request.calls[0].target == d.factory
    requires ValidateRequest(request, chain, d, env).Success?
    ensures request.calls[0].data.LaunchToken?
    ensures CanBuild(request.calls, request.account, chain, d) <==> Buildable(request.calls[0].data.params)
  {
    if CanBuild(request.calls, request.account, chain, d) {
      BuiltIsBuildable(request.calls, request.account, chain, d);
    }
    if request.calls[0].data.LaunchToken? && Buildable(request.calls[0].data.params) {
      AcceptedParamsBuild(request, chain, d, env);
    }
  }
}
