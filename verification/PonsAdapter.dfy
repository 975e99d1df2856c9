/** The Pons V2 adapter: intents become call batches against the chain it reads. */
module PonsAdapter {
  import opened Wrappers
  import opened Requests
  import opened CurveQuote
  import opened PonsCalls

  datatype AdapterError =
    | Quote(error: QuoteError)
    | NotRegistered
    | WrongPhase
    | TokenMismatch
    | CurveMismatch
    | WrongPair
    | WrongFactory
    | CurveReady
    | TextOutOfRange
    | BadSalt
    | BadTax
    | BadConfig
    | LaunchClosed
    | ConfigDisabled
    | PairNotApproved
    | NoEconomics
    | TaxAboveMaximum

  datatype TradeIntent = TradeIntent(token: Address, curve: Address, amount: int, slippageBps: int)

  datatype LaunchIntent = LaunchIntent(
    name: string,
    symbol: string,
    logo: Option<string>,
    description: Option<string>,
    twitter: Option<string>,
    telegram: Option<string>,
    discord: Option<string>,
    website: Option<string>,
    farcaster: Option<string>,
    creatorTaxBps: Option<int>,
    buybackEnabled: Option<bool>,
    launchConfigId: Option<int>,
    salt: string)

  function OfQuote(error: QuoteError): AdapterError {
    Quote(error)
  }

  function ApproveCall(token: Address, spender: Address, amount: nat): PonsCall {
    Call(token, 0, Approve(spender, amount))
  }

  function ValidateLiveCurve(token: Address, curve: Address, chain: Chain, d: Deployment, selling: bool)
    : Result<Launch, AdapterError>
  {
    var launch := chain.launchOf(token);
    var contract := chain.curveAt(curve);
    var _ :- Need(launch.registered, NotRegistered);
    var _ :- Need(launch.phase == 0, WrongPhase);
    var _ :- Need(launch.token == token, TokenMismatch);
    var _ :- Need(launch.curve == curve && contract.token == token, CurveMismatch);
    var _ :- Need(launch.pairToken == d.usdg && contract.pairToken == d.usdg, WrongPair);
    var _ :- Need(contract.factory == d.factory, WrongFactory);
    var _ :- Need(!(selling && contract.readyToGraduate), CurveReady);
    Success(launch)
  }

  function BuildOpenCalls(intent: TradeIntent, account: Address, chain: Chain, d: Deployment)
    : Result<seq<PonsCall>, AdapterError>
  {
    var _ :- ValidateLiveCurve(intent.token, intent.curve, chain, d, false);
    var quote :- QuoteBuy(chain.curveAt(intent.curve).For(account), intent.amount).MapError(OfQuote);
    var minimum := BuyMinimumFromQuote(quote.tokensOut, quote.spent, intent.amount, intent.slippageBps);
    var minTokensOut :- minimum.MapError(OfQuote);
    Success([ApproveCall(d.usdg, intent.curve, intent.amount),
             Call(intent.curve, 0, Buy(intent.amount, minTokensOut, account))])
  }

  function BuildCloseCalls(intent: TradeIntent, account: Address, chain: Chain, d: Deployment)
    : Result<seq<PonsCall>, AdapterError>
  {
    var _ :- ValidateLiveCurve(intent.token, intent.curve, chain, d, true);
    var quoteOut :- QuoteSell(chain.curveAt(intent.curve).For(account), intent.amount).MapError(OfQuote);
    var minQuoteOut :- ApplySlippage(quoteOut, intent.slippageBps).MapError(OfQuote);
    Success([ApproveCall(intent.token, intent.curve, intent.amount),
             Call(intent.curve, 0, Sell(intent.amount, minQuoteOut, account))])
  }

  // ----- Launching -----

  /** The characters that JavaScript's `trim` removes. */
  predicate IsSpace(c: char) {
    var code := c as int;
    || 9 <= code <= 13 || code == 32 || code == 0xA0 || code == 0x1680 || 0x2000 <= code <= 0x200A
    || code == 0x2028 || code == 0x2029 || code == 0x202F || code == 0x205F || code == 0x3000 || code == 0xFEFF
  }

  function Trim(s: string): string {
    if s == "" then ""
    else if IsSpace(s[0]) then Trim(s[1..])
    else if IsSpace(s[|s| - 1]) then Trim(s[..|s| - 1])
    else s
  }

  predicate Fits(text: Option<string>, maximum: nat) {
    text.Some? ==> Within(text.value, 0, maximum)
  }

  function ValidateLaunchIntent(i: LaunchIntent): Result<(), AdapterError> {
    var _ :- Need(Within(Trim(i.name), 1, 64) && Within(Trim(i.symbol), 1, 16), TextOutOfRange);
    var _ :- Need(Within(i.logo.GetOr(""), 0, 512) && Within(i.description.GetOr(""), 0, 2_048), TextOutOfRange);
    var _ :- Need(&& Fits(i.twitter, 256) && Fits(i.telegram, 256) && Fits(i.discord, 256)
                  && Fits(i.website, 256) && Fits(i.farcaster, 256), TextOutOfRange);
    var _ :- Need(IsBytes32(i.salt), BadSalt);
    var _ :- Need(0 <= i.creatorTaxBps.GetOr(0) <= 10_000, BadTax);
    Need(i.launchConfigId.GetOr(0) >= 0, BadConfig)
  }

  function BuildLaunchCalls(i: LaunchIntent, account: Address, chain: Chain, d: Deployment)
    : Result<seq<PonsCall>, AdapterError>
  {
    var _ :- ValidateLaunchIntent(i);
    var tax, configId := i.creatorTaxBps.GetOr(0), i.launchConfigId.GetOr(0);
    var digest := chain.economics(configId, d.usdg);
    var _ :- Need(chain.canLaunch(account), LaunchClosed);
    var _ :- Need(chain.configEnabled(configId), ConfigDisabled);
    var _ :- Need(chain.pairApproved(d.usdg), PairNotApproved);
    var _ :- Need(digest != 0, NoEconomics);
    var _ :- Need(tax <= chain.maxCreatorTaxBps, TaxAboveMaximum);
    var socials := Socials(i.twitter.GetOr(""), i.telegram.GetOr(""), i.discord.GetOr(""),
                           i.website.GetOr(""), i.farcaster.GetOr(""));
    var params := LaunchParams(Trim(i.name), Trim(i.symbol), i.logo.GetOr(""), i.description.GetOr(""), socials,
                               account, tax, i.buybackEnabled.GetOr(false), digest, i.salt);
    Success([Call(d.factory, chain.launchFee, LaunchToken(params, configId, d.usdg))])
  }
}
