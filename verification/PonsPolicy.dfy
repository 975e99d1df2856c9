/** The relayer's semantic policy: which signed call batches it will pay to relay. */
module PonsPolicy {
  import opened Wrappers
  import opened Requests
  import opened CurveQuote
  import opened PonsCalls
  import opened WalletMessage

  datatype PolicyError =
    | Quote(error: QuoteError)
    | Message(reason: MessageError)
    | WrongChain
    | UnknownShape
    | NativeValue
    | WrongSelector
    | WrongPair
    | WrongFeeRecipient
    | EconomicsNotPinned
    | MetadataOutOfRange
    | LaunchClosed
    | ConfigDisabled
    | PairNotApproved
    | WrongLaunchValue
    | WrongPrefund
    | TaxAboveMaximum
    | StaleEconomics
    | WrongSpender
    | WrongFactory
    | InactiveLaunch
    | WrongApprovalTarget
    | InexactApproval
    | NoMinimum
    | WrongRecipient
    | MinimumTooLow
    | CurveReady
    | AmountNotPositive
    | SelfTransfer
    | NoRelayRequest
    | CombinedAuthorization
    | NoAttestation
    | NoVerifier
    | RelayRejected
    | WrongRecoveryRecipient
    | RecoveryExpired
    | RecoveryTooLong
    | OutlivesRecovery
    | WrongRecoverySource
    | BadWalletSignature

  /** What the return verifier is asked to bind to its attestation. */
  datatype ReturnBinding = ReturnBinding(
    requestId: string,
    quoteAttestation: string,
    account: Address,
    owner: Address,
    depositAddress: Address,
    amount: nat)

  /** What the policy consults besides the chain: verifier, clock and signature check. */
  datatype Environment = Environment(
    returnVerifier: Option<ReturnBinding -> bool>,
    nowMs: nat,
    upper: Checksum,
    signedBy: (Address, string, string) -> bool)

  function OfQuote(error: QuoteError): PolicyError {
    Quote(error)
  }

  function ValidateRequest(request: PonsRequest, chain: Chain, d: Deployment, env: Environment)
    : Result<(), PolicyError>
  {
    if request.chainId != d.chainId then Failure(WrongChain)
    else if |request.calls| == 1 && request.calls[0].target == d.factory then ValidateLaunch(request, chain, d)
    else if |request.calls| == 1 && request.calls[0].target == d.usdg then ValidateReturnTransfer(request, env)
    else if |request.calls| == 2 then ValidateCurveTrade(request, chain, d)
    else Failure(UnknownShape)
  }

  // ----- Returns -----

  function ValidateReturnTransfer(request: PonsRequest, env: Environment): Result<(), PolicyError>
    requires |request.calls| == 1
  {
    var call := request.calls[0];
    var _ :- Need(call.value == 0 && request.prefund == 0, NativeValue);
    if !call.data.Transfer? then Failure(WrongSelector)
    else
      var recipient, amount := call.data.recipient, call.data.amount;
      var _ :- Need(amount > 0, PolicyError.AmountNotPositive);
      var _ :- Need(recipient != request.account, SelfTransfer);
      if request.relayRequestId.None? then
        if request.walletRecovery.Some?
        then ValidateDirectRecovery(request, request.walletRecovery.value, recipient, amount, env)
        else Failure(NoRelayRequest)
      else
        var _ :- Need(request.walletRecovery.None?, CombinedAuthorization);
        var _ :- Need(request.relayQuoteAttestation.Some?, NoAttestation);
        var _ :- Need(env.returnVerifier.Some?, NoVerifier);
        Need(env.returnVerifier.value(
               ReturnBinding(request.relayRequestId.value, request.relayQuoteAttestation.value,
                             request.account, request.owner, recipient, amount)),
             RelayRejected)
  }

  const RECOVERY_WINDOW_SECONDS := 15 * 60

  function FindEntry(entries: seq<RecoveryEntry>, account: Address): Option<RecoveryEntry> {
    if entries == [] then None
    else if entries[0].account == account then Some(entries[0])
    else FindEntry(entries[1..], account)
  }

  function ValidateDirectRecovery(
    request: PonsRequest, auth: RecoveryAuthorization, recipient: Address, amount: nat, env: Environment)
    : Result<(), PolicyError>
  {
    var _ :- Need(request.relayRequestId.None? && request.relayQuoteAttestation.None?, CombinedAuthorization);
    var _ :- Need(auth.recipient == recipient, WrongRecoveryRecipient);
    var now := env.nowMs / 1000;
    var _ :- Need(auth.deadline >= now, RecoveryExpired);
    var _ :- Need(auth.deadline <= now + RECOVERY_WINDOW_SECONDS, RecoveryTooLong);
    var _ :- Need(request.deadline <= auth.deadline, OutlivesRecovery);
    var source := FindEntry(auth.accounts, request.account);
    var _ :- Need(source.Some? && source.value.amount == amount, WrongRecoverySource);
    var message := WalletRecoveryMessage(
                     MessageArgs(request.chainId, request.factory, auth.recipient, auth.accounts, auth.deadline),
                     env.upper);
    if message.Failure? then Failure(Message(message.error))
    else Need(env.signedBy(auth.recipient, message.value, auth.signature), BadWalletSignature)
  }

  // ----- Launches -----

  predicate MetadataFits(p: LaunchParams) {
    && Within(p.name, 1, 64)
    && Within(p.symbol, 1, 16)
    && Within(p.logo, 0, 512)
    && Within(p.description, 0, 2_048)
    && SocialsFit(p.socials)
  }

  function ValidateLaunch(request: PonsRequest, chain: Chain, d: Deployment): Result<(), PolicyError>
    requires |request.calls| == 1
  {
    var call := request.calls[0];
    if !call.data.LaunchToken? then Failure(WrongSelector)
    else
      var params, configId := call.data.params, call.data.configId;
      var _ :- Need(call.data.pairToken == d.usdg, WrongPair);
      var _ :- Need(params.creatorFeeRecipient == request.account, WrongFeeRecipient);
      var _ :- Need(params.expectedEconomics != 0, EconomicsNotPinned);
      var _ :- Need(MetadataFits(params), MetadataOutOfRange);
      var _ :- Need(chain.canLaunch(request.account), LaunchClosed);
      var _ :- Need(chain.configEnabled(configId), ConfigDisabled);
      var _ :- Need(chain.pairApproved(d.usdg), PairNotApproved);
      var _ :- Need(call.value == chain.launchFee, WrongLaunchValue);
      var _ :- Need(request.prefund == chain.launchFee, WrongPrefund);
      var _ :- Need(params.creatorTaxBps <= chain.maxCreatorTaxBps, TaxAboveMaximum);
      Need(params.expectedEconomics == chain.economics(configId, d.usdg), StaleEconomics)
  }

  // ----- Trades -----

  predicate ActiveLaunch(launch: Launch, token: Address, curve: Address, d: Deployment) {
    && launch.registered && launch.phase == 0
    && launch.token == token && launch.curve == curve && launch.pairToken == d.usdg
  }

  function ValidateCurveTrade(request: PonsRequest, chain: Chain, d: Deployment): Result<(), PolicyError>
    requires |request.calls| == 2
  {
    var approval, trade := request.calls[0], request.calls[1];
    var _ :- Need(approval.value == 0 && trade.value == 0, NativeValue);
    var _ :- Need(request.prefund == 0, WrongPrefund);
    if !approval.data.Approve? || !(trade.data.Buy? || trade.data.Sell?) then Failure(WrongSelector)
    else
      var curve := trade.target;
      var contract := chain.curveAt(curve);
      var _ :- Need(approval.data.spender == curve, WrongSpender);
      var _ :- Need(contract.factory == d.factory, WrongFactory);
      var _ :- Need(contract.pairToken == d.usdg, WrongPair);
      var _ :- Need(ActiveLaunch(chain.launchOf(contract.token), contract.token, curve, d), InactiveLaunch);
      if trade.data.Buy? then
        var _ :- Need(approval.target == d.usdg, WrongApprovalTarget);
        var _ :- Need(approval.data.amount == trade.data.quoteIn && trade.data.quoteIn > 0, InexactApproval);
        var _ :- Need(trade.data.minTokensOut > 0, NoMinimum);
        var _ :- Need(trade.data.recipient == request.account, WrongRecipient);
        var quote :- QuoteBuy(contract.For(request.account), trade.data.quoteIn).MapError(OfQuote);
        var minimum := BuyMinimumFromQuote(quote.tokensOut, quote.spent, trade.data.quoteIn, MAX_SLIPPAGE_BPS);
        var least :- minimum.MapError(OfQuote);
        Need(trade.data.minTokensOut >= least, MinimumTooLow)
      else
        var _ :- Need(!contract.readyToGraduate, CurveReady);
        var _ :- Need(approval.target == contract.token, WrongApprovalTarget);
        var _ :- Need(approval.data.amount == trade.data.tokensIn && trade.data.tokensIn > 0, InexactApproval);
        var _ :- Need(trade.data.minQuoteOut > 0, NoMinimum);
        var _ :- Need(trade.data.recipient == request.account, WrongRecipient);
        var quoteOut :- QuoteSell(contract.For(request.account), trade.data.tokensIn).MapError(OfQuote);
        var least :- ApplySlippage(quoteOut, MAX_SLIPPAGE_BPS).MapError(OfQuote);
        Need(trade.data.minQuoteOut >= least, MinimumTooLow)
  }
}
