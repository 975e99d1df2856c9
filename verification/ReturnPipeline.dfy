/** The private return end to end: quote, attestation, client validation, policy. */
module ReturnPipeline {
  import opened Wrappers
  import opened Numerals
  import opened Requests
  import opened Base64Url
  import opened RelayQuotes
  import opened RelayAttestation
  import opened PonsCalls
  import opened PonsPolicy

  /** How the relayer decodes a deposit's calldata. */
  function DecodedCall(data: string): CallData {
    match DecodeTransfer(data)
    case Some(t) => CallData.Transfer(t.recipient, t.amount)
    case None => Unrecognized
  }

  /** The execution request the client builds from a validated return quote. */
  function ReturnExecution(session: PonsRequest, quote: RelayQuote): PonsRequest {
    session.(calls := [Call(quote.deposit.to, 0, DecodedCall(quote.deposit.data))],
             prefund := 0,
             relayRequestId := Some(quote.requestId),
             relayQuoteAttestation := quote.attestation,
             walletRecovery := None)
  }

  function WithVerifier(env: Environment, seal: Seal): Environment {
    env.(returnVerifier := Some((b: ReturnBinding) => VerifyReturn(seal, env.nowMs, b).Success?))
  }

  /** A quote with a token in it validates as the quote itself, with the token. */
  lemma TokenDoesNotMatter(request: QuoteRequest, body: QuoteBody, token: string)
    requires IsAttestation(token)
    ensures ValidateRelayQuote(body.(attestation := Is(token)), request) ==
              var plain := ValidateRelayQuote(body, request);
              if plain.Failure? then plain else Success(plain.value.(attestation := Some(token)))
  {
  }

  /** Attesting a quote changes nothing the client validates, except that a token is now present. */
  lemma AttestationOnlyAddsToken(seal: Seal, request: QuoteRequest, body: QuoteBody, issuedAt: int, token: string)
    requires Faithful(seal) && IsReturnRoute(request)
    requires AttestRelayReturnQuote(seal, request, body, issuedAt) == Success(body.(attestation := Is(token)))
    ensures QuoteToSeal(request, body, issuedAt).Success?
    ensures CreateAttestation(seal, QuoteToSeal(request, body, issuedAt).value) == Success(token)
    ensures ValidateRelayQuote(body.(attestation := Is(token)), request) ==
              var plain := ValidateRelayQuote(body, request);
              if plain.Failure? then plain else Success(plain.value.(attestation := Some(token)))
  {
    var attested := body.(attestation := Is(token));
    assert attested.attestation.value == token;
    var quote := QuoteToSeal(request, body, issuedAt).value;
    HonestTokenVerifies(seal, quote, token, issuedAt);
    TokenDoesNotMatter(request, body, token);
  }

  lemma {:induction false} OnlyDepositIsFirst(steps: seq<Step>)
    requires |DepositSteps(steps)| == 1
    ensures FirstDeposit(steps) == Some(DepositSteps(steps)[0])
  {
    if !steps[0].IsDeposit() { OnlyDepositIsFirst(steps[1..]); }
  }

  /** What a sealed quote says of the answer's one deposit. */
  lemma SealReads(request: QuoteRequest, body: QuoteBody, issuedAt: int, sealed: SealedQuote)
    requires QuoteToSeal(request, body, issuedAt) == Success(sealed)
    ensures body.requestId == Is(sealed.requestId) && sealed.amount == request.amount
    ensures request.originCurrency == ROBINHOOD_USDG && request.destinationCurrency == ARBITRUM_NATIVE_USDC
    ensures request.useDepositAddress && request.strict
    ensures sealed.account == request.user && sealed.owner == request.refundTo && sealed.recipient == request.recipient
    ensures sealed.issuedAt == issuedAt && sealed.expiresAt == issuedAt + ATTESTATION_TTL_MS
    ensures |DepositSteps(body.steps)| == 1
    ensures var tx := OnlyTransaction(Some(DepositSteps(body.steps)[0]));
            && tx.Success? && tx.value.data.Is? && (tx.value.value == Missing || tx.value.value == Is(0))
            && DecodeTransfer(tx.value.data.value) == Some(Transfer.Transfer(sealed.depositAddress, sealed.amount))
  {
    DecimalRoundTrip(request.amount);
  }

  /** What a validated quote says of the answer's first deposit. */
  lemma QuoteReads(request: QuoteRequest, body: QuoteBody, quote: RelayQuote)
    requires ValidateRelayQuote(body, request) == Success(quote)
    ensures body.requestId == Is(quote.requestId) && quote.inputAmount == request.amount
    ensures var tx := OnlyTransaction(FirstDeposit(body.steps));
            && tx.Success?
            && ValidateDeposit(tx.value, request, quote.inputAmount) == Success((quote.depositAddress, quote.deposit))
  {
  }

  /** A validated deposit whose calldata is a transfer is that transfer. */
  lemma DepositReads(tx: Transaction, request: QuoteRequest, quote: RelayQuote, t: Transfer)
    requires ValidateDeposit(tx, request, quote.inputAmount) == Success((quote.depositAddress, quote.deposit))
    requires tx.data.Is? && DecodeTransfer(tx.data.value) == Some(t) && (tx.value == Missing || tx.value == Is(0))
    ensures quote.depositAddress == t.recipient && quote.inputAmount == t.amount > 0
    ensures quote.deposit.to == request.originCurrency && quote.deposit.value == 0
    ensures DecodedCall(quote.deposit.data) == CallData.Transfer(t.recipient, t.amount)
  {
  }

  /** The proxy and the client read the same deposit out of one answer. */
  lemma SealMatchesQuote(
    request: QuoteRequest, body: QuoteBody, issuedAt: int, sealed: SealedQuote, quote: RelayQuote)
    requires QuoteToSeal(request, body, issuedAt) == Success(sealed)
    requires ValidateRelayQuote(body, request) == Success(quote)
    requires IsReturnRoute(request)
    ensures sealed.requestId == quote.requestId
    ensures sealed.depositAddress == quote.depositAddress && sealed.amount == quote.inputAmount > 0
    ensures quote.deposit.to == ROBINHOOD_USDG && quote.deposit.value == 0
    ensures DecodedCall(quote.deposit.data) == CallData.Transfer(sealed.depositAddress, sealed.amount)
    ensures sealed.account == request.user && sealed.owner == request.refundTo && sealed.recipient == request.recipient
    ensures sealed.issuedAt == issuedAt && sealed.expiresAt == issuedAt + ATTESTATION_TTL_MS
  {
    OnlyDepositIsFirst(body.steps);
    SealReads(request, body, issuedAt, sealed);
    QuoteReads(request, body, quote);
    DepositReads(OnlyTransaction(FirstDeposit(body.steps)).value, request, quote,
                 Transfer.Transfer(sealed.depositAddress, sealed.amount));
  }

  /** The policy's checks on a relayed return, with the verifier it consults. */
  lemma PolicyOnReturn(
    session: PonsRequest, quote: RelayQuote, sealed: SealedQuote, token: string, env: Environment, seal: Seal)
    requires quote.attestation == Some(token) && sealed.amount > 0
    requires DecodedCall(quote.deposit.data) == CallData.Transfer(sealed.depositAddress, sealed.amount)
    ensures ValidateReturnTransfer(ReturnExecution(session, quote), WithVerifier(env, seal)).Success?
            <==> && sealed.depositAddress != session.account
                 && VerifyReturn(seal, env.nowMs, ReturnBinding(quote.requestId, token, session.account, session.owner,
                                                                sealed.depositAddress, sealed.amount)).Success?
  {
  }

  /** A binding that agrees with the sealed quote verifies while the window is open and the recipient isolated. */
  lemma HonestBindingVerifies(seal: Seal, sealed: SealedQuote, token: string, nowMs: int, b: ReturnBinding)
    requires Faithful(seal) && CreateAttestation(seal, sealed) == Success(token)
    requires b == ReturnBinding(sealed.requestId, token, sealed.account, sealed.owner, sealed.depositAddress,
                                sealed.amount)
    ensures VerifyReturn(seal, nowMs, b).Success?
            <==> && sealed.recipient != sealed.account && sealed.recipient != sealed.owner
                 && sealed.issuedAt - MAX_CLOCK_SKEW_MS <= nowMs <= sealed.expiresAt
  {
    HonestTokenVerifies(seal, sealed, token, nowMs);
  }

  /**
   * A quote that the proxy attests and the client validates passes the policy exactly when
   * the deposit address is not the account, the recipient is neither the account nor its
   * owner, and the relayer's clock is between a minute before and fifteen minutes after issue.
   */
  lemma HonestReturnIsAccepted(
    seal: Seal, request: QuoteRequest, body: QuoteBody, issuedAt: int, token: string, quote: RelayQuote,
    session: PonsRequest, chain: Chain, d: Deployment, env: Environment)
    requires Faithful(seal) && IsReturnRoute(request)
    requires AttestRelayReturnQuote(seal, request, body, issuedAt) == Success(body.(attestation := Is(token)))
    requires QuoteStrictDepositRoute(request, body.(attestation := Is(token))) == Success(quote)
    requires session.account == request.user && session.owner == request.refundTo
    requires session.chainId == d.chainId && d.usdg == ROBINHOOD_USDG && d.factory != d.usdg
    ensures ValidateRequest(ReturnExecution(session, quote), chain, d, WithVerifier(env, seal)).Success?
            <==> && quote.depositAddress != session.account
                 && request.recipient != session.account && request.recipient != session.owner
                 && issuedAt - MAX_CLOCK_SKEW_MS <= env.nowMs <= issuedAt + ATTESTATION_TTL_MS
  {
    AttestationOnlyAddsToken(seal, request, body, issuedAt, token);
    var sealed := QuoteToSeal(request, body, issuedAt).value;
    var plain := ValidateRelayQuote(body, request).value;
    SealMatchesQuote(request, body, issuedAt, sealed, plain);
    PolicyOnReturn(session, quote, sealed, token, env, seal);
    HonestBindingVerifies(
      seal, sealed, token, env.nowMs,
      ReturnBinding(quote.requestId, token, session.account, session.owner, sealed.depositAddress, sealed.amount));
  }

  // ----- What an accepted return proves -----

  /** The payloads that the proxy has sealed. */
  ghost predicate Issued(seal: Seal, sealed: seq<SealedQuote>, payload: string) {
    exists q :: q in sealed && CreateAttestation(seal, q).Success?
        && payload == Payload(seal, SealedClaims(q))
  }

  /** An ideal MAC: nobody shows a payload with its tag unless the proxy sealed that payload. */
  ghost predicate Unforged(seal: Seal, sealed: seq<SealedQuote>, token: string) {
    var parts := SplitAt(token, '.');
    |parts| == 3 && AllSymbols(parts[2]) && Decode(parts[2]) == seal.mac(parts[1]) ==> Issued(seal, sealed, parts[1])
  }

  lemma VerifiedParts(seal: Seal, token: string, nowMs: int) returns (parts: seq<string>)
    requires VerifyAttestation(seal, token, nowMs).Success?
    ensures parts == SplitAt(token, '.') && |parts| == 3
    ensures AllSymbols(parts[2]) && Decode(parts[2]) == seal.mac(parts[1])
  {
    parts := SplitAt(token, '.');
  }

  lemma PayloadDecodes(seal: Seal, claims: Claims)
    requires Faithful(seal)
    ensures AllSymbols(Payload(seal, claims)) && seal.parse(Decode(Payload(seal, claims))) == Some(AsRaw(claims))
  {
    Base64RoundTrip(seal.json(claims), Payload(seal, claims));
  }

  /** A verified token whose payload is that of some normal claims carries these claims. */
  lemma PayloadOpens(seal: Seal, token: string, nowMs: int, claims: Claims)
    requires Faithful(seal) && NormalizeClaims(AsRaw(claims)) == Success(claims)
    requires VerifyAttestation(seal, token, nowMs).Success?
    requires |SplitAt(token, '.')| == 3 && SplitAt(token, '.')[1] == Payload(seal, claims)
    ensures VerifyAttestation(seal, token, nowMs).value == claims
    ensures claims.issuedAt - MAX_CLOCK_SKEW_MS <= nowMs <= claims.expiresAt
  {
    PayloadDecodes(seal, claims);
  }

  /** A token that verifies is one of the proxy's quotes, read at a time inside its window. */
  lemma VerifiedTokenWasSealed(seal: Seal, sealed: seq<SealedQuote>, token: string, nowMs: int)
    returns (q: SealedQuote)
    requires Faithful(seal) && Unforged(seal, sealed, token)
    requires VerifyAttestation(seal, token, nowMs).Success?
    ensures q in sealed
    ensures VerifyAttestation(seal, token, nowMs).value == SealedClaims(q)
    ensures q.issuedAt - MAX_CLOCK_SKEW_MS <= nowMs <= q.expiresAt
  {
    var parts := VerifiedParts(seal, token, nowMs);
    assert Issued(seal, sealed, parts[1]);
    q :| q in sealed && CreateAttestation(seal, q).Success?
         && parts[1] == Payload(seal, SealedClaims(q));
    SealedClaimsAreNormal(q);
    PayloadOpens(seal, token, nowMs, SealedClaims(q));
  }

  /**
   * Whatever request the policy accepts as a Relay return, its one transfer carries exactly
   * the amount and deposit address of a quote the proxy sealed for this account, owner and
   * request, whose recipient is isolated from both and whose window is open.
   */
  lemma AcceptedReturnWasAttested(
    r: PonsRequest, seal: Seal, sealed: seq<SealedQuote>, env: Environment)
    returns (q: SealedQuote)
    requires |r.calls| == 1 && r.relayRequestId.Some?
    requires Faithful(seal)
    requires r.relayQuoteAttestation.Some? ==> Unforged(seal, sealed, r.relayQuoteAttestation.value)
    requires ValidateReturnTransfer(r, WithVerifier(env, seal)).Success?
    ensures q in sealed
    ensures r.calls[0].data == CallData.Transfer(q.depositAddress, q.amount)
    ensures r.calls[0].value == 0 && r.prefund == 0 && r.walletRecovery.None?
    ensures r.account == q.account && r.owner == q.owner && Lower(r.relayRequestId.value) == Lower(q.requestId)
    ensures q.depositAddress != r.account && q.recipient != r.account && q.recipient != r.owner
    ensures q.issuedAt - MAX_CLOCK_SKEW_MS <= env.nowMs <= q.expiresAt
  {
    var data := r.calls[0].data;
    var token := r.relayQuoteAttestation.value;
    var b := ReturnBinding(r.relayRequestId.value, token, r.account, r.owner, data.recipient, data.amount);
    assert VerifyReturn(seal, env.nowMs, b).Success?;
    q := VerifiedTokenWasSealed(seal, sealed, token, env.nowMs);
    DecimalTextInjective(q.amount, b.amount);
  }
}
