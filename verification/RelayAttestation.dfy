/**
 * The short-lived token that binds a return to the quote the proxy saw: how the proxy
 * seals it, and what the policy relayer's verifier accepts.
 */
module RelayAttestation {
  import opened Wrappers
  import opened Numerals
  import opened Requests
  import opened Base64Url
  import opened RelayQuotes
  import opened PonsPolicy

  const ATTESTATION_VERSION := 1
  const MAX_CLOCK_SKEW_MS := 60_000
  const ATTESTATION_TTL_MS := 15 * 60_000

  datatype Claims = Claims(
    requestId: string,
    account: Address,
    owner: Address,
    recipient: Address,
    depositAddress: Address,
    amount: string,
    issuedAt: int,
    expiresAt: int)

  /** Claims as JSON reads them, before they are checked. */
  datatype RawClaims = RawClaims(
    version: Field<int>,
    requestId: Field<string>,
    account: Field<Address>,
    owner: Field<Address>,
    recipient: Field<Address>,
    depositAddress: Field<Address>,
    amount: Field<string>,
    issuedAt: Field<int>,
    expiresAt: Field<int>)

  datatype AttestationError =
    | BadVersion
    | BadClaimedRequest
    | BadClaimedAmount
    | BadTimestamps
    | BadAddress
    | ExpiryBeforeIssue
    | BadEnvelope
    | NotBase64
    | NotAuthentic
    | NotJson
    | IssuedInFuture
    | Expired

  predicate IsPositiveDecimal(s: string) {
    |s| >= 1 && AllDecimal(s) && s[0] != '0'
  }

  predicate IsSafeInteger(n: int) {
    -MAX_SAFE_INTEGER <= n <= MAX_SAFE_INTEGER
  }

  function AsRaw(c: Claims): RawClaims {
    RawClaims(Is(ATTESTATION_VERSION), Is(c.requestId), Is(c.account), Is(c.owner), Is(c.recipient),
              Is(c.depositAddress), Is(c.amount), Is(c.issuedAt), Is(c.expiresAt))
  }

  function NormalizeClaims(raw: RawClaims): Result<Claims, AttestationError> {
    var _ :- Need(raw.version == Is(ATTESTATION_VERSION), BadVersion);
    var _ :- Need(raw.requestId.Is? && IsBytes32(raw.requestId.value), BadClaimedRequest);
    var _ :- Need(raw.amount.Is? && IsPositiveDecimal(raw.amount.value), BadClaimedAmount);
    var _ :- Need(&& raw.issuedAt.Is? && IsSafeInteger(raw.issuedAt.value)
                  && raw.expiresAt.Is? && IsSafeInteger(raw.expiresAt.value), BadTimestamps);
    var _ :- Need(raw.account.Is? && raw.owner.Is? && raw.recipient.Is? && raw.depositAddress.Is?, BadAddress);
    Success(Claims(Lower(raw.requestId.value), raw.account.value, raw.owner.value, raw.recipient.value,
                   raw.depositAddress.value, raw.amount.value, raw.issuedAt.value, raw.expiresAt.value))
  }

  /** The JSON form of claims, and the MAC under the key that the proxy and the relayer share. */
  datatype Seal = Seal(
    json: Claims -> seq<Byte>,
    parse: seq<Byte> -> Option<RawClaims>,
    mac: string -> seq<Byte>)

  /** JSON parsing undoes JSON printing, and a tag is 32 bytes. */
  ghost predicate Faithful(seal: Seal) {
    && (forall c :: seal.json(c) != [] && seal.parse(seal.json(c)) == Some(AsRaw(c)))
    && forall payload :: |seal.mac(payload)| == 32
  }

  // ----- The envelope -----

  function Payload(seal: Seal, c: Claims): (s: string)
    ensures AllSymbols(s)
  {
    Encode(seal.json(c))
  }

  function Envelope(seal: Seal, payload: string): string {
    "v1" + ['.'] + (payload + ['.'] + Encode(seal.mac(payload)))
  }

  function SplitAt(s: string, c: char): (parts: seq<string>)
    ensures |parts| >= 1
  {
    if s == "" then [""]
    else
      var rest := SplitAt(s[1..], c);
      if s[0] == c then [""] + rest else [[s[0]] + rest[0]] + rest[1..]
  }

  lemma {:induction false} SplitUncut(s: string, c: char)
    requires Without(s, c)
    ensures SplitAt(s, c) == [s]
  {
    if s != "" {
      SplitUncut(s[1..], c);
      assert s == [s[0]] + s[1..];
    }
  }

  lemma {:induction false} SplitFirst(a: string, c: char, rest: string)
    requires Without(a, c)
    ensures SplitAt(a + [c] + rest, c) == [a] + SplitAt(rest, c)
  {
    var s := a + [c] + rest;
    if a == "" {
      assert s[1..] == rest;
    } else {
      assert s[1..] == a[1..] + [c] + rest;
      SplitFirst(a[1..], c, rest);
      assert a == [a[0]] + a[1..];
      assert SplitAt(s[1..], c)[1..] == SplitAt(rest, c);
    }
  }

  lemma EnvelopeParts(seal: Seal, payload: string)
    requires AllSymbols(payload)
    ensures SplitAt(Envelope(seal, payload), '.') == ["v1", payload, Encode(seal.mac(payload))]
  {
    var signature := Encode(seal.mac(payload));
    SplitFirst("v1", '.', payload + ['.'] + signature);
    SplitFirst(payload, '.', signature);
    SplitUncut(signature, '.');
  }

  lemma EnvelopeIsAttestation(seal: Seal, payload: string)
    requires AllSymbols(payload) && payload != "" && seal.mac(payload) != []
    ensures IsAttestation(Envelope(seal, payload))
  {
    var signature := Encode(seal.mac(payload));
    var s := Envelope(seal, payload);
    assert s == "v1." + payload + "." + signature;
    assert AttestationCutAt(s, 3 + |payload|);
  }

  // ----- Sealing and verifying -----

  datatype SealedQuote = SealedQuote(
    requestId: string,
    account: Address,
    owner: Address,
    recipient: Address,
    depositAddress: Address,
    amount: nat,
    issuedAt: int,
    expiresAt: int)

  function ClaimsOf(q: SealedQuote): Claims {
    Claims(q.requestId, q.account, q.owner, q.recipient, q.depositAddress, DecimalText(q.amount), q.issuedAt,
           q.expiresAt)
  }

  function CreateAttestation(seal: Seal, q: SealedQuote): Result<string, AttestationError> {
    var claims :- NormalizeClaims(AsRaw(ClaimsOf(q)));
    if claims.expiresAt <= claims.issuedAt then Failure(ExpiryBeforeIssue)
    else Success(Envelope(seal, Payload(seal, claims)))
  }

  function VerifyAttestation(seal: Seal, token: string, nowMs: int): Result<Claims, AttestationError> {
    var parts := SplitAt(token, '.');
    if |parts| != 3 || parts[0] != "v1" || parts[1] == "" || parts[2] == "" then Failure(BadEnvelope)
    else if !AllSymbols(parts[2]) then Failure(NotBase64)
    else if Decode(parts[2]) != seal.mac(parts[1]) then Failure(NotAuthentic)
    else if !AllSymbols(parts[1]) then Failure(NotJson)
    else
      var raw := seal.parse(Decode(parts[1]));
      if raw.None? then Failure(NotJson)
      else
        var claims :- NormalizeClaims(raw.value);
        if claims.issuedAt > nowMs + MAX_CLOCK_SKEW_MS then Failure(IssuedInFuture)
        else if claims.expiresAt < nowMs then Failure(Expired)
        else Success(claims)
  }

  /** Lower-casing keeps a request hash, and a second pass changes nothing. */
  lemma LowerHash(s: string)
    requires IsBytes32(s)
    ensures IsBytes32(Lower(s)) && Lower(Lower(s)) == Lower(s)
  {
  }

  /** The claims the proxy seals for a quote. */
  function SealedClaims(q: SealedQuote): Claims {
    ClaimsOf(q.(requestId := Lower(q.requestId)))
  }

  lemma SealedClaimsAreNormal(q: SealedQuote)
    requires NormalizeClaims(AsRaw(ClaimsOf(q))).Success?
    ensures NormalizeClaims(AsRaw(ClaimsOf(q))) == Success(SealedClaims(q))
    ensures NormalizeClaims(AsRaw(SealedClaims(q))) == Success(SealedClaims(q))
  {
    LowerHash(q.requestId);
  }

  lemma EnvelopeOpens(seal: Seal, claims: Claims, nowMs: int)
    requires Faithful(seal) && NormalizeClaims(AsRaw(claims)) == Success(claims)
    ensures VerifyAttestation(seal, Envelope(seal, Payload(seal, claims)), nowMs) ==
              if claims.issuedAt > nowMs + MAX_CLOCK_SKEW_MS then Failure(IssuedInFuture)
              else if claims.expiresAt < nowMs then Failure(Expired)
              else Success(claims)
  {
    var payload := Payload(seal, claims);
    EnvelopeParts(seal, payload);
    Base64RoundTrip(seal.json(claims), payload);
    Base64RoundTrip(seal.mac(payload), payload);
    assert seal.json(claims) != [] && |seal.mac(payload)| == 32;
  }

  /** A token the proxy creates verifies as its own claims from a minute before issue until expiry. */
  lemma HonestTokenVerifies(seal: Seal, q: SealedQuote, token: string, nowMs: int)
    requires Faithful(seal) && CreateAttestation(seal, q) == Success(token)
    ensures IsAttestation(token)
    ensures VerifyAttestation(seal, token, nowMs) ==
              if q.issuedAt > nowMs + MAX_CLOCK_SKEW_MS then Failure(IssuedInFuture)
              else if q.expiresAt < nowMs then Failure(Expired)
              else Success(SealedClaims(q))
  {
    var claims := SealedClaims(q);
    SealedClaimsAreNormal(q);
    EnvelopeOpens(seal, claims, nowMs);
    assert seal.json(claims) != [] && |seal.mac(Payload(seal, claims))| == 32;
    EnvelopeIsAttestation(seal, Payload(seal, claims));
  }

  // ----- The proxy -----

  datatype ProxyError =
    | Attestation(error: AttestationError)
    | NotStrictRoute
    | BadQuoteAmount
    | BadQuoteRequestId
    | QuoteCurrencyChanged
    | BadDepositSteps
    | DepositChanged
    | NotExactTransfer
    | DepositAmountChanged

  function ReadPositive(text: Field<string>): Result<nat, ProxyError> {
    if text.Is? && IsPositiveDecimal(text.value) then Success(DecimalValue(text.value)) else Failure(BadQuoteAmount)
  }

  function QuoteCurrency(currency: Option<CurrencyAmount>, chainId: int, address: Address): Result<nat, ProxyError> {
    if currency.None? || currency.value.currency.None? then Failure(QuoteCurrencyChanged)
    else
      var descriptor := currency.value.currency.value;
      if descriptor.chainId != Is(chainId) || descriptor.address != Is(address) then Failure(QuoteCurrencyChanged)
      else ReadPositive(currency.value.amount)
  }

  function DepositSteps(steps: seq<Step>): seq<Step> {
    if steps == [] then []
    else (if steps[0].IsDeposit() then [steps[0]] else []) + DepositSteps(steps[1..])
  }

  function AttestedDeposit(tx: Transaction, account: Address, amount: nat): Result<Transfer, ProxyError> {
    var _ :- Need(&& tx.chainId == Is(ROBINHOOD_CHAIN_ID) && tx.from == Is(account) && tx.to == Is(ROBINHOOD_USDG)
                  && (tx.value == Missing || tx.value == Is(0)), DepositChanged);
    var transfer := if tx.data.Is? then DecodeTransfer(tx.data.value) else None;
    var _ :- Need(transfer.Some?, NotExactTransfer);
    var _ :- Need(transfer.value.amount == amount, DepositAmountChanged);
    Success(transfer.value)
  }

  /** What the proxy seals for a return quote: the request's parties and the calldata's destination. */
  function QuoteToSeal(request: QuoteRequest, body: QuoteBody, nowMs: int): Result<SealedQuote, ProxyError> {
    var _ :- Need(&& request.originCurrency == ROBINHOOD_USDG && request.destinationCurrency == ARBITRUM_NATIVE_USDC
                  && request.useDepositAddress && request.strict, NotStrictRoute);
    var amount :- ReadPositive(Is(DecimalText(request.amount)));
    var _ :- Need(body.requestId.Is? && IsBytes32(body.requestId.value), BadQuoteRequestId);
    var input :- QuoteCurrency(body.currencyIn, ROBINHOOD_CHAIN_ID, ROBINHOOD_USDG);
    var _ :- Need(input == amount, BadQuoteAmount);
    var _ :- QuoteCurrency(body.currencyOut, ARBITRUM_CHAIN_ID, ARBITRUM_NATIVE_USDC);
    var deposits := DepositSteps(body.steps);
    if || |deposits| != 1 || deposits[0].items.None? || |deposits[0].items.value| != 1
       || deposits[0].items.value[0].None?
    then Failure(BadDepositSteps)
    else
      var transfer :- AttestedDeposit(deposits[0].items.value[0].value, request.user, amount);
      Success(SealedQuote(body.requestId.value, request.user, request.refundTo, request.recipient,
                          transfer.recipient, amount, nowMs, nowMs + ATTESTATION_TTL_MS))
  }

  predicate IsReturnRoute(request: QuoteRequest) {
    request.originChainId == ROBINHOOD_CHAIN_ID && request.destinationChainId == ARBITRUM_CHAIN_ID
  }

  /** Return quotes get an attestation, whatever upstream claimed; other quotes pass unchanged. */
  function AttestRelayReturnQuote(seal: Seal, request: QuoteRequest, body: QuoteBody, nowMs: int)
    : Result<QuoteBody, ProxyError>
  {
    if !IsReturnRoute(request) then Success(body)
    else
      var quote :- QuoteToSeal(request, body, nowMs);
      var token := CreateAttestation(seal, quote);
      if token.Failure? then Failure(Attestation(token.error))
      else Success(body.(attestation := Is(token.value)))
  }

  // ----- The policy relayer's verifier -----

  datatype VerifierError =
    | Unverified(error: AttestationError)
    | MalformedRequestId
    | RequestIdMismatch
    | AccountMismatch
    | OwnerMismatch
    | DepositMismatch
    | AmountMismatch
    | RecipientNotIsolated

  function VerifyReturn(seal: Seal, nowMs: int, b: ReturnBinding): Result<(), VerifierError> {
    if !IsBytes32(b.requestId) then Failure(MalformedRequestId)
    else
      var verified := VerifyAttestation(seal, b.quoteAttestation, nowMs);
      if verified.Failure? then Failure(Unverified(verified.error))
      else
        var quote := verified.value;
        var _ :- Need(quote.requestId == Lower(b.requestId), RequestIdMismatch);
        var _ :- Need(quote.account == b.account, AccountMismatch);
        var _ :- Need(quote.owner == b.owner, OwnerMismatch);
        var _ :- Need(quote.depositAddress == b.depositAddress, DepositMismatch);
        var _ :- Need(quote.amount == DecimalText(b.amount), AmountMismatch);
        Need(quote.recipient != b.account && quote.recipient != b.owner, RecipientNotIsolated)
  }
}
