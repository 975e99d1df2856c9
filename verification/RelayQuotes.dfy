/** Strict Relay quotes: the request, the deposit calldata, and the client's validation. */
module RelayQuotes {
  import opened Wrappers
  import opened Numerals
  import opened Requests
  import opened Base64Url

  const ARBITRUM_CHAIN_ID := 42161
  const ROBINHOOD_CHAIN_ID := 4663
  const ARBITRUM_NATIVE_USDC: Address := 0xaf88d065e77c8cc2239327c5edb3a432268e5831
  const ROBINHOOD_USDG: Address := 0x5fc5360D0400a0Fd4f2af552ADD042D716F1d168
  const DEFAULT_SLIPPAGE_BPS := 100
  const MAX_RELAY_SLIPPAGE_BPS := 500

  // ----- ERC-20 transfer calldata -----

  const TRANSFER_SELECTOR := "0xa9059cbb"
  const CALLDATA_LENGTH := 138

  datatype Transfer = Transfer(recipient: Address, amount: nat)

  predicate IsCalldata(data: string) {
    |data| == CALLDATA_LENGTH && data[..2] == "0x" && AllHex(data[2..])
  }

  /** An exact transfer: the selector, a recipient word with twelve zero bytes, and an amount word. */
  function DecodeTransfer(data: string): Option<Transfer> {
    if !IsCalldata(data) || Lower(data[..10]) != TRANSFER_SELECTOR then None
    else if exists i :: 10 <= i < 34 && data[i] != '0' then None
    else
      assert AllHex(data[34..74]) && AllHex(data[74..]) by { HexInside(data); }
      AddressFits(data[34..74]);
      Some(Transfer(HexNumber(data[34..74]), HexNumber(data[74..])))
  }

  function EncodeTransfer(t: Transfer): (s: string)
    ensures |s| == CALLDATA_LENGTH
  {
    TRANSFER_SELECTOR + HexWord(t.recipient, 64) + HexWord(t.amount, 64)
  }

  lemma HexInside(data: string)
    requires IsCalldata(data)
    ensures AllHex(data[34..74]) && AllHex(data[74..])
  {
  }

  lemma AddressFits(word: string)
    requires |word| == 40 && AllHex(word)
    ensures HexNumber(word) < ADDRESS_LIMIT
  {
    AddressLimit();
    HexWordOfNumber(word);
  }

  lemma ZeroWord()
    ensures AllHex(seq(24, _ => '0')) && ToText(Zeros(24)) == seq(24, _ => '0')
  {
  }

  lemma {:induction false} ToTextAppends(a: seq<nat>, b: seq<nat>)
    requires forall i :: 0 <= i < |a| ==> a[i] < 16
    requires forall i :: 0 <= i < |b| ==> b[i] < 16
    ensures ToText(a + b) == ToText(a) + ToText(b)
  {
  }

  /** A recipient word is twelve zero bytes and the lower-case address. */
  lemma RecipientWord(word: string)
    requires |word| == 40 && AllHex(word)
    ensures HexWord(HexNumber(word), 64) == seq(24, _ => '0') + Lower(word)
  {
    var ds := ToDigits(word);
    FixedDigitsPadded(ds, Hex, 24);
    ToTextAppends(Zeros(24), ds);
    ZeroWord();
    LowerOfHex(word);
  }

  lemma AmountWord(word: string)
    requires |word| == 64 && AllHex(word)
    ensures HexWord(HexNumber(word), 64) == Lower(word)
  {
    FixedDigitsOfValue(ToDigits(word), Hex);
    LowerOfHex(word);
  }

  lemma LowerZeros(s: string)
    requires |s| == 24
    ensures Lower(s) == seq(24, _ => '0') <==> forall i :: 0 <= i < 24 ==> s[i] == '0'
  {
  }

  /** Calldata decodes to a transfer exactly when, up to letter case, it is that transfer's encoding. */
  lemma TransferCalldataIsExact(data: string, t: Transfer)
    requires IsCalldata(data) && t.amount < Power(Hex, 64)
    ensures DecodeTransfer(data) == Some(t) <==> Lower(data) == EncodeTransfer(t)
  {
    if DecodeTransfer(data) == Some(t) {
      WordsDecoded(data, t);
    }
    if Lower(data) == EncodeTransfer(t) {
      WordsMatch(data, t);
    }
  }

  lemma LowerOfPieces(data: string)
    requires |data| == CALLDATA_LENGTH
    ensures Lower(data) == Lower(data[..10]) + Lower(data[10..34]) + Lower(data[34..74]) + Lower(data[74..])
  {
  }

  lemma DecodedParts(data: string, t: Transfer)
    requires IsCalldata(data) && DecodeTransfer(data) == Some(t)
    ensures Lower(data[..10]) == TRANSFER_SELECTOR
    ensures Lower(data[10..34]) == seq(24, _ => '0')
    ensures AllHex(data[34..74]) && t.recipient == HexNumber(data[34..74])
    ensures AllHex(data[74..]) && t.amount == HexNumber(data[74..])
  {
    LowerZeros(data[10..34]);
  }

  lemma Regrouped(a: string, b: string, c: string, d: string)
    ensures a + b + c + d == a + (b + c) + d
  {
  }

  lemma WordsDecoded(data: string, t: Transfer)
    requires IsCalldata(data) && DecodeTransfer(data) == Some(t)
    ensures Lower(data) == EncodeTransfer(t) && t.amount < Power(Hex, 64)
  {
    DecodedParts(data, t);
    var recipient, amount := data[34..74], data[74..];
    RecipientWord(recipient);
    AmountWord(amount);
    HexWordOfNumber(amount);
    LowerOfPieces(data);
    Regrouped(TRANSFER_SELECTOR, seq(24, _ => '0'), Lower(recipient), Lower(amount));
  }

  /** An address word spells the address in its last forty digits. */
  lemma AddressWord(a: Address)
    ensures HexWord(a, 64) == seq(24, _ => '0') + HexWord(a, 40)
    ensures HexNumber(HexWord(a, 40)) == a
  {
    AddressLimit();
    var word := HexWord(a, 40);
    HexWordRoundTrip(a, 40);
    RecipientWord(word);
    LowerOfHex(word);
    DigitsOfText(FixedDigits(a, Hex, 40));
  }

  lemma SameHalves(a: string, b: string, x: string, y: string)
    requires |a| == |x| && a + b == x + y
    ensures a == x && b == y
  {
    assert a == (a + b)[..|a|] == (x + y)[..|a|] == x;
    assert b == (a + b)[|a|..] == (x + y)[|a|..] == y;
  }

  lemma SamePieces(a: string, b: string, c: string, x: string, y: string, z: string)
    requires |a| == |x| && |b| == |y| && a + b + c == x + y + z
    ensures a == x && b == y && c == z
  {
    SameHalves(a + b, c, x + y, z);
    SameHalves(a, b, x, y);
  }

  lemma MatchedParts(data: string, t: Transfer)
    requires |data| == CALLDATA_LENGTH && Lower(data) == EncodeTransfer(t)
    ensures Lower(data[..10]) == TRANSFER_SELECTOR
    ensures Lower(data[10..34]) + Lower(data[34..74]) == HexWord(t.recipient, 64)
    ensures Lower(data[74..]) == HexWord(t.amount, 64)
  {
    LowerOfPieces(data);
    var selector, zeros, recipient, amount :=
      Lower(data[..10]), Lower(data[10..34]), Lower(data[34..74]), Lower(data[74..]);
    assert selector + (zeros + recipient) + amount == selector + zeros + recipient + amount;
    SamePieces(selector, zeros + recipient, amount, TRANSFER_SELECTOR, HexWord(t.recipient, 64), HexWord(t.amount, 64));
  }

  lemma MatchedRecipient(zeros: string, recipient: string, a: Address)
    requires |zeros| == 24 && |recipient| == 40 && AllHex(recipient)
    requires Lower(zeros) + Lower(recipient) == HexWord(a, 64)
    ensures HexNumber(recipient) == a
    ensures forall i :: 0 <= i < 24 ==> zeros[i] == '0'
  {
    AddressWord(a);
    SameHalves(Lower(zeros), Lower(recipient), seq(24, _ => '0'), HexWord(a, 40));
    LowerZeros(zeros);
    SameNumber(recipient, HexWord(a, 40));
  }

  lemma MatchedAmount(word: string, n: nat)
    requires |word| == 64 && AllHex(word) && n < Power(Hex, 64)
    requires Lower(word) == HexWord(n, 64)
    ensures HexNumber(word) == n
  {
    HexWordRoundTrip(n, 64);
    SameNumber(word, HexWord(n, 64));
  }

  /** Calldata whose three parts are those of a transfer decodes to it. */
  lemma PartsDecode(data: string, t: Transfer)
    requires IsCalldata(data) && Lower(data[..10]) == TRANSFER_SELECTOR
    requires forall i :: 0 <= i < 24 ==> data[10..34][i] == '0'
    requires AllHex(data[34..74]) && HexNumber(data[34..74]) == t.recipient
    requires AllHex(data[74..]) && HexNumber(data[74..]) == t.amount
    ensures DecodeTransfer(data) == Some(t)
  {
    forall i | 10 <= i < 34
      ensures data[i] == '0'
    {
      assert data[i] == data[10..34][i - 10];
    }
  }

  lemma WordsMatch(data: string, t: Transfer)
    requires IsCalldata(data) && t.amount < Power(Hex, 64)
    requires Lower(data) == EncodeTransfer(t)
    ensures DecodeTransfer(data) == Some(t)
  {
    HexInside(data);
    MatchedParts(data, t);
    MatchedRecipient(data[10..34], data[34..74], t.recipient);
    MatchedAmount(data[74..], t.amount);
    PartsDecode(data, t);
  }

  /** Hex text with the same lower-case form is the same number. */
  lemma SameNumber(a: string, lower: string)
    requires AllHex(a) && AllHex(lower) && Lower(a) == lower
    ensures HexNumber(a) == HexNumber(lower)
  {
    LowerOfHex(a);
    DigitsOfText(ToDigits(a));
  }

  // ----- Requests and answers -----

  /** A quote request; on the wire its amount is printed in decimal. */
  datatype QuoteRequest = QuoteRequest(
    user: Address,
    originChainId: int,
    destinationChainId: int,
    originCurrency: Address,
    destinationCurrency: Address,
    amount: nat,
    recipient: Address,
    refundTo: Address,
    useDepositAddress: bool,
    strict: bool,
    slippageBps: int,
    topupGas: bool)

  function FundingQuoteRequest(user: Address, recipient: Address, refundTo: Address, amount: nat): QuoteRequest {
    QuoteRequest(user, ARBITRUM_CHAIN_ID, ROBINHOOD_CHAIN_ID, ARBITRUM_NATIVE_USDC, ROBINHOOD_USDG,
                 amount, recipient, refundTo, true, true, DEFAULT_SLIPPAGE_BPS, false)
  }

  function ReturnQuoteRequest(user: Address, recipient: Address, refundTo: Address, amount: nat, topupGas: bool)
    : QuoteRequest
  {
    QuoteRequest(user, ROBINHOOD_CHAIN_ID, ARBITRUM_CHAIN_ID, ROBINHOOD_USDG, ARBITRUM_NATIVE_USDC,
                 amount, recipient, refundTo, true, true, DEFAULT_SLIPPAGE_BPS, topupGas)
  }

  /** A JSON field: absent (or null), present but unreadable, or read. */
  datatype Field<+T> = Missing | Malformed | Is(value: T) {
    function OrElse(other: Field<T>): Field<T> {
      if Missing? then other else this
    }
  }

  datatype Descriptor = Descriptor(chainId: Field<int>, address: Field<Address>)

  datatype CurrencyAmount = CurrencyAmount(
    currency: Option<Descriptor>,
    chainId: Field<int>,
    address: Field<Address>,
    amount: Field<string>,
    minimumAmount: Field<string>)

  datatype Transaction = Transaction(
    chainId: Field<int>,
    from: Field<Address>,
    to: Field<Address>,
    data: Field<string>,
    value: Field<int>)

  datatype Step = Step(id: Field<string>, items: Option<seq<Option<Transaction>>>) {
    predicate IsDeposit() {
      id == Is("deposit")
    }
  }

  /** A quote as Relay (or the proxy in front of it) answers it. */
  datatype QuoteBody = QuoteBody(
    requestId: Field<string>,
    currencyIn: Option<CurrencyAmount>,
    currencyOut: Option<CurrencyAmount>,
    steps: seq<Step>,
    attestation: Field<string>)

  datatype DepositTransaction = DepositTransaction(chainId: int, from: Address, to: Address, data: string, value: int)

  datatype RelayQuote = RelayQuote(
    requestId: string,
    attestation: Option<string>,
    inputAmount: nat,
    outputAmount: nat,
    minimumOutputAmount: nat,
    depositAddress: Address,
    deposit: DepositTransaction)

  datatype RelayError =
    | AmountNotPositive
    | SlippageOutOfRange
    | BadRequestId
    | BadCurrency
    | BadAmount
    | InputChanged
    | InvalidOutput
    | BadDepositStep
    | WrongDepositChain
    | WrongDepositToken
    | WrongDepositSender
    | NotATransfer
    | BadNativeValue

  predicate IsRequestIdChar(c: char) {
    '0' <= c <= '9' || 'A' <= c <= 'Z' || 'a' <= c <= 'z' || c == '.' || c == '_' || c == ':' || c == '-'
  }

  predicate IsRequestId(s: string) {
    8 <= |s| <= 160 && forall i :: 0 <= i < |s| ==> IsRequestIdChar(s[i])
  }

  /** The text `v1`, a payload and a signature, separated by dots. */
  predicate IsAttestation(s: string) {
    exists i :: 4 <= i < |s| - 1 && AttestationCutAt(s, i)
  }

  predicate AttestationCutAt(s: string, i: int)
    requires 4 <= i < |s| - 1
  {
    && s[..3] == "v1." && s[i] == '.'
    && forall j :: 3 <= j < |s| && j != i ==> IsSymbol(s[j])
  }

  predicate CurrencyIs(c: CurrencyAmount, chainId: int, address: Address) {
    var described := if c.currency.Some? then c.currency.value else Descriptor(c.chainId, c.address);
    && described.chainId.OrElse(c.chainId) == Is(chainId)
    && described.address.OrElse(c.address) == Is(address)
  }

  function ReadAmount(text: Field<string>): Result<nat, RelayError> {
    if text.Is? && text.value != "" && AllDecimal(text.value) then Success(DecimalValue(text.value))
    else Failure(BadAmount)
  }

  function FirstDeposit(steps: seq<Step>): Option<Step> {
    if steps == [] then None
    else if steps[0].IsDeposit() then Some(steps[0])
    else FirstDeposit(steps[1..])
  }

  function OnlyTransaction(step: Option<Step>): Result<Transaction, RelayError> {
    if step.Some? && step.value.items.Some? && |step.value.items.value| == 1 && step.value.items.value[0].Some?
    then Success(step.value.items.value[0].value)
    else Failure(BadDepositStep)
  }

  function NativeValue(value: Field<int>): Result<int, RelayError> {
    match value
    case Missing => Success(0)
    case Malformed => Failure(BadNativeValue)
    case Is(v) => Success(v)
  }

  function ValidateDeposit(tx: Transaction, request: QuoteRequest, inputAmount: nat)
    : Result<(Address, DepositTransaction), RelayError>
  {
    var _ :- Need(tx.chainId == Is(request.originChainId), WrongDepositChain);
    var _ :- Need(tx.to == Is(request.originCurrency), WrongDepositToken);
    var _ :- Need(tx.from == Is(request.user), WrongDepositSender);
    var transfer := if tx.data.Is? then DecodeTransfer(tx.data.value) else None;
    var _ :- Need(transfer.Some? && transfer.value.amount > 0, NotATransfer);
    var _ :- Need(transfer.value.amount == inputAmount, InputChanged);
    var value :- NativeValue(tx.value);
    Success((transfer.value.recipient,
             DepositTransaction(request.originChainId, request.user, request.originCurrency, tx.data.value, value)))
  }

  function ValidateRelayQuote(body: QuoteBody, request: QuoteRequest): Result<RelayQuote, RelayError> {
    var _ :- Need(body.requestId.Is? && IsRequestId(body.requestId.value), BadRequestId);
    var _ :- Need(body.currencyIn.Some? && body.currencyOut.Some?, BadCurrency);
    var currencyIn, currencyOut := body.currencyIn.value, body.currencyOut.value;
    var _ :- Need(CurrencyIs(currencyIn, request.originChainId, request.originCurrency), BadCurrency);
    var _ :- Need(CurrencyIs(currencyOut, request.destinationChainId, request.destinationCurrency), BadCurrency);
    var inputAmount :- ReadAmount(currencyIn.amount);
    var outputAmount :- ReadAmount(currencyOut.amount);
    var minimumOutputAmount :- ReadAmount(currencyOut.minimumAmount.OrElse(currencyOut.amount));
    var _ :- Need(inputAmount == request.amount, InputChanged);
    var _ :- Need(0 < minimumOutputAmount <= outputAmount, InvalidOutput);
    var tx :- OnlyTransaction(FirstDeposit(body.steps));
    var deposit :- ValidateDeposit(tx, request, inputAmount);
    var attestation := if body.attestation.Is? && IsAttestation(body.attestation.value)
                       then Some(body.attestation.value) else None;
    Success(RelayQuote(body.requestId.value, attestation, inputAmount, outputAmount, minimumOutputAmount,
                       deposit.0, deposit.1))
  }

  /** Quoting: the request is checked, sent, and its answer validated. */
  function QuoteStrictDepositRoute(request: QuoteRequest, body: QuoteBody): Result<RelayQuote, RelayError> {
    if request.amount == 0 then Failure(AmountNotPositive)
    else if !(0 <= request.slippageBps <= MAX_RELAY_SLIPPAGE_BPS) then Failure(SlippageOutOfRange)
    else ValidateRelayQuote(body, request)
  }

  lemma {:induction false} FirstDepositIsFirst(steps: seq<Step>)
    requires FirstDeposit(steps).Some?
    ensures exists i :: 0 <= i < |steps| && IsFirstDeposit(steps, i) && steps[i] == FirstDeposit(steps).value
  {
    if steps[0].IsDeposit() {
      assert IsFirstDeposit(steps, 0);
    } else {
      FirstDepositIsFirst(steps[1..]);
      var i :| 0 <= i < |steps[1..]| && IsFirstDeposit(steps[1..], i) && steps[1..][i] == FirstDeposit(steps).value;
      assert forall j :: 0 < j < i + 1 ==> steps[j] == steps[1..][j - 1];
      assert IsFirstDeposit(steps, i + 1) && steps[i + 1] == FirstDeposit(steps).value;
    }
  }

  predicate IsFirstDeposit(steps: seq<Step>, i: nat)
    requires i < |steps|
  {
    steps[i].IsDeposit() && forall j :: 0 <= j < i ==> !steps[j].IsDeposit()
  }

  /** An amount as the answer spells it. */
  predicate Spells(text: Field<string>, amount: nat) {
    text.Is? && text.value != "" && AllDecimal(text.value) && DecimalValue(text.value) == amount
  }

  /**
   * A validated quote reports what the answer says: its request ID, its amounts as spelled
   * (the output itself where no minimum is named), the transaction of its first deposit
   * step, and its attestation if that has the right form.
   */
  lemma QuoteIsReported(body: QuoteBody, request: QuoteRequest, q: RelayQuote) returns (i: nat)
    requires ValidateRelayQuote(body, request) == Success(q)
    ensures body.requestId == Is(q.requestId) && IsRequestId(q.requestId)
    ensures body.currencyIn.Some? && Spells(body.currencyIn.value.amount, q.inputAmount)
    ensures body.currencyOut.Some? && Spells(body.currencyOut.value.amount, q.outputAmount)
    ensures if body.currencyOut.value.minimumAmount.Missing? then q.minimumOutputAmount == q.outputAmount
            else Spells(body.currencyOut.value.minimumAmount, q.minimumOutputAmount)
    ensures i < |body.steps| && IsFirstDeposit(body.steps, i)
    ensures exists tx: Transaction ::
              && body.steps[i].items == Some([Some(tx)]) && tx.data == Is(q.deposit.data)
              && if tx.value.Missing? then q.deposit.value == 0 else tx.value == Is(q.deposit.value)
    ensures forall token :: q.attestation == Some(token) <==> body.attestation == Is(token) && IsAttestation(token)
  {
    FirstDepositIsFirst(body.steps);
    i :| 0 <= i < |body.steps| && IsFirstDeposit(body.steps, i) && body.steps[i] == FirstDeposit(body.steps).value;
    var tx := OnlyTransaction(FirstDeposit(body.steps)).value;
    assert body.steps[i].items.value == [Some(tx)];
  }

  /**
   * A validated quote spends exactly the requested amount: its deposit transaction moves
   * that amount of the requested token from the quote's user to the deposit address and
   * nothing else. Its outputs are those the answer spells, the protected one being positive
   * and no more than the other.
   */
  lemma ValidQuoteIsExact(body: QuoteBody, request: QuoteRequest, q: RelayQuote)
    requires ValidateRelayQuote(body, request) == Success(q)
    ensures q.inputAmount == request.amount > 0
    ensures body.requestId == Is(q.requestId)
    ensures body.currencyOut.Some? && Spells(body.currencyOut.value.amount, q.outputAmount)
    ensures if body.currencyOut.value.minimumAmount.Missing? then q.minimumOutputAmount == q.outputAmount
            else Spells(body.currencyOut.value.minimumAmount, q.minimumOutputAmount)
    ensures 0 < q.minimumOutputAmount <= q.outputAmount
    ensures q.deposit.chainId == request.originChainId
    ensures q.deposit.from == request.user && q.deposit.to == request.originCurrency
    ensures Lower(q.deposit.data) == EncodeTransfer(Transfer(q.depositAddress, q.inputAmount))
  {
    WordsDecoded(q.deposit.data, Transfer(q.depositAddress, q.inputAmount));
  }

  /** How a Relay client turns a request and its answer into a quote. */
  type Quoter = (QuoteRequest, QuoteBody) -> Result<RelayQuote, RelayError>

  ghost predicate QuotedFor(relay: Quoter, request: QuoteRequest, quote: RelayQuote) {
    exists body :: relay(request, body) == Success(quote)
  }

  lemma StrictQuoteIsExact(body: QuoteBody, request: QuoteRequest, q: RelayQuote)
    requires QuoteStrictDepositRoute(request, body) == Success(q)
    ensures q.inputAmount == request.amount > 0
    ensures q.deposit.chainId == request.originChainId
    ensures q.deposit.from == request.user && q.deposit.to == request.originCurrency
    ensures Lower(q.deposit.data) == EncodeTransfer(Transfer(q.depositAddress, q.inputAmount))
    ensures IsRequestId(q.requestId)
  {
    ValidQuoteIsExact(body, request, q);
  }

  /** What any strict quote is for, whatever answer it came from. */
  lemma QuoteSpends(relay: Quoter, request: QuoteRequest, quote: RelayQuote)
    requires relay == QuoteStrictDepositRoute && QuotedFor(relay, request, quote)
    ensures quote.inputAmount == request.amount > 0
    ensures quote.deposit.chainId == request.originChainId
    ensures quote.deposit.from == request.user && quote.deposit.to == request.originCurrency
    ensures Lower(quote.deposit.data) == EncodeTransfer(Transfer(quote.depositAddress, quote.inputAmount))
    ensures IsRequestId(quote.requestId)
  {
    var body :| relay(request, body) == Success(quote);
    StrictQuoteIsExact(body, request, quote);
  }

  // ----- Quotes exist -----

  /** What an honest Relay answers: the requested amount to a deposit address, for an output with a minimum. */
  function HonestBody(request: QuoteRequest, requestId: string, deposit: Address, output: nat, minimum: nat)
    : QuoteBody
  {
    var data := EncodeTransfer(Transfer(deposit, request.amount));
    var origin := Descriptor(Is(request.originChainId), Is(request.originCurrency));
    var destination := Descriptor(Is(request.destinationChainId), Is(request.destinationCurrency));
    var transaction := Transaction(
                         Is(request.originChainId), Is(request.user), Is(request.originCurrency), Is(data), Missing);
    QuoteBody(
      Is(requestId),
      Some(CurrencyAmount(Some(origin), Missing, Missing, Is(DecimalText(request.amount)), Missing)),
      Some(CurrencyAmount(Some(destination), Missing, Missing, Is(DecimalText(output)), Is(DecimalText(minimum)))),
      [Step(Is("deposit"), Some([Some(transaction)]))],
      Missing)
  }

  lemma EncodedShape(t: Transfer)
    ensures IsCalldata(EncodeTransfer(t)) && Lower(EncodeTransfer(t)) == EncodeTransfer(t)
  {
    var recipient, amount := HexWord(t.recipient, 64), HexWord(t.amount, 64);
    PrintedIsLower(FixedDigits(t.recipient, Hex, 64));
    PrintedIsLower(FixedDigits(t.amount, Hex, 64));
    CalldataOf(recipient, amount);
  }

  lemma CalldataOf(recipient: string, amount: string)
    requires |recipient| == |amount| == 64 && AllHex(recipient) && AllHex(amount)
    requires Lower(recipient) == recipient && Lower(amount) == amount
    ensures var data := TRANSFER_SELECTOR + recipient + amount; IsCalldata(data) && Lower(data) == data
  {
    var data := TRANSFER_SELECTOR + recipient + amount;
    assert data[..2] == "0x" && data[2..] == "a9059cbb" + recipient + amount;
    assert Lower(TRANSFER_SELECTOR) == TRANSFER_SELECTOR;
  }

  lemma EncodedDecodes(t: Transfer)
    requires t.amount < Power(Hex, 64)
    ensures DecodeTransfer(EncodeTransfer(t)) == Some(t)
  {
    EncodedShape(t);
    WordsMatch(EncodeTransfer(t), t);
  }

  lemma PrintedIsLower(ds: seq<nat>)
    requires forall i :: 0 <= i < |ds| ==> ds[i] < 16
    ensures Lower(ToText(ds)) == ToText(ds)
  {
  }

  lemma ReadsPrintedAmount(n: nat)
    ensures ReadAmount(Is(DecimalText(n))) == Success(n)
  {
    DecimalRoundTrip(n);
  }

  lemma HonestDepositValidates(
    request: QuoteRequest, requestId: string, deposit: Address, output: nat, minimum: nat)
    requires 0 < request.amount < Power(Hex, 64)
    ensures var tx := HonestBody(request, requestId, deposit, output, minimum).steps[0].items.value[0].value;
            && ValidateDeposit(tx, request, request.amount).Success?
            && ValidateDeposit(tx, request, request.amount).value.0 == deposit
            && ValidateDeposit(tx, request, request.amount).value.1.value == 0
  {
    EncodedDecodes(Transfer(deposit, request.amount));
    var tx := HonestBody(request, requestId, deposit, output, minimum).steps[0].items.value[0].value;
    assert tx.data == Is(EncodeTransfer(Transfer(deposit, request.amount))) && tx.value.Missing?;
  }

  /** An answer whose parts are in order validates. */
  lemma PartsValidate(body: QuoteBody, request: QuoteRequest, output: nat, minimum: nat, tx: Transaction)
    requires body.requestId.Is? && IsRequestId(body.requestId.value)
    requires body.currencyIn.Some? && CurrencyIs(body.currencyIn.value, request.originChainId, request.originCurrency)
    requires body.currencyOut.Some?
    requires CurrencyIs(body.currencyOut.value, request.destinationChainId, request.destinationCurrency)
    requires ReadAmount(body.currencyIn.value.amount) == Success(request.amount)
    requires ReadAmount(body.currencyOut.value.amount) == Success(output)
    requires ReadAmount(body.currencyOut.value.minimumAmount.OrElse(body.currencyOut.value.amount)) == Success(minimum)
    requires 0 < minimum <= output && OnlyTransaction(FirstDeposit(body.steps)) == Success(tx)
    requires ValidateDeposit(tx, request, request.amount).Success?
    ensures var quote := ValidateRelayQuote(body, request);
            var deposit := ValidateDeposit(tx, request, request.amount).value;
            && quote.Success? && quote.value.requestId == body.requestId.value
            && quote.value.inputAmount == request.amount
            && quote.value.outputAmount == output && quote.value.minimumOutputAmount == minimum
            && quote.value.depositAddress == deposit.0 && quote.value.deposit == deposit.1
  {
  }

  /** An honest answer validates, as the quote it was meant to be. */
  lemma HonestBodyValidates(request: QuoteRequest, requestId: string, deposit: Address, output: nat, minimum: nat)
    requires IsRequestId(requestId) && 0 < request.amount < Power(Hex, 64) && 0 < minimum <= output
    requires 0 <= request.slippageBps <= MAX_RELAY_SLIPPAGE_BPS
    ensures var quote := QuoteStrictDepositRoute(request, HonestBody(request, requestId, deposit, output, minimum));
            && quote.Success? && quote.value.requestId == requestId && quote.value.depositAddress == deposit
            && quote.value.inputAmount == request.amount
            && quote.value.outputAmount == output && quote.value.minimumOutputAmount == minimum
            && quote.value.deposit.value == 0
  {
    HonestDepositValidates(request, requestId, deposit, output, minimum);
    ReadsPrintedAmount(request.amount);
    ReadsPrintedAmount(output);
    ReadsPrintedAmount(minimum);
    var body := HonestBody(request, requestId, deposit, output, minimum);
    PartsValidate(body, request, output, minimum, body.steps[0].items.value[0].value);
  }
}
