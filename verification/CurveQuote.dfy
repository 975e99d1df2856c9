/**
 * Pons V2 bonding-curve quotes: integer constant product, three floored fees with a
 * capped snipe tax, the partial fill at the sellable limit, and rate-normalised slippage.
 */
module CurveQuote {
  import opened Wrappers
  import opened Integers

  const BPS := 10_000
  const MIN_BUY_NET_BPS := 100
  const MAX_SLIPPAGE_BPS := 5_000

  datatype QuoteError =
    | AmountNotPositive
    | InvalidFeeState
    | NotQuotable
    | NoLiquidity
    | OutputRoundsToZero
    | ExactOutputNotQuotable
    | NoOutput
    | ReadyToGraduate
    | InvalidQuote
    | InvalidSlippage
    | MinimumRoundsToZero

  /** Everything a quote reads from the curve contract; `rawSnipeTaxBps` is for the buyer. */
  datatype Curve = Curve(
    quoteReserve: nat,
    tokenReserve: nat,
    sellable: nat,
    feeBps: nat,
    creatorTaxBps: nat,
    rawSnipeTaxBps: nat,
    readyToGraduate: bool)

  datatype BuyQuote = BuyQuote(tokensOut: nat, spent: nat, refund: nat, snipeTaxBps: nat)

  // ----- Arithmetic -----

  /** Floored division with its defining bounds. */
  function Div(a: nat, b: nat): (q: nat)
    requires b > 0
    ensures q * b <= a < q * b + b
  {
    a / b
  }

  lemma DivAtLeast(a: nat, b: nat, k: nat)
    requires b > 0
    ensures Div(a, b) >= k <==> a >= k * b
  {
    var q := Div(a, b);
    if q >= k { Times(k, q, b); }
    if q < k { Times(q + 1, k, b); }
  }

  lemma Times(a: nat, b: nat, c: nat)
    requires a <= b
    ensures a * c <= b * c && c * a <= c * b
  {
  }

  lemma Cancels(a: nat, b: nat, c: nat)
    requires c > 0 && a * c <= b * c
    ensures a <= b
  {
    if b + 1 <= a { Times(b + 1, a, c); }
  }

  function CeilDiv(numerator: nat, denominator: nat): (q: nat)
    requires denominator > 0
    ensures numerator <= q * denominator < numerator + denominator
  {
    Div(numerator + denominator - 1, denominator)
  }

  lemma CeilDivIsTight(numerator: nat, denominator: nat)
    requires denominator > 0
    ensures (CeilDiv(numerator, denominator) - 1) * denominator < numerator
  {
    var q := CeilDiv(numerator, denominator);
    assert (q - 1) * denominator == q * denominator - denominator;
  }

  /** Limited or not, a unit less than the ceiling falls short; unlimited, it suffices. */
  lemma LimitedCeilDiv(numerator: nat, denominator: nat, limit: nat)
    requires denominator > 0
    ensures var least := Min(CeilDiv(numerator, denominator), limit);
            && (least > 0 ==> (least - 1) * denominator < numerator)
            && (least < limit ==> numerator <= least * denominator)
  {
    var q := CeilDiv(numerator, denominator);
    var least := Min(q, limit);
    CeilDivIsTight(numerator, denominator);
    if 0 < least < q { Times(least - 1, q - 1, denominator); }
  }

  function Fee(amount: nat, bps: nat): (fee: nat)
    ensures fee * BPS <= amount * bps < fee * BPS + BPS
  {
    amount * bps / BPS
  }

  // ----- Constant product -----

  /** What an input buys: its share of the output reserve after it joins the input reserve. */
  function Bought(amountIn: nat, reserveIn: nat, reserveOut: nat): nat
    requires reserveIn + amountIn > 0
  {
    Div(amountIn * reserveOut, reserveIn + amountIn)
  }

  function ConstantProductAmountOut(amountIn: int, reserveIn: nat, reserveOut: nat): Result<nat, QuoteError> {
    if amountIn <= 0 then Failure(AmountNotPositive)
    else if reserveIn == 0 || reserveOut == 0 then Failure(NoLiquidity)
    else
      var output := Bought(amountIn, reserveIn, reserveOut);
      if output == 0 then Failure(OutputRoundsToZero) else Success(output)
  }

  function ConstantProductAmountIn(amountOut: nat, reserveIn: nat, reserveOut: nat): Result<nat, QuoteError> {
    if amountOut == 0 || reserveIn == 0 || reserveOut <= amountOut then Failure(ExactOutputNotQuotable)
    else Success(Div(amountOut * reserveIn, reserveOut - amountOut) + 1)
  }

  /** An input buys at least `out` exactly when it outweighs the reserve it displaces. */
  lemma BuysAtLeast(amountIn: nat, reserveIn: nat, reserveOut: nat, out: nat)
    requires amountIn > 0 && reserveIn > 0 && out <= reserveOut
    ensures Bought(amountIn, reserveIn, reserveOut) >= out
            <==> amountIn * (reserveOut - out) >= out * reserveIn
  {
    DivAtLeast(amountIn * reserveOut, reserveIn + amountIn, out);
    assert amountIn * (reserveOut - out) == amountIn * reserveOut - amountIn * out;
    assert out * (reserveIn + amountIn) == out * reserveIn + amountIn * out;
  }

  lemma OutputBelowReserve(amountIn: nat, reserveIn: nat, reserveOut: nat)
    requires amountIn > 0 && reserveIn > 0 && reserveOut > 0
    ensures Bought(amountIn, reserveIn, reserveOut) < reserveOut
  {
    DivAtLeast(amountIn * reserveOut, reserveIn + amountIn, reserveOut);
    assert reserveOut * (reserveIn + amountIn) == reserveOut * reserveIn + amountIn * reserveOut;
    assert reserveOut * reserveIn > 0;
  }

  lemma OutputMonotone(a: nat, b: nat, reserveIn: nat, reserveOut: nat)
    requires 0 < a <= b && reserveIn > 0 && reserveOut > 0
    ensures Bought(a, reserveIn, reserveOut) <= Bought(b, reserveIn, reserveOut)
  {
    var out := Bought(a, reserveIn, reserveOut);
    OutputBelowReserve(a, reserveIn, reserveOut);
    BuysAtLeast(a, reserveIn, reserveOut, out);
    Times(a, b, reserveOut - out);
    BuysAtLeast(b, reserveIn, reserveOut, out);
  }

  /**
   * The exact-output input always suffices, nothing two units smaller does, and it is one
   * unit above the true minimum exactly when the division leaves no remainder.
   */
  lemma AmountInIsTight(out: nat, reserveIn: nat, reserveOut: nat, input: nat)
    requires ConstantProductAmountIn(out, reserveIn, reserveOut) == Success(input)
    ensures ConstantProductAmountOut(input, reserveIn, reserveOut).Success?
    ensures ConstantProductAmountOut(input, reserveIn, reserveOut).value >= out
    ensures forall y: nat :: 0 < y && y + 2 <= input ==> Bought(y, reserveIn, reserveOut) < out
    ensures input > 1 ==>
              (Bought(input - 1, reserveIn, reserveOut) >= out
               <==> (input - 1) * (reserveOut - out) == out * reserveIn)
  {
    var gap := reserveOut - out;
    var q := Div(out * reserveIn, gap);
    assert input * gap == q * gap + gap;
    BuysAtLeast(input, reserveIn, reserveOut, out);
    if input > 1 {
      BuysAtLeast(input - 1, reserveIn, reserveOut, out);
    }
    forall y: nat | 0 < y && y + 2 <= input
      ensures Bought(y, reserveIn, reserveOut) < out
    {
      BuysAtLeast(y, reserveIn, reserveOut, out);
      Times(y + 1, q, gap);
      assert (y + 1) * gap == y * gap + gap;
    }
  }

  // ----- Buying -----

  function NetInput(spent: nat, feeBps: nat, creatorTaxBps: nat, snipeTaxBps: nat): int {
    spent - Fee(spent, feeBps) - Fee(spent, creatorTaxBps) - Fee(spent, snipeTaxBps)
  }

  function SnipeTax(c: Curve): nat
    requires c.feeBps + c.creatorTaxBps + MIN_BUY_NET_BPS <= BPS
  {
    Min(c.rawSnipeTaxBps, BPS - c.feeBps - c.creatorTaxBps - MIN_BUY_NET_BPS)
  }

  /** The partial fill: all sellable tokens, for their net input grossed up by the fees. */
  function SellRemaining(c: Curve, quoteIn: nat, totalFeeBps: nat): (r: Result<(nat, nat), QuoteError>)
    requires totalFeeBps < BPS
    ensures r.Success? ==> r.value.1 <= quoteIn
  {
    var net :- ConstantProductAmountIn(c.sellable, c.quoteReserve, c.tokenReserve);
    Success((c.sellable, Min(CeilDiv(net * BPS, BPS - totalFeeBps), quoteIn)))
  }

  function QuoteBuy(c: Curve, quoteIn: int): Result<BuyQuote, QuoteError> {
    if quoteIn <= 0 then Failure(AmountNotPositive)
    else if c.feeBps + c.creatorTaxBps + MIN_BUY_NET_BPS > BPS then Failure(InvalidFeeState)
    else
      var snipe := SnipeTax(c);
      var totalFeeBps := c.feeBps + c.creatorTaxBps + snipe;
      if totalFeeBps >= BPS then Failure(NotQuotable)
      else
        var output :- ConstantProductAmountOut(
                        NetInput(quoteIn, c.feeBps, c.creatorTaxBps, snipe), c.quoteReserve, c.tokenReserve);
        var (tokensOut, spent) :- if output > c.sellable
                                  then SellRemaining(c, quoteIn, totalFeeBps)
                                  else Success((output, quoteIn));
        if tokensOut == 0 then Failure(NoOutput)
        else Success(BuyQuote(tokensOut, spent, quoteIn - spent, snipe))
  }

  /** The snipe cap keeps total fees at 99% or less, so the fee guard never fires. */
  lemma FeeGuardNeverFires(c: Curve, quoteIn: int)
    ensures QuoteBuy(c, quoteIn) != Failure(NotQuotable)
  {
  }

  /** Three floored fees take their total rate, less at most a unit each. */
  lemma FeesLeave(spent: nat, f: nat, t: nat, s: nat)
    ensures spent * (BPS - f - t - s) <= NetInput(spent, f, t, s) * BPS < spent * (BPS - f - t - s) + 3 * BPS
    ensures NetInput(spent, f, t, s) <= spent
  {
    assert spent * (BPS - f - t - s) == spent * BPS - spent * f - spent * t - spent * s;
  }

  /** Grossing an input up covers the fees charged on the grossed amount. */
  lemma GrossCoversNet(net: nat, f: nat, t: nat, s: nat)
    requires f + t + s < BPS
    ensures NetInput(CeilDiv(net * BPS, BPS - (f + t + s)), f, t, s) >= net
  {
    var gross := CeilDiv(net * BPS, BPS - (f + t + s));
    FeesLeave(gross, f, t, s);
  }

  /**
   * Whenever a buy is quoted, in the full and the clamped branch alike: between one token
   * and the sellable limit, the input is split between spending and refund, and charging
   * the three floored fees on what is spent leaves an input whose constant-product output
   * covers the quoted tokens.
   */
  lemma BuyQuoteIsSound(c: Curve, quoteIn: int, q: BuyQuote)
    requires QuoteBuy(c, quoteIn) == Success(q)
    ensures 1 <= q.tokensOut <= c.sellable
    ensures 0 < q.spent <= quoteIn && q.spent + q.refund == quoteIn
    ensures c.feeBps + c.creatorTaxBps + q.snipeTaxBps <= BPS - MIN_BUY_NET_BPS
    ensures q.snipeTaxBps <= c.rawSnipeTaxBps
    ensures q.snipeTaxBps == c.rawSnipeTaxBps || c.feeBps + c.creatorTaxBps + q.snipeTaxBps == BPS - MIN_BUY_NET_BPS
    ensures var net := NetInput(q.spent, c.feeBps, c.creatorTaxBps, q.snipeTaxBps);
            && 0 < net <= q.spent
            && ConstantProductAmountOut(net, c.quoteReserve, c.tokenReserve).Success?
            && ConstantProductAmountOut(net, c.quoteReserve, c.tokenReserve).value >= q.tokensOut
    ensures q.tokensOut < c.tokenReserve
    ensures q.refund > 0 ==> q.tokensOut == c.sellable
  {
    var snipe := SnipeTax(c);
    var f, t, total := c.feeBps, c.creatorTaxBps, c.feeBps + c.creatorTaxBps + snipe;
    var fullNet := NetInput(quoteIn, f, t, snipe);
    var output := ConstantProductAmountOut(fullNet, c.quoteReserve, c.tokenReserve).value;
    FeesLeave(quoteIn, f, t, snipe);
    OutputBelowReserve(fullNet, c.quoteReserve, c.tokenReserve);
    if output > c.sellable {
      var net := ConstantProductAmountIn(c.sellable, c.quoteReserve, c.tokenReserve).value;
      var gross := CeilDiv(net * BPS, BPS - total);
      AmountInIsTight(c.sellable, c.quoteReserve, c.tokenReserve, net);
      if gross < quoteIn {
        GrossCoversNet(net, f, t, snipe);
        FeesLeave(gross, f, t, snipe);
        OutputMonotone(net, NetInput(gross, f, t, snipe), c.quoteReserve, c.tokenReserve);
      }
    }
  }

  lemma BuysSomething(amountIn: nat, reserveIn: nat, reserveOut: nat)
    ensures ConstantProductAmountOut(amountIn, reserveIn, reserveOut).Success?
            <==> amountIn > 0 && reserveIn > 0 && reserveOut > 0 && amountIn * (reserveOut - 1) >= reserveIn
  {
    if amountIn > 0 && reserveIn > 0 && reserveOut > 0 {
      BuysAtLeast(amountIn, reserveIn, reserveOut, 1);
    }
  }

  lemma SomethingRemains(c: Curve, quoteIn: nat, totalFeeBps: nat)
    requires totalFeeBps < BPS && c.quoteReserve > 0 && c.sellable < c.tokenReserve
    ensures SellRemaining(c, quoteIn, totalFeeBps).Success? <==> c.sellable > 0
  {
  }

  /**
   * A buy is quoted exactly when the fees leave at least 1% and what they leave of the
   * input, after the capped snipe tax, outweighs the reserve that one token displaces,
   * with something left to sell: no partial fill is refused.
   */
  lemma BuyIsQuoted(c: Curve, quoteIn: int)
    ensures QuoteBuy(c, quoteIn).Success? <==>
              && quoteIn > 0 && c.feeBps + c.creatorTaxBps <= 9_900
              && c.quoteReserve > 0 && c.tokenReserve > 0 && c.sellable > 0
              && var snipe := Min(c.rawSnipeTaxBps, 9_900 - c.feeBps - c.creatorTaxBps);
                 var net := NetInput(quoteIn, c.feeBps, c.creatorTaxBps, snipe);
                 net > 0 && net * (c.tokenReserve - 1) >= c.quoteReserve
  {
    if quoteIn > 0 && c.feeBps + c.creatorTaxBps + MIN_BUY_NET_BPS <= BPS {
      var snipe := SnipeTax(c);
      var net := NetInput(quoteIn, c.feeBps, c.creatorTaxBps, snipe);
      var output := ConstantProductAmountOut(net, c.quoteReserve, c.tokenReserve);
      if net > 0 {
        BuysSomething(net, c.quoteReserve, c.tokenReserve);
        if output.Success? && output.value > c.sellable {
          OutputBelowReserve(net, c.quoteReserve, c.tokenReserve);
          SomethingRemains(c, quoteIn, c.feeBps + c.creatorTaxBps + snipe);
        }
      }
    }
  }

  lemma QuotedSpending(c: Curve, quoteIn: int, q: BuyQuote)
    requires QuoteBuy(c, quoteIn) == Success(q)
    ensures var total := c.feeBps + c.creatorTaxBps + q.snipeTaxBps;
            var full := NetInput(quoteIn, c.feeBps, c.creatorTaxBps, q.snipeTaxBps);
            var output := ConstantProductAmountOut(full, c.quoteReserve, c.tokenReserve);
            var net := ConstantProductAmountIn(c.sellable, c.quoteReserve, c.tokenReserve);
            && total < BPS && output.Success?
            && (output.value <= c.sellable ==> q.tokensOut == output.value && q.spent == quoteIn)
            && (output.value > c.sellable ==>
                  && net.Success? && q.tokensOut == c.sellable
                  && q.spent == Min(CeilDiv(net.value * BPS, BPS - total), quoteIn))
  {
  }

  /**
   * The quote gives the trader as much as it can: the tokens are the smaller of what the
   * whole input buys and what is sellable; the whole input is spent unless that buys more
   * than is sellable; and then one unit less, at the full fee rate, would not leave the
   * exact-output input.
   */
  lemma BuyQuoteIsTight(c: Curve, quoteIn: int, q: BuyQuote)
    requires QuoteBuy(c, quoteIn) == Success(q)
    ensures var total := c.feeBps + c.creatorTaxBps + q.snipeTaxBps;
            var net := NetInput(quoteIn, c.feeBps, c.creatorTaxBps, q.snipeTaxBps);
            var output := ConstantProductAmountOut(net, c.quoteReserve, c.tokenReserve);
            && output.Success? && q.tokensOut == Min(output.value, c.sellable)
            && (output.value <= c.sellable ==> q.spent == quoteIn)
            && (output.value > c.sellable ==>
                  var net := ConstantProductAmountIn(c.sellable, c.quoteReserve, c.tokenReserve);
                  net.Success? && (q.spent - 1) * (BPS - total) < net.value * BPS)
            && (q.spent < quoteIn ==>
                  var net := ConstantProductAmountIn(c.sellable, c.quoteReserve, c.tokenReserve);
                  net.Success? && (q.spent - 1) * (BPS - total) < net.value * BPS <= q.spent * (BPS - total))
  {
    var total := c.feeBps + c.creatorTaxBps + q.snipeTaxBps;
    var full := NetInput(quoteIn, c.feeBps, c.creatorTaxBps, q.snipeTaxBps);
    QuotedSpending(c, quoteIn, q);
    if ConstantProductAmountOut(full, c.quoteReserve, c.tokenReserve).value > c.sellable {
      var wanted := ConstantProductAmountIn(c.sellable, c.quoteReserve, c.tokenReserve).value * BPS;
      LimitedCeilDiv(wanted, BPS - total, quoteIn);
    }
  }

  // ----- Selling -----

  function QuoteSell(c: Curve, tokensIn: int): Result<nat, QuoteError> {
    if tokensIn <= 0 then Failure(AmountNotPositive)
    else if c.readyToGraduate then Failure(ReadyToGraduate)
    else
      var gross :- ConstantProductAmountOut(tokensIn, c.tokenReserve, c.quoteReserve);
      var output := gross - Fee(gross, c.feeBps) - Fee(gross, c.creatorTaxBps);
      if output <= 0 then Failure(NoOutput) else Success(output)
  }

  /**
   * A sell pays its constant-product output less both floored fees, so less than two units
   * above its exact share. The share is signed: rates above 100% are not refused, and an
   * output too small to be charged still sells.
   */
  lemma SellQuoteIsNet(c: Curve, tokensIn: int, quoteOut: nat)
    requires QuoteSell(c, tokensIn) == Success(quoteOut)
    ensures var gross := ConstantProductAmountOut(tokensIn, c.tokenReserve, c.quoteReserve);
            var rate: int := BPS - c.feeBps - c.creatorTaxBps;
            && gross.Success? && 0 < quoteOut <= gross.value < c.quoteReserve
            && gross.value * rate <= quoteOut * BPS < gross.value * rate + 2 * BPS
  {
    var gross := ConstantProductAmountOut(tokensIn, c.tokenReserve, c.quoteReserve).value;
    FeesLeave(gross, c.feeBps, c.creatorTaxBps, 0);
    OutputBelowReserve(tokensIn, c.tokenReserve, c.quoteReserve);
    assert gross * (BPS - c.feeBps - c.creatorTaxBps) == gross * BPS - gross * c.feeBps - gross * c.creatorTaxBps;
  }

  /** A sell is quoted exactly when it moves the reserve by a unit and the fees leave some of what that pays. */
  lemma SellIsQuoted(c: Curve, tokensIn: int)
    ensures QuoteSell(c, tokensIn).Success? <==>
              && tokensIn > 0 && !c.readyToGraduate && c.tokenReserve > 0 && c.quoteReserve > 0
              && tokensIn * (c.quoteReserve - 1) >= c.tokenReserve
              && var gross := Bought(tokensIn, c.tokenReserve, c.quoteReserve);
                 gross > Fee(gross, c.feeBps) + Fee(gross, c.creatorTaxBps)
  {
    if tokensIn > 0 { BuysSomething(tokensIn, c.tokenReserve, c.quoteReserve); }
  }

  // ----- Slippage -----

  function ApplySlippage(amount: nat, slippageBps: int): Result<nat, QuoteError> {
    if !(0 <= slippageBps <= MAX_SLIPPAGE_BPS) then Failure(InvalidSlippage)
    else
      var minimum := amount * (BPS - slippageBps) / BPS;
      if minimum == 0 then Failure(MinimumRoundsToZero) else Success(minimum)
  }

  function RateNormalized(tokensOut: nat, spent: nat, requested: nat): nat
    requires spent > 0
  {
    Div(tokensOut * requested, spent)
  }

  function BuyMinimumFromQuote(tokensOut: nat, spent: nat, requested: int, slippageBps: int): Result<nat, QuoteError> {
    if spent == 0 || requested <= 0 then Failure(InvalidQuote)
    else ApplySlippage(RateNormalized(tokensOut, spent, requested), slippageBps)
  }

  lemma SlippageAntitone(amount: nat, tight: int, loose: int)
    requires 0 <= tight <= loose <= MAX_SLIPPAGE_BPS
    ensures amount * (BPS - loose) / BPS <= amount * (BPS - tight) / BPS <= amount
  {
    Times(BPS - loose, BPS - tight, amount);
    Times(BPS - tight, BPS, amount);
  }

  /** A minimum gives up the slippage share of the amount, and less than one unit more. */
  lemma SlippageIsBounded(amount: nat, slippageBps: int, minimum: nat)
    requires ApplySlippage(amount, slippageBps) == Success(minimum)
    ensures 0 < minimum <= amount
    ensures amount * slippageBps <= (amount - minimum) * BPS < amount * slippageBps + BPS
  {
    SlippageAntitone(amount, 0, slippageBps);
    assert amount * (BPS - slippageBps) == amount * BPS - amount * slippageBps;
  }

  /** The curve's own rescaling of a minimum on a partial fill. */
  function ScaledBack(minimum: nat, spent: nat, requested: nat): nat
    requires requested > 0
  {
    Div(minimum * spent, requested)
  }

  /**
   * Scaled back by spent over requested, the minimum never exceeds the quoted tokens; with
   * no slippage it loses at most one token; and a larger slippage never raises it.
   */
  lemma MinimumFitsPartialFill(tokensOut: nat, spent: nat, requested: nat, slippageBps: int, minimum: nat)
    requires 0 < spent <= requested
    requires BuyMinimumFromQuote(tokensOut, spent, requested, slippageBps) == Success(minimum)
    ensures ScaledBack(minimum, spent, requested) <= tokensOut
    ensures slippageBps == 0 ==> ScaledBack(minimum, spent, requested) + 1 >= tokensOut
    ensures forall looser, smaller |
              slippageBps <= looser && BuyMinimumFromQuote(tokensOut, spent, requested, looser) == Success(smaller)
              :: smaller <= minimum
  {
    var rate := RateNormalized(tokensOut, spent, requested);
    SlippageAntitone(rate, 0, slippageBps);
    Times(minimum, rate, spent);
    DivAtLeast(minimum * spent, requested, tokensOut + 1);
    assert (tokensOut + 1) * requested == tokensOut * requested + requested;
    if slippageBps == 0 && tokensOut > 0 {
      assert minimum == rate;
      DivAtLeast(minimum * spent, requested, tokensOut - 1);
      assert (tokensOut - 1) * requested == tokensOut * requested - requested;
    }
    forall looser, smaller |
      slippageBps <= looser && BuyMinimumFromQuote(tokensOut, spent, requested, looser) == Success(smaller)
      ensures smaller <= minimum
    {
      SlippageAntitone(rate, slippageBps, looser);
    }
  }
}
