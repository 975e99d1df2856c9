/**
 * Runs of trades on one curve. Every buy and sell executes at its quote and moves the
 * reserves as the quote's own formula does; fees leave the curve. Between trades the fee
 * rates, the sellable limit and the graduation flag may be anything.
 */
module CurveRuns {
  import opened Wrappers
  import opened CurveQuote

  datatype Trade =
    | Buy(quoteIn: int, sellable: nat, feeBps: nat, creatorTaxBps: nat, rawSnipeTaxBps: nat)
    | Sell(tokensIn: int, feeBps: nat, creatorTaxBps: nat, readyToGraduate: bool)

  /**
   * The reserves, and one trader's side: paid and received with fees, the net inputs that
   * reached the curve, the gross outputs that left it, and the tokens held.
   */
  datatype Book = Book(
    quoteReserve: nat,
    tokenReserve: nat,
    paid: nat,
    net: nat,
    gross: nat,
    received: nat,
    held: int)

  /** A trader who has not traded yet. */
  function Opening(quoteReserve: nat, tokenReserve: nat): Book {
    Book(quoteReserve, tokenReserve, 0, 0, 0, 0, 0)
  }

  function CurveOf(b: Book, t: Trade): Curve {
    match t
    case Buy(_, sellable, fee, tax, snipe) => Curve(b.quoteReserve, b.tokenReserve, sellable, fee, tax, snipe, false)
    case Sell(_, fee, tax, ready) => Curve(b.quoteReserve, b.tokenReserve, 0, fee, tax, 0, ready)
  }

  /** One trade; a trade that cannot be quoted does not happen. */
  function Execute(b: Book, t: Trade): Book {
    var c := CurveOf(b, t);
    match t
    case Buy(quoteIn, _, fee, tax, _) =>
      var quote := QuoteBuy(c, quoteIn);
      if quote.Failure? then b
      else
        var q := quote.value;
        BuyQuoteIsSound(c, quoteIn, q);
        var net := NetInput(q.spent, fee, tax, q.snipeTaxBps);
        Book(b.quoteReserve + net, b.tokenReserve - q.tokensOut,
             b.paid + q.spent, b.net + net, b.gross, b.received, b.held + q.tokensOut)
    case Sell(tokensIn, _, _, _) =>
      var quote := QuoteSell(c, tokensIn);
      if quote.Failure? then b
      else
        var gross := ConstantProductAmountOut(tokensIn, b.tokenReserve, b.quoteReserve).value;
        OutputBelowReserve(tokensIn, b.tokenReserve, b.quoteReserve);
        Book(b.quoteReserve - gross, b.tokenReserve + tokensIn,
             b.paid, b.net, b.gross + gross, b.received + quote.value, b.held - tokensIn)
  }

  function ExecuteAll(b: Book, trades: seq<Trade>): Book
    decreases |trades|
  {
    if trades == [] then b else ExecuteAll(Execute(b, trades[0]), trades[1..])
  }

  function Product(b: Book): nat {
    b.quoteReserve * b.tokenReserve
  }

  /** What holds between the books before and after any run. */
  ghost predicate Leads(b: Book, b': Book) {
    && b'.quoteReserve > 0 && b'.tokenReserve > 0
    && Product(b) <= Product(b')
    && b.tokenReserve + b.held == b'.tokenReserve + b'.held
    && b'.quoteReserve - b'.net + b'.gross == b.quoteReserve - b.net + b.gross
    && b'.net - b.net <= b'.paid - b.paid && b'.received - b.received <= b'.gross - b.gross
  }

  /** Adding x to one reserve and taking at most the quoted output from the other. */
  lemma SwapGrowsProduct(x: nat, reserveIn: nat, reserveOut: nat, out: nat)
    requires x > 0 && reserveIn > 0 && reserveOut > 0
    requires out <= Bought(x, reserveIn, reserveOut)
    ensures out < reserveOut
    ensures reserveIn * reserveOut <= (reserveIn + x) * (reserveOut - out)
  {
    OutputBelowReserve(x, reserveIn, reserveOut);
    DivAtLeast(x * reserveOut, reserveIn + x, out);
    assert (reserveIn + x) * (reserveOut - out)
        == reserveIn * reserveOut + x * reserveOut - out * (reserveIn + x);
  }

  lemma BuyLeads(b: Book, t: Trade, q: BuyQuote)
    requires t.Buy? && b.quoteReserve > 0 && b.tokenReserve > 0
    requires QuoteBuy(CurveOf(b, t), t.quoteIn) == Success(q)
    ensures Leads(b, Execute(b, t))
  {
    BuyQuoteIsSound(CurveOf(b, t), t.quoteIn, q);
    var net := NetInput(q.spent, t.feeBps, t.creatorTaxBps, q.snipeTaxBps);
    SwapGrowsProduct(net, b.quoteReserve, b.tokenReserve, q.tokensOut);
    assert Execute(b, t) == Book(b.quoteReserve + net, b.tokenReserve - q.tokensOut,
                                 b.paid + q.spent, b.net + net, b.gross, b.received, b.held + q.tokensOut);
  }

  lemma SellLeads(b: Book, t: Trade)
    requires t.Sell? && b.quoteReserve > 0 && b.tokenReserve > 0
    requires QuoteSell(CurveOf(b, t), t.tokensIn).Success?
    ensures Leads(b, Execute(b, t))
  {
    var gross := ConstantProductAmountOut(t.tokensIn, b.tokenReserve, b.quoteReserve).value;
    var output := QuoteSell(CurveOf(b, t), t.tokensIn).value;
    SwapGrowsProduct(t.tokensIn, b.tokenReserve, b.quoteReserve, gross);
    var quoteLeft, tokens := b.quoteReserve - gross, b.tokenReserve + t.tokensIn;
    assert Execute(b, t) == Book(quoteLeft, tokens, b.paid, b.net, b.gross + gross, b.received + output,
                                 b.held - t.tokensIn);
    Commute(b.tokenReserve, b.quoteReserve);
    Commute(tokens, quoteLeft);
    assert output <= gross;
  }

  lemma Commute(a: nat, b: nat)
    ensures a * b == b * a
  {
  }

  lemma TradeLeads(b: Book, t: Trade)
    requires b.quoteReserve > 0 && b.tokenReserve > 0
    ensures Leads(b, Execute(b, t))
  {
    if t.Buy? && QuoteBuy(CurveOf(b, t), t.quoteIn).Success? {
      BuyLeads(b, t, QuoteBuy(CurveOf(b, t), t.quoteIn).value);
    } else if t.Sell? && QuoteSell(CurveOf(b, t), t.tokensIn).Success? {
      SellLeads(b, t);
    } else {
      assert Execute(b, t) == b;
    }
  }

  /** The reserve product never falls over any run of buys and sells. */
  lemma {:induction false} ProductNeverFalls(b: Book, trades: seq<Trade>)
    requires b.quoteReserve > 0 && b.tokenReserve > 0
    ensures Leads(b, ExecuteAll(b, trades))
    decreases |trades|
  {
    if trades != [] {
      TradeLeads(b, trades[0]);
      ProductNeverFalls(Execute(b, trades[0]), trades[1..]);
    }
  }

  lemma OneSwapBound(r: nat, t: nat, r': nat, t': nat, input: nat, held: nat)
    requires r * t <= r' * t' && r' <= r + input && t' + held == t && r > 0
    ensures held <= Bought(input, r, t)
  {
    Times(r', r + input, t');
    assert (r + input) * t' == r * t + input * t - held * (r + input);
    DivAtLeast(input * t, r + input, held);
  }

  /**
   * Splitting never helps: whatever the run of buys and sells, the tokens it leaves the
   * trader are at most the output of one swap of the sum of all net inputs, and, when any
   * are left, of only what those inputs exceed the gross outputs by.
   */
  lemma RunYieldsAtMostOneSwap(quoteReserve: nat, tokenReserve: nat, trades: seq<Trade>)
    requires quoteReserve > 0 && tokenReserve > 0
    ensures var end := ExecuteAll(Opening(quoteReserve, tokenReserve), trades);
            && end.net <= end.paid
            && end.held <= Bought(end.net, quoteReserve, tokenReserve)
            && (end.held >= 0 ==>
                  end.gross <= end.net && end.held <= Bought(end.net - end.gross, quoteReserve, tokenReserve))
  {
    var start := Opening(quoteReserve, tokenReserve);
    var end := ExecuteAll(start, trades);
    ProductNeverFalls(start, trades);
    if end.held >= 0 {
      NoProfitableRoundTrip(quoteReserve, tokenReserve, trades);
      OneSwapBound(quoteReserve, tokenReserve, end.quoteReserve, end.tokenReserve, end.net, end.held);
      OneSwapBound(quoteReserve, tokenReserve, end.quoteReserve, end.tokenReserve, end.net - end.gross, end.held);
    }
  }

  /**
   * A run that sells at most what it bought gets out of the curve at most the net inputs
   * it put in, before any fee on the way out is taken.
   */
  lemma NoProfitableRoundTrip(quoteReserve: nat, tokenReserve: nat, trades: seq<Trade>)
    requires quoteReserve > 0 && tokenReserve > 0
    requires ExecuteAll(Opening(quoteReserve, tokenReserve), trades).held >= 0
    ensures var end := ExecuteAll(Opening(quoteReserve, tokenReserve), trades);
            end.received <= end.gross <= end.net <= end.paid
  {
    var start := Opening(quoteReserve, tokenReserve);
    var end := ExecuteAll(start, trades);
    ProductNeverFalls(start, trades);
    Times(end.tokenReserve, tokenReserve, end.quoteReserve);
    Cancels(quoteReserve, end.quoteReserve, tokenReserve);
  }
}
