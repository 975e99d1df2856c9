/** Decoded Pons and ERC-20 calldata, and the chain state that builders and policy both read. */
module PonsCalls {
  import opened Wrappers
  import opened Requests
  import opened CurveQuote

  datatype Socials = Socials(twitter: string, telegram: string, discord: string, website: string, farcaster: string)

  datatype LaunchParams = LaunchParams(
    name: string,
    symbol: string,
    logo: string,
    description: string,
    socials: Socials,
    creatorFeeRecipient: Address,
    creatorTaxBps: nat,
    buybackEnabled: bool,
    expectedEconomics: nat,
    salt: string)

  datatype CallData =
    | Approve(spender: Address, amount: nat)
    | Transfer(recipient: Address, amount: nat)
    | Buy(quoteIn: nat, minTokensOut: nat, recipient: Address)
    | Sell(tokensIn: nat, minQuoteOut: nat, recipient: Address)
    | LaunchToken(params: LaunchParams, configId: nat, pairToken: Address)
    | Unrecognized

  type PonsCall = Call<CallData>

  type PonsRequest = ExecutionRequest<CallData>

  datatype Deployment = Deployment(chainId: nat, factory: Address, usdg: Address)

  datatype Launch = Launch(registered: bool, phase: nat, token: Address, curve: Address, pairToken: Address)

  /** One curve contract; the snipe tax depends on the recipient. */
  datatype CurveContract = CurveContract(
    token: Address,
    pairToken: Address,
    factory: Address,
    quoteReserve: nat,
    tokenReserve: nat,
    sellable: nat,
    feeBps: nat,
    creatorTaxBps: nat,
    snipeTaxBps: Address -> nat,
    readyToGraduate: bool)
  {
    function For(recipient: Address): Curve {
      Curve(quoteReserve, tokenReserve, sellable, feeBps, creatorTaxBps, snipeTaxBps(recipient), readyToGraduate)
    }
  }

  datatype Chain = Chain(
    curveAt: Address -> CurveContract,
    launchOf: Address -> Launch,
    canLaunch: Address -> bool,
    launchFee: nat,
    maxCreatorTaxBps: nat,
    configEnabled: nat -> bool,
    pairApproved: Address -> bool,
    economics: (nat, Address) -> nat)

  // ----- Text limits -----

  function Utf8Length(s: string): nat {
    if s == "" then 0
    else
      var code := s[0] as int;
      (if code < 0x80 then 1 else if code < 0x800 then 2 else if code < 0x1_0000 then 3 else 4) + Utf8Length(s[1..])
  }

  predicate Within(s: string, minimum: nat, maximum: nat) {
    minimum <= Utf8Length(s) <= maximum
  }

  predicate SocialsFit(s: Socials) {
    && Within(s.twitter, 0, 256)
    && Within(s.telegram, 0, 256)
    && Within(s.discord, 0, 256)
    && Within(s.website, 0, 256)
    && Within(s.farcaster, 0, 256)
  }
}
