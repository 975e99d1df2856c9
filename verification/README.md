# Verified model of the private Pons trading stack

This project models the parts of the repository where money or one-time proofs can be
lost, and proves what they keep. It covers five components.

- **Proving.** The Starkscan relay keeps a cursor and one terminal record per attempt in an
  expiring store, and posts under an idempotency key that carries the attempt number.
  `ProverRelay` is the relay as it runs; `ProverProtocol` lets any number of relays
  interleave at every await, crash, and lose records; `ProverRecovery` says what a stored
  outcome protects. `StarkwareRelay` is the synchronous variant behind a short cache.
  `CanonicalJson` and `JsonText` are the text whose digest names a request.
- **Trading.** `CurveQuote` is the integer constant-product quoting with three floored fees,
  the capped snipe tax and the partial fill; `CurveRuns` bounds whole runs of trades by
  their net inputs; `PonsAdapter` builds the call batches and `PonsPolicy` is the relayer
  that decides which of them it pays for; `PolicyAcceptance` shows that the two agree.
- **Crossing chains.** `RelayQuotes` validates strict quotes and their calldata; `Funding` and
  `FundingRuns` are the resumable burn, call by call and over whole runs; `BatchReturn`
  returns several positions at once; `RelayAttestation` and `ReturnPipeline` follow a
  return from the proxy's seal to the policy; `WalletReturn` and `WalletMessage` are the
  direct recovery and the text that authorises it.
- **Recovering.** `LogScan` is the adaptive history scan; `PositionMerge` merges what it finds
  into the saved records.
- **The edges.** `RelaySchema` prints and parses execution requests; `Base64Url` is the token
  encoding; `LiveRuntime` is the runtime's single-flight wallet state machine, and
  `RuntimeSessions` says whom its session is for.

Code that changes state is modelled by classes and methods (`ProverStore.MemoryStore`,
`ProverRelay`, `Funding.FundingStorage`, `BatchReturn`, `WalletReturn`, `LogScan`,
`PositionMerge`, `LiveRuntime.Runtime`); code made of expressions by functions. What the
outside answers (the network, a wallet, the clock, storage writes that fail, a tab that
closes) is a parameter or a nondeterministic choice. Addresses are numbers below 2^160,
and two spellings of one address are one value. Amounts are unbounded integers, as in
the source.

Some places where the code says less than one might expect are stated exactly:

- The policy accepts a built buy (sell) exactly when the rate-normalised output (the
  output) is at least two: at one, the policy's own 50% minimum rounds to zero.
- Of the launches the policy accepts, the adapter builds exactly those whose name and symbol
  have no outer spaces, whose tax is at most 100% and whose salt is 32 bytes.
- A cursor that funding saves reads back exactly when its burn hash is hex, its channel is
  named and its account index is a safe integer; otherwise the next call discards it.
- Burns and clears differ by more than the stored cursor exactly when a record went unsaved
  or was discarded. For runs of funding calls this is a condition on each call: a burn must
  be seen and saved, with a hex hash, a named channel and a safe account index. Any
  interrupted call that breaks it burns a second time when it is repeated (`BurnAgain`);
  with an honest Relay, a burn hash that is not hex is enough.
- The source's message says an unreadable funding record is cleared to prevent a double
  burn; clearing it is what lets the next call burn again, and the model follows the code.
- A direct recovery request passes exactly when it is signed within 300 s of the start of
  its authorisation and relayed before its end.
- The address-replacing branch of the runtime never runs, because a connection is only
  requested while no address is known.

Check everything with `dafny verify dfyconfig.toml`.

## Model

| member | source | states |
|---|---|---|
| ProverJob.ParseJob | apps/demo/src/starkscan-prover-relay.ts:563-594 | a report is a job exactly when its id and status are well formed and its terminal flag agrees with the status |
| ProverJob.TerminalTtlSeconds | apps/demo/src/starkscan-prover-relay.ts:480-490 | a terminal record lives for five minutes or what is left of its screening, but at least a second |
| ProverStore.MemoryStore.Get | apps/demo/src/starkscan-prover-store.ts:121-129 | a reader sees a record exactly while it has not expired, and only an expired record is dropped |
| ProverStore.MemoryStore.Set | apps/demo/src/starkscan-prover-store.ts:130-138 | refuses lifetimes that are not positive; otherwise stamps value and expiry under the key and touches nothing else |
| ProverStore.ExpiryIsInvisible | apps/demo/src/starkscan-prover-store.ts:121-129 | dropping an expired record is invisible to every later reader of any key |
| ProverKeys.IdempotencyKeysDiffer | apps/demo/src/starkscan-prover-relay.ts:201-212 | different digests or attempts never share an idempotency key |
| ProverKeys.StoreKeysDiffer | apps/demo/src/starkscan-prover-relay.ts:437-443 | the cursor and the terminal records of all requests have different store keys |
| ProverRelay.LoadStoredAttempt | apps/demo/src/starkscan-prover-relay.ts:263-329 | decides by the plan over what its two reads saw; a rotation is stored before it is used |
| ProverRelay.PersistJob | apps/demo/src/starkscan-prover-relay.ts:331-392 | performs exactly the planned writes, the terminal record first, and answers as planned |
| ProverRelay.AwaitJob | apps/demo/src/starkscan-prover-relay.ts:114-179 | polls fewer than maxWait/250 times and gives up only when the next poll would be past the deadline; every report before the last was a job that had not ended, the last one gets the answer it is owed, and a store remembers it |
| ProverRelay.RelayStarkscanProverRequest | apps/demo/src/starkscan-prover-relay.ts:71-181 | submits at most once, under exactly the attempt the stored records call for; a reported success is served as exactly its proof unless it is spent, other outcomes and stored ones as what they are, and served proofs are fresh |
| ProverRelay.AskAgain | apps/demo/src/starkscan-prover-relay.ts:71-392 | two requests in a row: a proof whose answer was lost is served again without a second submission while it is fresh, failed and unknown deliveries stay so for a day, an unavailable prover is asked again under the same attempt, and a spent success under the next |
| ProverProtocol.EveryPostIsBacked | apps/demo/src/starkscan-prover-relay.ts:92-179 | for every interleaving, crash and expiry: a submission under attempt n follows an upstream success under every earlier attempt |
| ProverProtocol.OnlySuccessRotates | apps/demo/src/starkscan-prover-relay.ts:331-392 | without a success under attempt k no attempt above k is ever submitted, whatever else was reported |
| ProverProtocol.CursorFollowsTerminal | apps/demo/src/starkscan-prover-relay.ts:376-391 | a cursor never names an outcome whose one-time record was not stored first |
| ProverProtocol.RunKeepsInv | apps/demo/src/starkscan-prover-relay.ts:263-392 | the protocol invariant over every schedule of any number of processes |
| ProverRecovery.TerminalRecordGuards | apps/demo/src/starkscan-prover-relay.ts:263-329 | once attempt n's terminal record is written by a request that ran alone, every later submission is above n while the record and the cursor live, even if the cursor write was lost |
| ProverRecovery.NoReturnIsAbsorbing | apps/demo/src/starkscan-prover-relay.ts:312-329 | once the cursor names a failed or unknown delivery nothing is submitted, reported or recorded until it expires |
| StarkwareRelay.LifetimeIsFreshness | apps/demo/src/starkware-prover-relay.ts:166-179 | the record's lifetime alone is the freshness check: live means at most 255 s old, expired means two minutes are over or the screening is at least 255 s old |
| StarkwareRelay.RelayStarkwareProverRequest | apps/demo/src/starkware-prover-relay.ts:38-114 | serves a live cached result without submitting, else submits once, passes on or refuses each kind of answer as such, and caches exactly what it serves of proofs younger than 255 s; every cache hit is fresh |
| JsonText.EscapeReadsBack | apps/demo/src/starkscan-prover-relay.ts:631-637 | unescaping undoes JSON string escaping for all strings of UTF-16 units, lone surrogates included |
| JsonText.QuotedIsUnique | apps/demo/src/starkscan-prover-relay.ts:631-637 | a quoted string is unambiguous whatever follows it |
| CanonicalJson.PrintUnique | apps/demo/src/starkscan-prover-relay.ts:630-651 | a printed value is unambiguous in any context in which values are printed |
| CanonicalJson.CanonicalIsExact | apps/demo/src/starkscan-prover-relay.ts:630-651 | two values have the same canonical text exactly when they differ at most in the order of object keys at any depth |
| CurveQuote.AmountInIsTight | packages/sdk/src/adapters/pons-v2.ts:533-556 | the exact-output input suffices, nothing two units smaller does, and when it is one unit above the minimum |
| CurveQuote.FeeGuardNeverFires | packages/sdk/src/adapters/pons-v2.ts:469-474 | the snipe cap keeps total fees at 99% or less, so the fee guard cannot fire |
| CurveQuote.FeesLeave | packages/sdk/src/adapters/pons-v2.ts:477-481 | three floored fees take their total rate less at most a unit each |
| CurveQuote.GrossCoversNet | packages/sdk/src/adapters/pons-v2.ts:489-495 | the ceiling gross-up leaves the net input after the three floored fees |
| CurveQuote.BuyQuoteIsSound | packages/sdk/src/adapters/pons-v2.ts:445-504 | tokens between one and the sellable limit, spending plus refund is the input, the snipe tax is the raw one up to its cap, and the fees charged on the spending leave an input that buys the quoted tokens |
| CurveQuote.BuyIsQuoted | packages/sdk/src/adapters/pons-v2.ts:445-504 | a buy is quoted exactly when the fees leave 1%, the net input buys a token, and something is left to sell |
| CurveQuote.BuyQuoteIsTight | packages/sdk/src/adapters/pons-v2.ts:476-504 | the tokens are the smaller of what the input buys and what is sellable, and a clamped spending never exceeds the grossed-up exact input and cannot be a unit smaller |
| CurveQuote.SellQuoteIsNet | packages/sdk/src/adapters/pons-v2.ts:506-531 | a sell pays its constant-product output less both floored fees, within two units of its share, at any fee rates |
| CurveQuote.SellIsQuoted | packages/sdk/src/adapters/pons-v2.ts:506-531 | a sell is quoted exactly when the curve is not ready, the tokens buy a unit, and the fees leave some of it |
| CurveQuote.SlippageIsBounded | packages/sdk/src/adapters/pons-v2.ts:572-577 | a minimum gives up the slippage share and less than one unit more |
| CurveQuote.MinimumFitsPartialFill | packages/sdk/src/adapters/pons-v2.ts:558-577 | scaled back as on a partial fill the minimum never exceeds the quoted tokens, and it is antitone in slippage |
| CurveRuns.ProductNeverFalls | packages/sdk/src/adapters/pons-v2.ts:506-545 | the reserve product never falls over any run of buys and sells at quoted amounts |
| CurveRuns.RunYieldsAtMostOneSwap | packages/sdk/src/adapters/pons-v2.ts:445-545 | splitting never helps: whatever the run, the trader holds at most the output of one swap of the sum of the net inputs, even less the gross outputs when any tokens are left |
| CurveRuns.NoProfitableRoundTrip | packages/sdk/src/adapters/pons-v2.ts:445-545 | a run that sells at most what it bought gets out of the curve, before fees, at most the net inputs it put in |
| PolicyAcceptance.BuiltBuyIsAccepted | packages/relayer/src/pons-v2-policy.ts:255-368 | on equal reads every built buy is accepted, for all slippages, exactly when the rate-normalised output is at least two |
| PolicyAcceptance.OneTokenBuyIsRefused | packages/relayer/src/pons-v2-policy.ts:301-330 | any buy of one token without slippage is quoted and built, and the policy refuses it because its own 50% minimum throws |
| PolicyAcceptance.OneTokenIsQuoted | packages/sdk/src/adapters/pons-v2.ts:445-504 | such buys exist on a live curve, for every amount |
| PolicyAcceptance.BuiltSellIsAccepted | packages/relayer/src/pons-v2-policy.ts:255-368 | on equal reads every built sell is accepted exactly when the quoted output is at least two |
| PolicyAcceptance.BuiltLaunchIsAccepted | packages/sdk/src/adapters/pons-v2.ts:356-443 | every built launch is accepted exactly when it is prefunded with the launch fee |
| PolicyAcceptance.AcceptedLaunchIsBuilt | packages/relayer/src/pons-v2-policy.ts:169-253 | conversely, an accepted launch is one the adapter builds from some intent exactly when its name and symbol have no outer spaces, its tax is at most 100% and its salt is 32 bytes |
| PolicyAcceptance.AcceptedTradeIsBounded | packages/relayer/src/pons-v2-policy.ts:255-368 | an accepted trade approves exactly what it trades, on an active recorded launch, for the account, with a minimum of at least half the live quote |
| PolicyAcceptance.BuiltBuyIsExact | packages/sdk/src/adapters/pons-v2.ts:294-324 | a buy is built exactly for a live curve, a quote, at most 50% slippage and a minimum of at least one; it approves exactly its input and its minimum gives up exactly the trader's slippage of the rate-normalised output |
| PolicyAcceptance.BuiltSellIsExact | packages/sdk/src/adapters/pons-v2.ts:325-352 | likewise a sell, of the quoted output, on a curve that is not ready to graduate |
| RelayQuotes.TransferCalldataIsExact | packages/sdk/src/relay-bridge.ts:1255-1274 | calldata decodes to a transfer exactly when, up to letter case, it is that transfer's encoding |
| RelayQuotes.ValidQuoteIsExact | packages/sdk/src/relay-bridge.ts:1061-1168 | a validated quote moves exactly the requested amount of the requested token from the user to its deposit address; its request ID, output and protected output are those the answer spells, the output itself where no minimum is named |
| RelayQuotes.QuoteIsReported | packages/sdk/src/relay-bridge.ts:1061-1168 | a validated quote reports the amounts as the answer spells them, the transaction of its first deposit step, and its attestation exactly when that is well formed |
| RelayQuotes.QuoteSpends | packages/sdk/src/relay-bridge.ts:872-906 | the same for a quote that was asked for, whatever answer it came from |
| RelayQuotes.HonestBodyValidates | packages/sdk/src/relay-bridge.ts:1061-1168 | the answer of an honest Relay, with a minimum below its output, validates as the quote it was meant to be for every request with a representable positive amount |
| Funding.KeyTextInjective | packages/sdk/src/relay-bridge.ts:1329-1340 | cursor, legacy and probe records never share a storage key |
| Funding.FundingStorage.MigrateLegacyCursor | packages/sdk/src/relay-bridge.ts:1429-1454 | does exactly the writes of a migration: a readable legacy record moves into an empty slot only, and is removed once moved or superseded |
| Funding.MigrationKeepsCursor | packages/sdk/src/relay-bridge.ts:1429-1454 | an existing cursor is never touched by a migration |
| Funding.FundingStorage.ReadCursor | packages/sdk/src/relay-bridge.ts:1350-1392 | returns the stored cursor; exactly an unreadable one is cleared and reported |
| Funding.Prepare | packages/sdk/src/relay-bridge.ts:960-1017 | a prepared burn pays a validated quote's deposit address and its reverse quote delivers more than the fee buffer |
| Funding.FundingStorage.Burn | packages/sdk/src/relay-bridge.ts:959-1047 | burns for an empty slot only: probe, quotes, burn and save in this order as far as the answers allow, with the record that resumes it |
| Funding.FundingStorage.Finish | packages/sdk/src/relay-bridge.ts:1048-1058 | clears the cursor exactly when Relay delivered it, and answers from the cursor |
| Funding.FundingStorage.Fund | packages/sdk/src/relay-bridge.ts:920-1058 | one call: its result, its events and the records it leaves are exactly those its arguments, the records it found and the answers call for, and every event was allowed |
| FundingRuns.CallResumesOrBurns | packages/sdk/src/relay-bridge.ts:920-1058 | a stored cursor is resumed for exactly its own account and index and refused to any other without a trace, never burned again; an empty slot succeeds exactly when the burn is saved and delivered |
| FundingRuns.BurnSucceeds | packages/sdk/src/relay-bridge.ts:959-1047 | a burn is made and kept exactly when the probe is kept, a fee below the amount is quoted, the quotes there and back validate above the buffer, and the burn is seen and saved |
| FundingRuns.BurnComesHome | packages/sdk/src/relay-bridge.ts:920-1058 | a burn interrupted after its record is kept is resumed by the same call: one burn, one clear, and a result with that burn's hash and commitment, the session's account, owner and index, and the quote's request and outputs |
| FundingRuns.LegacyComesHome | packages/sdk/src/relay-bridge.ts:1429-1454 | a readable legacy record is moved, resumed without a burn and reported as what it says |
| FundingRuns.ResultIsDelivered | packages/sdk/src/relay-bridge.ts:1048-1058 | a call succeeds only with the cursor that it has just cleared after delivery |
| FundingRuns.EventsAreSafe | packages/sdk/src/relay-bridge.ts:920-1058 | in every history no burn happens while a cursor is stored; each pays exactly the net amount of the owner's USDC to the deposit address of a quote for the session's account, with a worthwhile quote back to the staging account; a cursor is cleared only right after Relay reported its own transfer's success |
| FundingRuns.BurnsAreConserved | packages/sdk/src/relay-bridge.ts:1350-1469 | burns and migrations equal clears, discards, unsaved burns and the stored cursor; from an empty slot clears account for all but the stored burn exactly when nothing went unsaved or was discarded |
| FundingRuns.SavedRecordReadsBack | packages/sdk/src/relay-bridge.ts:1359-1385 | a saved record reads back exactly when its burn hash is hex, its channel is named and its index is safe |
| FundingRuns.LegibleRecordsStay | packages/sdk/src/relay-bridge.ts:1350-1392 | where records read back nothing is discarded and whatever is stored can be resumed |
| FundingRuns.AtMostOneUnfinishedBurn | packages/sdk/src/relay-bridge.ts:920-1058 | in a history whose records are legible and whose burns are saved, burns and migrated records exceed clears by one while a resumable cursor is stored and by nothing otherwise |
| FundingRuns.FundAll | packages/sdk/src/relay-bridge.ts:920-1058 | every run of calls that starts with an empty slot and whose burns for the scope are seen and saved, with hex hash, named channel and safe index: nothing is discarded, and burns and migrated records exceed clears by one exactly while a resumable cursor is stored; without legacy records nothing is migrated, so burns alone do |
| FundingRuns.BurnAgain | packages/sdk/src/relay-bridge.ts:1386-1391 | whenever an interrupted burn breaks that condition, repeating the same call burns twice with nothing cleared |
| FundingRuns.UnknownHashBurnsTwice | packages/sdk/src/relay-bridge.ts:1359-1391 | the concrete run: with an honest Relay, a burn whose hash is not hex is discarded and made again |
| BatchReturn.OrderedIsPositive | packages/sdk/src/relay-bridge.ts:589-593 | the sources are exactly the positive ones, largest first |
| BatchReturn.RouteSources | packages/sdk/src/relay-bridge.ts:628-694 | submits the deposits of the quotes in order until a leg fails, and delivers what the legs come to |
| BatchReturn.ReturnBatch | packages/sdk/src/relay-bridge.ts:580-739 | its result, requests and transfers are those of the route; a duplicate stops it before any request |
| BatchReturn.Route.RequestsInOrder | packages/sdk/src/relay-bridge.ts:636-642 | each request is for its own source, and only the first may ask for a gas top-up |
| BatchReturn.Route.OffersInOrder | packages/sdk/src/relay-bridge.ts:657-671 | while quotes validate, each source has exactly one transfer, in order |
| BatchReturn.Route.DeliveredCoversMinimums | packages/sdk/src/relay-bridge.ts:679-685 | after every leg the staging account holds its initial balance and all protected outputs so far |
| BatchReturn.SuccessfulBatch | packages/sdk/src/relay-bridge.ts:580-739 | a success lists every source in order and returns the net deposit less the buffer, which is positive, or nothing from nothing |
| BatchReturn.RequestsAreExact | packages/sdk/src/relay-bridge.ts:636-642 | each request is for its own source's USDG to the staging account, refunded to its owner, and the first one tops up gas exactly when the staging account has none |
| BatchReturn.BatchSucceeds | packages/sdk/src/relay-bridge.ts:580-739 | a batch succeeds exactly when nothing is named twice, all is read, every leg is attested, executed, relayed and grows the balance by its minimum, and deposit and merge succeed above the buffer; it reports that merge |
| BatchReturn.SubmissionsAreExact | packages/sdk/src/relay-bridge.ts:657-671 | each submitted transfer moves exactly its source's amount from that source to the quote's deposit address, under the quote's request and attestation |
| Base64Url.Base64RoundTrip | packages/relayer/src/relay-quote-attestation.ts:160-165 | decoding undoes encoding for all bytes; encoding undoes decoding exactly on text without slack |
| RelayAttestation.EnvelopeParts | packages/relayer/src/relay-quote-attestation.ts:54-68 | splitting a token at its dots gives back version, payload and tag |
| RelayAttestation.HonestTokenVerifies | packages/relayer/src/relay-quote-attestation.ts:36-96 | a created token verifies as its own claims exactly from a minute before issue until expiry |
| ReturnPipeline.AttestationOnlyAddsToken | apps/demo/server/proxy.ts:218-321 | attesting changes nothing the client validates except that a token is present |
| ReturnPipeline.SealMatchesQuote | apps/demo/server/proxy.ts:245-320 | proxy and client read the same request, deposit address and amount out of one answer |
| ReturnPipeline.HonestReturnIsAccepted | packages/relayer/src/relay-requests.ts:28-59 | an attested and validated quote passes the policy exactly when the deposit address and recipient are isolated and the clock is in the window |
| ReturnPipeline.VerifiedTokenWasSealed | packages/relayer/src/relay-quote-attestation.ts:59-96 | under an ideal MAC a token that verifies is one the proxy sealed, in its window |
| ReturnPipeline.AcceptedReturnWasAttested | packages/relayer/src/pons-v2-policy.ts:65-118 | under an ideal MAC every accepted return carries exactly the amount, deposit address, account, owner and request the proxy sealed |
| WalletMessage.MessageIsExact | packages/sdk/src/wallet-recovery.ts:13-61 | two authorisations have the same message exactly when chain, factory, recipient, deadline and the amount of every account agree, in any order of accounts |
| WalletReturn.ReturnSessionsToWallet | packages/sdk/src/client.ts:426-555 | nothing is authorised or submitted without sources; otherwise one transfer per source in account order, stopping at exactly the first failure, success exactly when all are confirmed, with their hashes and total |
| WalletReturn.TransferAll | packages/sdk/src/client.ts:503-547 | submits the requests in order until exactly the first one fails and totals the confirmed ones |
| WalletReturn.RecoverableIsExact | packages/sdk/src/client.ts:433-475 | the sources are, in account order, one for every distinct index that holds something, with its whole balance, when there are 1 to 20 safe indexes and all are read |
| WalletReturn.AuthorizationIsTheWallets | packages/sdk/src/client.ts:476-501 | the authorisation carries the wallet's 65-byte signature over the message for these sources, ending ten minutes from the start |
| WalletReturn.RequestMovesBalance | packages/sdk/src/client.ts:503-529 | each submitted request moves the whole balance of one asked-for session to the recipient, for that session's account, owner and index, under the shared authorisation |
| WalletReturn.ReportedIsMoved | packages/sdk/src/client.ts:503-554 | the reported total is the sum of the submitted transfers |
| WalletReturn.RecoveryIsAccepted | packages/relayer/src/pons-v2-policy.ts:120-167 | a built recovery passes exactly when signed within 300 s of the authorisation's start and relayed before its end, unless the wallet is the account itself |
| WalletReturn.AcceptedRecoveryWasSigned | packages/relayer/src/pons-v2-policy.ts:120-167 | every accepted recovery is a transfer that its recipient, not the account itself, signed: this chain, factory, account, amount and an end no earlier than the request's and at most 15 minutes ahead |
| LogScan.RetryRateLimited | apps/demo/src/pons-recovery.ts:407-431 | at most four attempts, retried only while the rate is limited |
| LogScan.GetLogsInBlockRanges | apps/demo/src/pons-recovery.ts:358-405 | for every pattern of answers it asks exactly for the chunks that follow one another under halving and doubling; a success has led past the last block and returns the logs of each block once and in order; a failure is the provider's or the caller's at the chunk reached, and wide timeouts alone never cause one |
| LogScan.ScanIsCheap | apps/demo/src/pons-recovery.ts:358-431 | of any such chunks at most one per 500 blocks is answered, timeouts are at most 14 more than answers, and queries at most four for each |
| PositionMerge.MergeRecoveredPositions | apps/demo/src/positions.ts:83-123 | the loop computes the merge function |
| PositionMerge.MergeIsUnion | apps/demo/src/positions.ts:83-123 | one record per key of either side, newest first; unmatched records untouched, matched ones combined under their saved id with every known amount and hash and the longer time span, nothing else |
| PositionMerge.MergeIsIdempotent | apps/demo/src/positions.ts:83-123 | recovering the same positions again changes nothing |
| RelaySchema.TextIsFaithful | packages/relayer/src/schema.ts:16-34 | reading undoes the checksummed and decimal spellings |
| RelaySchema.OnlySpellingsAreRead | packages/relayer/src/schema.ts:16-34 | conversely, nothing else is read: only canonical decimals, and addresses in lower case or with their checksum |
| RelaySchema.ReadPrintedRecovery | packages/relayer/src/schema.ts:112-163 | a printed recovery authorisation is read back exactly when it names 1 to 20 distinct accounts with positive amounts and has a 65-byte signature |
| RelaySchema.ParseUndoesPrint | packages/relayer/src/schema.ts:43-110 | under the property names of the wire form, the parser accepts a printed request exactly when it meets the relayer's demands, and reads back the request with its Relay request ID in lower case |
| LiveRuntime.SingleFlight | apps/demo/src/runtime.ts:258-349 | for every interleaving at most one connect and one sign-in request are outstanding, none to connect once an address is known, and held signatures and sessions belong to the connected address |
| LiveRuntime.AddressIsWrittenOnce | apps/demo/src/runtime.ts:245-289 | once known, the address stays whatever happens |
| LiveRuntime.AdoptNeverReplaces | apps/demo/src/runtime.ts:245-257 | a wallet's answer never replaces another address, so it never drops an identity |
| LiveRuntime.RetryDoesNotStack | apps/demo/src/runtime.ts:258-296 | while a connection is being requested, retries and timeouts ask the wallet nothing more |
| LiveRuntime.Runtime.KeepsItsPromises | apps/demo/src/runtime.ts:245-396 | the runtime, whose every handler keeps its variables at what its events call for, always is in single flight and keeps an address it ever knew |
| LiveRuntime.Runtime.ResumeAfterConnect | apps/demo/src/runtime.ts:369-375 | a call goes on with the address its request resolved to, joining, refusing or opening a sign-in, or ends with the request |
| RuntimeSessions.AcceptedIsFor | apps/demo/src/runtime.ts:359-369 | for every interleaving, a call accepted for an account index stays for that index until it ends |
| RuntimeSessions.PreparedSession | apps/demo/src/runtime.ts:359-396 | a completed preparation leaves a session of exactly its own index, under a signature that the wallet gave for the connected address |
| RuntimeSessions.RuntimeKeepsIndexes | apps/demo/src/runtime.ts:359-396 | the same of the runtime, and conversely its session is always that of a completed call for its index, under a signature the wallet gave |
| RuntimeSessions.PrepareFirst | apps/demo/src/runtime.ts:258-396 | from the start, answered requests lead to one connection, one sign-in and the session asked for |
| RuntimeSessions.PrepareAgain | apps/demo/src/runtime.ts:359-396 | while a signature is held another preparation asks the wallet nothing and makes its own session |
| Sorting.SortedIsUnique | packages/sdk/src/wallet-recovery.ts:39-41 | where ties are equal, a multiset has one sorted arrangement, so printing after sorting ignores the given order |
| Requests.AddressTextInjective | packages/sdk/src/wallet-recovery.ts:57-59 | different addresses are spelled differently, whatever the checksum |
| Numerals.DecimalRoundTrip | packages/relayer/src/schema.ts:29-34 | decimal printing is canonical and is undone by reading |
| Numerals.CanonicalDecimalIsPrinted | packages/relayer/src/schema.ts:29-34 | canonical decimal text is the only one for its value |

## Left out

- The proof a prover returns: a payload and the screening time the relay reads from it; validating the proof request itself (`validateMainnetProveRequest`) and RPC error texts and codes are not modelled.
- The Redis store and its AES envelope: only the in-memory store's expiry is modelled.
- ProverProtocol.EveryPostIsBacked: the cursor's attempt number itself may fall under concurrency, so safety is stated through the history of upstream successes.
- ProverRecovery.TerminalRecordGuards: stated for the request that ran alone up to its record; concurrent requests before it can leave an older cursor behind.
- StarkwareRelay.RelayStarkwareProverRequest: the time between computing a lifetime and stamping it is a parameter; with none, every hit is at most 255 s old.
- CanonicalJson.CanonicalIsExact: numbers whose printed form is not an integer are not modelled, and SHA-256 of the text is not; UTF-8 encoding is left implicit.
- Output that is monotone in the quote input: false of three floored fees, so not stated.
- Curve contracts: only the reserve update that the quote formulas imply is used; gas, graduation and the curve's own checks are not.
- The width of calldata words other than the transfer amount, and ABI decoding of Pons calls: the policy reads decoded calls; for returns, calldata that is exactly a transfer decodes to it.
- FundingRuns.FundAll: calls are sequential, so two tabs that burn at once are not modelled; legacy records that parse are assumed to be legible once moved.
- Funding.FundingStorage.Burn: a kept write counts as confirmed; a burn hash with characters that JSON escapes is stored by the source and then reported as not stored.
- Storage values that are neither kept, ignored nor refused as a whole: partial writes are not modelled.
- RelayAttestation.HonestTokenVerifies: the JSON text of the claims is an inverse pair of functions and the MAC is any function with 32-byte tags; forgery is excluded by assumption where a result says so.
- Reading `RELAY_QUOTE_ATTESTATION_KEY`: proxy and relayer share one key.
- Malformed return-quote requests at the proxy: a request's parties and amount are typed; only its route, strictness and sign of the amount can be wrong.
- The single return and deposit transports, `waitForSuccess` polling, the derived signer and the order of progress callbacks: each is a shorter version of the batch or one bounded retry.
- Key derivation, EIP-712 and message signatures: uninterpreted; address checksums are an arbitrary choice of upper-case letters.
- WalletReturn.RecoveryIsAccepted: client and relayer read one clock.
- RelaySchema.ParseUndoesPrint: numbers in JSON are integers, and unknown properties are ignored as the parser ignores them.
- `usdgSpentByAccount`, position parsing and storage migration: sums and field checks settled by reading one branch.
- LiveRuntime.SingleFlight: recovery authorisations, which are signed outside the single-flight request, are not counted; nor is the session that funding derives again for another account index.
- Trading, launching and deposit flows of the runtime, the React application, Clanker adapters, official bridge wrappers, servers and bounded HTTP retries.
