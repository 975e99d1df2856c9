/** Public recovery of several positions straight to the connected wallet. */
module WalletReturn {
  import opened Wrappers
  import opened Numerals
  import opened Requests
  import opened Sorting
  import opened PonsCalls
  import opened PonsPolicy
  import opened WalletMessage

  const DEFAULT_DEADLINE_SECONDS := 10 * 60
  const RECOVERY_DEADLINE_SECONDS := 5 * 60

  datatype Session = Session(account: Address, owner: Address, accountIndex: nat)

  datatype Source = Source(session: Session, amount: nat)

  datatype Config = Config(chainId: nat, factory: Address, usdg: Address, upper: Checksum)

  /** What derivation, chain reads, the wallet, the clock and the relayer answer. */
  datatype World = World(
    session: nat -> Option<Session>,
    balance: nat -> Option<nat>,
    startMs: nat,
    authorize: string -> Option<string>,
    signMs: nat -> nat,
    nonce: Address -> nat,
    signExecution: nat -> string,
    execute: nat -> Option<string>,
    confirmed: nat -> bool)

  datatype WalletReturned = WalletReturned(
    amountReturned: nat,
    recipient: Address,
    sourceAccountIndexes: seq<nat>,
    transactionHashes: seq<string>)

  datatype WalletError = BadIndexes | Unreachable | NotAuthorizable(error: MessageError) | BadAuthorization | Reverted

  predicate ByAccountOrder(a: Source, b: Source) {
    a.session.account <= b.session.account
  }

  /** The first occurrence of every index, in order. */
  function Unique(indexes: seq<int>): (r: seq<int>)
    ensures forall i :: i in r <==> i in indexes
    ensures forall i, j :: 0 <= i < j < |r| ==> r[i] != r[j]
  {
    if indexes == [] then []
    else
      var front, last := Unique(indexes[..|indexes| - 1]), indexes[|indexes| - 1];
      assert indexes == indexes[..|indexes| - 1] + [last];
      if last in front then front else front + [last]
  }

  predicate ValidIndexes(unique: seq<int>) {
    1 <= |unique| <= MAX_ACCOUNTS && forall i :: 0 <= i < |unique| ==> 0 <= unique[i] <= MAX_SAFE_INTEGER
  }

  /** The sources with a positive balance, in the order of their indexes. */
  function Gather(world: World, unique: seq<int>): Result<seq<Source>, WalletError>
    requires forall i :: 0 <= i < |unique| ==> 0 <= unique[i]
  {
    if unique == [] then Success([])
    else
      var front :- Gather(world, unique[..|unique| - 1]);
      var last := unique[|unique| - 1];
      if world.session(last).None? || world.balance(last).None? then Failure(Unreachable)
      else
        var amount := world.balance(last).value;
        Success(front + if amount > 0 then [Source(world.session(last).value, amount)] else [])
  }

  function Entries(sources: seq<Source>): (r: seq<RecoveryEntry>)
    ensures |r| == |sources|
    ensures forall i :: 0 <= i < |r| ==> r[i] == RecoveryEntry(sources[i].session.account, sources[i].amount)
  {
    seq(|sources|, i requires 0 <= i < |sources| => RecoveryEntry(sources[i].session.account, sources[i].amount))
  }

  function Indexes(sources: seq<Source>): (r: seq<nat>)
    ensures |r| == |sources| && forall i :: 0 <= i < |r| ==> r[i] == sources[i].session.accountIndex
  {
    seq(|sources|, i requires 0 <= i < |sources| => sources[i].session.accountIndex)
  }

  function Total(sources: seq<Source>): nat {
    if sources == [] then 0 else Total(sources[..|sources| - 1]) + sources[|sources| - 1].amount
  }

  function MessageFor(config: Config, recipient: Address, sources: seq<Source>, startMs: nat): MessageArgs {
    MessageArgs(config.chainId, config.factory, recipient, Entries(sources), startMs / 1000 + DEFAULT_DEADLINE_SECONDS)
  }

  function AuthorizationFor(recipient: Address, sources: seq<Source>, startMs: nat, signature: string)
    : RecoveryAuthorization
  {
    RecoveryAuthorization(recipient, Entries(sources), startMs / 1000 + DEFAULT_DEADLINE_SECONDS, signature)
  }

  predicate IsWalletSignature(s: string) {
    |s| == 132 && s[..2] == "0x" && AllHex(s[2..])
  }

  /** The request for one source: one transfer of its whole balance, under the shared authorisation. */
  function RecoveryRequest(
    config: Config, source: Source, auth: RecoveryAuthorization, signedAtMs: nat, nonce: nat, signature: string)
    : PonsRequest
  {
    ExecutionRequest(
      config.chainId, config.factory, source.session.account, source.session.owner, source.session.accountIndex,
      [Call(config.usdg, 0, Transfer(auth.recipient, source.amount))],
      nonce, signedAtMs / 1000 + RECOVERY_DEADLINE_SECONDS, 0, Fee(0, 0, 0), signature, None, None, Some(auth))
  }

  /** The first n requests, in source order. */
  ghost predicate Submitted(
    submitted: seq<PonsRequest>, config: Config, world: World, sources: seq<Source>, auth: RecoveryAuthorization)
  {
    && |submitted| <= |sources|
    && forall k :: 0 <= k < |submitted| ==>
         submitted[k] == RecoveryRequest(config, sources[k], auth, world.signMs(k),
                                         world.nonce(sources[k].session.account), world.signExecution(k))
  }

  /** The recovered sources in account order, when every read succeeds. */
  function Recoverable(world: World, accountIndexes: seq<int>): Result<seq<Source>, WalletError> {
    var unique := Unique(accountIndexes);
    if !ValidIndexes(unique) then Failure(BadIndexes)
    else
      var sources :- Gather(world, unique);
      Success(Sort(sources, ByAccountOrder))
  }

  /** The wallet's signature over the message for these sources. */
  function Authorized(config: Config, world: World, recipient: Address, sources: seq<Source>)
    : Result<RecoveryAuthorization, WalletError>
  {
    var message := WalletRecoveryMessage(MessageFor(config, recipient, sources, world.startMs), config.upper);
    if message.Failure? then Failure(NotAuthorizable(message.error))
    else
      var signature := world.authorize(message.value);
      if signature.None? then Failure(Unreachable)
      else if !IsWalletSignature(signature.value) then Failure(BadAuthorization)
      else Success(AuthorizationFor(recipient, sources, world.startMs, signature.value))
  }

  /** The k-th transfer is executed and confirmed. */
  predicate Done(world: World, k: nat) {
    world.execute(k).Some? && world.confirmed(k)
  }

  /** Of n transfers exactly the last one failed. */
  ghost predicate StopsAtLast(world: World, n: nat) {
    n > 0 && !Done(world, n - 1) && forall k :: 0 <= k < n - 1 ==> Done(world, k)
  }

  /**
   * Without sources nothing is authorised or submitted. Otherwise one authorised transfer
   * per source is submitted in account order until one fails; the call succeeds exactly
   * when all are confirmed, and then reports their sum.
   */
  method ReturnSessionsToWallet(config: Config, world: World, accountIndexes: seq<int>, recipient: Address)
    returns (r: Result<WalletReturned, WalletError>, authorized: bool, submitted: seq<PonsRequest>)
    ensures Recoverable(world, accountIndexes).Failure? ==>
              r == Failure(Recoverable(world, accountIndexes).error) && !authorized && submitted == []
    ensures Recoverable(world, accountIndexes) == Success([]) ==>
              r == Success(WalletReturned(0, recipient, [], [])) && !authorized && submitted == []
    ensures Recoverable(world, accountIndexes).Success? && Recoverable(world, accountIndexes).value != [] ==>
              var sources := Recoverable(world, accountIndexes).value;
              var auth := Authorized(config, world, recipient, sources);
              && (auth.Failure? ==> r == Failure(auth.error) && submitted == [])
              && (auth.Success? ==>
                    && authorized && Submitted(submitted, config, world, sources, auth.value)
                    && (r.Success? <==> forall k :: 0 <= k < |sources| ==> Done(world, k))
                    && (r.Failure? ==> StopsAtLast(world, |submitted|))
                    && (r.Success? ==>
                          && |submitted| == |sources| == |r.value.transactionHashes|
                          && (forall k :: 0 <= k < |sources| ==>
                                Some(r.value.transactionHashes[k]) == world.execute(k))
                          && r.value.amountReturned == Total(sources) && r.value.recipient == recipient
                          && r.value.sourceAccountIndexes == Indexes(sources)))
  {
    authorized, submitted := false, [];
    var gathered := Recoverable(world, accountIndexes);
    if gathered.Failure? {
      return Failure(gathered.error), authorized, submitted;
    }
    var sources := gathered.value;
    if sources == [] {
      return Success(WalletReturned(0, recipient, [], [])), authorized, submitted;
    }
    var auth := Authorized(config, world, recipient, sources);
    if auth.Failure? {
      return Failure(auth.error), authorized, submitted;
    }
    authorized := true;
    r, submitted := TransferAll(config, world, sources, auth.value);
  }

  method TransferAll(config: Config, world: World, sources: seq<Source>, auth: RecoveryAuthorization)
    returns (r: Result<WalletReturned, WalletError>, submitted: seq<PonsRequest>)
    ensures Submitted(submitted, config, world, sources, auth)
    ensures r.Success? <==> forall k :: 0 <= k < |sources| ==> Done(world, k)
    ensures r.Failure? ==> StopsAtLast(world, |submitted|)
    ensures r.Success? ==>
              && |submitted| == |sources| == |r.value.transactionHashes|
              && (forall k :: 0 <= k < |sources| ==> Some(r.value.transactionHashes[k]) == world.execute(k))
              && r.value.amountReturned == Total(sources) && r.value.recipient == auth.recipient
              && r.value.sourceAccountIndexes == Indexes(sources)
  {
    submitted := [];
    var amountReturned := 0;
    var sourceAccountIndexes: seq<nat>, transactionHashes: seq<string> := [], [];
    for index := 0 to |sources|
      invariant |submitted| == |transactionHashes| == index
      invariant Submitted(submitted, config, world, sources, auth)
      invariant amountReturned == Total(sources[..index])
      invariant sourceAccountIndexes == Indexes(sources[..index])
      invariant forall k :: 0 <= k < index ==> Done(world, k) && Some(transactionHashes[k]) == world.execute(k)
    {
      var source := sources[index];
      submitted := submitted + [RecoveryRequest(config, source, auth, world.signMs(index),
                                                world.nonce(source.session.account), world.signExecution(index))];
      var transactionHash := world.execute(index);
      if transactionHash.None? {
        assert !Done(world, index);
        return Failure(Unreachable), submitted;
      }
      if !world.confirmed(index) {
        assert !Done(world, index);
        return Failure(Reverted), submitted;
      }
      transactionHashes := transactionHashes + [transactionHash.value];
      sourceAccountIndexes := sourceAccountIndexes + [source.session.accountIndex];
      amountReturned := amountReturned + source.amount;
      OneMore(sources, index);
    }
    assert sources[..|sources|] == sources;
    r := Success(WalletReturned(amountReturned, auth.recipient, sourceAccountIndexes, transactionHashes));
  }

  lemma OneMore(sources: seq<Source>, n: nat)
    requires n < |sources|
    ensures Total(sources[..n + 1]) == Total(sources[..n]) + sources[n].amount
    ensures Indexes(sources[..n + 1]) == Indexes(sources[..n]) + [sources[n].session.accountIndex]
  {
    assert sources[..n + 1][..n] == sources[..n];
  }

  // ----- What is recovered -----

  /** The index's session holds something, and this is what. */
  predicate Held(world: World, index: int, source: Source) {
    && 0 <= index && world.session(index) == Some(source.session)
    && world.balance(index) == Some(source.amount) && source.amount > 0
  }

  /** Gathering succeeds exactly when everything can be read, with one source per session that holds something. */
  lemma {:induction false} GatherIsExact(world: World, unique: seq<int>)
    requires forall i :: 0 <= i < |unique| ==> 0 <= unique[i]
    ensures Gather(world, unique).Success? <==>
              forall i :: 0 <= i < |unique| ==> world.session(unique[i]).Some? && world.balance(unique[i]).Some?
    ensures Gather(world, unique).Success? ==>
              && (forall i, source :: 0 <= i < |unique| && Held(world, unique[i], source) ==>
                    source in Gather(world, unique).value)
              && (forall k :: 0 <= k < |Gather(world, unique).value| ==>
                    exists i :: 0 <= i < |unique| && Held(world, unique[i], Gather(world, unique).value[k]))
              && |Gather(world, unique).value| == Holding(world, unique)
    decreases |unique|
  {
    if unique != [] {
      var front, last := unique[..|unique| - 1], unique[|unique| - 1];
      GatherIsExact(world, front);
      assert forall i :: 0 <= i < |front| ==> unique[i] == front[i];
      if Gather(world, unique).Success? {
        var before, after := Gather(world, front).value, Gather(world, unique).value;
        forall k | 0 <= k < |after|
          ensures exists i :: 0 <= i < |unique| && Held(world, unique[i], after[k])
        {
          if k < |before| {
            var i :| 0 <= i < |front| && Held(world, front[i], before[k]);
            assert Held(world, unique[i], after[k]);
          } else {
            assert Held(world, unique[|unique| - 1], after[k]);
          }
        }
      }
    }
  }

  /** How many of the sessions hold something. */
  function Holding(world: World, unique: seq<int>): nat
    requires forall i :: 0 <= i < |unique| ==> 0 <= unique[i]
  {
    if unique == [] then 0
    else
      var last := unique[|unique| - 1];
      Holding(world, unique[..|unique| - 1]) + if world.balance(last).GetOr(0) > 0 then 1 else 0
  }

  lemma UniqueIndexes(indexes: seq<int>)
    ensures ValidIndexes(Unique(indexes)) <==>
              1 <= |Unique(indexes)| <= 20 && forall index :: index in indexes ==> 0 <= index <= MAX_SAFE_INTEGER
  {
    var unique := Unique(indexes);
    forall index | index in indexes
      ensures exists i :: 0 <= i < |unique| && unique[i] == index
    {
      assert index in unique;
    }
    forall i | 0 <= i < |unique|
      ensures unique[i] in indexes
    {
    }
  }

  /** A source that some of the indexes holds. */
  ghost predicate HeldByOne(world: World, indexes: seq<int>, source: Source) {
    exists index :: index in indexes && Held(world, index, source)
  }

  lemma GatherReads(world: World, indexes: seq<int>)
    requires ValidIndexes(Unique(indexes))
    ensures Gather(world, Unique(indexes)).Success? <==>
              forall index :: index in indexes ==> world.session(index).Some? && world.balance(index).Some?
  {
    var unique := Unique(indexes);
    GatherIsExact(world, unique);
    forall index | index in indexes
      ensures exists i :: 0 <= i < |unique| && unique[i] == index
    {
      assert index in unique;
    }
    forall i | 0 <= i < |unique|
      ensures unique[i] in indexes
    {
    }
  }

  lemma GatheredIsHeld(world: World, indexes: seq<int>, source: Source)
    requires ValidIndexes(Unique(indexes)) && Gather(world, Unique(indexes)).Success?
    ensures source in Gather(world, Unique(indexes)).value <==> HeldByOne(world, indexes, source)
  {
    var unique := Unique(indexes);
    GatherIsExact(world, unique);
    if source in Gather(world, unique).value {
      var k :| 0 <= k < |Gather(world, unique).value| && Gather(world, unique).value[k] == source;
      var i :| 0 <= i < |unique| && Held(world, unique[i], source);
      assert unique[i] in indexes;
    }
    if HeldByOne(world, indexes, source) {
      var index :| index in indexes && Held(world, index, source);
      assert index in unique;
      var i :| 0 <= i < |unique| && unique[i] == index;
    }
  }

  /**
   * The recovered sources are those of 1 to 20 distinct safe indexes, all read: in account
   * order, each a session of one of the indexes with its whole positive balance, one for
   * every index that holds something.
   */
  lemma RecoverableIsExact(world: World, accountIndexes: seq<int>)
    ensures var r := Recoverable(world, accountIndexes);
            && (r.Success? <==>
                  && 1 <= |Unique(accountIndexes)| <= 20
                  && (forall index :: index in accountIndexes ==> 0 <= index <= MAX_SAFE_INTEGER)
                  && (forall index :: index in accountIndexes ==>
                        world.session(index).Some? && world.balance(index).Some?))
            && (r.Success? ==>
                  && Sorted(r.value, ByAccountOrder)
                  && (forall source :: source in r.value <==> HeldByOne(world, accountIndexes, source))
                  && |r.value| == Holding(world, Unique(accountIndexes)))
  {
    var unique := Unique(accountIndexes);
    UniqueIndexes(accountIndexes);
    if ValidIndexes(unique) {
      GatherReads(world, accountIndexes);
      if Gather(world, unique).Success? {
        GatherIsExact(world, unique);
        SortSorts(Gather(world, unique).value, ByAccountOrder);
        forall source
          ensures source in Recoverable(world, accountIndexes).value <==> HeldByOne(world, accountIndexes, source)
        {
          GatheredIsHeld(world, accountIndexes, source);
        }
      }
    }
  }

  /**
   * The authorisation is the wallet's: its 65-byte signature over the message that names
   * this chain, factory and recipient, every source with its whole balance, and an end ten
   * minutes from the start. There is one exactly when that message can be made and the
   * wallet gives such a signature.
   */
  lemma AuthorizationIsTheWallets(
    config: Config, world: World, recipient: Address, sources: seq<Source>, args: MessageArgs)
    requires args == MessageArgs(config.chainId, config.factory, recipient, Entries(sources),
                                 world.startMs / 1000 + 600)
    ensures var message := WalletRecoveryMessage(args, config.upper);
            var auth := Authorized(config, world, recipient, sources);
            && (auth.Success? <==>
                  && message.Success? && world.authorize(message.value).Some?
                  && var signature := world.authorize(message.value).value;
                     |signature| == 132 && signature[..2] == "0x" && AllHex(signature[2..]))
            && (auth.Success? ==>
                  auth.value == RecoveryAuthorization(recipient, args.accounts, args.deadline,
                                                      world.authorize(message.value).value))
  {
    assert args == MessageFor(config, recipient, sources, world.startMs);
  }

  /**
   * A submitted request moves the whole balance of one of the asked-for sessions to the
   * authorised recipient, in one transfer of this chain's USDG from that session's own
   * account, for its own owner and index, with nothing prefunded and no Relay request.
   */
  lemma RequestMovesBalance(
    submitted: seq<PonsRequest>, config: Config, world: World, accountIndexes: seq<int>, auth: RecoveryAuthorization,
    k: nat)
    requires Recoverable(world, accountIndexes).Success? && k < |submitted|
    requires Submitted(submitted, config, world, Recoverable(world, accountIndexes).value, auth)
    ensures exists index :: index in accountIndexes && 0 <= index
              && world.session(index).Some? && world.balance(index).Some?
              && var session, r := world.session(index).value, submitted[k];
                 && r.chainId == config.chainId && r.factory == config.factory
                 && r.account == session.account && r.owner == session.owner
                 && r.accountIndex == session.accountIndex
                 && r.calls == [Call(config.usdg, 0, Transfer(auth.recipient, world.balance(index).value))]
                 && world.balance(index).value > 0
                 && r.nonce == world.nonce(session.account) && r.signature == world.signExecution(k)
                 && r.deadline == world.signMs(k) / 1000 + 300 && r.prefund == 0
                 && r.relayRequestId.None? && r.walletRecovery == Some(auth)
  {
    RecoverableIsExact(world, accountIndexes);
    var source := Recoverable(world, accountIndexes).value[k];
    assert HeldByOne(world, accountIndexes, source);
    var index :| index in accountIndexes && Held(world, index, source);
    assert world.session(index) == Some(source.session);
  }

  // ----- What the policy makes of it -----

  lemma {:induction false} FindOwnEntry(entries: seq<RecoveryEntry>, k: nat)
    requires k < |entries| && DistinctAccounts(entries)
    ensures FindEntry(entries, entries[k].account) == Some(entries[k])
  {
    if k > 0 {
      assert entries[0].account != entries[k].account;
      FindOwnEntry(entries[1..], k - 1);
    }
  }

  /** Sums, over the submitted requests, what their transfers move. */
  function Moved(submitted: seq<PonsRequest>): int {
    if submitted == [] then 0
    else
      var last := submitted[|submitted| - 1];
      Moved(submitted[..|submitted| - 1]) +
      if |last.calls| == 1 && last.calls[0].data.Transfer? then last.calls[0].data.amount else 0
  }

  /** The amount reported is the sum of the submitted transfers. */
  lemma {:induction false} ReportedIsMoved(
    submitted: seq<PonsRequest>, config: Config, world: World, sources: seq<Source>, auth: RecoveryAuthorization)
    requires Submitted(submitted, config, world, sources, auth)
    ensures Moved(submitted) == Total(sources[..|submitted|])
    decreases |submitted|
  {
    if submitted != [] {
      var front := submitted[..|submitted| - 1];
      ReportedIsMoved(front, config, world, sources, auth);
      assert sources[..|submitted|][..|front|] == sources[..|front|];
    }
  }

  /** A recovery request is decided by the policy's checks on direct recoveries. */
  lemma RecoveryIsDirect(
    config: Config, source: Source, auth: RecoveryAuthorization, signedAtMs: nat, nonce: nat, signature: string,
    chain: Chain, d: Deployment, env: Environment)
    requires source.amount > 0 && d.chainId == config.chainId && d.usdg == config.usdg && d.factory != d.usdg
    ensures var r := RecoveryRequest(config, source, auth, signedAtMs, nonce, signature);
            ValidateRequest(r, chain, d, env).Success?
            <==> && auth.recipient != source.session.account
                 && ValidateDirectRecovery(r, auth, auth.recipient, source.amount, env).Success?
  {
    var r := RecoveryRequest(config, source, auth, signedAtMs, nonce, signature);
    assert r.calls[0].target == d.usdg;
    assert ValidateRequest(r, chain, d, env) == ValidateReturnTransfer(r, env);
  }

  /**
   * Under a genuine wallet signature, the request for a source passes the policy exactly
   * when it was signed at most 300 s after the authorisation started and is relayed no
   * later than the authorisation's end, unless the wallet is the account itself.
   */
  lemma RecoveryIsAccepted(
    config: Config, world: World, recipient: Address, sources: seq<Source>, auth: RecoveryAuthorization, k: nat,
    signedAtMs: nat, nonce: nat, signature: string, chain: Chain, d: Deployment, env: Environment)
    requires k < |sources| && forall i :: 0 <= i < |sources| ==> sources[i].amount > 0
    requires Authorized(config, world, recipient, sources) == Success(auth)
    requires d.chainId == config.chainId && d.usdg == config.usdg && d.factory != d.usdg && env.upper == config.upper
    requires env.signedBy(recipient, WalletRecoveryMessage(MessageFor(config, recipient, sources, world.startMs),
                                                           config.upper).value, auth.signature)
    requires world.startMs <= signedAtMs <= env.nowMs
    ensures var request := RecoveryRequest(config, sources[k], auth, signedAtMs, nonce, signature);
            ValidateRequest(request, chain, d, env).Success?
            <==> && recipient != sources[k].session.account
                 && signedAtMs / 1000 <= world.startMs / 1000 + 300
                 && env.nowMs / 1000 <= world.startMs / 1000 + DEFAULT_DEADLINE_SECONDS
  {
    var r := RecoveryRequest(config, sources[k], auth, signedAtMs, nonce, signature);
    var entries := Entries(sources);
    DistinctBeforeSorting(entries);
    FindOwnEntry(entries, k);
    RecoveryIsDirect(config, sources[k], auth, signedAtMs, nonce, signature, chain, d, env);
  }

  /** Sorting cannot hide a duplicate account. */
  lemma DistinctBeforeSorting(entries: seq<RecoveryEntry>)
    requires DistinctAccounts(Sort(entries, ByAccount))
    ensures DistinctAccounts(entries)
  {
    PermutationKeepsDistinct(Sort(entries, ByAccount), entries, (e: RecoveryEntry) => e.account);
  }

  lemma {:induction false} FoundIsListed(entries: seq<RecoveryEntry>, account: Address)
    requires FindEntry(entries, account).Some?
    ensures FindEntry(entries, account).value in entries && FindEntry(entries, account).value.account == account
  {
    if entries[0].account != account { FoundIsListed(entries[1..], account); }
  }

  /** The wallet has signed only the messages of these authorisations. */
  ghost predicate SignedOnly(env: Environment, wallet: Address, signed: seq<MessageArgs>) {
    forall text, signature :: env.signedBy(wallet, text, signature) ==>
      exists a :: a in signed && WalletRecoveryMessage(a, env.upper) == Success(text)
  }

  /**
   * Whatever request the policy accepts as a direct recovery, its wallet has signed an
   * authorisation for exactly this transfer: this chain and factory, the recipient
   * itself, this account with this amount, and an end no earlier than the request's own.
   */
  lemma AcceptedRecoveryWasSigned(request: PonsRequest, env: Environment, signed: seq<MessageArgs>)
    returns (a: MessageArgs)
    requires |request.calls| == 1 && request.relayRequestId.None?
    requires ValidateReturnTransfer(request, env).Success?
    requires SignedOnly(env, request.calls[0].data.recipient, signed)
    ensures a in signed
    ensures request.calls[0].data.Transfer? && a.recipient == request.calls[0].data.recipient
    ensures RecoveryEntry(request.account, request.calls[0].data.amount) in a.accounts
    ensures a.chainId == request.chainId && a.factory == request.factory
    ensures request.deadline <= a.deadline && env.nowMs / 1000 <= a.deadline <= env.nowMs / 1000 + 900
    ensures request.calls[0].value == 0 && request.prefund == 0 && request.calls[0].data.amount > 0
    ensures a.recipient != request.account && request.relayQuoteAttestation.None?
  {
    var auth, data := request.walletRecovery.value, request.calls[0].data;
    var own := MessageArgs(request.chainId, request.factory, auth.recipient, auth.accounts, auth.deadline);
    var message := WalletRecoveryMessage(own, env.upper);
    assert env.signedBy(data.recipient, message.value, auth.signature);
    a :| a in signed && WalletRecoveryMessage(a, env.upper) == Success(message.value);
    MessageIsExact(own, a, env.upper);
    SameElements(own.accounts, a.accounts);
    FoundIsListed(auth.accounts, request.account);
  }
}
