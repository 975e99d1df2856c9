/**
 * The runtime that holds a user's wallet connection and private identity. Calls, wallet
 * answers, timeouts, promise callbacks and resets interleave at every await.
 */
module LiveRuntime {
  import opened Wrappers
  import opened Requests

  /** A signature, and the address that the wallet was asked to make it for. */
  datatype Signature = Signature(text: string, address: Address)

  datatype Session = Session(signature: Signature, accountIndex: nat)

  datatype Answer<+T> = Pending | Resolved(value: T) | Rejected

  /** A sign-in request made to the wallet; its callback runs once, after the answer. */
  datatype SignIn = SignIn(address: Address, answer: Answer<Signature>, handled: bool)

  /** Where a `prepareIdentity` call is suspended. */
  datatype Call =
    | Connecting(request: nat, accountIndex: nat)
    | Connected(address: Address, accountIndex: nat)
    | Signing(address: Address, request: nat, accountIndex: nat)
    | Deriving(address: Address, signature: Signature, accountIndex: nat)
    | Ended(prepared: bool)

  datatype State = State(
    connectedAddress: Option<Address>,
    identitySignature: Option<Signature>,
    session: Option<Session>,
    connectRequest: Option<nat>,
    signRequest: Option<nat>,
    connects: seq<Answer<Address>>,
    signIns: seq<SignIn>,
    calls: map<nat, Call>)

  const INITIAL := State(None, None, None, None, None, [], [], map[])

  datatype Event =
    | CallConnect
    | AnswerConnect(request: nat, address: Option<Address>)
    | HandleConnect(request: nat)
    | CallPrepare(p: nat, accountIndex: int)
    | ResumeConnected(p: nat)
    | AnswerSignIn(request: nat, signature: Option<string>)
    | HandleSignIn(request: nat)
    | ResumeSigned(p: nat)
    | Derived(p: nat, succeeded: bool)
    | TimeOut(p: nat)
    | Reset

  // ----- One step -----

  /** A connection is requested unless there is one, or a request for one. */
  function RequestConnection(s: State): State {
    if s.connectedAddress.Some? || s.connectRequest.Some? then s
    else s.(connects := s.connects + [Pending], connectRequest := Some(|s.connects|))
  }

  /** A new address replaces everything that belonged to another one. */
  function Adopt(s: State, address: Address): State {
    if s.connectedAddress.Some? && s.connectedAddress.value != address
    then s.(identitySignature := None, session := None, connectedAddress := Some(address))
    else s.(connectedAddress := Some(address))
  }

  function WithCall(s: State, p: nat, call: Call): State {
    s.(calls := s.calls[p := call])
  }

  /**
   * A held signature is used; otherwise a sign-in is requested for the address unless one
   * is pending, and one pending for another address refuses.
   */
  function RequestSignIn(s: State, p: nat, address: Address, accountIndex: nat): State
    requires s.signRequest.Some? ==> s.signRequest.value < |s.signIns|
  {
    if s.identitySignature.Some? then WithCall(s, p, Deriving(address, s.identitySignature.value, accountIndex))
    else if s.signRequest.Some? then
      if s.signIns[s.signRequest.value].address != address then WithCall(s, p, Ended(false))
      else WithCall(s, p, Signing(address, s.signRequest.value, accountIndex))
    else
      WithCall(s.(signIns := s.signIns + [SignIn(address, Pending, false)], signRequest := Some(|s.signIns|)),
               p, Signing(address, |s.signIns|, accountIndex))
  }

  function ContinueConnected(s: State, p: nat, address: Address, accountIndex: nat): State
    requires s.signRequest.Some? ==> s.signRequest.value < |s.signIns|
  {
    RequestSignIn(s.(connectedAddress := Some(address)), p, address, accountIndex)
  }

  /** Requests that the state refers to exist. */
  predicate WellFormed(s: State) {
    && (s.connectRequest.Some? ==> s.connectRequest.value < |s.connects|)
    && (s.signRequest.Some? ==> s.signRequest.value < |s.signIns|)
    && forall p :: p in s.calls ==>
         && (s.calls[p].Connecting? ==> s.calls[p].request < |s.connects|)
         && (s.calls[p].Signing? ==> s.calls[p].request < |s.signIns|)
  }

  /** One step; an event that cannot happen now changes nothing. */
  function Next(s: State, e: Event): State
    requires WellFormed(s)
  {
    match e
    case CallConnect => RequestConnection(s)
    case AnswerConnect(i, address) =>
      if i >= |s.connects| || !s.connects[i].Pending? then s
      else if address.None? then s.(connects := s.connects[i := Rejected])
      else Adopt(s.(connects := s.connects[i := Resolved(address.value)]), address.value)
    case HandleConnect(i) =>
      if i >= |s.connects| || s.connects[i].Pending? || s.connectRequest != Some(i) then s
      else s.(connectRequest := None)
    case CallPrepare(p, index) =>
      if p in s.calls then s
      else if !(0 <= index <= MAX_SAFE_INTEGER) then WithCall(s, p, Ended(false))
      else if s.connectedAddress.Some? then WithCall(s, p, Connected(s.connectedAddress.value, index))
      else var requested := RequestConnection(s);
           WithCall(requested, p, Connecting(requested.connectRequest.value, index))
    case ResumeConnected(p) =>
      if p !in s.calls then s
      else if s.calls[p].Connected? then ContinueConnected(s, p, s.calls[p].address, s.calls[p].accountIndex)
      else if !s.calls[p].Connecting? || s.connects[s.calls[p].request].Pending? then s
      else if s.connects[s.calls[p].request].Rejected? then WithCall(s, p, Ended(false))
      else ContinueConnected(s, p, s.connects[s.calls[p].request].value, s.calls[p].accountIndex)
    case AnswerSignIn(j, signature) =>
      if j >= |s.signIns| || !s.signIns[j].answer.Pending? then s
      else if signature.None? then s.(signIns := s.signIns[j := s.signIns[j].(answer := Rejected)])
      else
        var made := Signature(signature.value, s.signIns[j].address);
        s.(signIns := s.signIns[j := s.signIns[j].(answer := Resolved(made))])
    case HandleSignIn(j) =>
      if j >= |s.signIns| || s.signIns[j].answer.Pending? || s.signIns[j].handled then s
      else HandledSignIn(s, j)
    case ResumeSigned(p) =>
      if p !in s.calls || !s.calls[p].Signing? || s.signIns[s.calls[p].request].answer.Pending? then s
      else if s.signIns[s.calls[p].request].answer.Rejected? then WithCall(s, p, Ended(false))
      else
        var signature := s.signIns[s.calls[p].request].answer.value;
        WithCall(s.(identitySignature := Some(signature)), p,
                 Deriving(s.calls[p].address, signature, s.calls[p].accountIndex))
    case Derived(p, succeeded) =>
      if p !in s.calls || !s.calls[p].Deriving? then s
      else if !succeeded then WithCall(s, p, Ended(false))
      else WithCall(s.(session := Some(Session(s.calls[p].signature, s.calls[p].accountIndex))), p, Ended(true))
    case TimeOut(p) =>
      if p in s.calls && (s.calls[p].Connecting? || s.calls[p].Signing?) then WithCall(s, p, Ended(false)) else s
    case Reset => s.(identitySignature := None, session := None)
  }

  /** A sign-in's callback keeps the signature only while its address is connected. */
  function HandledSignIn(s: State, j: nat): State
    requires j < |s.signIns| && !s.signIns[j].answer.Pending?
  {
    var answer := s.signIns[j].answer;
    s.(signIns := s.signIns[j := s.signIns[j].(handled := true)],
       identitySignature := if answer.Resolved? && s.connectedAddress == Some(s.signIns[j].address)
                            then Some(answer.value) else s.identitySignature,
       signRequest := if s.signRequest == Some(j) then None else s.signRequest)
  }

  // ----- What every interleaving keeps -----

  ghost predicate CallFits(s: State, call: Call) {
    match call
    case Connecting(i, _) => i < |s.connects|
    case Connected(address, _) => s.connectedAddress == Some(address)
    case Signing(address, j, _) =>
      j < |s.signIns| && s.connectedAddress == Some(address) && s.signIns[j].address == address
    case Deriving(address, signature, _) => s.connectedAddress == Some(address) && signature.address == address
    case Ended(_) => true
  }

  ghost predicate Inv(s: State) {
    && WellFormed(s)
    && (forall i :: 0 <= i < |s.connects| ==>
          && (s.connects[i].Pending? ==> s.connectRequest == Some(i) && s.connectedAddress.None?)
          && (s.connects[i].Resolved? ==> s.connectedAddress == Some(s.connects[i].value)))
    && (forall j :: 0 <= j < |s.signIns| ==>
          && s.connectedAddress == Some(s.signIns[j].address)
          && (s.signIns[j].answer.Pending? ==> s.signRequest == Some(j) && !s.signIns[j].handled)
          && (s.signIns[j].answer.Resolved? ==> s.signIns[j].answer.value.address == s.signIns[j].address))
    && (s.identitySignature.Some? ==> s.connectedAddress == Some(s.identitySignature.value.address))
    && (s.session.Some? ==> s.connectedAddress == Some(s.session.value.signature.address))
    && forall p :: p in s.calls ==> CallFits(s, s.calls[p])
  }

  /** The invariant survives a step that ends or moves one call. */
  lemma CallMoves(s: State, p: nat, call: Call)
    requires Inv(s) && CallFits(s, call)
    ensures Inv(WithCall(s, p, call))
  {
  }

  lemma RequestConnectionKeepsInv(s: State)
    requires Inv(s)
    ensures Inv(RequestConnection(s))
    ensures RequestConnection(s).connectedAddress == s.connectedAddress
    ensures s.connectedAddress.None? ==> RequestConnection(s).connectRequest.Some?
  {
  }

  lemma AnswerConnectKeepsInv(s: State, i: nat, address: Option<Address>)
    requires Inv(s)
    ensures Inv(Next(s, AnswerConnect(i, address)))
    ensures s.connectedAddress.Some? ==> Next(s, AnswerConnect(i, address)).connectedAddress == s.connectedAddress
  {
  }

  lemma HandleConnectKeepsInv(s: State, i: nat)
    requires Inv(s)
    ensures Inv(Next(s, HandleConnect(i)))
  {
  }

  lemma AnswerSignInKeepsInv(s: State, j: nat, signature: Option<string>)
    requires Inv(s)
    ensures Inv(Next(s, AnswerSignIn(j, signature)))
  {
  }

  lemma HandleSignInKeepsInv(s: State, j: nat)
    requires Inv(s)
    ensures Inv(Next(s, HandleSignIn(j)))
  {
  }

  lemma ContinueKeepsInv(s: State, p: nat, address: Address, accountIndex: nat)
    requires Inv(s) && s.connectedAddress == Some(address)
    ensures Inv(ContinueConnected(s, p, address, accountIndex))
    ensures ContinueConnected(s, p, address, accountIndex).connectedAddress == s.connectedAddress
  {
    assert s.(connectedAddress := Some(address)) == s;
    if s.identitySignature.Some? {
      CallMoves(s, p, Deriving(address, s.identitySignature.value, accountIndex));
    } else if s.signRequest.Some? {
      CallMoves(s, p, Signing(address, s.signRequest.value, accountIndex));
    } else {
      var asked := s.(signIns := s.signIns + [SignIn(address, Pending, false)], signRequest := Some(|s.signIns|));
      assert Inv(asked);
      CallMoves(asked, p, Signing(address, |s.signIns|, accountIndex));
    }
  }

  lemma ResumeSignedKeepsInv(s: State, p: nat)
    requires Inv(s)
    ensures Inv(Next(s, ResumeSigned(p)))
  {
    if p in s.calls && s.calls[p].Signing? {
      var call := s.calls[p];
      assert CallFits(s, call);
      var answer := s.signIns[call.request].answer;
      if answer.Rejected? {
        CallMoves(s, p, Ended(false));
      } else if answer.Resolved? {
        var kept := s.(identitySignature := Some(answer.value));
        assert Inv(kept);
        CallMoves(kept, p, Deriving(call.address, answer.value, call.accountIndex));
      }
    }
  }

  lemma PrepareKeepsInv(s: State, p: nat, accountIndex: int)
    requires Inv(s)
    ensures Inv(Next(s, CallPrepare(p, accountIndex)))
    ensures Next(s, CallPrepare(p, accountIndex)).connectedAddress == s.connectedAddress
  {
    RequestConnectionKeepsInv(s);
    var requested := RequestConnection(s);
    if p !in s.calls && 0 <= accountIndex <= MAX_SAFE_INTEGER {
      if s.connectedAddress.Some? {
        CallMoves(s, p, Connected(s.connectedAddress.value, accountIndex));
      } else {
        CallMoves(requested, p, Connecting(requested.connectRequest.value, accountIndex));
      }
    } else if p !in s.calls {
      CallMoves(s, p, Ended(false));
    }
  }

  lemma ResumeConnectedKeepsInv(s: State, p: nat)
    requires Inv(s)
    ensures Inv(Next(s, ResumeConnected(p)))
    ensures Next(s, ResumeConnected(p)).connectedAddress == s.connectedAddress
  {
    if p in s.calls {
      var call := s.calls[p];
      assert CallFits(s, call);
      if call.Connected? {
        ContinueKeepsInv(s, p, call.address, call.accountIndex);
      } else if call.Connecting? {
        if s.connects[call.request].Resolved? {
          ContinueKeepsInv(s, p, s.connects[call.request].value, call.accountIndex);
        } else {
          CallMoves(s, p, Ended(false));
        }
      }
    }
  }

  lemma DerivedKeepsInv(s: State, p: nat, succeeded: bool)
    requires Inv(s)
    ensures Inv(Next(s, Derived(p, succeeded)))
  {
    if p in s.calls && s.calls[p].Deriving? {
      assert CallFits(s, s.calls[p]);
      var derived := s.(session := Some(Session(s.calls[p].signature, s.calls[p].accountIndex)));
      assert Inv(derived);
      CallMoves(s, p, Ended(false));
      CallMoves(derived, p, Ended(true));
    }
  }

  lemma TimeOutKeepsInv(s: State, p: nat)
    requires Inv(s)
    ensures Inv(Next(s, TimeOut(p)))
    ensures Next(s, TimeOut(p)).connectedAddress == s.connectedAddress
  {
  }

  lemma ResetKeepsInv(s: State)
    requires Inv(s)
    ensures Inv(Next(s, Reset))
  {
  }

  /** Every step keeps the invariant and, once there is one, the connected address. */
  lemma StepKeepsInv(s: State, e: Event)
    requires Inv(s)
    ensures Inv(Next(s, e))
    ensures s.connectedAddress.Some? ==> Next(s, e).connectedAddress == s.connectedAddress
  {
    match e
    case CallConnect => RequestConnectionKeepsInv(s);
    case AnswerConnect(i, address) => AnswerConnectKeepsInv(s, i, address);
    case HandleConnect(i) => HandleConnectKeepsInv(s, i);
    case CallPrepare(p, index) => PrepareKeepsInv(s, p, index);
    case ResumeConnected(p) => ResumeConnectedKeepsInv(s, p);
    case AnswerSignIn(j, signature) => AnswerSignInKeepsInv(s, j, signature);
    case HandleSignIn(j) => HandleSignInKeepsInv(s, j);
    case ResumeSigned(p) => ResumeSignedKeepsInv(s, p);
    case Derived(p, succeeded) => DerivedKeepsInv(s, p, succeeded);
    case TimeOut(p) => TimeOutKeepsInv(s, p);
    case Reset => ResetKeepsInv(s);
  }

  /** The state after a sequence of events. */
  function Run(events: seq<Event>): (s: State)
    ensures Inv(s)
  {
    if events == [] then INITIAL
    else
      var before, e := Run(events[..|events| - 1]), events[|events| - 1];
      StepKeepsInv(before, e);
      Next(before, e)
  }

  lemma RunMore(events: seq<Event>, e: Event)
    ensures Run(events + [e]) == Next(Run(events), e)
  {
    assert (events + [e])[..|events|] == events;
  }

  /**
   * At most one connection request and one sign-in request are outstanding at the wallet,
   * and no connection request once the address is known; any held signature was made for
   * the connected address, and so was the signature of any session.
   */
  ghost predicate InSingleFlight(s: State) {
    && (forall i, j | 0 <= i < j < |s.connects| :: !(s.connects[i].Pending? && s.connects[j].Pending?))
    && (forall i, j | 0 <= i < j < |s.signIns| :: !(s.signIns[i].answer.Pending? && s.signIns[j].answer.Pending?))
    && (s.connectedAddress.Some? ==> forall i :: 0 <= i < |s.connects| ==> !s.connects[i].Pending?)
    && (s.identitySignature.Some? ==> s.connectedAddress == Some(s.identitySignature.value.address))
    && (s.session.Some? ==> s.connectedAddress == Some(s.session.value.signature.address))
  }

  /** Every interleaving keeps wallet requests in single flight. */
  lemma SingleFlight(events: seq<Event>)
    ensures InSingleFlight(Run(events))
  {
  }

  /** The address is written once: whatever happens after it is known, it stays. */
  lemma {:induction false} AddressIsWrittenOnce(events: seq<Event>, n: nat)
    requires n <= |events| && Run(events[..n]).connectedAddress.Some?
    ensures Run(events).connectedAddress == Run(events[..n]).connectedAddress
    decreases |events|
  {
    if n < |events| {
      var front := events[..|events| - 1];
      assert front[..n] == events[..n];
      AddressIsWrittenOnce(front, n);
      StepKeepsInv(Run(front), events[|events| - 1]);
    } else {
      assert events[..n] == events;
    }
  }

  /** A wallet answer never replaces another address, so adopting it never drops an identity. */
  lemma AdoptNeverReplaces(events: seq<Event>, i: nat, address: Address)
    requires i < |Run(events).connects| && Run(events).connects[i].Pending?
    ensures var s := Run(events);
            var answered := Next(s, AnswerConnect(i, Some(address)));
            && s.connectedAddress.None? && answered.connectedAddress == Some(address)
            && answered.identitySignature == s.identitySignature && answered.session == s.session
  {
  }

  /** While a connection is being requested, asking again asks the wallet nothing. */
  lemma RetryDoesNotStack(events: seq<Event>, i: nat, e: Event)
    requires i < |Run(events).connects| && Run(events).connects[i].Pending?
    requires e.CallConnect? || e.CallPrepare? || e.TimeOut?
    ensures Next(Run(events), e).connects == Run(events).connects
  {
  }

  // ----- The runtime itself -----

  /** The closure's variables, the promises it waits on, its suspended calls, and what has happened to it. */
  class Runtime {
    var connectedAddress: Option<Address>
    var identitySignature: Option<Signature>
    var session: Option<Session>
    var walletConnectionRequest: Option<nat>
    var identitySignatureRequest: Option<nat>
    var connects: seq<Answer<Address>>
    var signIns: seq<SignIn>
    var calls: map<nat, Call>
    ghost var events: seq<Event>

    ghost function Now(): State
      reads this
    {
      State(connectedAddress, identitySignature, session, walletConnectionRequest, identitySignatureRequest,
            connects, signIns, calls)
    }

    /** The runtime is where its events have brought it. */
    ghost predicate Valid()
      reads this
    {
      Now() == Run(events)
    }

    /** Whatever has happened: single flight, and an address that was ever known is the address now. */
    lemma KeepsItsPromises(n: nat)
      requires Valid() && n <= |events|
      ensures InSingleFlight(Now())
      ensures Run(events[..n]).connectedAddress.Some? ==> connectedAddress == Run(events[..n]).connectedAddress
    {
      SingleFlight(events);
      if Run(events[..n]).connectedAddress.Some? { AddressIsWrittenOnce(events, n); }
    }

    constructor ()
      ensures Valid() && events == []
    {
      connectedAddress, identitySignature, session := None, None, None;
      walletConnectionRequest, identitySignatureRequest := None, None;
      connects, signIns, calls, events := [], [], map[], [];
    }

    ghost method Record(e: Event)
      requires Now() == Next(Run(events), e)
      modifies `events
      ensures Valid() && events == old(events) + [e]
    {
      RunMore(events, e);
      events := events + [e];
    }

    method OpenConnection()
      modifies `connects, `walletConnectionRequest
      ensures Now() == RequestConnection(old(Now()))
    {
      if connectedAddress.None? && walletConnectionRequest.None? {
        walletConnectionRequest := Some(|connects|);
        connects := connects + [Pending];
      }
    }

    method Connect()
      requires Valid()
      modifies this
      ensures Valid() && events == old(events) + [CallConnect]
    {
      OpenConnection();
      Record(CallConnect);
    }

    method AdoptConnectedAddress(address: Address)
      modifies `connectedAddress, `identitySignature, `session
      ensures Now() == Adopt(old(Now()), address)
    {
      if connectedAddress.Some? && connectedAddress.value != address {
        identitySignature := None;
        session := None;
      }
      connectedAddress := Some(address);
    }

    /** The wallet answers (None: refuses) a connection request. */
    method SettleConnect(i: nat, address: Option<Address>)
      requires Valid() && i < |connects| && connects[i].Pending?
      modifies this
      ensures Valid() && events == old(events) + [AnswerConnect(i, address)]
      ensures address.Some? ==> connectedAddress == address
      ensures identitySignature == old(identitySignature) && session == old(session)
    {
      if address.None? {
        connects := connects[i := Rejected];
      } else {
        AdoptNeverReplaces(events, i, address.value);
        connects := connects[i := Resolved(address.value)];
        AdoptConnectedAddress(address.value);
      }
      Record(AnswerConnect(i, address));
    }

    /** The callback that lets a settled connection request go. */
    method ReleaseConnect(i: nat)
      requires Valid() && i < |connects| && !connects[i].Pending?
      modifies this
      ensures Valid() && events == old(events) + [HandleConnect(i)]
    {
      if walletConnectionRequest == Some(i) {
        walletConnectionRequest := None;
      }
      Record(HandleConnect(i));
    }

    method PrepareIdentity(p: nat, accountIndex: int)
      requires Valid() && p !in calls
      modifies this
      ensures Valid() && events == old(events) + [CallPrepare(p, accountIndex)]
    {
      if accountIndex < 0 || accountIndex > MAX_SAFE_INTEGER {
        calls := calls[p := Ended(false)];
      } else if connectedAddress.Some? {
        calls := calls[p := Connected(connectedAddress.value, accountIndex)];
      } else {
        OpenConnection();
        calls := calls[p := Connecting(walletConnectionRequest.value, accountIndex)];
      }
      Record(CallPrepare(p, accountIndex));
    }

    method SignPrivateIdentity(p: nat, address: Address, accountIndex: nat)
      requires WellFormed(Now())
      modifies `identitySignatureRequest, `signIns, `calls
      ensures Now() == RequestSignIn(old(Now()), p, address, accountIndex)
    {
      if identitySignature.Some? {
        calls := calls[p := Deriving(address, identitySignature.value, accountIndex)];
        return;
      }
      if identitySignatureRequest.Some? && signIns[identitySignatureRequest.value].address != address {
        calls := calls[p := Ended(false)];
        return;
      }
      if identitySignatureRequest.None? {
        identitySignatureRequest := Some(|signIns|);
        signIns := signIns + [SignIn(address, Pending, false)];
      }
      calls := calls[p := Signing(address, identitySignatureRequest.value, accountIndex)];
    }

    method ResumeAfterConnect(p: nat)
      requires Valid() && p in calls
      requires calls[p].Connected? || (calls[p].Connecting? && !connects[calls[p].request].Pending?)
      modifies this
      ensures Valid() && events == old(events) + [ResumeConnected(p)]
    {
      var call := calls[p];
      if call.Connecting? && connects[call.request].Rejected? {
        calls := calls[p := Ended(false)];
      } else {
        var activeAddress := if call.Connected? then call.address else connects[call.request].value;
        connectedAddress := Some(activeAddress);
        SignPrivateIdentity(p, activeAddress, call.accountIndex);
      }
      Record(ResumeConnected(p));
    }

    /** The wallet answers (None: refuses) a sign-in request. */
    method SettleSignIn(j: nat, signature: Option<string>)
      requires Valid() && j < |signIns| && signIns[j].answer.Pending?
      modifies this
      ensures Valid() && events == old(events) + [AnswerSignIn(j, signature)]
    {
      var answer := if signature.None? then Rejected else Resolved(Signature(signature.value, signIns[j].address));
      signIns := signIns[j := signIns[j].(answer := answer)];
      Record(AnswerSignIn(j, signature));
    }

    /** The callback that keeps a signature and lets its request go. */
    method ReleaseSignIn(j: nat)
      requires Valid() && j < |signIns| && !signIns[j].answer.Pending? && !signIns[j].handled
      modifies this
      ensures Valid() && events == old(events) + [HandleSignIn(j)]
    {
      if signIns[j].answer.Resolved? && connectedAddress == Some(signIns[j].address) {
        identitySignature := Some(signIns[j].answer.value);
      }
      if identitySignatureRequest == Some(j) {
        identitySignatureRequest := None;
      }
      signIns := signIns[j := signIns[j].(handled := true)];
      Record(HandleSignIn(j));
    }

    method ResumeAfterSignIn(p: nat)
      requires Valid() && p in calls && calls[p].Signing? && !signIns[calls[p].request].answer.Pending?
      modifies this
      ensures Valid() && events == old(events) + [ResumeSigned(p)]
    {
      var call := calls[p];
      var answer := signIns[call.request].answer;
      if answer.Rejected? {
        calls := calls[p := Ended(false)];
      } else {
        identitySignature := Some(answer.value);
        calls := calls[p := Deriving(call.address, answer.value, call.accountIndex)];
      }
      Record(ResumeSigned(p));
    }

    method FinishPrepare(p: nat, succeeded: bool)
      requires Valid() && p in calls && calls[p].Deriving?
      modifies this
      ensures Valid() && events == old(events) + [Derived(p, succeeded)]
      ensures session == if succeeded then Some(Session(old(calls[p]).signature, old(calls[p]).accountIndex))
                         else old(session)
    {
      if succeeded {
        session := Some(Session(calls[p].signature, calls[p].accountIndex));
      }
      calls := calls[p := Ended(succeeded)];
      Record(Derived(p, succeeded));
    }

    /** The caller stops waiting for the wallet; the request itself stays. */
    method GiveUp(p: nat)
      requires Valid() && p in calls && (calls[p].Connecting? || calls[p].Signing?)
      modifies this
      ensures Valid() && events == old(events) + [TimeOut(p)]
      ensures connects == old(connects) && signIns == old(signIns) && calls == old(calls)[p := Ended(false)]
    {
      calls := calls[p := Ended(false)];
      Record(TimeOut(p));
    }

    method ResetIdentity()
      requires Valid()
      modifies this
      ensures Valid() && events == old(events) + [Reset]
      ensures identitySignature.None? && session.None? && connectedAddress == old(connectedAddress)
      ensures calls == old(calls) && connects == old(connects) && signIns == old(signIns)
    {
      identitySignature := None;
      session := None;
      Record(Reset);
    }
  }
}
