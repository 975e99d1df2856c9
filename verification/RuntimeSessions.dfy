/** Whom the runtime's session is for, over every interleaving. */
module RuntimeSessions {
  import opened Wrappers
  import opened Requests
  import opened LiveRuntime

  // ----- Induction over a run -----

  lemma PrefixStep(events: seq<Event>, k: nat)
    requires k < |events|
    ensures Run(events[..k + 1]) == Next(Run(events[..k]), events[k])
  {
    assert events[..k + 1][..k] == events[..k];
  }

  /** The states that a sequence of events leads through. */
  ghost predicate Steps(events: seq<Event>, states: seq<State>) {
    && |states| == |events| + 1 && states[0] == INITIAL
    && forall i :: 0 <= i < |events| ==> WellFormed(states[i]) && states[i + 1] == Next(states[i], events[i])
  }

  lemma StatesOf(events: seq<Event>, n: nat) returns (states: seq<State>)
    requires n <= |events|
    ensures Steps(events, states) && states[n] == Run(events[..n]) && states[|events|] == Run(events)
  {
    states := seq(|events| + 1, i requires 0 <= i <= |events| => Run(events[..i]));
    forall i | 0 <= i < |events|
      ensures states[i + 1] == Next(states[i], events[i])
    {
      PrefixStep(events, i);
    }
    assert events[..0] == [] && events[..|events|] == events;
  }

  lemma StateStep(events: seq<Event>, states: seq<State>, k: nat)
    requires Steps(events, states) && k < |events|
    ensures WellFormed(states[k]) && states[k + 1] == Next(states[k], events[k])
  {
  }

  /** The event is one of the first k. */
  ghost predicate Happened(events: seq<Event>, k: nat, e: Event) {
    exists i :: 0 <= i < k <= |events| && events[i] == e
  }

  lemma HappensOnce(events: seq<Event>, k: nat, e: Event)
    requires k < |events|
    ensures Happened(events, k, e) || events[k] == e ==> Happened(events, k + 1, e)
  {
  }

  // ----- What an event touches -----

  /** The events that move call p. */
  predicate Moves(e: Event, p: nat) {
    (e.CallPrepare? || e.ResumeConnected? || e.ResumeSigned? || e.Derived? || e.TimeOut?) && e.p == p
  }

  lemma OtherCallsStay(s: State, e: Event, p: nat)
    requires WellFormed(s) && !Moves(e, p)
    ensures p in Next(s, e).calls <==> p in s.calls
    ensures p in s.calls ==> Next(s, e).calls[p] == s.calls[p]
  {
  }

  /** A moved call keeps its index, and only a new one gets an index. */
  lemma MovedCall(s: State, e: Event, p: nat)
    requires WellFormed(s) && Moves(e, p) && p in Next(s, e).calls && !Next(s, e).calls[p].Ended?
    ensures var index := Next(s, e).calls[p].accountIndex;
            || (e == CallPrepare(p, index) && p !in s.calls)
            || (p in s.calls && !s.calls[p].Ended? && s.calls[p].accountIndex == index)
  {
  }

  lemma MovedStays(s: State, e: Event, p: nat)
    requires WellFormed(s) && Moves(e, p) && p in s.calls
    ensures p in Next(s, e).calls
  {
  }

  /** Sign-ins change only when one is requested, answered or handled. */
  lemma OtherSignInsStay(s: State, e: Event)
    requires WellFormed(s) && !e.ResumeConnected? && !e.AnswerSignIn? && !e.HandleSignIn?
    ensures Next(s, e).signIns == s.signIns
  {
  }

  lemma RequestedSignIns(s: State, e: Event, j: nat)
    requires WellFormed(s) && e.ResumeConnected? && j < |Next(s, e).signIns|
    ensures |s.signIns| <= |Next(s, e).signIns|
    ensures if j < |s.signIns| then Next(s, e).signIns[j] == s.signIns[j] else Next(s, e).signIns[j].answer.Pending?
  {
  }

  // ----- One index for each call -----

  /** A call is for one account index as long as it is suspended. */
  ghost predicate IsFor(s: State, p: nat, index: nat) {
    p in s.calls && (s.calls[p].Ended? || s.calls[p].accountIndex == index)
  }

  lemma StepKeepsIndex(s: State, e: Event, p: nat, index: nat)
    requires WellFormed(s) && IsFor(s, p, index)
    ensures IsFor(Next(s, e), p, index)
  {
    if Moves(e, p) {
      MovedStays(s, e, p);
      if !Next(s, e).calls[p].Ended? { MovedCall(s, e, p); }
    } else {
      OtherCallsStay(s, e, p);
    }
  }

  lemma PrepareIsFor(s: State, p: nat, index: nat)
    requires WellFormed(s) && p !in s.calls && index <= MAX_SAFE_INTEGER
    ensures IsFor(Next(s, CallPrepare(p, index)), p, index)
  {
  }

  /** The n-th event of a run was an accepted `prepareIdentity(index)`. */
  ghost predicate Accepted(events: seq<Event>, n: nat, p: nat, index: nat) {
    && n < |events| && events[n] == CallPrepare(p, index)
    && index <= MAX_SAFE_INTEGER && p !in Run(events[..n]).calls
  }

  /** After an accepted `prepareIdentity(index)`, whatever else happens, the call is for that index. */
  lemma AcceptedIsFor(events: seq<Event>, n: nat, p: nat, index: nat)
    requires Accepted(events, n, p, index)
    ensures IsFor(Run(events), p, index)
  {
    var states := StatesOf(events, n);
    StateStep(events, states, n);
    PrepareIsFor(states[n], p, index);
    var k := n + 1;
    while k < |events|
      invariant n < k <= |events| && IsFor(states[k], p, index)
    {
      StateStep(events, states, k);
      StepKeepsIndex(states[k], events[k], p, index);
      k := k + 1;
    }
  }

  /** A suspended call was suspended before, for the same index, or has just been started for it. */
  lemma StepStarts(s: State, e: Event, p: nat)
    requires WellFormed(s) && p in Next(s, e).calls && !Next(s, e).calls[p].Ended?
    ensures var index := Next(s, e).calls[p].accountIndex;
            || e == CallPrepare(p, index)
            || (p in s.calls && !s.calls[p].Ended? && s.calls[p].accountIndex == index)
  {
    if Moves(e, p) { MovedCall(s, e, p); } else { OtherCallsStay(s, e, p); }
  }

  // ----- Where signatures come from -----

  /** The wallet gave this signature, when asked to sign in as its address. */
  ghost predicate Given(s: State, signature: Signature) {
    exists j :: 0 <= j < |s.signIns| && s.signIns[j].answer == Resolved(signature)
  }

  /** Every signature that is held, underlies the session, or is derived from, is given. */
  ghost predicate Genuine(s: State) {
    && (s.identitySignature.Some? ==> Given(s, s.identitySignature.value))
    && (s.session.Some? ==> Given(s, s.session.value.signature))
    && forall p :: p in s.calls && s.calls[p].Deriving? ==> Given(s, s.calls[p].signature)
  }

  /** What the wallet has answered is never answered again. */
  lemma StepKeepsAnswer(s: State, e: Event, j: nat)
    requires WellFormed(s) && j < |s.signIns| && !s.signIns[j].answer.Pending?
    ensures j < |Next(s, e).signIns| && Next(s, e).signIns[j].answer == s.signIns[j].answer
  {
    if e.ResumeConnected? {
      SignInsGrow(s, e);
      RequestedSignIns(s, e, j);
    } else if !e.AnswerSignIn? && !e.HandleSignIn? {
      OtherSignInsStay(s, e);
    }
  }

  lemma SignInsGrow(s: State, e: Event)
    requires WellFormed(s) && e.ResumeConnected?
    ensures |s.signIns| <= |Next(s, e).signIns|
  {
  }

  lemma StepKeepsGiven(s: State, e: Event, signature: Signature)
    requires WellFormed(s) && Given(s, signature)
    ensures Given(Next(s, e), signature)
  {
    var j :| 0 <= j < |s.signIns| && s.signIns[j].answer == Resolved(signature);
    StepKeepsAnswer(s, e, j);
  }

  lemma HeldIsGiven(s: State, e: Event)
    requires WellFormed(s) && Genuine(s) && Next(s, e).identitySignature.Some?
    ensures Given(s, Next(s, e).identitySignature.value)
  {
  }

  lemma SessionIsGiven(s: State, e: Event)
    requires WellFormed(s) && Genuine(s) && Next(s, e).session.Some?
    ensures Given(s, Next(s, e).session.value.signature)
  {
  }

  lemma DerivingIsGiven(s: State, e: Event, p: nat)
    requires WellFormed(s) && Genuine(s) && p in Next(s, e).calls && Next(s, e).calls[p].Deriving?
    ensures Given(s, Next(s, e).calls[p].signature)
  {
    if !Moves(e, p) {
      OtherCallsStay(s, e, p);
    } else if p in s.calls && s.calls[p].Signing? && s.signIns[s.calls[p].request].answer.Resolved? {
      AnswerIsGiven(s, s.calls[p].request);
      if e.ResumeSigned? { ResumedSignature(s, p); }
    } else {
      UnsignedSignature(s, e, p);
    }
  }

  lemma AnswerIsGiven(s: State, j: nat)
    requires j < |s.signIns| && s.signIns[j].answer.Resolved?
    ensures Given(s, s.signIns[j].answer.value)
  {
  }

  lemma ResumedSignature(s: State, p: nat)
    requires WellFormed(s) && p in s.calls && s.calls[p].Signing? && s.signIns[s.calls[p].request].answer.Resolved?
    ensures p in Next(s, ResumeSigned(p)).calls
    ensures Next(s, ResumeSigned(p)).calls[p] ==
            Deriving(s.calls[p].address, s.signIns[s.calls[p].request].answer.value, s.calls[p].accountIndex)
  {
  }

  /** Otherwise a call derives from the held signature, or from the one it has derived from so far. */
  lemma UnsignedSignature(s: State, e: Event, p: nat)
    requires WellFormed(s) && Moves(e, p) && p in Next(s, e).calls && Next(s, e).calls[p].Deriving?
    requires !(p in s.calls && s.calls[p].Signing? && s.signIns[s.calls[p].request].answer.Resolved?)
    ensures var signature := Next(s, e).calls[p].signature;
            || s.identitySignature == Some(signature)
            || (p in s.calls && s.calls[p].Deriving? && s.calls[p].signature == signature)
  {
  }

  lemma StepKeepsGenuine(s: State, e: Event)
    requires WellFormed(s) && Genuine(s)
    ensures Genuine(Next(s, e))
  {
    var next := Next(s, e);
    if next.identitySignature.Some? {
      HeldIsGiven(s, e);
      StepKeepsGiven(s, e, next.identitySignature.value);
    }
    if next.session.Some? {
      SessionIsGiven(s, e);
      StepKeepsGiven(s, e, next.session.value.signature);
    }
    forall p | p in next.calls && next.calls[p].Deriving?
      ensures Given(next, next.calls[p].signature)
    {
      DerivingIsGiven(s, e, p);
      StepKeepsGiven(s, e, next.calls[p].signature);
    }
  }

  /** Every signature that is held, used or underlies the session is one that the wallet gave. */
  lemma SignaturesAreGenuine(events: seq<Event>)
    ensures Genuine(Run(events))
  {
    var states := StatesOf(events, 0);
    var k := 0;
    while k < |events|
      invariant k <= |events| && Genuine(states[k])
    {
      StateStep(events, states, k);
      StepKeepsGenuine(states[k], events[k]);
      k := k + 1;
    }
  }

  /** An answered sign-in was answered before, or has just been. */
  lemma StepAnswers(s: State, e: Event, j: nat)
    requires WellFormed(s) && j < |Next(s, e).signIns| && Next(s, e).signIns[j].answer.Resolved?
    ensures || e == AnswerSignIn(j, Some(Next(s, e).signIns[j].answer.value.text))
            || (j < |s.signIns| && s.signIns[j].answer == Next(s, e).signIns[j].answer)
  {
    if e.ResumeConnected? {
      RequestedSignIns(s, e, j);
    } else if !e.AnswerSignIn? && !e.HandleSignIn? {
      OtherSignInsStay(s, e);
    }
  }

  /** Every answer that a sign-in holds is one of the first k events. */
  ghost predicate AnswersHappened(events: seq<Event>, k: nat, s: State) {
    forall j :: 0 <= j < |s.signIns| && s.signIns[j].answer.Resolved? ==>
      Happened(events, k, AnswerSignIn(j, Some(s.signIns[j].answer.value.text)))
  }

  lemma StepKeepsAnswers(events: seq<Event>, k: nat, s: State)
    requires k < |events| && WellFormed(s) && AnswersHappened(events, k, s)
    ensures AnswersHappened(events, k + 1, Next(s, events[k]))
  {
    var next := Next(s, events[k]);
    forall j | 0 <= j < |next.signIns| && next.signIns[j].answer.Resolved?
      ensures Happened(events, k + 1, AnswerSignIn(j, Some(next.signIns[j].answer.value.text)))
    {
      StepAnswers(s, events[k], j);
      HappensOnce(events, k, AnswerSignIn(j, Some(next.signIns[j].answer.value.text)));
    }
  }

  lemma AnswersHappen(events: seq<Event>)
    ensures AnswersHappened(events, |events|, Run(events))
  {
    var states := StatesOf(events, 0);
    var k := 0;
    while k < |events|
      invariant k <= |events| && AnswersHappened(events, k, states[k])
    {
      StateStep(events, states, k);
      StepKeepsAnswers(events, k, states[k]);
      k := k + 1;
    }
  }

  // ----- Sessions -----

  /** The end of a preparation makes a session of what the call carries, and leaves the connection alone. */
  lemma DerivedStep(s: State, p: nat)
    requires Inv(s) && p in s.calls && s.calls[p].Deriving?
    ensures var next := Next(s, Derived(p, true));
            && next.session == Some(Session(s.calls[p].signature, s.calls[p].accountIndex))
            && next.connectedAddress == s.connectedAddress == Some(s.calls[p].signature.address)
  {
    assert CallFits(s, s.calls[p]);
  }

  /**
   * The end of a preparation: the session is for exactly the index that the call was made
   * for, under a signature that the wallet gave when asked to sign in as the connected address.
   */
  lemma PreparedSession(events: seq<Event>, n: nat, p: nat, index: nat)
    requires Accepted(events, n, p, index)
    requires p in Run(events).calls && Run(events).calls[p].Deriving?
    ensures var s, next := Run(events), Run(events + [Derived(p, true)]);
            && next.session.Some? && next.session.value.accountIndex == index
            && next.connectedAddress == s.connectedAddress == Some(next.session.value.signature.address)
            && exists j: nat :: Happened(events, |events|, AnswerSignIn(j, Some(next.session.value.signature.text)))
                                && j < |s.signIns| && s.signIns[j].address == next.session.value.signature.address
  {
    var s := Run(events);
    AcceptedIsFor(events, n, p, index);
    RunMore(events, Derived(p, true));
    DerivedStep(s, p);
    SignaturesAreGenuine(events);
    var j :| 0 <= j < |s.signIns| && s.signIns[j].answer == Resolved(s.calls[p].signature);
    AnswersHappen(events);
  }

  /** Only the end of a preparation makes a session. */
  lemma SessionChanges(s: State, e: Event)
    requires WellFormed(s) && Next(s, e).session.Some? && Next(s, e).session != s.session
    ensures e.Derived? && e.succeeded && e.p in s.calls && s.calls[e.p].Deriving?
    ensures Next(s, e).session == Some(Session(s.calls[e.p].signature, s.calls[e.p].accountIndex))
  {
  }

  /** A preparation that was started for this index, and completed. */
  ghost predicate Prepared(events: seq<Event>, k: nat, p: nat, index: nat) {
    Happened(events, k, CallPrepare(p, index)) && Happened(events, k, Derived(p, true))
  }

  /** Suspended calls were started for their indexes, and the session's index is that of a completed one. */
  ghost predicate IndexesHappened(events: seq<Event>, k: nat, s: State) {
    && (forall p :: p in s.calls && !s.calls[p].Ended? ==> Happened(events, k, CallPrepare(p, s.calls[p].accountIndex)))
    && (s.session.Some? ==> exists p :: Prepared(events, k, p, s.session.value.accountIndex))
  }

  lemma StepKeepsIndexes(events: seq<Event>, k: nat, s: State)
    requires k < |events| && WellFormed(s) && IndexesHappened(events, k, s)
    ensures IndexesHappened(events, k + 1, Next(s, events[k]))
  {
    var e, next := events[k], Next(s, events[k]);
    forall p | p in next.calls && !next.calls[p].Ended?
      ensures Happened(events, k + 1, CallPrepare(p, next.calls[p].accountIndex))
    {
      StepStarts(s, e, p);
      HappensOnce(events, k, CallPrepare(p, next.calls[p].accountIndex));
    }
    if next.session.Some? {
      var index := next.session.value.accountIndex;
      var p: nat;
      if next.session == s.session {
        p :| Prepared(events, k, p, index);
      } else {
        SessionChanges(s, e);
        p := e.p;
      }
      HappensOnce(events, k, CallPrepare(p, index));
      HappensOnce(events, k, Derived(p, true));
      assert Prepared(events, k + 1, p, index);
    }
  }

  /** Conversely, any session is one that some call was made for, for its own index, and completed. */
  lemma SessionWasPrepared(events: seq<Event>)
    ensures IndexesHappened(events, |events|, Run(events))
  {
    var states := StatesOf(events, 0);
    var k := 0;
    while k < |events|
      invariant k <= |events| && IndexesHappened(events, k, states[k])
    {
      StateStep(events, states, k);
      StepKeepsIndexes(events, k, states[k]);
      k := k + 1;
    }
  }

  // ----- The runtime -----

  /**
   * The same of the runtime: whatever has happened, a call that was accepted for an index
   * is still for that index or has ended, the session is for the index of a call that was
   * started for it and completed, and its signature is one the wallet gave.
   */
  lemma RuntimeKeepsIndexes(runtime: Runtime, n: nat, p: nat, index: nat)
    requires runtime.Valid()
    ensures Accepted(runtime.events, n, p, index) ==>
              p in runtime.calls && (runtime.calls[p].Ended? || runtime.calls[p].accountIndex == index)
    ensures runtime.session.Some? ==>
              && Given(runtime.Now(), runtime.session.value.signature)
              && exists q :: Prepared(runtime.events, |runtime.events|, q, runtime.session.value.accountIndex)
  {
    var events := runtime.events;
    if Accepted(events, n, p, index) { AcceptedIsFor(events, n, p, index); }
    SignaturesAreGenuine(events);
    SessionWasPrepared(events);
  }

  // ----- Preparations that run to their end -----

  /**
   * From the start, when wallet and derivation answer: one connection, one sign-in, and a
   * session for the index asked for.
   */
  method PrepareFirst(runtime: Runtime, p: nat, index: nat, address: Address, text: string)
    requires runtime.Valid() && runtime.events == [] && index <= MAX_SAFE_INTEGER
    modifies runtime
    ensures runtime.Valid()
    ensures runtime.connectedAddress == Some(address) && runtime.connects == [Resolved(address)]
    ensures |runtime.signIns| == 1 && runtime.signIns[0].address == address
    ensures runtime.identitySignature == Some(Signature(text, address))
    ensures runtime.session == Some(Session(Signature(text, address), index))
    ensures runtime.calls == map[p := Ended(true)]
  {
    ConnectFirst(runtime, p, index, address);
    SignFirst(runtime, p, index, address, text);
    CompleteSigned(runtime, p);
  }

  method AnswerFirst(runtime: Runtime, p: nat, index: nat, address: Address)
    requires runtime.Valid() && runtime.events == [] && index <= MAX_SAFE_INTEGER
    modifies runtime
    ensures runtime.Valid()
    ensures runtime.Now() == State(Some(address), None, None, Some(0), None, [Resolved(address)], [],
                                   map[p := Connecting(0, index)])
  {
    runtime.PrepareIdentity(p, index);
    runtime.SettleConnect(0, Some(address));
  }

  method ConnectFirst(runtime: Runtime, p: nat, index: nat, address: Address)
    requires runtime.Valid() && runtime.events == [] && index <= MAX_SAFE_INTEGER
    modifies runtime
    ensures runtime.Valid()
    ensures runtime.Now() == State(Some(address), None, None, None, Some(0), [Resolved(address)],
                                   [SignIn(address, Pending, false)], map[p := Signing(address, 0, index)])
  {
    AnswerFirst(runtime, p, index, address);
    runtime.ReleaseConnect(0);
    runtime.ResumeAfterConnect(p);
  }

  /** A call whose sign-in was answered makes a session of the answer, for its own index. */
  method CompleteSigned(runtime: Runtime, p: nat)
    requires runtime.Valid() && p in runtime.calls && runtime.calls[p].Signing?
    requires runtime.signIns[runtime.calls[p].request].answer.Resolved?
    modifies runtime
    ensures runtime.Valid() && runtime.connects == old(runtime.connects) && runtime.signIns == old(runtime.signIns)
    ensures runtime.connectedAddress == old(runtime.connectedAddress)
    ensures var signature := old(runtime.signIns[runtime.calls[p].request].answer.value);
            && runtime.identitySignature == Some(signature)
            && runtime.session == Some(Session(signature, old(runtime.calls[p].accountIndex)))
    ensures runtime.calls == old(runtime.calls)[p := Ended(true)]
  {
    ghost var s := runtime.Now();
    ResumedSignature(s, p);
    runtime.ResumeAfterSignIn(p);
    ResumedState(s, p);
    runtime.FinishPrepare(p, true);
  }

  lemma ResumedState(s: State, p: nat)
    requires WellFormed(s) && p in s.calls && s.calls[p].Signing? && s.signIns[s.calls[p].request].answer.Resolved?
    ensures var call, signature := s.calls[p], s.signIns[s.calls[p].request].answer.value;
            Next(s, ResumeSigned(p)) == WithCall(s.(identitySignature := Some(signature)), p,
                                                 Deriving(call.address, signature, call.accountIndex))
  {
  }

  method SignFirst(runtime: Runtime, p: nat, index: nat, address: Address, text: string)
    requires runtime.Valid()
    requires runtime.Now() == State(Some(address), None, None, None, Some(0), [Resolved(address)],
                                    [SignIn(address, Pending, false)], map[p := Signing(address, 0, index)])
    modifies runtime
    ensures runtime.Valid()
    ensures var signature := Signature(text, address);
            runtime.Now() == State(Some(address), Some(signature), None, None, None, [Resolved(address)],
                                   [SignIn(address, Resolved(signature), true)], map[p := Signing(address, 0, index)])
  {
    runtime.SettleSignIn(0, Some(text));
    runtime.ReleaseSignIn(0);
  }

  method ResumeAgain(runtime: Runtime, p: nat, index: nat)
    requires runtime.Valid() && index <= MAX_SAFE_INTEGER && p !in runtime.calls
    requires runtime.connectedAddress.Some? && runtime.identitySignature.Some?
    modifies runtime
    ensures runtime.Valid()
    ensures var call := Deriving(old(runtime.connectedAddress.value), old(runtime.identitySignature.value), index);
            runtime.Now() == WithCall(old(runtime.Now()), p, call)
  {
    runtime.PrepareIdentity(p, index);
    runtime.ResumeAfterConnect(p);
  }

  /**
   * From any later moment at which a signature is held, another preparation asks the wallet
   * nothing, and replaces the session by one for its own index under the held signature.
   */
  method PrepareAgain(runtime: Runtime, p: nat, index: nat)
    requires runtime.Valid() && index <= MAX_SAFE_INTEGER && p !in runtime.calls
    requires runtime.connectedAddress.Some? && runtime.identitySignature.Some?
    modifies runtime
    ensures runtime.Valid() && runtime.connects == old(runtime.connects) && runtime.signIns == old(runtime.signIns)
    ensures runtime.connectedAddress == old(runtime.connectedAddress)
    ensures runtime.identitySignature == old(runtime.identitySignature)
    ensures runtime.session == Some(Session(runtime.identitySignature.value, index))
    ensures runtime.calls == old(runtime.calls)[p := Ended(true)]
  {
    ResumeAgain(runtime, p, index);
    runtime.FinishPrepare(p, true);
  }
}
