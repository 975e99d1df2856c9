/** The wire form of an execution request: the printer of client and relayer, and the relayer's parser. */
module RelaySchema {
  import opened Wrappers
  import opened Numerals
  import opened Requests
  import opened RelayQuotes
  import opened RelayAttestation

  const MAX_RECOVERY_ACCOUNTS := 20
  const MAX_ATTESTATION_LENGTH := 2_048

  type Members = map<string, Value>

  /** A JSON value as JavaScript holds it; numbers are integers. */
  datatype Value =
    | Null
    | Bool(b: bool)
    | Number(n: int)
    | Str(s: string)
    | Arr(items: seq<Value>)
    | Obj(members: Members)

  type HexCall = Call<string>
  type WireRequest = ExecutionRequest<string>

  datatype SchemaError =
    | NotAnObject
    | NotAnArray
    | NotAnAddress
    | NotHex
    | NotUint
    | NotSafeNumber
    | BadRecoveryAccounts
    | BadRecoveryAmount
    | DuplicateRecoveryAccount
    | BadRecoverySignature
    | BadRelayRequestId
    | BadQuoteAttestation

  // ----- Scalars -----

  predicate IsHexData(s: string) {
    |s| >= 2 && s[..2] == "0x" && AllHex(s[2..])
  }

  predicate IsSignature65(s: string) {
    |s| == 132 && IsHexData(s)
  }

  /** A property; None is `undefined`. */
  function Get(members: Members, name: string): Option<Value> {
    if name in members then Some(members[name]) else None
  }

  function ReadRecord(v: Option<Value>): Result<Members, SchemaError> {
    if v.Some? && v.value.Obj? then Success(v.value.members) else Failure(NotAnObject)
  }

  function ReadArray(v: Option<Value>): Result<seq<Value>, SchemaError> {
    if v.Some? && v.value.Arr? then Success(v.value.items) else Failure(NotAnArray)
  }

  /** How addresses and unsigned integers are spelled. */
  datatype Spelling = Spelling(
    address: Address -> string,
    readAddress: string -> Result<Address, SchemaError>,
    uint: nat -> string,
    readUint: string -> Result<nat, SchemaError>)

  /** Reading undoes spelling. */
  ghost predicate Faithful(t: Spelling) {
    && (forall a: Address :: t.readAddress(t.address(a)) == Success(a))
    && (forall n: nat :: t.readUint(t.uint(n)) == Success(n))
  }

  /** An address, all lower case or with its checksum. */
  function AddressFromText(s: string, upper: Checksum): Result<Address, SchemaError> {
    if !(|s| == 42 && IsHexData(s)) then Failure(NotAnAddress)
    else
      AddressFits(s[2..]);
      var a: Address := HexNumber(s[2..]);
      if Lower(s) == s || AddressText(a, upper) == s then Success(a) else Failure(NotAnAddress)
  }

  function UintFromText(s: string): Result<nat, SchemaError> {
    if IsCanonicalDecimal(s) then Success(DecimalValue(s)) else Failure(NotUint)
  }

  /** Checksummed addresses, and decimal text without leading zeros. */
  function Text(upper: Checksum): Spelling {
    Spelling((a: Address) => AddressText(a, upper), s => AddressFromText(s, upper),
             (n: nat) => DecimalText(n), UintFromText)
  }

  lemma TextIsFaithful(upper: Checksum)
    ensures Faithful(Text(upper))
  {
    var t := Text(upper);
    forall a: Address
      ensures t.readAddress(t.address(a)) == Success(a)
    {
      AddressTextIsHex(a, upper);
    }
    forall n: nat
      ensures t.readUint(t.uint(n)) == Success(n)
    {
      DecimalRoundTrip(n);
    }
  }

  /** Conversely, only spellings are read: canonical decimals, and addresses in lower case or with their checksum. */
  lemma OnlySpellingsAreRead(s: string, upper: Checksum)
    ensures UintFromText(s).Success? <==> exists n: nat :: s == DecimalText(n)
    ensures AddressFromText(s, upper).Success? <==>
              exists a: Address :: s == AddressText(a, upper) || s == "0x" + HexWord(a, 40)
  {
    if UintFromText(s).Success? { CanonicalDecimalIsPrinted(s); }
    if n: nat :| s == DecimalText(n) { DecimalRoundTrip(n); }
    if AddressFromText(s, upper).Success? { ReadAddressIsSpelled(s, upper); }
    if a: Address :| s == AddressText(a, upper) || s == "0x" + HexWord(a, 40) { SpelledAddressIsRead(s, a, upper); }
  }

  lemma LowerWord(word: string)
    requires AllHex(word) && Lower(word) == word
    ensures HexWord(HexNumber(word), |word|) == word
  {
    FixedDigitsOfValue(ToDigits(word), Hex);
    LowerOfHex(word);
  }

  lemma ReadAddressIsSpelled(s: string, upper: Checksum)
    requires AddressFromText(s, upper).Success?
    ensures var a := AddressFromText(s, upper).value; s == AddressText(a, upper) || s == "0x" + HexWord(a, 40)
  {
    if Lower(s) == s {
      LowerTail(s);
      LowerWord(s[2..]);
      assert s == s[..2] + s[2..];
    }
  }

  lemma LowerTail(s: string)
    requires |s| >= 2 && Lower(s) == s
    ensures Lower(s[2..]) == s[2..]
  {
    forall i | 0 <= i < |s| - 2
      ensures Lower(s[2..])[i] == s[2..][i]
    {
      assert Lower(s)[i + 2] == s[i + 2];
    }
  }

  lemma SpelledAddressIsRead(s: string, a: Address, upper: Checksum)
    requires s == AddressText(a, upper) || s == "0x" + HexWord(a, 40)
    ensures AddressFromText(s, upper) == Success(a)
  {
    AddressTextIsHex(a, upper);
    if s == "0x" + HexWord(a, 40) {
      AddressWord(a);
      PrintedIsLower(FixedDigits(a, Hex, 40));
      assert s[2..] == HexWord(a, 40);
      assert Lower(s) == "0x" + Lower(HexWord(a, 40));
    }
  }

  function ReadAddress(v: Option<Value>, t: Spelling): Result<Address, SchemaError> {
    if v.Some? && v.value.Str? then t.readAddress(v.value.s) else Failure(NotAnAddress)
  }

  function ReadHex(v: Option<Value>): Result<string, SchemaError> {
    if v.Some? && v.value.Str? && IsHexData(v.value.s) then Success(v.value.s) else Failure(NotHex)
  }

  function ReadUint(v: Option<Value>, t: Spelling): Result<nat, SchemaError> {
    if v.Some? && v.value.Str? then t.readUint(v.value.s) else Failure(NotUint)
  }

  function ReadSafeNumber(v: Option<Value>): Result<nat, SchemaError> {
    if v.Some? && v.value.Number? && 0 <= v.value.n <= MAX_SAFE_INTEGER then Success(v.value.n)
    else Failure(NotSafeNumber)
  }

  // ----- Parsing -----

  function ReadCall(v: Value, t: Spelling): Result<HexCall, SchemaError> {
    var call :- ReadRecord(Some(v));
    var target :- ReadAddress(Get(call, "target"), t);
    var value :- ReadUint(Get(call, "value"), t);
    var data :- ReadHex(Get(call, "data"));
    Success(Call(target, value, data))
  }

  function ReadCalls(items: seq<Value>, t: Spelling): Result<seq<HexCall>, SchemaError> {
    if items == [] then Success([])
    else
      var first :- ReadCall(items[0], t);
      var rest :- ReadCalls(items[1..], t);
      Success([first] + rest)
  }

  function ReadFee(v: Option<Value>, t: Spelling): Result<Fee, SchemaError> {
    var fee :- ReadRecord(v);
    var token :- ReadAddress(Get(fee, "token"), t);
    var amount :- ReadUint(Get(fee, "amount"), t);
    var recipient :- ReadAddress(Get(fee, "recipient"), t);
    Success(Fee(token, amount, recipient))
  }

  function ReadEntry(v: Value, t: Spelling): Result<RecoveryEntry, SchemaError> {
    var entry :- ReadRecord(Some(v));
    var account :- ReadAddress(Get(entry, "account"), t);
    var amount :- ReadUint(Get(entry, "amount"), t);
    Success(RecoveryEntry(account, amount))
  }

  function ReadEntries(items: seq<Value>, t: Spelling): Result<seq<RecoveryEntry>, SchemaError> {
    if items == [] then Success([])
    else
      var first :- ReadEntry(items[0], t);
      var rest :- ReadEntries(items[1..], t);
      Success([first] + rest)
  }

  predicate AllPositive(entries: seq<RecoveryEntry>) {
    forall i :: 0 <= i < |entries| ==> entries[i].amount > 0
  }

  function ReadRecovery(v: Option<Value>, t: Spelling): Result<Option<RecoveryAuthorization>, SchemaError> {
    if v.None? then Success(None)
    else
      var input :- ReadRecord(v);
      var items :- ReadArray(Get(input, "accounts"));
      var _ :- Need(1 <= |items| <= MAX_RECOVERY_ACCOUNTS, BadRecoveryAccounts);
      var accounts :- ReadEntries(items, t);
      var _ :- Need(AllPositive(accounts), BadRecoveryAmount);
      var _ :- Need(DistinctAccounts(accounts), DuplicateRecoveryAccount);
      var signature :- ReadHex(Get(input, "signature"));
      var _ :- Need(IsSignature65(signature), BadRecoverySignature);
      var recipient :- ReadAddress(Get(input, "recipient"), t);
      var deadline :- ReadUint(Get(input, "deadline"), t);
      Success(Some(RecoveryAuthorization(recipient, accounts, deadline, signature)))
  }

  function ReadRelayRequestId(v: Option<Value>): Result<Option<string>, SchemaError> {
    if v.None? then Success(None)
    else if v.value.Str? && IsBytes32(v.value.s) then Success(Some(Lower(v.value.s)))
    else Failure(BadRelayRequestId)
  }

  function ReadQuoteAttestation(v: Option<Value>): Result<Option<string>, SchemaError> {
    if v.None? then Success(None)
    else if v.value.Str? && |v.value.s| <= MAX_ATTESTATION_LENGTH && IsAttestation(v.value.s)
    then Success(Some(v.value.s))
    else Failure(BadQuoteAttestation)
  }

  /** The parts of a request that are read from nested values. */
  datatype Parts = Parts(
    calls: seq<HexCall>,
    fee: Fee,
    relayRequestId: Option<string>,
    attestation: Option<string>,
    recovery: Option<RecoveryAuthorization>)

  function ReadParts(input: Members, t: Spelling): Result<Parts, SchemaError> {
    var items :- ReadArray(Get(input, "calls"));
    var calls :- ReadCalls(items, t);
    var fee :- ReadFee(Get(input, "fee"), t);
    var relayRequestId :- ReadRelayRequestId(Get(input, "relayRequestId"));
    var attestation :- ReadQuoteAttestation(Get(input, "relayQuoteAttestation"));
    var recovery :- ReadRecovery(Get(input, "walletRecoveryAuthorization"), t);
    Success(Parts(calls, fee, relayRequestId, attestation, recovery))
  }

  function ReadRequest(input: Members, parts: Parts, t: Spelling): Result<WireRequest, SchemaError> {
    var chainId :- ReadSafeNumber(Get(input, "chainId"));
    var factory :- ReadAddress(Get(input, "factory"), t);
    var account :- ReadAddress(Get(input, "account"), t);
    var owner :- ReadAddress(Get(input, "owner"), t);
    var accountIndex :- ReadSafeNumber(Get(input, "accountIndex"));
    var nonce :- ReadUint(Get(input, "nonce"), t);
    var deadline :- ReadUint(Get(input, "deadline"), t);
    var prefund :- ReadUint(Get(input, "prefund"), t);
    var signature :- ReadHex(Get(input, "signature"));
    Success(ExecutionRequest(
              chainId, factory, account, owner, accountIndex, parts.calls, nonce, deadline, prefund, parts.fee,
              signature, parts.relayRequestId, parts.attestation, parts.recovery))
  }

  function ParseRelayRequest(v: Value, t: Spelling): Result<WireRequest, SchemaError> {
    var input :- ReadRecord(Some(v));
    var parts :- ReadParts(input, t);
    ReadRequest(input, parts, t)
  }

  // ----- Printing -----

  function AddressValue(a: Address, t: Spelling): Value {
    Str(t.address(a))
  }

  function UintValue(n: nat, t: Spelling): Value {
    Str(t.uint(n))
  }

  function CallValue(c: HexCall, t: Spelling): Value {
    Obj(map["target" := AddressValue(c.target, t), "value" := UintValue(c.value, t), "data" := Str(c.data)])
  }

  function CallValues(calls: seq<HexCall>, t: Spelling): seq<Value> {
    if calls == [] then [] else [CallValue(calls[0], t)] + CallValues(calls[1..], t)
  }

  function FeeValue(f: Fee, t: Spelling): Value {
    Obj(map["token" := AddressValue(f.token, t), "amount" := UintValue(f.amount, t),
            "recipient" := AddressValue(f.recipient, t)])
  }

  function EntryValue(e: RecoveryEntry, t: Spelling): Value {
    Obj(map["account" := AddressValue(e.account, t), "amount" := UintValue(e.amount, t)])
  }

  function EntryValues(entries: seq<RecoveryEntry>, t: Spelling): seq<Value> {
    if entries == [] then [] else [EntryValue(entries[0], t)] + EntryValues(entries[1..], t)
  }

  function RecoveryValue(auth: RecoveryAuthorization, t: Spelling): Value {
    Obj(map["recipient" := AddressValue(auth.recipient, t), "accounts" := Arr(EntryValues(auth.accounts, t)),
            "deadline" := UintValue(auth.deadline, t), "signature" := Str(auth.signature)])
  }

  function RequiredMembers(r: WireRequest, t: Spelling): Members {
    map["chainId" := Number(r.chainId), "factory" := AddressValue(r.factory, t),
        "account" := AddressValue(r.account, t), "owner" := AddressValue(r.owner, t),
        "accountIndex" := Number(r.accountIndex), "calls" := Arr(CallValues(r.calls, t)),
        "nonce" := UintValue(r.nonce, t), "deadline" := UintValue(r.deadline, t),
        "prefund" := UintValue(r.prefund, t), "fee" := FeeValue(r.fee, t), "signature" := Str(r.signature)]
  }

  function WithText(members: Members, name: string, text: Option<string>): Members {
    if text.Some? then members[name := Str(text.value)] else members
  }

  function WithRecovery(members: Members, auth: Option<RecoveryAuthorization>, t: Spelling): Members {
    if auth.Some? then members["walletRecoveryAuthorization" := RecoveryValue(auth.value, t)] else members
  }

  /** The JSON of a request; absent optional fields stay absent. */
  function RelayRequestJson(r: WireRequest, t: Spelling): Value {
    var identified := WithText(RequiredMembers(r, t), "relayRequestId", r.relayRequestId);
    var attested := WithText(identified, "relayQuoteAttestation", r.relayQuoteAttestation);
    Obj(WithRecovery(attested, r.walletRecovery, t))
  }

  // ----- Parsing undoes printing -----

  lemma ReadPrintedCall(c: HexCall, t: Spelling)
    requires Faithful(t)
    ensures ReadCall(CallValue(c, t), t) == if IsHexData(c.data) then Success(c) else Failure(NotHex)
  {
  }

  predicate AllCallsHex(calls: seq<HexCall>) {
    forall i :: 0 <= i < |calls| ==> IsHexData(calls[i].data)
  }

  lemma {:induction false} ReadPrintedCalls(calls: seq<HexCall>, t: Spelling)
    requires Faithful(t)
    ensures ReadCalls(CallValues(calls, t), t) == if AllCallsHex(calls) then Success(calls) else Failure(NotHex)
  {
    if calls != [] {
      ReadPrintedCall(calls[0], t);
      ReadPrintedCalls(calls[1..], t);
      assert CallValues(calls, t)[1..] == CallValues(calls[1..], t);
      assert calls == [calls[0]] + calls[1..];
    }
  }

  lemma ReadPrintedFee(f: Fee, t: Spelling)
    requires Faithful(t)
    ensures ReadFee(Some(FeeValue(f, t)), t) == Success(f)
  {
  }

  lemma {:induction false} ReadPrintedEntries(entries: seq<RecoveryEntry>, t: Spelling)
    requires Faithful(t)
    ensures ReadEntries(EntryValues(entries, t), t) == Success(entries)
    ensures |EntryValues(entries, t)| == |entries|
  {
    if entries != [] {
      ReadPrintedEntries(entries[1..], t);
      assert EntryValues(entries, t)[1..] == EntryValues(entries[1..], t);
      assert entries == [entries[0]] + entries[1..];
    }
  }

  /** 1 to 20 distinct accounts with positive amounts, and a 65-byte signature. */
  predicate ValidRecovery(auth: RecoveryAuthorization) {
    && 1 <= |auth.accounts| <= MAX_RECOVERY_ACCOUNTS && AllPositive(auth.accounts) && DistinctAccounts(auth.accounts)
    && IsSignature65(auth.signature)
  }

  lemma ReadPrintedRecovery(auth: RecoveryAuthorization, t: Spelling)
    requires Faithful(t)
    ensures ReadRecovery(Some(RecoveryValue(auth, t)), t).Success? <==> ValidRecovery(auth)
    ensures ValidRecovery(auth) ==> ReadRecovery(Some(RecoveryValue(auth, t)), t) == Success(Some(auth))
  {
    ReadPrintedEntries(auth.accounts, t);
  }

  /** The request with its Relay request ID in lower case. */
  function Canonical(r: WireRequest): WireRequest {
    r.(relayRequestId := if r.relayRequestId.Some? then Some(Lower(r.relayRequestId.value)) else None)
  }

  /** The members that every printed request has. */
  ghost predicate PrintsRequired(input: Members, r: WireRequest, t: Spelling) {
    && Get(input, "chainId") == Some(Number(r.chainId)) && Get(input, "accountIndex") == Some(Number(r.accountIndex))
    && Get(input, "factory") == Some(AddressValue(r.factory, t))
    && Get(input, "account") == Some(AddressValue(r.account, t))
    && Get(input, "owner") == Some(AddressValue(r.owner, t))
    && Get(input, "nonce") == Some(UintValue(r.nonce, t))
    && Get(input, "deadline") == Some(UintValue(r.deadline, t))
    && Get(input, "prefund") == Some(UintValue(r.prefund, t))
    && Get(input, "signature") == Some(Str(r.signature))
    && Get(input, "calls") == Some(Arr(CallValues(r.calls, t))) && Get(input, "fee") == Some(FeeValue(r.fee, t))
  }

  /** The members that a printed request has; absent optional fields stay absent. */
  ghost predicate Prints(input: Members, r: WireRequest, t: Spelling) {
    && PrintsRequired(input, r, t)
    && Get(input, "relayRequestId") == TextValue(r.relayRequestId)
    && Get(input, "relayQuoteAttestation") == TextValue(r.relayQuoteAttestation)
    && Get(input, "walletRecoveryAuthorization") ==
         (if r.walletRecovery.Some? then Some(RecoveryValue(r.walletRecovery.value, t)) else None)
  }

  function TextValue(text: Option<string>): Option<Value> {
    if text.Some? then Some(Str(text.value)) else None
  }

  /** Length and first letter, which tell the keys of a request apart. */
  function Mark(key: string): int {
    if key == "" then 0 else 0x1_0000 * |key| + key[0] as int
  }

  lemma KeysDiffer()
    ensures Mark("chainId") == 0x7_0063 && Mark("factory") == 0x7_0066 && Mark("account") == 0x7_0061
    ensures Mark("owner") == 0x5_006F && Mark("accountIndex") == 0xC_0061 && Mark("calls") == 0x5_0063
    ensures Mark("nonce") == 0x5_006E && Mark("deadline") == 0x8_0064 && Mark("prefund") == 0x7_0070
    ensures Mark("fee") == 0x3_0066 && Mark("signature") == 0x9_0073
    ensures Mark("relayRequestId") == 0xE_0072 && Mark("relayQuoteAttestation") == 0x15_0072
    ensures Mark("walletRecoveryAuthorization") == 0x1B_0077
  {
  }

  lemma RequiredArePrinted(r: WireRequest, t: Spelling)
    ensures PrintsRequired(RequiredMembers(r, t), r, t)
  {
    KeysDiffer();
  }

  lemma OptionalAreAbsent(r: WireRequest, t: Spelling)
    ensures Get(RequiredMembers(r, t), "relayRequestId").None?
    ensures Get(RequiredMembers(r, t), "relayQuoteAttestation").None?
    ensures Get(RequiredMembers(r, t), "walletRecoveryAuthorization").None?
  {
    KeysDiffer();
  }

  lemma PrintedMembers(r: WireRequest, t: Spelling)
    ensures Prints(RelayRequestJson(r, t).members, r, t)
  {
    KeysDiffer();
    RequiredArePrinted(r, t);
    OptionalAreAbsent(r, t);
    var identified := WithText(RequiredMembers(r, t), "relayRequestId", r.relayRequestId);
    assert PrintsRequired(identified, r, t);
    var attested := WithText(identified, "relayQuoteAttestation", r.relayQuoteAttestation);
    assert PrintsRequired(attested, r, t);
  }

  /** The optional texts and the recovery that the parser accepts. */
  predicate PrintableParts(r: WireRequest) {
    && AllCallsHex(r.calls)
    && (r.relayRequestId.Some? ==> IsBytes32(r.relayRequestId.value))
    && (r.relayQuoteAttestation.Some? ==>
          IsAttestation(r.relayQuoteAttestation.value) && |r.relayQuoteAttestation.value| <= MAX_ATTESTATION_LENGTH)
    && (r.walletRecovery.Some? ==> ValidRecovery(r.walletRecovery.value))
  }

  /** What the relayer demands of a request beyond its types. */
  predicate Printable(r: WireRequest) {
    && PrintableParts(r)
    && r.chainId <= MAX_SAFE_INTEGER && r.accountIndex <= MAX_SAFE_INTEGER && IsHexData(r.signature)
  }

  lemma ReadPrintedTexts(input: Members, r: WireRequest, t: Spelling)
    requires Prints(input, r, t)
    ensures var id := ReadRelayRequestId(Get(input, "relayRequestId"));
            && (id.Success? <==> r.relayRequestId.Some? ==> IsBytes32(r.relayRequestId.value))
            && (id.Success? ==> id.value == Canonical(r).relayRequestId)
    ensures var token := ReadQuoteAttestation(Get(input, "relayQuoteAttestation"));
            && (token.Success? <==> r.relayQuoteAttestation.Some? ==>
                  IsAttestation(r.relayQuoteAttestation.value)
                  && |r.relayQuoteAttestation.value| <= MAX_ATTESTATION_LENGTH)
            && (token.Success? ==> token.value == r.relayQuoteAttestation)
  {
  }

  lemma ReadPrintedNested(input: Members, r: WireRequest, t: Spelling)
    requires Faithful(t) && Prints(input, r, t)
    ensures var items := ReadArray(Get(input, "calls"));
            && items.Success?
            && ReadCalls(items.value, t) == if AllCallsHex(r.calls) then Success(r.calls) else Failure(NotHex)
    ensures ReadFee(Get(input, "fee"), t) == Success(r.fee)
    ensures var recovery := ReadRecovery(Get(input, "walletRecoveryAuthorization"), t);
            && (recovery.Success? <==> r.walletRecovery.Some? ==> ValidRecovery(r.walletRecovery.value))
            && (recovery.Success? ==> recovery.value == r.walletRecovery)
  {
    ReadPrintedCalls(r.calls, t);
    ReadPrintedFee(r.fee, t);
    if r.walletRecovery.Some? { ReadPrintedRecovery(r.walletRecovery.value, t); }
  }

  lemma ReadPrintedParts(input: Members, r: WireRequest, t: Spelling)
    requires Faithful(t) && Prints(input, r, t)
    ensures ReadParts(input, t).Success? <==> PrintableParts(r)
    ensures PrintableParts(r) ==>
              ReadParts(input, t) ==
              Success(Parts(r.calls, r.fee, Canonical(r).relayRequestId, r.relayQuoteAttestation, r.walletRecovery))
  {
    ReadPrintedNested(input, r, t);
    ReadPrintedTexts(input, r, t);
  }

  lemma ReadPrintedRequest(input: Members, r: WireRequest, parts: Parts, t: Spelling)
    requires Faithful(t) && Prints(input, r, t)
    ensures var read := ReadRequest(input, parts, t);
            && (read.Success? <==>
                  r.chainId <= MAX_SAFE_INTEGER && r.accountIndex <= MAX_SAFE_INTEGER && IsHexData(r.signature))
            && (read.Success? ==>
                  read.value == r.(calls := parts.calls, fee := parts.fee, relayRequestId := parts.relayRequestId,
                                   relayQuoteAttestation := parts.attestation, walletRecovery := parts.recovery))
  {
  }

  lemma PrintIsParsed(input: Members, r: WireRequest, t: Spelling)
    requires Faithful(t) && Prints(input, r, t)
    ensures ParseRelayRequest(Obj(input), t).Success? <==> Printable(r)
    ensures Printable(r) ==> ParseRelayRequest(Obj(input), t) == Success(Canonical(r))
  {
    ReadPrintedParts(input, r, t);
    if PrintableParts(r) {
      ReadPrintedRequest(input, r, ReadParts(input, t).value, t);
    }
  }

  lemma PrintedIsRead(r: WireRequest, t: Spelling)
    requires Faithful(t)
    ensures ParseRelayRequest(RelayRequestJson(r, t), t).Success? <==> Printable(r)
    ensures Printable(r) ==> ParseRelayRequest(RelayRequestJson(r, t), t) == Success(Canonical(r))
  {
    PrintedMembers(r, t);
    PrintIsParsed(RelayRequestJson(r, t).members, r, t);
  }

  /**
   * The relayer's parser accepts a printed request exactly when the request meets its
   * demands, and then reads back the request itself, with its Relay request ID lower-cased.
   */
  lemma ParseUndoesPrint(r: WireRequest, upper: Checksum)
    ensures var t := Text(upper);
            && (ParseRelayRequest(RelayRequestJson(r, t), t).Success? <==> Printable(r))
            && (Printable(r) ==> ParseRelayRequest(RelayRequestJson(r, t), t) == Success(Canonical(r)))
  {
    TextIsFaithful(upper);
    PrintedIsRead(r, Text(upper));
  }
}
