/** Addresses, calls and the signed execution request that the client sends to the relayer. */
module Requests {
  import opened Wrappers
  import opened Numerals

  const ADDRESS_LIMIT := 0x1_0000_0000_0000_0000_0000_0000_0000_0000_0000_0000
  const MAX_SAFE_INTEGER := 0x1F_FFFF_FFFF_FFFF

  /** A 20-byte address; two spellings of one address are the same value. */
  type Address = a: nat | a < ADDRESS_LIMIT

  /** Which letters of an address's checksummed spelling are upper case (a hash decides). */
  type Checksum = (Address, nat) -> bool

  function Upper(c: char): char {
    match c
    case 'a' => 'A' case 'b' => 'B' case 'c' => 'C'
    case 'd' => 'D' case 'e' => 'E' case 'f' => 'F'
    case _ => c
  }

  /** The checksummed spelling. */
  function AddressText(a: Address, upper: Checksum): (s: string)
    ensures |s| == 42
  {
    var word := HexWord(a, 40);
    "0x" + seq(40, i requires 0 <= i < 40 => if upper(a, i) then Upper(word[i]) else word[i])
  }

  lemma UpperKeepsValue(c: char)
    requires IsHexChar(c)
    ensures IsHexChar(Upper(c)) && HexValue(Upper(c)) == HexValue(c)
  {
  }

  lemma EightMoreNibbles(n: nat)
    ensures Power(Hex, n + 8) == 0x1_0000_0000 * Power(Hex, n)
  {
    assert Power(Hex, n + 4) == 16 * Power(Hex, n + 3);
    assert Power(Hex, n + 2) == 16 * Power(Hex, n + 1);
    assert Power(Hex, n + 8) == 16 * Power(Hex, n + 7);
    assert Power(Hex, n + 6) == 16 * Power(Hex, n + 5);
  }

  lemma AddressLimit()
    ensures Power(Hex, 40) == ADDRESS_LIMIT
  {
    EightMoreNibbles(0);
    EightMoreNibbles(8);
    EightMoreNibbles(16);
    EightMoreNibbles(24);
    EightMoreNibbles(32);
  }

  lemma AddressTextIsHex(a: Address, upper: Checksum)
    ensures AllHex(AddressText(a, upper)[2..])
    ensures ToDigits(AddressText(a, upper)[2..]) == ToDigits(HexWord(a, 40))
    ensures HexNumber(AddressText(a, upper)[2..]) == a
    ensures AddressText(a, upper)[..2] == "0x"
  {
    var word, s := HexWord(a, 40), AddressText(a, upper)[2..];
    forall i | 0 <= i < 40
      ensures IsHexChar(s[i]) && HexValue(s[i]) == HexValue(word[i])
    {
      UpperKeepsValue(word[i]);
    }
    assert ToDigits(s) == ToDigits(word);
    AddressLimit();
    HexWordRoundTrip(a, 40);
  }

  /** Different addresses are spelled differently, whatever the checksum. */
  lemma AddressTextInjective(a: Address, b: Address, upper: Checksum)
    requires AddressText(a, upper) == AddressText(b, upper)
    ensures a == b
  {
    AddressTextIsHex(a, upper);
    AddressTextIsHex(b, upper);
  }

  /** 32 bytes in hex. */
  predicate IsBytes32(s: string) {
    |s| == 66 && s[..2] == "0x" && AllHex(s[2..])
  }

  datatype Call<+D> = Call(target: Address, value: nat, data: D)

  datatype Fee = Fee(token: Address, amount: nat, recipient: Address)

  datatype RecoveryEntry = RecoveryEntry(account: Address, amount: nat)

  datatype RecoveryAuthorization = RecoveryAuthorization(
    recipient: Address,
    accounts: seq<RecoveryEntry>,
    deadline: nat,
    signature: string)

  /** An execution request; D is how its calldata is represented (hex text, or decoded). */
  datatype ExecutionRequest<+D> = ExecutionRequest(
    chainId: nat,
    factory: Address,
    account: Address,
    owner: Address,
    accountIndex: nat,
    calls: seq<Call<D>>,
    nonce: nat,
    deadline: nat,
    prefund: nat,
    fee: Fee,
    signature: string,
    relayRequestId: Option<string>,
    relayQuoteAttestation: Option<string>,
    walletRecovery: Option<RecoveryAuthorization>)

  predicate DistinctAccounts(entries: seq<RecoveryEntry>) {
    forall i, j :: 0 <= i < j < |entries| ==> entries[i].account != entries[j].account
  }
}
