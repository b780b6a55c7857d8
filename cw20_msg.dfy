/**
 * The instantiate message of the cw20-base token contract and its
 * metadata validator: a token's name must be 3 to 50 UTF-8 bytes, its
 * ticker symbol 3 to 12 bytes drawn from `-`, `A`-`Z` and `a`-`z`, and its
 * number of decimals at most 18.  The checks run in that order and the
 * first one that fails decides the error.
 */
module Cw20Msg {
  import opened Wrappers
  import opened Utf8

  /** cosmwasm's `Uint128`. */
  newtype Uint128 = x: int | 0 <= x < 0x1_0000_0000_0000_0000_0000_0000_0000_0000

  /** An initial balance: carried by the message, never inspected by the validator. */
  datatype Cw20Coin = Cw20Coin(address: string, amount: Uint128)

  /** Who may mint and, optionally, the cap on the total supply. */
  datatype MinterResponse = MinterResponse(minter: string, cap: Option<Uint128>)

  /** Marketing metadata: carried, never inspected (the logo is not part of this model). */
  datatype InstantiateMarketingInfo = InstantiateMarketingInfo(
    project: Option<string>,
    description: Option<string>,
    marketing: Option<string>)

  datatype InstantiateMsg = InstantiateMsg(
    name: string,
    symbol: string,
    decimals: u8,
    initialBalances: seq<Cw20Coin>,
    mint: Option<MinterResponse>,
    marketing: Option<InstantiateMarketingInfo>)

  /** cosmwasm's `StdError`, of which the validator only raises the generic kind. */
  datatype StdError = GenericErr(msg: string)

  const MinNameBytes: nat := 3
  const MaxNameBytes: nat := 50
  const MinSymbolBytes: nat := 3
  const MaxSymbolBytes: nat := 12
  const MaxDecimals: u8 := 18

  const NameError := GenericErr("Name is not in the expected format (3-50 UTF-8 bytes)")
  const SymbolError := GenericErr("Ticker symbol is not in expected format [a-zA-Z\\-]{3,12}")
  const DecimalsError := GenericErr("Decimals must not exceed 18")

  /** The remaining minting cap, if the message names a minter with a cap. */
  function GetCap(msg: InstantiateMsg): (r: Option<Uint128>)
    ensures msg.mint.None? ==> r.None?
    ensures msg.mint.Some? ==> r == msg.mint.value.cap
  {
    msg.mint.AndThen((m: MinterResponse) => m.cap)
  }

  /**
   * The name check: the UTF-8 length of the name, in bytes, must lie in
   * [3, 50], so a valid name holds between 1 and 50 characters.
   */
  function HasValidName(msg: InstantiateMsg): (ok: bool)
    ensures ok <==> MinNameBytes <= |Encode(msg.name)| <= MaxNameBytes
    ensures ok ==> 1 <= |msg.name| <= MaxNameBytes
  {
    var n := |Encode(msg.name)|;
    !(n < MinNameBytes || n > MaxNameBytes)
  }

  /** A byte the ticker symbol may hold: `-` (45), `A`-`Z` (65-90) or `a`-`z` (97-122). */
  predicate IsSymbolByte(b: u8) {
    b == 45 || 65 <= b <= 90 || 97 <= b <= 122
  }

  /** The symbol check, stated over the bytes: a length in [3, 12] and only allowed bytes. */
  predicate ValidSymbolBytes(bytes: seq<u8>) {
    MinSymbolBytes <= |bytes| <= MaxSymbolBytes &&
    forall i :: 0 <= i < |bytes| ==> IsSymbolByte(bytes[i])
  }

  /**
   * The symbol check as the contract runs it: reject on length, then scan
   * the bytes and stop at the first one outside the allowed ranges.  It
   * only reads the message.
   */
  method HasValidSymbol(msg: InstantiateMsg) returns (ok: bool)
    ensures ok <==> ValidSymbolBytes(Encode(msg.symbol))
  {
    var bytes := Encode(msg.symbol);
    if |bytes| < MinSymbolBytes || |bytes| > MaxSymbolBytes {
      return false;
    }
    for i := 0 to |bytes|
      invariant forall j :: 0 <= j < i ==> IsSymbolByte(bytes[j])
    {
      var b := bytes[i];
      if b != 45 && (b < 65 || b > 90) && (b < 97 || b > 122) {
        return false;
      }
    }
    return true;
  }

  /** Name, then symbol, then decimals; the first failing check gives the error. */
  function Validate(msg: InstantiateMsg): (r: Result<(), StdError>)
    ensures r.Success? <==>
      HasValidName(msg) && ValidSymbolBytes(Encode(msg.symbol)) && msg.decimals <= MaxDecimals
    ensures r.Failure? ==> r.error in {NameError, SymbolError, DecimalsError}
  {
    if !HasValidName(msg) then
      Failure(NameError)
    else if !ValidSymbolBytes(Encode(msg.symbol)) then
      Failure(SymbolError)
    else if msg.decimals > MaxDecimals then
      Failure(DecimalsError)
    else
      Success(())
  }
}
