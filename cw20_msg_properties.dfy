/**
 * What the validator of the cw20-base instantiate message promises, stated
 * over the model in module Cw20Msg.
 */
module Cw20MsgProperties {
  import opened Wrappers
  import opened Utf8
  import opened Cw20Msg

  /** A character of the pattern `[a-zA-Z\-]` quoted by the symbol error. */
  predicate IsSymbolChar(c: char) {
    c == '-' || 'A' <= c <= 'Z' || 'a' <= c <= 'z'
  }

  /**
   * The byte-level symbol check accepts exactly the symbols matching
   * `[a-zA-Z\-]{3,12}` over characters: any non-ASCII character brings
   * bytes of 0x80 and above, which are never allowed.
   */
  lemma {:induction false} SymbolMatchesPattern(s: string)
    ensures ValidSymbolBytes(Encode(s)) <==>
      3 <= |s| <= 12 && forall i :: 0 <= i < |s| ==> IsSymbolChar(s[i])
  {
    var e := Encode(s);
    if forall i :: 0 <= i < |s| ==> IsAscii(s[i]) {
      EncodeAscii(s);
      forall i | 0 <= i < |s|
        ensures IsSymbolByte(e[i]) <==> IsSymbolChar(s[i])
      {
        assert e[i] as int == s[i] as int;
      }
    } else {
      var k :| 0 <= k < |s| && !IsAscii(s[k]);
      EncodeNonAscii(s, k);
      var j :| 0 <= j < |e| && e[j] >= 0x80;
      assert !IsSymbolByte(e[j]);
      assert !IsSymbolChar(s[k]);
    }
  }

  /** An invalid name is reported first, whatever the symbol and the decimals. */
  lemma ValidateReportsNameFirst(msg: InstantiateMsg, symbol: string, decimals: u8)
    requires !HasValidName(msg)
    ensures Validate(msg.(symbol := symbol, decimals := decimals)) == Failure(NameError)
  {
  }

  /** With a valid name, an invalid symbol is reported, whatever the decimals. */
  lemma ValidateReportsSymbolBeforeDecimals(msg: InstantiateMsg, decimals: u8)
    requires HasValidName(msg) && !ValidSymbolBytes(Encode(msg.symbol))
    ensures Validate(msg.(decimals := decimals)) == Failure(SymbolError)
  {
  }

  /** With a valid name and symbol, 18 decimals pass and 19 or more fail. */
  lemma ValidateDecimalsBoundary(msg: InstantiateMsg, d: u8)
    requires HasValidName(msg) && ValidSymbolBytes(Encode(msg.symbol))
    ensures Validate(msg.(decimals := 18)) == Success(())
    ensures d >= 19 ==> Validate(msg.(decimals := d)) == Failure(DecimalsError)
  {
  }

  /** Each failing check has its own message. */
  lemma ValidationErrorsDistinct()
    ensures NameError != SymbolError && SymbolError != DecimalsError && NameError != DecimalsError
  {
  }

  /**
   * The name is measured in bytes: a name of 3 to 12 characters always
   * fits (at most 4 bytes each), a name of more than 50 characters never
   * does, and for ASCII names bytes and characters coincide.
   */
  lemma NameLengthInCharacters(msg: InstantiateMsg)
    ensures 3 <= |msg.name| <= 12 ==> HasValidName(msg)
    ensures |msg.name| > 50 || |msg.name| == 0 ==> !HasValidName(msg)
    ensures (forall i :: 0 <= i < |msg.name| ==> IsAscii(msg.name[i])) ==>
      (HasValidName(msg) <==> 3 <= |msg.name| <= 50)
  {
    if forall i :: 0 <= i < |msg.name| ==> IsAscii(msg.name[i]) {
      EncodeAscii(msg.name);
    }
  }
}
