/**
 * The unit tests of the cw20-base instantiate message, as lemmas: the
 * boundary lengths of name and symbol and the bytes just outside the
 * allowed letter ranges.
 */
module Cw20MsgTests {
  import opened Wrappers
  import opened Utf8
  import opened Cw20Msg
  import opened Cw20MsgProperties

  /** Rust's `str::repeat` for a one-character string. */
  function Repeat(c: char, n: nat): (r: string)
    ensures |r| == n
    ensures forall i :: 0 <= i < n ==> r[i] == c
  {
    if n == 0 then [] else [c] + Repeat(c, n - 1)
  }

  /** The message `InstantiateMsg::default()` builds in the tests. */
  const DefaultMsg := InstantiateMsg("", "", 0, [], None, None)

  /** Repeating one character repeats its encoding. */
  lemma {:induction false} EncodeRepeatLength(c: char, n: nat)
    ensures |Encode(Repeat(c, n))| == n * |EncodeChar(c)|
  {
    if n > 0 {
      var s := Repeat(c, n);
      assert s[1..] == Repeat(c, n - 1);
      EncodeRepeatLength(c, n - 1);
      assert |Encode(s)| == |EncodeChar(c)| + (n - 1) * |EncodeChar(c)|;
    }
  }

  /** Names of 2 and 51 bytes are rejected, 3 bytes accepted. */
  lemma NameBoundaries()
    ensures !HasValidName(DefaultMsg.(name := Repeat('a', 2)))
    ensures HasValidName(DefaultMsg.(name := Repeat('a', 3)))
    ensures !HasValidName(DefaultMsg.(name := Repeat('a', 51)))
  {
    EncodeRepeatLength('a', 2);
    EncodeRepeatLength('a', 3);
    EncodeRepeatLength('a', 51);
  }

  /**
   * The name limit counts bytes, not characters: one three-byte character
   * is a valid name, thirteen four-byte characters (52 bytes) are not.
   */
  lemma NameCountsBytes()
    ensures HasValidName(DefaultMsg.(name := Repeat('€', 1)))
    ensures !HasValidName(DefaultMsg.(name := Repeat('\U{1F600}', 13)))
  {
    EncodeRepeatLength('€', 1);
    EncodeRepeatLength('\U{1F600}', 13);
  }

  /** Symbols of 2 and 13 bytes are rejected, 3 bytes accepted. */
  lemma SymbolBoundaries()
    ensures !ValidSymbolBytes(Encode(Repeat('a', 2)))
    ensures ValidSymbolBytes(Encode(Repeat('a', 3)))
    ensures !ValidSymbolBytes(Encode(Repeat('a', 13)))
  {
    SymbolMatchesPattern(Repeat('a', 2));
    SymbolMatchesPattern(Repeat('a', 3));
    SymbolMatchesPattern(Repeat('a', 13));
  }

  /** `@` (64), `[` (91) and `{` (123), each repeated three times, are rejected. */
  lemma SymbolIllegalChars()
    ensures !ValidSymbolBytes(Encode(Repeat('@', 3)))
    ensures !ValidSymbolBytes(Encode(Repeat('[', 3)))
    ensures !ValidSymbolBytes(Encode(Repeat('{', 3)))
  {
    SymbolMatchesPattern(Repeat('@', 3));
    SymbolMatchesPattern(Repeat('[', 3));
    SymbolMatchesPattern(Repeat('{', 3));
  }
}
