# cw20-base instantiate-message validator

A Dafny model of the metadata check that the cw20-base token contract runs on
its `InstantiateMsg` before a token is created (`contracts/cw20-base/src/msg.rs`).
The message carries the token's name, ticker symbol, number of decimals,
initial balances, optional minter (with an optional supply cap) and optional
marketing data. The check is `validate`, which runs three checks in a fixed order:

1. the name must be 3 to 50 bytes long in UTF-8;
2. the symbol must be 3 to 12 bytes long, each byte `-`, `A`-`Z` or `a`-`z`;
3. `decimals` must be at most 18.

The first check that fails decides the error message. `get_cap` reads the
minting cap out of the optional minter.

Layout:

- `wrappers.dfy` (module `Wrappers`): Rust's `Option` (with `and_then`) and `Result`.
- `utf8.dfy` (module `Utf8`): a UTF-8 encoder standing for Rust's `str::as_bytes`.
  A Rust `String` is a sequence of Unicode scalar values, which is exactly a Dafny
  `string`. The validators measure and scan the bytes of its encoding.
- `cw20_msg.dfy` (module `Cw20Msg`): the message types, the three error values
  and the operations. `HasValidSymbol` is a method with the source's early-exit
  loop, proved against the predicate `ValidSymbolBytes`. `Validate`, `HasValidName`
  and `GetCap` are functions, as in the source.
- `cw20_msg_properties.dfy` (module `Cw20MsgProperties`): the order of the checks,
  the decimals boundary, and the equivalence of the byte-level symbol check with
  the character pattern `[a-zA-Z\-]{3,12}` quoted in the symbol error.
- `cw20_msg_tests.dfy` (module `Cw20MsgTests`): the file's unit tests as lemmas, with their helpers `Repeat` and `EncodeRepeatLength`, plus one extra case showing that the name limit counts bytes, not characters.

The validators take `&self` in the source. Here the message is an immutable
datatype value, and `HasValidSymbol` has no `modifies` clause, so none of them
can change any field of the message.

## Model

| member | source | states |
|---|---|---|
| Cw20Msg.GetCap | contracts/cw20-base/src/msg.rs:28-31 | no minter gives no cap; with a minter, the result is exactly that minter's optional cap |
| Cw20Msg.HasValidName | contracts/cw20-base/src/msg.rs:52-59 | true exactly when the UTF-8 encoding of the name is 3 to 50 bytes long; a valid name therefore has 1 to 50 characters |
| Cw20Msg.HasValidSymbol | contracts/cw20-base/src/msg.rs:61-73 | the length-then-scan loop returns true exactly when the UTF-8 bytes of the symbol number 3 to 12 and each is 45, in 65..90 or in 97..122 |
| Cw20Msg.Validate | contracts/cw20-base/src/msg.rs:33-50 | Ok exactly when the name check, the symbol check and decimals <= 18 all hold; any error is one of the three generic errors |
| Cw20MsgProperties.ValidateReportsNameFirst | contracts/cw20-base/src/msg.rs:36-40 | an invalid name yields the name error, whatever the symbol and the decimals |
| Cw20MsgProperties.ValidateReportsSymbolBeforeDecimals | contracts/cw20-base/src/msg.rs:41-45 | with a valid name, an invalid symbol yields the symbol error, whatever the decimals |
| Cw20MsgProperties.ValidateDecimalsBoundary | contracts/cw20-base/src/msg.rs:46-49 | with a valid name and symbol, 18 decimals give Ok and 19 or more give "Decimals must not exceed 18" |
| Cw20MsgProperties.ValidationErrorsDistinct | contracts/cw20-base/src/msg.rs:37-47 | the three error messages are pairwise different |
| Cw20MsgProperties.SymbolMatchesPattern | contracts/cw20-base/src/msg.rs:41-72 | the byte-level symbol check accepts exactly the strings of 3 to 12 characters from `[a-zA-Z\-]`; any non-ASCII character makes it fail |
| Cw20MsgProperties.NameLengthInCharacters | contracts/cw20-base/src/msg.rs:52-59 | any name of 3 to 12 characters is valid; an empty name or one of more than 50 characters is not; for ASCII names, valid exactly when 3 to 50 characters |
| Utf8.EncodeChar | contracts/cw20-base/src/msg.rs:54 | one character encodes to 1 to 4 bytes; ASCII to the single byte of its code point; any other character only to bytes of 0x80 and above |
| Utf8.DecodeEncodeChar | contracts/cw20-base/src/msg.rs:54 | the code point of a character can be read back from its encoding |
| Utf8.Encode | contracts/cw20-base/src/msg.rs:54 | a string of n characters encodes to between n and 4n bytes |
| Utf8.EncodeAscii | contracts/cw20-base/src/msg.rs:54 | an all-ASCII string encodes to its own code points, byte for byte |
| Utf8.EncodeNonAscii | contracts/cw20-base/src/msg.rs:63 | a string holding a non-ASCII character has a byte of 0x80 or more in its encoding |
| Cw20MsgTests.Repeat | contracts/cw20-base/src/msg.rs:143 | `str::repeat` of one character n times yields n copies of it |
| Cw20MsgTests.EncodeRepeatLength | contracts/cw20-base/src/msg.rs:143 | n copies of a character encode to n times that character's byte count |
| Cw20MsgTests.NameBoundaries | contracts/cw20-base/src/msg.rs:139-155 | names of 2 and 51 bytes are rejected, a name of 3 bytes is accepted |
| Cw20MsgTests.NameCountsBytes | contracts/cw20-base/src/msg.rs:52-58 | one three-byte character is a valid name; thirteen four-byte characters (52 bytes) are not |
| Cw20MsgTests.SymbolBoundaries | contracts/cw20-base/src/msg.rs:158-173 | symbols of 2 and 13 bytes are rejected, a symbol of 3 bytes is accepted |
| Cw20MsgTests.SymbolIllegalChars | contracts/cw20-base/src/msg.rs:175-183 | three copies of `@` (64), `[` (91) or `{` (123) are rejected as symbols |

## Left out

- The staking contract under `contracts/cw4-stake/src` (`state.rs`, `msg.rs`) only declares storage handles and message enums. Its bond, unbond, claim, snapshot and hook behaviour lives in the `cw_controllers` and `cw_storage_plus` crates and in a contract file, none of which are part of this model.
- `QueryMsg`, `MigrateMsg` and the re-exported `ExecuteMsg` of cw20-base are message schemas without behaviour.
- The serde and JsonSchema derives, and JSON encoding in general, are library code.
- `Logo` (from the `cw20` crate) is not a field of `InstantiateMarketingInfo` here. Marketing data, initial balances and the minter address are carried but never inspected by the validator.
- The `tests` module's `InstantiateMsg::default()` is the constant `Cw20MsgTests.DefaultMsg`. The illegal-byte test builds its strings from raw bytes through `from_utf8`; the model writes the same three ASCII characters directly.
