/**
 * The UTF-8 encoding of a string (RFC 3629, section 3), i.e. what Rust's
 * `str::as_bytes` returns.  A Rust `String` holds Unicode scalar values,
 * which is exactly Dafny's `char`; the validators count and inspect the
 * bytes of this encoding, not the characters.
 */
module Utf8 {

  /** Rust's `u8`: one byte. */
  newtype u8 = b: int | 0 <= b < 0x100

  /** A character whose encoding is the single byte equal to its code point. */
  predicate IsAscii(c: char) {
    c as int < 0x80
  }

  /** The 1 to 4 bytes that encode one scalar value. */
  function EncodeChar(c: char): (r: seq<u8>)
    ensures 1 <= |r| <= 4
    ensures IsAscii(c) <==> |r| == 1
    ensures IsAscii(c) ==> r[0] as int == c as int
    ensures !IsAscii(c) ==> forall i :: 0 <= i < |r| ==> r[i] >= 0x80
  {
    var cp := c as int;
    if cp < 0x80 then
      [cp as u8]
    else if cp < 0x800 then
      [(0xC0 + cp / 0x40) as u8, (0x80 + cp % 0x40) as u8]
    else if cp < 0x1_0000 then
      [(0xE0 + cp / 0x1000) as u8, (0x80 + (cp / 0x40) % 0x40) as u8, (0x80 + cp % 0x40) as u8]
    else
      [(0xF0 + cp / 0x4_0000) as u8, (0x80 + (cp / 0x1000) % 0x40) as u8,
       (0x80 + (cp / 0x40) % 0x40) as u8, (0x80 + cp % 0x40) as u8]
  }

  /** Reads back the code point of a well-formed encoding of one character. */
  function DecodeChar(bs: seq<u8>): (cp: int)
    requires 1 <= |bs| <= 4
  {
    var b := bs[0] as int;
    if |bs| == 1 then b
    else if |bs| == 2 then (b - 0xC0) * 0x40 + (bs[1] as int - 0x80)
    else if |bs| == 3 then (b - 0xE0) * 0x1000 + (bs[1] as int - 0x80) * 0x40 + (bs[2] as int - 0x80)
    else (b - 0xF0) * 0x4_0000 + (bs[1] as int - 0x80) * 0x1000 + (bs[2] as int - 0x80) * 0x40 + (bs[3] as int - 0x80)
  }

  /** The encoding of a character loses nothing: its code point can be read back. */
  lemma DecodeEncodeChar(c: char)
    ensures DecodeChar(EncodeChar(c)) == c as int
  {
    var cp := c as int;
    var e := EncodeChar(c);
    if 0x80 <= cp < 0x800 {
      assert e[0] as int - 0xC0 == cp / 0x40 && e[1] as int - 0x80 == cp % 0x40;
    } else if 0x800 <= cp < 0x1_0000 {
      var q := cp / 0x40;
      assert e[0] as int - 0xE0 == q / 0x40 by { assert cp / 0x1000 == q / 0x40; }
      assert e[1] as int - 0x80 == q % 0x40 && e[2] as int - 0x80 == cp % 0x40;
      assert cp == q * 0x40 + cp % 0x40;
      assert q == (q / 0x40) * 0x40 + q % 0x40;
    } else if 0x1_0000 <= cp {
      var q := cp / 0x40;
      var q2 := q / 0x40;
      assert cp / 0x1000 == q2;
      assert cp / 0x4_0000 == q2 / 0x40;
      assert e[0] as int - 0xF0 == q2 / 0x40;
      assert e[1] as int - 0x80 == q2 % 0x40 && e[2] as int - 0x80 == q % 0x40 && e[3] as int - 0x80 == cp % 0x40;
      assert cp == q * 0x40 + cp % 0x40;
      assert q == q2 * 0x40 + q % 0x40;
      assert q2 == (q2 / 0x40) * 0x40 + q2 % 0x40;
    }
  }

  /** The encoding of a whole string: the encodings of its characters, in order. */
  function Encode(s: string): (r: seq<u8>)
    ensures |s| <= |r| <= 4 * |s|
  {
    if s == [] then [] else EncodeChar(s[0]) + Encode(s[1..])
  }

  /** An all-ASCII string is encoded byte for byte as its own code points. */
  lemma {:induction false} EncodeAscii(s: string)
    requires forall i :: 0 <= i < |s| ==> IsAscii(s[i])
    ensures |Encode(s)| == |s|
    ensures forall i :: 0 <= i < |s| ==> Encode(s)[i] as int == s[i] as int
  {
    if s != [] {
      EncodeAscii(s[1..]);
      assert Encode(s) == EncodeChar(s[0]) + Encode(s[1..]);
    }
  }

  /** A string holding a non-ASCII character has a byte of 0x80 or more in its encoding. */
  lemma {:induction false} EncodeNonAscii(s: string, k: nat)
    requires k < |s| && !IsAscii(s[k])
    ensures exists j :: 0 <= j < |Encode(s)| && Encode(s)[j] >= 0x80
  {
    var e := Encode(s);
    assert e == EncodeChar(s[0]) + Encode(s[1..]);
    if k == 0 {
      assert e[0] == EncodeChar(s[0])[0];
    } else {
      EncodeNonAscii(s[1..], k - 1);
      var j :| 0 <= j < |Encode(s[1..])| && Encode(s[1..])[j] >= 0x80;
      assert e[|EncodeChar(s[0])| + j] == Encode(s[1..])[j];
    }
  }
}
