/** Byte-to-text encodings of RFC 4648: lower-case base16 (section 8), the
    rendering of `hashArray.map(b => b.toString(16).padStart(2, '0')).join('')`
    and of Node's `digest('hex')`; and base64 (section 4), the encoding of the
    browser's `btoa`. */
module Encoding {
  import opened Base
  import Strings

  const HexDigits: string := "0123456789abcdef"

  predicate IsLowerHexDigit(c: char) {
    ('0' <= c <= '9') || ('a' <= c <= 'f')
  }

  /** One byte as two zero-padded lower-case hex digits. */
  function HexByte(b: byte): (r: string)
    ensures |r| == 2 && IsLowerHexDigit(r[0]) && IsLowerHexDigit(r[1])
  {
    [HexDigits[b / 16], HexDigits[b % 16]]
  }

  /** Base16 rendering: two characters per byte, most significant nibble first. */
  function Hex(bs: seq<byte>): (r: string)
    ensures |r| == 2 * |bs|
    ensures forall i :: 0 <= i < |r| ==> IsLowerHexDigit(r[i])
  {
    if bs == [] then "" else HexByte(bs[0]) + Hex(bs[1..])
  }

  /** The value of one lower-case hex digit. */
  function HexValue(c: char): (v: nat)
    requires IsLowerHexDigit(c)
    ensures v < 16 && HexDigits[v] == c
  {
    if c <= '9' then c as int - '0' as int else c as int - 'a' as int + 10
  }

  /** Base16 decoding of a string of lower-case hex digits of even length. */
  function UnHex(s: string): (bs: seq<byte>)
    requires |s| % 2 == 0
    requires forall i :: 0 <= i < |s| ==> IsLowerHexDigit(s[i])
    ensures |bs| == |s| / 2
  {
    if s == [] then []
    else [16 * HexValue(s[0]) + HexValue(s[1])] + UnHex(s[2..])
  }

  /** Decoding the rendering gives back the bytes: base16 loses nothing. */
  lemma {:induction false} UnHexHex(bs: seq<byte>)
    ensures UnHex(Hex(bs)) == bs
  {
    if bs != [] {
      UnHexCons(HexByte(bs[0]), Hex(bs[1..]));
      HexByteValue(bs[0]);
      UnHexHex(bs[1..]);
      assert [bs[0]] + bs[1..] == bs;
    }
  }

  /** Decoding reads the first two digits as one byte and goes on with the rest. */
  lemma UnHexCons(pair: string, rest: string)
    requires |pair| == 2 && IsLowerHexDigit(pair[0]) && IsLowerHexDigit(pair[1])
    requires |rest| % 2 == 0 && forall i :: 0 <= i < |rest| ==> IsLowerHexDigit(rest[i])
    ensures UnHex(pair + rest) == [16 * HexValue(pair[0]) + HexValue(pair[1])] + UnHex(rest)
  {
    assert (pair + rest)[2..] == rest;
  }

  /** The two digits of a byte read back as its high and low nibble. */
  lemma HexByteValue(b: byte)
    ensures HexValue(HexByte(b)[0]) == b / 16 && HexValue(HexByte(b)[1]) == b % 16
  {
    HexDigitsDistinct(HexValue(HexByte(b)[0]), b / 16);
    HexDigitsDistinct(HexValue(HexByte(b)[1]), b % 16);
  }

  lemma HexDigitsDistinct(i: nat, j: nat)
    requires i < 16 && j < 16 && HexDigits[i] == HexDigits[j]
    ensures i == j
  {
  }

  predicate IsBase64Char(c: char) {
    ('A' <= c <= 'Z') || ('a' <= c <= 'z') || ('0' <= c <= '9') || c == '+' || c == '/'
  }

  /** The base64 character for a 6-bit group: `A`-`Z`, `a`-`z`, `0`-`9`, `+`, `/`. */
  function Sextet(v: nat): (c: char)
    requires v < 64
    ensures IsBase64Char(c)
  {
    if v < 26 then ('A' as int + v) as char
    else if v < 52 then ('a' as int + v - 26) as char
    else if v < 62 then ('0' as int + v - 52) as char
    else if v == 62 then '+'
    else '/'
  }

  /** Three bytes as four base64 characters (24 bits as four sextets). */
  function Quad(b0: byte, b1: byte, b2: byte): (r: string)
    ensures |r| == 4 && r[0] == Sextet(b0 / 4)
    ensures forall i :: 0 <= i < 4 ==> IsBase64Char(r[i])
  {
    [Sextet(b0 / 4), Sextet(b0 % 4 * 16 + b1 / 16), Sextet(b1 % 16 * 4 + b2 / 64), Sextet(b2 % 64)]
  }

  /** Base64 with `=` padding: each group of three bytes becomes four
      characters; a final group of one or two bytes is padded to four. */
  function Base64Encode(bs: seq<byte>): (r: string)
    ensures |r| == 4 * ((|bs| + 2) / 3)
    ensures bs != [] ==> r[0] == Sextet(bs[0] / 4)
  {
    if |bs| == 0 then ""
    else if |bs| == 1 then Quad(bs[0], 0, 0)[..2] + "=="
    else if |bs| == 2 then Quad(bs[0], bs[1], 0)[..3] + "="
    else
      assert (|bs| + 2) / 3 == (|bs[3..]| + 2) / 3 + 1;
      Quad(bs[0], bs[1], bs[2]) + Base64Encode(bs[3..])
  }

  /** Every character of the encoding is from the base64 alphabet or is padding. */
  lemma {:induction false} Base64Alphabet(bs: seq<byte>)
    ensures forall i :: 0 <= i < |Base64Encode(bs)| ==> IsBase64Char(Base64Encode(bs)[i]) || Base64Encode(bs)[i] == '='
  {
    if |bs| >= 3 {
      Base64Alphabet(bs[3..]);
      var q := Quad(bs[0], bs[1], bs[2]);
      var t := Base64Encode(bs[3..]);
      assert Base64Encode(bs) == q + t;
      forall i | 0 <= i < |q + t| ensures IsBase64Char((q + t)[i]) || (q + t)[i] == '=' {
        if i >= 4 { assert (q + t)[i] == t[i - 4]; }
      }
    }
  }

  lemma {:induction false} RemoveAllAppend(a: string, b: string, c: char)
    ensures Strings.RemoveAll(a + b, c) == Strings.RemoveAll(a, c) + Strings.RemoveAll(b, c)
  {
    if a == [] {
      assert a + b == b;
    } else {
      assert (a + b)[0] == a[0];
      assert (a + b)[1..] == a[1..] + b;
      RemoveAllAppend(a[1..], b, c);
    }
  }

  /** With its `=` padding stripped, base64 of `n` bytes is ceil(4n / 3) characters long. */
  lemma {:induction false} Base64UnpaddedLength(bs: seq<byte>)
    ensures |Strings.RemoveAll(Base64Encode(bs), '=')| == (4 * |bs| + 2) / 3
  {
    var r := Base64Encode(bs);
    if 1 <= |bs| <= 2 {
      var body := r[..|r| - (3 - |bs|)];
      var pad := r[|r| - (3 - |bs|)..];
      assert r == body + pad;
      assert '=' !in body;
      assert Strings.RemoveAll(pad, '=') == [] by {
        if |pad| == 2 { assert pad[1..] == "="; }
      }
      RemoveAllAppend(body, pad, '=');
    } else if |bs| >= 3 {
      var quad := Quad(bs[0], bs[1], bs[2]);
      assert r == quad + Base64Encode(bs[3..]);
      RemoveAllAppend(quad, Base64Encode(bs[3..]), '=');
      assert '=' !in quad;
      Base64UnpaddedLength(bs[3..]);
    }
  }

  /** The code units of a string whose characters all fit in one byte. */
  function Latin1Bytes(s: string): (bs: seq<byte>)
    requires forall i :: 0 <= i < |s| ==> s[i] as int < 256
    ensures |bs| == |s|
    ensures forall i :: 0 <= i < |s| ==> bs[i] == s[i] as int
  {
    seq(|s|, i requires 0 <= i < |s| => s[i] as int)
  }

  /** `btoa(s)`: base64 of the string's Latin-1 bytes; it throws (here `None`)
      when some character is above U+00FF. */
  function Btoa(s: string): (r: Option<string>)
    ensures r.Some? <==> forall i :: 0 <= i < |s| ==> s[i] as int < 256
    ensures r.Some? ==> |r.value| == 4 * ((|s| + 2) / 3)
  {
    if forall i :: 0 <= i < |s| ==> s[i] as int < 256 then Some(Base64Encode(Latin1Bytes(s))) else None
  }
}
