/** `encodeURIComponent` and `decodeURIComponent` (the Encode and Decode
    abstract operations of ECMA-262, with no reserved characters kept):
    percent-encoding of UTF-8 octets as in section 2.1 of RFC 3986.

    Dafny's `char` is a Unicode scalar value, so a string here is always
    well-formed; the lone-surrogate `URIError` of `encodeURIComponent` has no
    counterpart. */
module UriComponent {
  import opened Base

  /** Characters `encodeURIComponent` leaves as they are: ASCII letters and
      digits and `- _ . ! ~ * ' ( )`. */
  predicate IsUnreserved(c: char) {
    ('a' <= c <= 'z') || ('A' <= c <= 'Z') || ('0' <= c <= '9')
    || c == '-' || c == '_' || c == '.' || c == '!' || c == '~' || c == '*' || c == '\'' || c == '(' || c == ')'
  }

  predicate IsContinuation(b: byte) {
    0x80 <= b < 0xC0
  }

  /** UTF-8 encoding of one scalar value (one to four octets). */
  function Utf8Encode(c: char): (bs: seq<byte>)
    ensures 1 <= |bs| <= 4
    ensures |bs| == 1 <==> c as int < 0x80
    ensures forall i :: 1 <= i < |bs| ==> IsContinuation(bs[i])
  {
    var cp := c as int;
    if cp < 0x80 then [cp]
    else if cp < 0x800 then [0xC0 + cp / 64, 0x80 + cp % 64]
    else if cp < 0x10000 then [0xE0 + cp / 4096, 0x80 + cp / 64 % 64, 0x80 + cp % 64]
    else [0xF0 + cp / 262144, 0x80 + cp / 4096 % 64, 0x80 + cp / 64 % 64, 0x80 + cp % 64]
  }

  /** How many octets a sequence starting with `b` has, by its leading one
      bits; 0 for a continuation octet or a lead with more than four ones. */
  function SequenceLength(b: byte): nat {
    if b < 0x80 then 1
    else if b < 0xC0 then 0
    else if b < 0xE0 then 2
    else if b < 0xF0 then 3
    else if b < 0xF8 then 4
    else 0
  }

  /** The scalar value a complete octet sequence encodes, or `None` when it
      is not a valid UTF-8 encoding (overlong, a surrogate, beyond U+10FFFF,
      or with a bad continuation octet). */
  function Utf8Decode(bs: seq<byte>): Option<char>
    requires 1 <= |bs| <= 4
  {
    if |bs| == 1 then
      if bs[0] < 0x80 then Some(bs[0] as char) else None
    else if exists i :: 1 <= i < |bs| && !IsContinuation(bs[i]) then None
    else if |bs| == 2 then
      var cp := (bs[0] as int - 0xC0) * 64 + (bs[1] as int - 0x80);
      if 0xC0 <= bs[0] < 0xE0 && 0x80 <= cp then Some(cp as char) else None
    else if |bs| == 3 then
      var cp := (bs[0] as int - 0xE0) * 4096 + (bs[1] as int - 0x80) * 64 + (bs[2] as int - 0x80);
      if 0xE0 <= bs[0] < 0xF0 && 0x800 <= cp && !(0xD800 <= cp < 0xE000) then Some(cp as char) else None
    else
      var cp := (bs[0] as int - 0xF0) * 262144 + (bs[1] as int - 0x80) * 4096 + (bs[2] as int - 0x80) * 64 + (bs[3] as int - 0x80);
      if 0xF0 <= bs[0] < 0xF8 && 0x10000 <= cp < 0x110000 then Some(cp as char) else None
  }

  /** Decoding the encoding of a scalar value gives it back, and the lead
      octet announces the length. */
  lemma Utf8RoundTrip(c: char)
    ensures SequenceLength(Utf8Encode(c)[0]) == |Utf8Encode(c)|
    ensures Utf8Decode(Utf8Encode(c)) == Some(c)
  {
    var cp := c as int;
    if cp >= 0x10000 {
      var q := cp / 4096;
      assert cp == q * 4096 + cp % 4096;
      assert q == cp / 262144 * 64 + q % 64;
      assert cp % 4096 == cp / 64 % 64 * 64 + cp % 64;
    } else if cp >= 0x800 {
      assert cp / 64 == cp / 4096 * 64 + cp / 64 % 64;
    }
  }

  predicate IsHexDigit(c: char) {
    ('0' <= c <= '9') || ('a' <= c <= 'f') || ('A' <= c <= 'F')
  }

  /** The value of a hex digit of either case. */
  function HexDigitValue(c: char): (v: nat)
    requires IsHexDigit(c)
    ensures v < 16
  {
    if c <= '9' then c as int - '0' as int
    else if c <= 'F' then c as int - 'A' as int + 10
    else c as int - 'a' as int + 10
  }

  /** The upper-case hex digit of a nibble; reading it back gives the nibble. */
  function UpperHexDigit(v: nat): (c: char)
    requires v < 16
    ensures IsHexDigit(c) && HexDigitValue(c) == v
    ensures ('0' <= c <= '9') || ('A' <= c <= 'F')
  {
    if v < 10 then ('0' as int + v) as char else ('A' as int + v - 10) as char
  }

  /** `%XY` with upper-case hex digits, as `encodeURIComponent` writes them. */
  function PercentOctet(b: byte): (r: string)
    ensures |r| == 3 && r[0] == '%' && IsHexDigit(r[1]) && IsHexDigit(r[2])
    ensures 16 * HexDigitValue(r[1]) + HexDigitValue(r[2]) == b
    ensures ('0' <= r[1] <= '9' || 'A' <= r[1] <= 'F') && ('0' <= r[2] <= '9' || 'A' <= r[2] <= 'F')
  {
    [ '%', UpperHexDigit(b / 16), UpperHexDigit(b % 16) ]
  }

  function PercentOctets(bs: seq<byte>): (r: string)
    ensures |r| == 3 * |bs|
  {
    if bs == [] then "" else PercentOctet(bs[0]) + PercentOctets(bs[1..])
  }

  /** One character of the output of `encodeURIComponent`. */
  function EncodeChar(c: char): (r: string)
    ensures r != []
  {
    if IsUnreserved(c) then [c] else PercentOctets(Utf8Encode(c))
  }

  /** `encodeURIComponent(s)` */
  function Encode(s: string): string {
    if s == [] then "" else EncodeChar(s[0]) + Encode(s[1..])
  }

  /** The octet written as `%XY` at the start of `s`, if there is one. */
  function OctetAt(s: string): Option<byte> {
    if |s| >= 3 && s[0] == '%' && IsHexDigit(s[1]) && IsHexDigit(s[2])
    then Some(16 * HexDigitValue(s[1]) + HexDigitValue(s[2]))
    else None
  }

  /** The octets of a run of `%XY` triplets. */
  function Octets(s: string): (r: Option<seq<byte>>)
    requires |s| % 3 == 0
    ensures r.Some? ==> 3 * |r.value| == |s|
  {
    if s == [] then Some([])
    else match (OctetAt(s), Octets(s[3..]))
      case (Some(b), Some(rest)) => Some([b] + rest)
      case _ => None
  }

  function Prepend(c: char, r: Option<string>): Option<string> {
    match r
    case None => None
    case Some(t) => Some([c] + t)
  }

  /** `decodeURIComponent(s)`; `None` where it throws `URIError` (a `%` not
      followed by two hex digits, a truncated or invalid UTF-8 sequence). */
  function Decode(s: string): Option<string>
    decreases |s|
  {
    if s == [] then Some("")
    else if s[0] != '%' then Prepend(s[0], Decode(s[1..]))
    else match OctetAt(s)
      case None => None
      case Some(b0) =>
        var n := SequenceLength(b0);
        if n == 0 || |s| < 3 * n then None
        else match Octets(s[..3 * n])
          case None => None
          case Some(bs) =>
            match Utf8Decode(bs)
            case None => None
            case Some(c) => Prepend(c, Decode(s[3 * n..]))
  }

  lemma {:induction false} OctetsOfPercent(bs: seq<byte>)
    ensures Octets(PercentOctets(bs)) == Some(bs)
  {
    if bs != [] {
      var p := PercentOctets(bs);
      assert p[3..] == PercentOctets(bs[1..]);
      assert p[..3] == PercentOctet(bs[0]);
      assert OctetAt(p) == Some(bs[0]);
      OctetsOfPercent(bs[1..]);
      assert [bs[0]] + bs[1..] == bs;
    }
  }

  /** Decoding an encoded character followed by anything decodes the character first. */
  lemma DecodeEncodedChar(c: char, rest: string)
    ensures Decode(EncodeChar(c) + rest) == Prepend(c, Decode(rest))
  {
    var s := EncodeChar(c) + rest;
    if IsUnreserved(c) {
      assert s[1..] == rest;
    } else {
      var bs := Utf8Encode(c);
      var p := PercentOctets(bs);
      Utf8RoundTrip(c);
      OctetsOfPercent(bs);
      assert s[..3 * |bs|] == p;
      assert s[3 * |bs|..] == rest;
      assert OctetAt(s) == Some(bs[0]);
    }
  }

  /** `decodeURIComponent(encodeURIComponent(s)) == s` for every string. */
  lemma {:induction false} DecodeEncode(s: string)
    ensures Decode(Encode(s)) == Some(s)
  {
    if s != [] {
      DecodeEncodedChar(s[0], Encode(s[1..]));
      DecodeEncode(s[1..]);
      assert [s[0]] + s[1..] == s;
    }
  }

  /** Every character `encodeURIComponent` writes is unreserved, a `%` or an
      upper-case hex digit: the output is plain ASCII safe in a query string. */
  lemma {:induction false} EncodeAlphabet(s: string)
    ensures forall i :: 0 <= i < |Encode(s)| ==>
      IsUnreserved(Encode(s)[i]) || Encode(s)[i] == '%' || ('A' <= Encode(s)[i] <= 'F')
  {
    if s != [] {
      EncodeAlphabet(s[1..]);
      var e := EncodeChar(s[0]);
      var t := Encode(s[1..]);
      if !IsUnreserved(s[0]) {
        PercentAlphabet(Utf8Encode(s[0]));
      }
      forall i | 0 <= i < |e + t|
        ensures IsUnreserved((e + t)[i]) || (e + t)[i] == '%' || ('A' <= (e + t)[i] <= 'F')
      {
        if i >= |e| { assert (e + t)[i] == t[i - |e|]; }
      }
    }
  }

  lemma {:induction false} PercentAlphabet(bs: seq<byte>)
    ensures forall i :: 0 <= i < |PercentOctets(bs)| ==>
      IsUnreserved(PercentOctets(bs)[i]) || PercentOctets(bs)[i] == '%' || ('A' <= PercentOctets(bs)[i] <= 'F')
  {
    if bs != [] {
      PercentAlphabet(bs[1..]);
      var e := PercentOctet(bs[0]);
      var t := PercentOctets(bs[1..]);
      forall i | 0 <= i < |e + t|
        ensures IsUnreserved((e + t)[i]) || (e + t)[i] == '%' || ('A' <= (e + t)[i] <= 'F')
      {
        if i >= 3 { assert (e + t)[i] == t[i - 3]; }
      }
    }
  }
}
