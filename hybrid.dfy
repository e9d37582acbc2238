/** Server-side combination of the server and client hashes into the final
    device fingerprint (lib/fingerprint/hybrid.ts), and the 64-hex-character
    shape check that guards the click store.

    SHA-256 (FIPS 180-4) is not modelled: it is a parameter `sha256` from the
    UTF-8 text it is fed to its 32-byte digest, and only the string assembly
    around it and the hex rendering of its output are verified. */
module Hybrid {
  import opened Base
  import Encoding
  import Patterns

  /** A SHA-256 digest. */
  type Digest32 = s: seq<byte> | |s| == 32 witness seq(32, i => 0)

  /** `/^[a-f0-9]{64}$/i.test(s)` */
  predicate IsValidFingerprint(s: string) {
    Patterns.RepeatMatch(Patterns.IsHexDigitAnyCase, s, 64, 64)
  }

  /** The regular expression accepts exactly the 64-character strings of
      hex digits in either case. */
  lemma ValidFingerprintIff(s: string)
    ensures IsValidFingerprint(s) <==> |s| == 64 && forall i :: 0 <= i < |s| ==> Patterns.IsHexDigitAnyCase(s[i])
  {
    Patterns.RepeatMatchSpec(Patterns.IsHexDigitAnyCase, s, 64, 64);
  }

  /** Typical rejections: the empty string, a character short or over, a
      character outside the hex class; and the upper-case form is accepted. */
  lemma ValidFingerprintExamples(s: string)
    requires |s| == 63
    requires forall i :: 0 <= i < |s| ==> Patterns.IsHexDigitAnyCase(s[i])
    ensures !IsValidFingerprint("")
    ensures !IsValidFingerprint(s) && !IsValidFingerprint(s + "ab")
    ensures IsValidFingerprint(s + "F")
    ensures !IsValidFingerprint(s + "g") && !IsValidFingerprint(s + ":")
  {
    ValidFingerprintIff("");
    ValidFingerprintIff(s);
    ValidFingerprintIff(s + "F");
    ValidFingerprintIff(s + "g");
    ValidFingerprintIff(s + ":");
    ValidFingerprintIff(s + "ab");
    assert (s + "g")[63] == 'g' && (s + ":")[63] == ':';
  }

  /** The text that is hashed: `${serverHash}:${clientHash}`. */
  function Preimage(serverHash: string, clientHash: string): string {
    serverHash + ":" + clientHash
  }

  /** The server hash, then the colon, then the client hash. */
  lemma PreimageLayout(a: string, b: string)
    ensures |Preimage(a, b)| == |a| + 1 + |b|
    ensures Preimage(a, b)[|a|] == ':'
    ensures forall i :: 0 <= i < |a| ==> Preimage(a, b)[i] == a[i]
  {
  }

  /** When the server hash holds no `:` (a hex digest never does), the
      preimage determines the ordered pair: the first `:` separates them. */
  lemma PreimageInjective(a: string, b: string, c: string, d: string)
    requires ':' !in a && ':' !in c
    ensures Preimage(a, b) == Preimage(c, d) <==> a == c && b == d
  {
    PreimageLayout(a, b);
    PreimageLayout(c, d);
    if Preimage(a, b) == Preimage(c, d) {
      var p := Preimage(a, b);
      if |a| < |c| {
        assert false;
      } else if |c| < |a| {
        assert false;
      }
      assert a == p[..|a|] == c;
      assert b == p[|a| + 1..] == d;
    }
  }

  /** Swapping two distinct colon-free hashes changes what is hashed. */
  lemma SwappedPreimageDiffers(a: string, b: string)
    requires ':' !in a && ':' !in b && a != b
    ensures Preimage(a, b) != Preimage(b, a)
  {
    PreimageInjective(a, b, b, a);
  }

  /** `combineFingerprints`: SHA-256 of the preimage rendered as lower-case
      hex; every result passes the storage gate. */
  function CombineFingerprints(sha256: string -> Digest32, serverHash: string, clientHash: string): (fp: string)
    ensures IsValidFingerprint(fp)
  {
    var fp := Encoding.Hex(sha256(Preimage(serverHash, clientHash)));
    ValidHexFingerprint(sha256(Preimage(serverHash, clientHash)));
    fp
  }

  /** 32 bytes in base16 are 64 lower-case hex digits, which the gate accepts. */
  lemma ValidHexFingerprint(d: Digest32)
    ensures IsValidFingerprint(Encoding.Hex(d))
  {
    ValidFingerprintIff(Encoding.Hex(d));
  }

  /** Order sensitivity: swapping two distinct colon-free hashes changes the
      text that is hashed, and the fingerprint changes exactly when the digest
      tells those two texts apart. */
  lemma CombineOrderSensitive(sha256: string -> Digest32, a: string, b: string)
    requires ':' !in a && ':' !in b && a != b
    ensures Preimage(a, b) != Preimage(b, a)
    ensures CombineFingerprints(sha256, a, b) != CombineFingerprints(sha256, b, a)
        <==> sha256(Preimage(a, b)) != sha256(Preimage(b, a))
  {
    SwappedPreimageDiffers(a, b);
    Encoding.UnHexHex(sha256(Preimage(a, b)));
    Encoding.UnHexHex(sha256(Preimage(b, a)));
  }
}
