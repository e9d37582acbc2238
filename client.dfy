/** Browser-side fingerprinting (lib/fingerprint/client.ts): the client hash
    with its fallback, and the browser's own combination of the server and
    client hashes with SubtleCrypto, falling back to base64.

    Thumbmark.js, `crypto.subtle.digest` and the `navigator`/`screen`/`Date`
    probes are foreign calls: their outcomes are parameters (`None` where the
    call throws or, for `window`, where there is no browser). */
module ClientFingerprint {
  import opened Base
  import Strings
  import Encoding
  import Hybrid
  import Patterns

  /** What the fallback reads from the browser. */
  datatype BrowserEnv = BrowserEnv(
    userAgent: string,
    language: string,
    screenWidth: int,
    screenHeight: int,
    colorDepth: int,
    timezoneOffset: int,      // `new Date().getTimezoneOffset()`, in minutes
    hardwareConcurrency: nat, // 0 when the browser does not report it
    maxTouchPoints: nat)      // 0 when the browser does not report it

  const ServerSideRender: string := "server-side-render"

  /** The eight fallback components joined with `|`; a missing core count is `unknown`. */
  function FallbackComponents(env: BrowserEnv): string {
    Strings.Join(
      [env.userAgent, env.language,
       Strings.IntToString(env.screenWidth), Strings.IntToString(env.screenHeight),
       Strings.IntToString(env.colorDepth), Strings.IntToString(env.timezoneOffset),
       if env.hardwareConcurrency == 0 then "unknown" else Strings.NatToString(env.hardwareConcurrency),
       Strings.NatToString(env.maxTouchPoints)],
      '|')
  }

  /** `b64.replace(/=/g, '').substring(0, n)` */
  function StripAndCut(b64: string, n: nat): string {
    Strings.Take(Strings.RemoveAll(b64, '='), n)
  }

  /** What `StripAndCut` gives for a base64 string: padding gone, alphabet
      characters only, at most `n` of them, and exactly `n` once the unpadded
      encoding is that long. */
  lemma StripAndCutShape(bs: seq<byte>, n: nat)
    ensures var r := StripAndCut(Encoding.Base64Encode(bs), n);
      && |r| == (if (4 * |bs| + 2) / 3 < n then (4 * |bs| + 2) / 3 else n)
      && forall i :: 0 <= i < |r| ==> Encoding.IsBase64Char(r[i])
  {
    var e := Encoding.Base64Encode(bs);
    Encoding.Base64Alphabet(bs);
    Encoding.Base64UnpaddedLength(bs);
    var u := Strings.RemoveAll(e, '=');
    var r := Strings.Take(u, n);
    forall i | 0 <= i < |r| ensures Encoding.IsBase64Char(r[i]) {
      assert r[i] == u[i] && u[i] in u;
    }
  }

  /** `generateFallbackFingerprint`; `None` where `btoa` throws. */
  function GenerateFallbackFingerprint(window: Option<BrowserEnv>): (r: Option<string>)
    ensures window.None? ==> r == Some(ServerSideRender)
    ensures window.Some? ==> (r.Some? <==> Encoding.Btoa(FallbackComponents(window.value)).Some?)
  {
    match window
    case None => Some(ServerSideRender)
    case Some(env) =>
      match Encoding.Btoa(FallbackComponents(env))
      case None => None
      case Some(b64) => Some(StripAndCut(b64, 32))
  }

  /** In a browser the fallback is at most 32 base64 characters with no padding. */
  lemma FallbackFingerprintShape(env: BrowserEnv)
    requires GenerateFallbackFingerprint(Some(env)).Some?
    ensures var r := GenerateFallbackFingerprint(Some(env)).value;
      |r| <= 32 && forall i :: 0 <= i < |r| ==> Encoding.IsBase64Char(r[i])
  {
    var c := FallbackComponents(env);
    StripAndCutShape(Encoding.Latin1Bytes(c), 32);
  }

  /** `generateClientFingerprint`: the Thumbmark.js hash, or the fallback when it throws. */
  function GenerateClientFingerprint(thumbmark: Option<string>, window: Option<BrowserEnv>): (r: Option<string>)
    ensures thumbmark.Some? ==> r == thumbmark
    ensures thumbmark.None? ==> r == GenerateFallbackFingerprint(window)
  {
    if thumbmark.Some? then thumbmark else GenerateFallbackFingerprint(window)
  }

  /** `combineClientFingerprints` as written: the SubtleCrypto digest of the
      same preimage as the server uses, rendered as hex; when the digest
      throws, base64 of the preimage with `=` removed, cut to 64 characters.
      `None` is the rejected promise (a `btoa` failure inside the fallback). */
  function CombineClientFingerprints(subtleDigest: string -> Option<Hybrid.Digest32>,
                                     serverHash: string, clientHash: string): Option<string>
  {
    var pre := Hybrid.Preimage(serverHash, clientHash);
    match subtleDigest(pre)
    case Some(d) => Some(Encoding.Hex(d))
    case None =>
      match Encoding.Btoa(pre)
      case None => None
      case Some(b64) => Some(StripAndCut(b64, 64))
  }

  /** When the digest succeeds, the 32 bytes become 64 lower-case hex digits
      that pass the storage gate. */
  lemma PrimaryCombineValid(subtleDigest: string -> Option<Hybrid.Digest32>, serverHash: string, clientHash: string)
    requires subtleDigest(Hybrid.Preimage(serverHash, clientHash)).Some?
    ensures var r := CombineClientFingerprints(subtleDigest, serverHash, clientHash);
      r.Some? && |r.value| == 64 && Hybrid.IsValidFingerprint(r.value)
  {
    Hybrid.ValidHexFingerprint(subtleDigest(Hybrid.Preimage(serverHash, clientHash)).value);
  }

  /** Both combiners hash the same preimage, so when the browser's digest is
      SHA-256 they produce the same fingerprint. */
  lemma CombinersAgree(subtleDigest: string -> Option<Hybrid.Digest32>, sha256: string -> Hybrid.Digest32,
                       serverHash: string, clientHash: string)
    requires subtleDigest(Hybrid.Preimage(serverHash, clientHash)) == Some(sha256(Hybrid.Preimage(serverHash, clientHash)))
    ensures CombineClientFingerprints(subtleDigest, serverHash, clientHash)
         == Some(Hybrid.CombineFingerprints(sha256, serverHash, clientHash))
  {
  }

  /** The base64 fallback: at most 64 characters of the base64 alphabet (so
      possibly upper case, `+` or `/`), exactly 64 once the preimage has 48
      characters or more. */
  lemma FallbackCombineShape(subtleDigest: string -> Option<Hybrid.Digest32>, serverHash: string, clientHash: string)
    requires subtleDigest(Hybrid.Preimage(serverHash, clientHash)).None?
    requires CombineClientFingerprints(subtleDigest, serverHash, clientHash).Some?
    ensures var r := CombineClientFingerprints(subtleDigest, serverHash, clientHash).value;
      && |r| <= 64
      && (|Hybrid.Preimage(serverHash, clientHash)| >= 48 ==> |r| == 64)
      && forall i :: 0 <= i < |r| ==> Encoding.IsBase64Char(r[i])
  {
    var pre := Hybrid.Preimage(serverHash, clientHash);
    StripAndCutShape(Encoding.Latin1Bytes(pre), 64);
  }

  /** The base64 fallback as written can never pass the storage gate: a
      preimage starting with a hex digit (every server hash does) encodes to
      a first character among `M N O Q R Y Z`, none of which is hex. */
  lemma FallbackCombineRejected(subtleDigest: string -> Option<Hybrid.Digest32>, serverHash: string, clientHash: string)
    requires subtleDigest(Hybrid.Preimage(serverHash, clientHash)).None?
    requires serverHash != [] && Patterns.IsHexDigitAnyCase(serverHash[0])
    ensures var r := CombineClientFingerprints(subtleDigest, serverHash, clientHash);
      r.None? || !Hybrid.IsValidFingerprint(r.value)
  {
    var pre := Hybrid.Preimage(serverHash, clientHash);
    var r := CombineClientFingerprints(subtleDigest, serverHash, clientHash);
    if r.Some? {
      var bs := Encoding.Latin1Bytes(pre);
      var e := Encoding.Base64Encode(bs);
      assert pre[0] == serverHash[0];
      var first := Encoding.Sextet(bs[0] / 4);
      assert e[0] == first;
      assert !Patterns.IsHexDigitAnyCase(first) && first != '=';
      assert e == [e[0]] + e[1..];
      Encoding.RemoveAllAppend([e[0]], e[1..], '=');
      assert r.value[0] == first;
      Hybrid.ValidFingerprintIff(r.value);
    }
  }

  /** A non-cryptographic 32-byte digest of every character of `s`: byte `j`
      is the sum, modulo 256, of the code points at positions `j`, `j + 32`, ... */
  function Fold32(s: string): Hybrid.Digest32
    decreases |s|
  {
    if s == [] then seq(32, i => 0)
    else
      var d := Fold32(s[..|s| - 1]);
      var j := (|s| - 1) % 32;
      d[j := (d[j] + s[|s| - 1] as int) % 256]
  }

  /** The combiner with its fallback repaired: when the digest throws, the
      whole preimage is folded into 32 bytes and rendered as hex, so the
      result always passes the storage gate and never throws. */
  function CombineClientFingerprintsFixed(subtleDigest: string -> Option<Hybrid.Digest32>,
                                          serverHash: string, clientHash: string): (r: string)
    ensures Hybrid.IsValidFingerprint(r)
    ensures subtleDigest(Hybrid.Preimage(serverHash, clientHash)).Some? ==>
      Some(r) == CombineClientFingerprints(subtleDigest, serverHash, clientHash)
  {
    var pre := Hybrid.Preimage(serverHash, clientHash);
    var d := match subtleDigest(pre) case Some(d) => d case None => Fold32(pre);
    Hybrid.ValidHexFingerprint(d);
    Encoding.Hex(d)
  }
}
