/** Server-side fingerprint from request headers (lib/fingerprint/server.ts):
    which header supplies the agent, the address and the language, with their
    fallbacks, and what is hashed. `headers()` is a parameter: a map from
    lower-case header name to value, a missing name standing for `null`. */
module ServerFingerprint {
  import opened Base
  import Strings
  import Encoding
  import Hybrid

  type Headers = map<string, string>

  /** `headersList.get(name)` */
  function Get(h: Headers, name: string): Option<string> {
    if name in h then Some(h[name]) else None
  }

  /** A header that is present and not the empty string (JavaScript truthiness). */
  predicate Truthy(v: Option<string>) {
    v.Some? && v.value != ""
  }

  /** `x-forwarded-for?.split(',')[0]?.trim()`: the first listed address, trimmed. */
  function ForwardedFor(h: Headers): Option<string> {
    match Get(h, "x-forwarded-for")
    case None => None
    case Some(v) => Some(Strings.Trim(Strings.BeforeFirst(v, ',')))
  }

  /** The address selection shared by `generateServerFingerprint` and
      `getClientIp`: the trimmed first forwarded address if non-empty, else a
      non-empty `x-real-ip`, else nothing. */
  function SelectIp(h: Headers): Option<string> {
    if Truthy(ForwardedFor(h)) then ForwardedFor(h)
    else if Truthy(Get(h, "x-real-ip")) then Get(h, "x-real-ip")
    else None
  }

  /** The trimmed first element of a comma-separated list is the whole text
      before the first comma with its surrounding white space removed: it holds
      no comma, does not start or end with white space, and occurs in the list. */
  lemma FirstListedSpec(v: string)
    ensures var ip := Strings.Trim(Strings.BeforeFirst(v, ','));
      && (forall p :: Strings.IsFirstPiece(v, ',', p) ==> ip == Strings.Trim(p))
      && (ip != "" ==> && ',' !in ip
                       && !Strings.IsSpace(ip[0]) && !Strings.IsSpace(ip[|ip| - 1])
                       && Strings.Contains(v, ip))
  {
    FirstListedIsFirstPiece(v);
    FirstListedShape(v);
  }

  lemma FirstListedIsFirstPiece(v: string)
    ensures forall p :: Strings.IsFirstPiece(v, ',', p) ==> Strings.Trim(Strings.BeforeFirst(v, ',')) == Strings.Trim(p)
  {
    forall p | Strings.IsFirstPiece(v, ',', p) ensures Strings.Trim(Strings.BeforeFirst(v, ',')) == Strings.Trim(p) {
      Strings.FirstPieceUnique(v, ',', p);
    }
  }

  lemma FirstListedShape(v: string)
    ensures var ip := Strings.Trim(Strings.BeforeFirst(v, ','));
      ip != "" ==> && ',' !in ip
                   && !Strings.IsSpace(ip[0]) && !Strings.IsSpace(ip[|ip| - 1])
                   && Strings.Contains(v, ip)
  {
    var first := Strings.BeforeFirst(v, ',');
    var ip := Strings.Trim(first);
    var k := Strings.TrimOffset(first);
    assert ip == first[k..k + |ip|];
    SliceOfFirst(v, first, k, k + |ip|);
  }

  /** A slice of a comma-free prefix of `v` is comma-free and occurs in `v`. */
  lemma SliceOfFirst(v: string, first: string, lo: nat, hi: nat)
    requires Strings.StartsWith(v, first) && ',' !in first && lo <= hi <= |first|
    ensures ',' !in first[lo..hi] && Strings.Contains(v, first[lo..hi])
  {
    assert first[lo..hi] == v[lo..hi];
    Strings.ContainsAt(v, first[lo..hi], lo);
    forall i | 0 <= i < hi - lo ensures first[lo..hi][i] != ',' {
      assert first[lo..hi][i] == first[lo + i];
    }
  }

  /** What was selected is non-empty; a forwarded address is the whole text
      before the first comma, without surrounding white space, and wins when
      it is non-empty; a real-ip value is used only when the forwarded one is
      empty or absent. */
  lemma SelectIpSpec(h: Headers)
    ensures SelectIp(h).Some? ==> SelectIp(h).value != ""
    ensures Truthy(ForwardedFor(h)) ==> var ip := SelectIp(h).value;
      && (forall p :: Strings.IsFirstPiece(h["x-forwarded-for"], ',', p) ==> ip == Strings.Trim(p))
      && ',' !in ip
      && !Strings.IsSpace(ip[0]) && !Strings.IsSpace(ip[|ip| - 1])
      && Strings.Contains(h["x-forwarded-for"], ip)
    ensures !Truthy(ForwardedFor(h)) ==> SelectIp(h) == (if Truthy(Get(h, "x-real-ip")) then Get(h, "x-real-ip") else None)
  {
    if "x-forwarded-for" in h {
      FirstListedSpec(h["x-forwarded-for"]);
    }
  }

  datatype Components = Components(userAgent: string, ip: string, language: string)

  datatype ServerFingerprintResult = ServerFingerprintResult(hash: string, components: Components)

  /** `get('user-agent') || 'unknown'` */
  function UserAgent(h: Headers): (ua: string)
    ensures ua != ""
    ensures Truthy(Get(h, "user-agent")) ==> ua == h["user-agent"]
    ensures !Truthy(Get(h, "user-agent")) ==> ua == "unknown"
  {
    if Truthy(Get(h, "user-agent")) then h["user-agent"] else "unknown"
  }

  /** `get('accept-language')?.split(',')[0] || 'unknown'`: the untrimmed text
      before the first comma, `unknown` when that is empty or the header is absent. */
  function Language(h: Headers): (lang: string)
    ensures lang != "" && ',' !in lang
    ensures if "accept-language" in h && h["accept-language"] != "" && h["accept-language"][0] != ','
      then Strings.IsFirstPiece(h["accept-language"], ',', lang)
      else lang == "unknown"
  {
    match Get(h, "accept-language")
    case None => "unknown"
    case Some(v) => if Strings.BeforeFirst(v, ',') != "" then Strings.BeforeFirst(v, ',') else "unknown"
  }

  /** The text that is hashed: `${userAgent}|${ip}|${language}`. */
  function Normalized(c: Components): string {
    c.userAgent + "|" + c.ip + "|" + c.language
  }

  /** The three signals: agent, selected address or `unknown`, language. */
  function ComponentsOf(h: Headers): Components {
    Components(UserAgent(h), if SelectIp(h).Some? then SelectIp(h).value else "unknown", Language(h))
  }

  /** `generateServerFingerprint` with SHA-256 as a parameter: the components
      returned are exactly the ones hashed, and the hash passes the storage gate. */
  function GenerateServerFingerprint(sha256: string -> Hybrid.Digest32, h: Headers): (r: ServerFingerprintResult)
    ensures r.components == ComponentsOf(h)
    ensures r.hash == Encoding.Hex(sha256(Normalized(r.components)))
    ensures Hybrid.IsValidFingerprint(r.hash)
  {
    var c := ComponentsOf(h);
    Hybrid.ValidHexFingerprint(sha256(Normalized(c)));
    ServerFingerprintResult(Encoding.Hex(sha256(Normalized(c))), c)
  }

  /** When no component holds a `|`, the hashed text splits back into exactly
      the three components. */
  lemma NormalizedSplits(c: Components)
    requires '|' !in c.userAgent && '|' !in c.ip && '|' !in c.language
    ensures Strings.Split(Normalized(c), '|') == [c.userAgent, c.ip, c.language]
  {
    Strings.SplitNoSep(c.language, '|');
    Strings.SplitCons(c.ip, '|', c.language);
    assert c.ip + "|" + c.language + "" == c.ip + "|" + c.language;
    Strings.SplitCons(c.userAgent, '|', c.ip + "|" + c.language);
    assert Normalized(c) == c.userAgent + "|" + (c.ip + "|" + c.language);
  }

  /** `getClientIp`: the same selection, with `null` where the fingerprint says `unknown`. */
  function GetClientIp(h: Headers): (ip: Option<string>)
    ensures ip.None? <==> !Truthy(ForwardedFor(h)) && !Truthy(Get(h, "x-real-ip"))
    ensures ip.Some? ==> ip.value != "" && ComponentsOf(h).ip == ip.value
    ensures ip.None? ==> ComponentsOf(h).ip == "unknown"
  {
    SelectIpSpec(h);
    SelectIp(h)
  }

  /** `getReferrer`: the `referer` header, `null` when absent or empty. */
  function GetReferrer(h: Headers): (r: Option<string>)
    ensures r.Some? <==> Truthy(Get(h, "referer"))
    ensures r.Some? ==> r.value == h["referer"]
  {
    if Truthy(Get(h, "referer")) then Get(h, "referer") else None
  }
}
