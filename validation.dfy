/** Input validation (lib/utils/validation.ts): the campaign-id pattern and
    its sanitizer, the open-redirect guard on target URLs, and the
    percent-encoding wrappers.

    `new URL(url)` is not modelled: its outcome is the parameter of
    `IsValidTargetUrl`, `None` where the constructor throws, otherwise the
    `protocol` and `hostname` it reports. */
module Validation {
  import opened Base
  import Strings
  import Patterns
  import UriComponent

  // ---------------------------------------------------------------------
  // Campaign ids

  /** `/^[a-zA-Z0-9-_]{1,100}$/.test(id)` */
  predicate IsValidCampaignId(id: string) {
    Patterns.RepeatMatch(Patterns.IsCampaignChar, id, 1, 100)
  }

  /** A valid id is 1 to 100 letters, digits, dashes and underscores, and nothing else is. */
  lemma CampaignIdIff(id: string)
    ensures IsValidCampaignId(id) <==>
      1 <= |id| <= 100 && forall i :: 0 <= i < |id| ==> Patterns.IsCampaignChar(id[i])
  {
    Patterns.RepeatMatchSpec(Patterns.IsCampaignChar, id, 1, 100);
  }

  /** `id.replace(/[^a-zA-Z0-9-_]/g, '')`: every character outside the class removed. */
  function SanitizeCampaignId(id: string): (r: string)
    ensures |r| <= |id|
    ensures forall i :: 0 <= i < |r| ==> Patterns.IsCampaignChar(r[i])
    ensures (forall i :: 0 <= i < |id| ==> Patterns.IsCampaignChar(id[i])) ==> r == id
  {
    if id == [] then []
    else
      var rest := SanitizeCampaignId(id[1..]);
      if Patterns.IsCampaignChar(id[0]) then [id[0]] + rest else rest
  }

  /** `sub` is `s` with some characters deleted, the rest in their order. */
  predicate IsSubsequence(sub: string, s: string)
    decreases |s|
  {
    if sub == [] then true
    else if s == [] then false
    else if sub[0] == s[0] then IsSubsequence(sub[1..], s[1..])
    else IsSubsequence(sub, s[1..])
  }

  /** The sanitized id keeps the order of the original and every allowed
      character of it, each as often as it occurred: only the disallowed
      characters are gone. */
  lemma {:induction false} SanitizeKeepsAllowed(id: string)
    ensures IsSubsequence(SanitizeCampaignId(id), id)
    ensures forall c :: Patterns.IsCampaignChar(c) ==>
      multiset(SanitizeCampaignId(id))[c] == multiset(id)[c]
  {
    if id != [] {
      SanitizeKeepsAllowed(id[1..]);
      assert id == [id[0]] + id[1..];
      assert multiset(id) == multiset([id[0]]) + multiset(id[1..]);
      var rest := SanitizeCampaignId(id[1..]);
      if Patterns.IsCampaignChar(id[0]) {
        assert ([id[0]] + rest)[1..] == rest;
        assert multiset([id[0]] + rest) == multiset([id[0]]) + multiset(rest);
      } else if rest != [] {
        assert rest[0] != id[0];
      }
    }
  }

  /** Sanitizing twice is sanitizing once. */
  lemma SanitizeIdempotent(id: string)
    ensures SanitizeCampaignId(SanitizeCampaignId(id)) == SanitizeCampaignId(id)
  {
  }

  /** A sanitized id passes the pattern exactly when 1 to 100 characters remain. */
  lemma SanitizedValidIff(id: string)
    ensures IsValidCampaignId(SanitizeCampaignId(id)) <==> 1 <= |SanitizeCampaignId(id)| <= 100
  {
    CampaignIdIff(SanitizeCampaignId(id));
  }

  // ---------------------------------------------------------------------
  // Target URLs

  /** What `new URL(url)` reports that the guard looks at. */
  datatype ParsedUrl = ParsedUrl(protocol: string, hostname: string)

  /** Host names the guard compares in full. */
  predicate IsListedName(host: string) {
    host == "localhost" || host == "127.0.0.1" || host == "0.0.0.0" || host == "::1"
  }

  /** The address prefixes on the list, as written. */
  predicate HasPrivatePrefix(host: string) {
    || Strings.StartsWith(host, "127.") || Strings.StartsWith(host, "192.168.") || Strings.StartsWith(host, "10.")
    || Strings.StartsWith(host, "172.16.") || Strings.StartsWith(host, "172.17.")
    || Strings.StartsWith(host, "172.18.") || Strings.StartsWith(host, "172.19.")
    || Strings.StartsWith(host, "172.2") || Strings.StartsWith(host, "172.30") || Strings.StartsWith(host, "172.31")
  }

  /** `includes('local.') || endsWith('.local')` */
  predicate IsLocalDomain(host: string) {
    Strings.Contains(host, "local.") || Strings.EndsWith(host, ".local")
  }

  /** The blocklist as written, on the lower-cased host name. */
  predicate IsBlockedHost(host: string) {
    IsListedName(host) || HasPrivatePrefix(host) || IsLocalDomain(host)
  }

  predicate IsWebProtocol(protocol: string) {
    protocol == "http:" || protocol == "https:"
  }

  /** `isValidTargetUrl` as written; `parsed` is `None` where `new URL` throws. */
  predicate IsValidTargetUrl(parsed: Option<ParsedUrl>) {
    match parsed
    case None => false
    case Some(u) => IsWebProtocol(u.protocol) && !IsBlockedHost(Strings.ToLowerAscii(u.hostname))
  }

  /** An accepted URL is http or https and its host, in any letter case, is
      none of the loopback and private forms on the list. */
  lemma AcceptedTargetShape(parsed: Option<ParsedUrl>)
    requires IsValidTargetUrl(parsed)
    ensures parsed.Some? && IsWebProtocol(parsed.value.protocol)
    ensures var h := Strings.ToLowerAscii(parsed.value.hostname);
      && h != "localhost" && h != "0.0.0.0" && h != "::1"
      && !Strings.StartsWith(h, "127.") && !Strings.StartsWith(h, "10.") && !Strings.StartsWith(h, "192.168.")
      && !Strings.StartsWith(h, "172.16.") && !Strings.StartsWith(h, "172.17.")
      && !Strings.StartsWith(h, "172.18.") && !Strings.StartsWith(h, "172.19.")
      && !Strings.StartsWith(h, "172.2") && !Strings.StartsWith(h, "172.30") && !Strings.StartsWith(h, "172.31")
      && !Strings.Contains(h, "local.") && !Strings.EndsWith(h, ".local")
  {
  }

  /** Unparsable URLs, other schemes and blocked hosts are rejected. */
  lemma RejectedTargets(protocol: string, hostname: string)
    ensures !IsValidTargetUrl(None)
    ensures !IsWebProtocol(protocol) ==> !IsValidTargetUrl(Some(ParsedUrl(protocol, hostname)))
    ensures IsBlockedHost(Strings.ToLowerAscii(hostname)) ==> !IsValidTargetUrl(Some(ParsedUrl(protocol, hostname)))
  {
  }

  /** A host name with no upper-case ASCII letter is its own lower-case form. */
  lemma LowerCaseHost(h: string)
    requires forall i :: 0 <= i < |h| ==> !('A' <= h[i] <= 'Z')
    ensures Strings.ToLowerAscii(h) == h
  {
  }

  /** A host that differs from a prefix at some position does not start with it. */
  lemma DiffersAt(h: string, prefix: string, i: nat)
    requires i < |h| && i < |prefix| && h[i] != prefix[i]
    ensures !Strings.StartsWith(h, prefix)
  {
    if |prefix| <= |h| {
      assert h[..|prefix|][i] == h[i];
    }
  }

  /** `includes('local.')` on a host with no `l` is false. */
  lemma {:induction false} NotContainsLocalDot(h: string)
    requires 'l' !in h
    ensures !Strings.Contains(h, "local.")
    decreases |h|
  {
    if h != [] {
      DiffersAt(h, "local.", 0);
      assert 'l' !in h[1..] by {
        forall i | 0 <= i < |h[1..]| ensures h[1..][i] != 'l' { assert h[1..][i] == h[i + 1]; }
      }
      NotContainsLocalDot(h[1..]);
    }
  }

  /** A host of digits and dots is no `.local` domain. */
  lemma NumericNotLocal(h: string)
    requires IsDotted(h)
    ensures !IsLocalDomain(h)
  {
    assert 'l' !in h by {
      forall i | 0 <= i < |h| ensures h[i] != 'l' { }
    }
    NotContainsLocalDot(h);
    LastOfSuffix(h, ".local");
  }

  /** A string that ends with a non-empty suffix ends with its last character. */
  lemma LastOfSuffix(h: string, suffix: string)
    ensures Strings.EndsWith(h, suffix) && suffix != [] ==> h[|h| - 1] == suffix[|suffix| - 1]
  {
    if Strings.EndsWith(h, suffix) && suffix != [] {
      assert h[|h| - |suffix|..][|suffix| - 1] == h[|h| - 1];
    }
  }

  /** Other schemes are refused whatever the host, and so is every URL
      `new URL` cannot parse. */
  lemma RejectedProtocols(hostname: string)
    ensures !IsValidTargetUrl(None)
    ensures !IsValidTargetUrl(Some(ParsedUrl("ftp:", hostname)))
    ensures !IsValidTargetUrl(Some(ParsedUrl("javascript:", hostname)))
    ensures !IsValidTargetUrl(Some(ParsedUrl("file:", hostname)))
  {
  }

  /** `http://127.0.0.1/x` is refused. */
  lemma LoopbackRejected()
    ensures !IsValidTargetUrl(Some(ParsedUrl("http:", "127.0.0.1")))
  {
    LowerCaseHost("127.0.0.1");
    assert IsListedName("127.0.0.1");
  }

  /** `https://10.0.0.5/` is refused. */
  lemma PrivateAddressRejected()
    ensures !IsValidTargetUrl(Some(ParsedUrl("https:", "10.0.0.5")))
  {
    LowerCaseHost("10.0.0.5");
    assert "10.0.0.5"[..3] == "10.";
    assert HasPrivatePrefix("10.0.0.5");
  }

  /** `http://LOCALHOST:3000` is refused: the host is compared in lower case. */
  lemma UpperCaseLocalhostRejected()
    ensures !IsValidTargetUrl(Some(ParsedUrl("http:", "LOCALHOST")))
  {
    var h := Strings.ToLowerAscii("LOCALHOST");
    assert h == "localhost";
    assert IsListedName(h);
  }

  /** As written, the guard lets the IPv6 loopback through: `URL.hostname`
      keeps the brackets, so `http://[::1]/` reports `[::1]`, which the
      `::1` comparison never equals. */
  lemma Ipv6LoopbackAccepted()
    ensures IsValidTargetUrl(Some(ParsedUrl("http:", "[::1]")))
  {
    var h := "[::1]";
    LowerCaseHost(h);
    NotContainsLocalDot(h);
    assert !HasPrivatePrefix(h) by {
      DiffersAt(h, "127.", 0);
      DiffersAt(h, "10.", 0);
      DiffersAt(h, "192.168.", 0);
      DiffersAt(h, "172.16.", 0);
      DiffersAt(h, "172.17.", 0);
      DiffersAt(h, "172.18.", 0);
      DiffersAt(h, "172.19.", 0);
      DiffersAt(h, "172.2", 0);
      DiffersAt(h, "172.30", 0);
      DiffersAt(h, "172.31", 0);
    }
  }

  /** Made of decimal digits and dots only, as a dotted-decimal address is. */
  predicate IsDotted(s: string) {
    forall i :: 0 <= i < |s| ==> Strings.IsDigit(s[i]) || s[i] == '.'
  }

  lemma DottedAppend(a: string, b: string)
    requires IsDotted(a) && IsDotted(b)
    ensures IsDotted(a + b)
  {
    forall i | 0 <= i < |a + b| ensures Strings.IsDigit((a + b)[i]) || (a + b)[i] == '.' {
      if i >= |a| { assert (a + b)[i] == b[i - |a|]; }
    }
  }

  /** The host `172.<d>.<rest>` for a dotted-decimal `rest` is made of
      digits and dots, so it is its own lower-case form and no `.local` name. */
  lemma Dotted172Host(d: nat, rest: string)
    requires IsDotted(rest)
    ensures var h := "172." + Strings.NatToString(d) + "." + rest;
      && Strings.ToLowerAscii(h) == h && !IsLocalDomain(h) && h[..4] == "172."
      && 4 < |h| && h[4] == Strings.NatToString(d)[0]
  {
    var n := Strings.NatToString(d);
    var h := "172." + n + "." + rest;
    assert IsDotted("172.") && IsDotted(".");
    DottedAppend("172.", n);
    DottedAppend("172." + n, ".");
    DottedAppend("172." + n + ".", rest);
    LowerCaseHost(h);
    NumericNotLocal(h);
    assert h[4] == ("172." + n)[4] == n[0];
  }

  /** The decimal form of 2 and of 200 to 255 begins with `2`. */
  lemma LeadingTwo(d: nat)
    requires d == 2 || 200 <= d <= 255
    ensures Strings.NatToString(d)[0] == '2'
  {
    if d >= 200 {
      assert Strings.NatToString(d) == Strings.NatToString(d / 10) + [Strings.DigitChar(d % 10)];
      assert Strings.NatToString(d / 10) == Strings.NatToString(d / 100) + [Strings.DigitChar(d / 10 % 10)];
    }
  }

  /** As written, `startsWith('172.2')` refuses the public addresses
      172.2.x.x and 172.200.x.x to 172.255.x.x along with 172.20-29. */
  lemma Public172Rejected(protocol: string, d: nat, rest: string)
    requires d == 2 || 200 <= d <= 255
    requires IsDotted(rest)
    ensures !IsValidTargetUrl(Some(ParsedUrl(protocol, "172." + Strings.NatToString(d) + "." + rest)))
  {
    var h := "172." + Strings.NatToString(d) + "." + rest;
    Dotted172Host(d, rest);
    LeadingTwo(d);
    assert h[..5] == "172.2";
  }

  /** The private block 172.16.0.0/12 by its second octet, 16 to 31. */
  predicate IsPrivate172(host: string) {
    exists k :: 16 <= k <= 31 && Strings.StartsWith(host, "172." + Strings.NatToString(k) + ".")
  }

  /** The full-name list with the IPv6 loopback in the form `URL.hostname` reports it. */
  predicate IsListedNameFixed(host: string) {
    host == "localhost" || host == "127.0.0.1" || host == "0.0.0.0" || host == "[::1]"
  }

  /** The prefixes with the 172 rule narrowed to 172.16.0.0/12. */
  predicate HasPrivatePrefixFixed(host: string) {
    || Strings.StartsWith(host, "127.") || Strings.StartsWith(host, "192.168.") || Strings.StartsWith(host, "10.")
    || IsPrivate172(host)
  }

  predicate IsBlockedHostFixed(host: string) {
    IsListedNameFixed(host) || HasPrivatePrefixFixed(host) || IsLocalDomain(host)
  }

  /** The guard with the corrected blocklist, used by the corrected endpoint `TrackRoute.ValidateFixed`. */
  predicate IsValidTargetUrlFixed(parsed: Option<ParsedUrl>) {
    match parsed
    case None => false
    case Some(u) => IsWebProtocol(u.protocol) && !IsBlockedHostFixed(Strings.ToLowerAscii(u.hostname))
  }

  /** For a dotted host `172.<d>.<rest>` the corrected rule refuses it
      exactly when `d` is in the private range 16..31. */
  lemma Private172Iff(d: nat, rest: string)
    ensures IsPrivate172("172." + Strings.NatToString(d) + "." + rest) <==> 16 <= d <= 31
  {
    var s := "172." + Strings.NatToString(d) + "." + rest;
    if 16 <= d <= 31 {
      var p := "172." + Strings.NatToString(d) + ".";
      assert s == p + rest;
      assert s[..|p|] == p;
      assert Strings.StartsWith(s, p);
    }
    if IsPrivate172(s) {
      var k :| 16 <= k <= 31 && Strings.StartsWith(s, "172." + Strings.NatToString(k) + ".");
      DottedPrefix(Strings.NatToString(d), rest, Strings.NatToString(k));
      Strings.NatToStringValue(d);
      Strings.NatToStringValue(k);
    }
  }

  /** In `172.<a>.<rest>` the octet between the dots is determined by the prefix. */
  lemma DottedPrefix(a: string, rest: string, b: string)
    requires forall i :: 0 <= i < |a| ==> Strings.IsDigit(a[i])
    requires forall i :: 0 <= i < |b| ==> Strings.IsDigit(b[i])
    requires Strings.StartsWith("172." + a + "." + rest, "172." + b + ".")
    ensures a == b
  {
    var s := "172." + a + "." + rest;
    var p := "172." + b + ".";
    assert s[..|p|] == p;
    assert s[4 + |a|] == '.' && p[4 + |b|] == '.';
    if |a| < |b| {
      assert false;
    } else if |b| < |a| {
      assert false;
    }
    assert a == s[4..4 + |a|] == p[4..4 + |b|] == b;
  }

  /** The corrected guard refuses `http://[::1]/`. */
  lemma FixedRejectsIpv6Loopback(protocol: string)
    ensures !IsValidTargetUrlFixed(Some(ParsedUrl(protocol, "[::1]")))
  {
    LowerCaseHost("[::1]");
    assert IsListedNameFixed("[::1]");
  }

  /** The corrected guard refuses every `172.<d>.<rest>` with `d` in 16..31. */
  lemma FixedRejectsPrivate172(protocol: string, d: nat, rest: string)
    requires 16 <= d <= 31
    requires IsDotted(rest)
    ensures !IsValidTargetUrlFixed(Some(ParsedUrl(protocol, "172." + Strings.NatToString(d) + "." + rest)))
  {
    Dotted172Host(d, rest);
    Private172Iff(d, rest);
  }

  /** The corrected guard lets every `http(s)://172.<d>.<rest>` through
      whose `d` is outside 16..31, the public 172.2.x.x and 172.200.x.x included. */
  lemma FixedAcceptsPublic172(protocol: string, d: nat, rest: string)
    requires IsWebProtocol(protocol) && !(16 <= d <= 31)
    requires IsDotted(rest)
    ensures IsValidTargetUrlFixed(Some(ParsedUrl(protocol, "172." + Strings.NatToString(d) + "." + rest)))
  {
    var h := "172." + Strings.NatToString(d) + "." + rest;
    Dotted172Host(d, rest);
    Private172Iff(d, rest);
    assert h[0] == '1' && h[1] == '7' && h[2] == '2';
    assert !IsListedNameFixed(h) by {
      assert h[0] != "localhost"[0] && h[0] != "0.0.0.0"[0] && h[0] != "[::1]"[0] && h[1] != "127.0.0.1"[1];
    }
    assert !HasPrivatePrefixFixed(h) by {
      DiffersAt(h, "127.", 1);
      DiffersAt(h, "10.", 1);
      DiffersAt(h, "192.168.", 1);
    }
  }

  /** The correction only touches the two broken entries: on every host
      that is not `::1`, `[::1]` or under `172.`, both guards agree. */
  lemma FixedAgreesElsewhere(parsed: Option<ParsedUrl>)
    requires parsed.Some? ==> var h := Strings.ToLowerAscii(parsed.value.hostname);
      h != "::1" && h != "[::1]" && !Strings.StartsWith(h, "172.")
    ensures IsValidTargetUrlFixed(parsed) == IsValidTargetUrl(parsed)
  {
    if parsed.Some? {
      var h := Strings.ToLowerAscii(parsed.value.hostname);
      assert IsListedName(h) == IsListedNameFixed(h);
      assert HasPrivatePrefix(h) == HasPrivatePrefixFixed(h) by {
        Below172(h, "172.16."); Below172(h, "172.17."); Below172(h, "172.18."); Below172(h, "172.19.");
        Below172(h, "172.2"); Below172(h, "172.30"); Below172(h, "172.31");
        if IsPrivate172(h) {
          var k :| 16 <= k <= 31 && Strings.StartsWith(h, "172." + Strings.NatToString(k) + ".");
          Below172(h, "172." + Strings.NatToString(k) + ".");
        }
      }
    }
  }

  /** A host that does not start with `172.` starts with no longer prefix beginning so. */
  lemma Below172(h: string, prefix: string)
    requires !Strings.StartsWith(h, "172.") && |prefix| >= 4 && prefix[..4] == "172."
    ensures !Strings.StartsWith(h, prefix)
  {
  }

  // ---------------------------------------------------------------------
  // Percent-encoding wrappers

  /** `encodeUrl`: `encodeURIComponent` of the URL. */
  function EncodeUrl(url: string): string {
    UriComponent.Encode(url)
  }

  /** `decodeUrl`: `decodeURIComponent`, or the input unchanged where it throws. */
  function DecodeUrl(encoded: string): (r: string)
    ensures UriComponent.Decode(encoded).None? ==> r == encoded
    ensures UriComponent.Decode(encoded).Some? ==> r == UriComponent.Decode(encoded).value
  {
    match UriComponent.Decode(encoded)
    case None => encoded
    case Some(s) => s
  }

  /** Decoding what `encodeUrl` produced gives the original URL back. */
  lemma DecodeEncodeUrl(url: string)
    ensures DecodeUrl(EncodeUrl(url)) == url
  {
    UriComponent.DecodeEncode(url);
  }

  /** Malformed escapes come back verbatim: a lone `%`, a `%` before a
      non-hex character, and a sequence cut short. */
  lemma DecodeUrlFallback()
    ensures DecodeUrl("%") == "%"
    ensures DecodeUrl("%zz") == "%zz"
    ensures DecodeUrl("%E2%82") == "%E2%82"
  {
    assert UriComponent.OctetAt("%E2%82") == Some(0xE2);
  }
}
