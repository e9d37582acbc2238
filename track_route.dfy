/** The tracking endpoint (app/api/track/route.ts): `POST` checks the
    request's fields in a fixed order, then spends one unit of the
    fingerprint's rate-limit quota, then stores the click; `GET` is refused.

    The JSON body is `None` where `request.json()` throws; a field is `None`
    where the body lacks it. `new URL` is the parameter `parse`, MD5 the
    parameter `md5`, the two clocks (`Date.now()` in the limiter, the server
    timestamp in the store) the parameters `now` and `serverNow`, and
    whether Firestore answers the parameter `reachable`. */
module TrackRoute {
  import opened Base
  import opened Types
  import Strings
  import Hybrid
  import Validation
  import RateLimiting
  import Storage

  /** The body of a tracking request, every field optional. */
  datatype TrackBody = TrackBody(
    fingerprint: Option<string>,
    campaignId: Option<string>,
    targetUrl: Option<string>,
    serverHash: Option<string>,
    clientHash: Option<string>,
    device: Option<DeviceInfo>,
    referrer: Option<string>,
    ip: Option<string>,
    language: Option<string>)

  /** The JSON reply: a 400/405/429 refusal with its message, the 200
      success with the `X-RateLimit-Remaining` header, or the 500 with a warning. */
  datatype TrackResponse =
    | Refused(status: int, error: string)
    | Tracked(fingerprint: string, campaignId: string, rateLimitRemaining: string)
    | Failed

  const MissingFields: string := "Missing required fields"
  const InvalidFingerprint: string := "Invalid fingerprint format"
  const InvalidCampaign: string := "Invalid campaign ID"
  const InvalidTarget: string := "Invalid target URL"
  const RateLimited: string := "Rate limit exceeded. Please try again later."
  const InternalError: string := "Internal server error"
  const NotRecorded: string := "Tracking data may not have been recorded"
  const MethodNotAllowed: string := "Method not allowed. Use POST to track clicks."

  /** Requests per minute per fingerprint. */
  const TrackLimit: int := 10

  function Status(r: TrackResponse): int {
    match r
    case Refused(status, _) => status
    case Tracked(_, _, _) => 200
    case Failed => 500
  }

  /** A JavaScript-truthy string: present and non-empty. */
  predicate Given(s: Option<string>) {
    s.Some? && s.value != ""
  }

  /** `s || fallback` */
  function OrElse(s: Option<string>, fallback: string): (r: string)
    ensures Given(s) ==> r == s.value
    ensures !Given(s) ==> r == fallback
  {
    if Given(s) then s.value else fallback
  }

  /** `s || null` */
  function OrNull(s: Option<string>): (r: Option<string>)
    ensures r.Some? <==> Given(s)
    ensures Given(s) ==> r == s
  {
    if Given(s) then s else None
  }

  datatype Validated = Invalid(error: string) | Valid(data: TrackingRequest)

  /** The checks before the URL check, in the route's order: the first
      failing one's message, or none when all pass. */
  function Precheck(body: TrackBody): Option<string> {
    if !Given(body.fingerprint) || !Given(body.campaignId) || !Given(body.targetUrl) || body.device.None? then
      Some(MissingFields)
    else if !Hybrid.IsValidFingerprint(body.fingerprint.value) then Some(InvalidFingerprint)
    else if !Validation.IsValidCampaignId(body.campaignId.value) then Some(InvalidCampaign)
    else None
  }

  /** The request passed to the store, its optional fields defaulted. */
  function RequestOf(body: TrackBody): TrackingRequest
    requires Precheck(body).None?
  {
    TrackingRequest(
      body.fingerprint.value, body.campaignId.value, body.targetUrl.value,
      OrElse(body.serverHash, ""), OrElse(body.clientHash, ""),
      body.device.value, OrNull(body.referrer), OrNull(body.ip), OrElse(body.language, "unknown"))
  }

  /** The checks before the rate limit, in the route's order, ending with
      `isValidTargetUrl` as written; on success the request for the store. */
  function Validate(body: TrackBody, parse: string -> Option<Validation.ParsedUrl>): Validated {
    match Precheck(body)
    case Some(error) => Invalid(error)
    case None =>
      if !Validation.IsValidTargetUrl(parse(body.targetUrl.value)) then Invalid(InvalidTarget)
      else Valid(RequestOf(body))
  }

  /** The same checks with the corrected URL guard. */
  function ValidateFixed(body: TrackBody, parse: string -> Option<Validation.ParsedUrl>): Validated {
    match Precheck(body)
    case Some(error) => Invalid(error)
    case None =>
      if !Validation.IsValidTargetUrlFixed(parse(body.targetUrl.value)) then Invalid(InvalidTarget)
      else Valid(RequestOf(body))
  }

  /** The endpoint as written and the corrected one decide differently only
      on a request that passes every earlier check and targets `::1`, `[::1]`
      or a host starting `172.`; on every other request they agree. */
  lemma FixedRouteDiffers(body: TrackBody, parse: string -> Option<Validation.ParsedUrl>)
    ensures ValidateFixed(body, parse) != Validate(body, parse) ==>
      && Precheck(body).None?
      && parse(body.targetUrl.value).Some?
      && var h := Strings.ToLowerAscii(parse(body.targetUrl.value).value.hostname);
         h == "::1" || h == "[::1]" || Strings.StartsWith(h, "172.")
  {
    if Precheck(body).None? {
      var parsed := parse(body.targetUrl.value);
      if parsed.Some? ==> var h := Strings.ToLowerAscii(parsed.value.hostname);
           h != "::1" && h != "[::1]" && !Strings.StartsWith(h, "172.") {
        Validation.FixedAgreesElsewhere(parsed);
      }
    }
  }

  /** A request aimed at `http://[::1]/` that passes the earlier checks gets
      through the route as written and is refused by the corrected one. */
  lemma LoopbackTargetDiverges(body: TrackBody, parse: string -> Option<Validation.ParsedUrl>)
    requires Precheck(body).None?
    requires parse(body.targetUrl.value) == Some(Validation.ParsedUrl("http:", "[::1]"))
    ensures Validate(body, parse).Valid?
    ensures ValidateFixed(body, parse) == Invalid(InvalidTarget)
  {
    Validation.Ipv6LoopbackAccepted();
    Validation.FixedRejectsIpv6Loopback("http:");
  }

  /** A request aimed at a public `172.2.…` or `172.200-255.…` address that
      passes the earlier checks is refused by the route as written and gets
      through the corrected one. */
  lemma Public172TargetDiverges(body: TrackBody, parse: string -> Option<Validation.ParsedUrl>,
                                protocol: string, d: nat, rest: string)
    requires Precheck(body).None?
    requires Validation.IsWebProtocol(protocol) && (d == 2 || 200 <= d <= 255) && Validation.IsDotted(rest)
    requires parse(body.targetUrl.value) == Some(Validation.ParsedUrl(protocol, "172." + Strings.NatToString(d) + "." + rest))
    ensures Validate(body, parse) == Invalid(InvalidTarget)
    ensures ValidateFixed(body, parse).Valid?
  {
    Validation.Public172Rejected(protocol, d, rest);
    Validation.FixedAcceptsPublic172(protocol, d, rest);
  }

  /** The whole `POST`: the reply, the limiter's cache after it, and the store after it. */
  function Handle(body: Option<TrackBody>, parse: string -> Option<Validation.ParsedUrl>,
                  md5: string -> Storage.Digest16, cache: map<string, seq<Millis>>,
                  docs: map<string, ClickData>, now: Millis, serverNow: Millis, reachable: bool)
    : (TrackResponse, map<string, seq<Millis>>, map<string, ClickData>)
  {
    if body.None? then (Failed, cache, docs)
    else
      match Validate(body.value, parse)
      case Invalid(error) => (Refused(400, error), cache, docs)
      case Valid(data) =>
        var (limit, cache') := RateLimiting.Step(cache, data.fingerprint, TrackLimit, now);
        if !limit.success then (Refused(429, RateLimited), cache', docs)
        else if !reachable then (Failed, cache', docs)
        else
          (Tracked(data.fingerprint, data.campaignId, Strings.IntToString(limit.remaining)),
           cache', Storage.Upsert(docs, Storage.KeyOf(md5, data), data, serverNow))
  }

  /** `POST(request)` against the process's limiter and the click store. */
  method Post(limiter: RateLimiting.RateLimiter, store: Storage.ClickStore,
              body: Option<TrackBody>, parse: string -> Option<Validation.ParsedUrl>,
              md5: string -> Storage.Digest16, now: Millis, serverNow: Millis, reachable: bool)
    returns (response: TrackResponse)
    modifies limiter, store
    ensures (response, limiter.cache, store.docs)
         == Handle(body, parse, md5, old(limiter.cache), old(store.docs), now, serverNow, reachable)
  {
    if body.None? {
      return Failed;
    }
    var data;
    match Validate(body.value, parse) {
      case Invalid(error) =>
        return Refused(400, error);
      case Valid(d) =>
        data := d;
    }
    var rateLimitResult := limiter.CheckRateLimit(data.fingerprint, TrackLimit, now);
    if !rateLimitResult.success {
      return Refused(429, RateLimited);
    }
    var outcome := store.StoreTrackingData(md5, data, serverNow, reachable);
    if outcome == Storage.StoreFailed {
      return Failed;
    }
    response := Tracked(data.fingerprint, data.campaignId, Strings.IntToString(rateLimitResult.remaining));
  }

  /** `GET()`: always refused. */
  function Get(): (r: TrackResponse)
    ensures Status(r) == 405 && r.Refused?
  {
    Refused(405, MethodNotAllowed)
  }

  /** The checks run in order and the first failing one names the error: a
      missing field before anything else, then the fingerprint, the campaign
      id and the target URL; a request passes only when every check does. */
  lemma ValidationOrder(body: TrackBody, parse: string -> Option<Validation.ParsedUrl>)
    ensures var missing := !Given(body.fingerprint) || !Given(body.campaignId) || !Given(body.targetUrl) || body.device.None?;
      && (missing ==> Validate(body, parse) == Invalid(MissingFields))
      && (!missing ==> (Validate(body, parse) == Invalid(InvalidFingerprint) <==> !Hybrid.IsValidFingerprint(body.fingerprint.value)))
      && (!missing && Hybrid.IsValidFingerprint(body.fingerprint.value) ==>
            (Validate(body, parse) == Invalid(InvalidCampaign) <==> !Validation.IsValidCampaignId(body.campaignId.value)))
      && (Validate(body, parse).Valid? <==>
            !missing && Hybrid.IsValidFingerprint(body.fingerprint.value)
            && Validation.IsValidCampaignId(body.campaignId.value)
            && Validation.IsValidTargetUrl(parse(body.targetUrl.value)))
  {
  }

  /** What reaches the store is well formed: a 64-hex-digit fingerprint, a
      campaign id of the allowed characters, an http(s) target whose host is
      off the blocklist, the body's own fields otherwise, and no empty string
      where the document keeps `null` or `'unknown'`. */
  lemma ValidatedRequest(body: TrackBody, parse: string -> Option<Validation.ParsedUrl>)
    requires Validate(body, parse).Valid?
    ensures var data := Validate(body, parse).data;
      && |data.fingerprint| == 64 && Hybrid.IsValidFingerprint(data.fingerprint)
      && Validation.IsValidCampaignId(data.campaignId)
      && Validation.IsValidTargetUrl(parse(data.targetUrl))
      && parse(data.targetUrl).Some? && Validation.IsWebProtocol(parse(data.targetUrl).value.protocol)
      && Some(data.fingerprint) == body.fingerprint && Some(data.campaignId) == body.campaignId
      && Some(data.targetUrl) == body.targetUrl && Some(data.device) == body.device
      && (data.serverHash == "" <==> !Given(body.serverHash))
      && (data.clientHash == "" <==> !Given(body.clientHash))
      && data.referrer != Some("") && data.ip != Some("") && data.language != ""
      && (data.language == "unknown" <==> !Given(body.language) || body.language.value == "unknown")
  {
    Hybrid.ValidFingerprintIff(body.fingerprint.value);
    Validation.AcceptedTargetShape(parse(body.targetUrl.value));
  }

  /** A refused request, 400 or 429, leaves the store as it was; a 400
      also leaves the limiter untouched, so invalid requests spend no quota. */
  lemma RefusalChangesNothing(body: Option<TrackBody>, parse: string -> Option<Validation.ParsedUrl>,
                              md5: string -> Storage.Digest16, cache: map<string, seq<Millis>>,
                              docs: map<string, ClickData>, now: Millis, serverNow: Millis, reachable: bool)
    ensures var (r, cache', docs') := Handle(body, parse, md5, cache, docs, now, serverNow, reachable);
      && (r.Refused? ==> docs' == docs && cache' == cache)
      && (r.Refused? ==> r.status == 400 || r.status == 429)
      && (body.Some? && Validate(body.value, parse).Invalid? ==> r.Refused? && r.status == 400)
  {
  }

  /** A request that passes the checks spends quota whether or not the
      store then answers: the limiter records it even when the reply is a 500. */
  lemma StoreFailureSpendsQuota(body: TrackBody, parse: string -> Option<Validation.ParsedUrl>,
                                md5: string -> Storage.Digest16, cache: map<string, seq<Millis>>,
                                docs: map<string, ClickData>, now: Millis, serverNow: Millis)
    requires Validate(body, parse).Valid?
    ensures var fp := Validate(body, parse).data.fingerprint;
      var (r, cache', docs') := Handle(Some(body), parse, md5, cache, docs, now, serverNow, false);
      && docs' == docs
      && cache' == RateLimiting.Step(cache, fp, TrackLimit, now).1
      && (r == Failed <==> |RateLimiting.Recent(RateLimiting.Stored(cache, fp), now)| < TrackLimit)
      && (r == Failed ==> cache'[fp] == RateLimiting.Recent(RateLimiting.Stored(cache, fp), now) + [now])
  {
  }

  /** A 200 counts exactly one click: the request's document is created
      with a count of 1 or has its count raised by one, nothing else in the
      store changes, and the header reports the quota left as one digit 0 to 9. */
  lemma TrackedCountsOneClick(body: Option<TrackBody>, parse: string -> Option<Validation.ParsedUrl>,
                              md5: string -> Storage.Digest16, cache: map<string, seq<Millis>>,
                              docs: map<string, ClickData>, now: Millis, serverNow: Millis, reachable: bool)
    ensures var (r, cache', docs') := Handle(body, parse, md5, cache, docs, now, serverNow, reachable);
      r.Tracked? ==>
        && body.Some? && Validate(body.value, parse).Valid? && reachable
        && var data := Validate(body.value, parse).data;
           var key := Storage.KeyOf(md5, data);
           && key in docs'
           && docs'[key].clickCount == (if key in docs then docs[key].clickCount + 1 else 1)
           && docs'.Keys == docs.Keys + {key}
           && (forall k :: k in docs && k != key ==> docs'[k] == docs[k])
           && r.fingerprint == data.fingerprint && r.campaignId == data.campaignId
           && |r.rateLimitRemaining| == 1 && '0' <= r.rateLimitRemaining[0] <= '9'
  {
    var (r, cache', docs') := Handle(body, parse, md5, cache, docs, now, serverNow, reachable);
    if r.Tracked? {
      var data := Validate(body.value, parse).data;
      var key := Storage.KeyOf(md5, data);
      Storage.UpsertFrame(docs, key, data, serverNow);
      RateLimiting.RemainingBounds(cache, data.fingerprint, TrackLimit, now);
    }
  }

  /** Every reply is one of 200, 400, 429 and 500. */
  lemma StatusCodes(body: Option<TrackBody>, parse: string -> Option<Validation.ParsedUrl>,
                    md5: string -> Storage.Digest16, cache: map<string, seq<Millis>>,
                    docs: map<string, ClickData>, now: Millis, serverNow: Millis, reachable: bool)
    ensures Status(Handle(body, parse, md5, cache, docs, now, serverNow, reachable).0) in {200, 400, 429, 500}
  {
  }

  /** Starting from nothing recent for a fingerprint, ten valid requests at
      one instant are tracked and the eleventh gets a 429. */
  lemma EleventhRequestLimited(body: TrackBody, parse: string -> Option<Validation.ParsedUrl>,
                               md5: string -> Storage.Digest16, cache: map<string, seq<Millis>>,
                               docs: map<string, ClickData>, now: Millis, serverNow: Millis, k: nat)
    requires Validate(body, parse).Valid?
    requires RateLimiting.Recent(RateLimiting.Stored(cache, Validate(body, parse).data.fingerprint), now) == []
    ensures var fp := Validate(body, parse).data.fingerprint;
      var r := Handle(Some(body), parse, md5, RateLimiting.Burst(cache, fp, TrackLimit, now, k), docs, now, serverNow, true).0;
      (k < TrackLimit ==> r.Tracked?) && (k >= TrackLimit ==> r == Refused(429, RateLimited))
  {
    RateLimiting.BurstAtOneInstant(cache, Validate(body, parse).data.fingerprint, TrackLimit, now, k);
  }
}
