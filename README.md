# Redirectly click identity and counting, in Dafny

Redirectly is a link-tracking service. A visitor opens a tracking link. The
browser computes a client hash, the server computes a hash from the request
headers, and the two are combined into a 64-hex-digit fingerprint. The
`/api/track` endpoint checks the request, applies a per-fingerprint rate
limit of ten a minute, and upserts one document per (fingerprint, campaign,
target URL) into the `clicks` collection, counting repeat clicks. The
dashboard, guarded by HTTP Basic authentication, reads the collection back
as per-campaign summaries, device lists and breakdowns.

This project models that pipeline one source file per module:

| module | file |
|---|---|
| `Hybrid` | lib/fingerprint/hybrid.ts |
| `ClientFingerprint` | lib/fingerprint/client.ts |
| `ServerFingerprint` | lib/fingerprint/server.ts |
| `Validation` | lib/utils/validation.ts |
| `RateLimiting` | lib/utils/rate-limiter.ts |
| `Storage` | lib/analytics/storage.ts |
| `Queries` | lib/analytics/queries.ts |
| `TrackRoute` | app/api/track/route.ts |
| `DeviceParser` | lib/utils/device-parser.ts |
| `Middleware` | middleware.ts |

Supporting modules:

- `Base`: option type, bytes, millisecond timestamps.
- `Types`: the records of lib/types/index.ts.
- `Strings`: the JavaScript string operations the code uses (`split`, `trim`, `startsWith`, ...).
- `Patterns`: the two anchored character-class regular expressions.
- `Encoding`: lower-case hex, base64 and `btoa`.
- `UriComponent`: `encodeURIComponent` and `decodeURIComponent` over UTF-8.
- `Tally`: occurrence counts and weighted sums over sequences.

Things the code does not compute itself are parameters of the model:

- the hash functions (SHA-256, MD5, the browser's SubtleCrypto digest);
- the Thumbmark.js result;
- the URL parser (`new URL`);
- the User-Agent parser;
- Buffer's base64 decoder;
- the clocks (`Date.now()` and the Firestore server timestamp);
- whether Firestore answers.

A failure a function can throw is an `Option` or an error constructor.

Modelling style:

- The rate limiter is a class whose field is the `ratelimit` cache.
- The click store is a class whose field is the `clicks` collection, as a map from document id to document.
- Each method is proved against a pure step function (`RateLimiting.Step`, `Storage.Upsert`, `Storage.Retained`), and the lemmas are stated about those functions.
- Each query that loops over a snapshot is a method with loop invariants. Its postcondition ties the result to a specification function over the snapshot.

Where the code has a bug, the model keeps the code as written next to a corrected version (see "## Findings"). The track endpoint calls the URL guard as written (`Validation.IsValidTargetUrl`). `TrackRoute.ValidateFixed` is the same sequence of checks with the corrected guard, and lemmas show where the two endpoints part.

## Model

| member | source | states |
|---|---|---|
| Hybrid.ValidFingerprintIff | lib/fingerprint/hybrid.ts:21-24 | the fingerprint pattern accepts exactly the strings of 64 hex digits, either letter case |
| Hybrid.ValidFingerprintExamples | lib/fingerprint/hybrid.ts:21-24 | the empty string, 63 or 65 digits, and a non-hex character are rejected; upper-case digits are accepted |
| Hybrid.PreimageLayout | lib/fingerprint/hybrid.ts:13 | the hashed text is the server hash, one colon, then the client hash |
| Hybrid.PreimageInjective | lib/fingerprint/hybrid.ts:13 | with a colon-free server hash, equal preimages come exactly from equal hash pairs |
| Hybrid.SwappedPreimageDiffers | lib/fingerprint/hybrid.ts:13 | swapping two distinct colon-free hashes changes the preimage |
| Hybrid.CombineFingerprints | lib/fingerprint/hybrid.ts:8-16 | the combined fingerprint always passes the fingerprint pattern |
| Hybrid.ValidHexFingerprint | lib/fingerprint/hybrid.ts:15 | any 32-byte digest in lower-case hex passes the fingerprint pattern |
| Hybrid.CombineOrderSensitive | lib/fingerprint/hybrid.ts:8-16 | swapping two distinct colon-free hashes changes the hashed text, and the fingerprint changes exactly when the digest separates the two texts |
| ClientFingerprint.StripAndCutShape | lib/fingerprint/client.ts:43-45 | stripping the padding and cutting leaves at most n base64-alphabet characters and no `=` |
| ClientFingerprint.GenerateFallbackFingerprint | lib/fingerprint/client.ts:26-46 | without a window the result is `server-side-render`; in a browser it fails exactly when `btoa` rejects the joined components |
| ClientFingerprint.FallbackFingerprintShape | lib/fingerprint/client.ts:43-45 | a browser fallback is at most 32 unpadded base64 characters |
| ClientFingerprint.GenerateClientFingerprint | lib/fingerprint/client.ts:10-20 | the Thumbmark hash when it is available, otherwise the fallback |
| ClientFingerprint.PrimaryCombineValid | lib/fingerprint/client.ts:57-63 | when the browser digest succeeds, the result is 64 lower-case hex digits and passes the fingerprint pattern |
| ClientFingerprint.CombinersAgree | lib/fingerprint/client.ts:52-71 | when the browser digest matches SHA-256, the browser and the server combine the hashes identically |
| ClientFingerprint.FallbackCombineShape | lib/fingerprint/client.ts:67-69 | the fallback combination is at most 64 base64-alphabet characters without padding |
| ClientFingerprint.FallbackCombineRejected | lib/fingerprint/client.ts:67-69 | as written, when the server hash starts with a hex digit (every real one does), the fallback combination never passes the fingerprint pattern, because its first character is one of `M N O Q R Y Z` |
| ClientFingerprint.CombineClientFingerprintsFixed | lib/fingerprint/client.ts:52-71 | the repaired combination always passes the fingerprint pattern and equals the digest's hex whenever the digest succeeds |
| ServerFingerprint.FirstListedSpec | lib/fingerprint/server.ts:14-17 | the first address of `x-forwarded-for` is the whole text before the first comma with surrounding white space removed; it is comma-free, has no surrounding white space, and occurs in the header |
| ServerFingerprint.SelectIpSpec | lib/fingerprint/server.ts:14-17 | a selected address is non-empty; when the trimmed text before the first comma of `x-forwarded-for` is non-empty it is the address, otherwise `x-real-ip` if it is given, otherwise none |
| ServerFingerprint.UserAgent | lib/fingerprint/server.ts:13 | the agent is the header when it is given and non-empty, otherwise `unknown` |
| ServerFingerprint.Language | lib/fingerprint/server.ts:18 | the language is never empty and holds no comma; when the header is given and does not start with a comma it is the whole text before the first comma, otherwise `unknown` |
| ServerFingerprint.GenerateServerFingerprint | lib/fingerprint/server.ts:9-37 | it returns the header components, and the hash is the hex SHA-256 of their `|`-joined text, which passes the fingerprint pattern |
| ServerFingerprint.NormalizedSplits | lib/fingerprint/server.ts:21 | with `|`-free components, the hashed text splits back into exactly the three components |
| ServerFingerprint.GetClientIp | lib/fingerprint/server.ts:50-57 | null exactly when neither address header is usable; otherwise the same address the fingerprint hashes |
| ServerFingerprint.GetReferrer | lib/fingerprint/server.ts:42-45 | the `referer` header when given and non-empty, otherwise null |
| Validation.CampaignIdIff | lib/utils/validation.ts:55-58 | a campaign id is valid exactly when it has 1 to 100 letters, digits, dashes and underscores and nothing else |
| Validation.SanitizeCampaignId | lib/utils/validation.ts:48-50 | the result is no longer than the input, holds only allowed characters, and leaves an already clean id alone |
| Validation.SanitizeKeepsAllowed | lib/utils/validation.ts:48-50 | the result is a subsequence of the id that keeps every allowed character, in order |
| Validation.SanitizeIdempotent | lib/utils/validation.ts:48-50 | sanitizing twice is sanitizing once |
| Validation.SanitizedValidIff | lib/utils/validation.ts:48-58 | a sanitized id is valid exactly when 1 to 100 characters remain |
| Validation.AcceptedTargetShape | lib/utils/validation.ts:5-42 | an accepted URL parsed, is http or https, and its lower-cased host is none of `localhost`, `0.0.0.0`, `::1`, starts with none of `127.`, `10.`, `192.168.`, `172.16.`-`172.19.`, `172.2`, `172.30`, `172.31`, and has no `local.` inside and no `.local` at the end |
| Validation.RejectedTargets | lib/utils/validation.ts:5-42 | an unparsable URL, a non-web scheme and a blocked host are each rejected |
| Validation.RejectedProtocols | lib/utils/validation.ts:10-12 | `ftp:`, `javascript:` and `file:` URLs are rejected whatever the host |
| Validation.LoopbackRejected | lib/utils/validation.ts:16-35 | `http://127.0.0.1` is rejected |
| Validation.PrivateAddressRejected | lib/utils/validation.ts:16-35 | `https://10.0.0.5` is rejected |
| Validation.UpperCaseLocalhostRejected | lib/utils/validation.ts:15 | the host is compared in lower case, so `LOCALHOST` is rejected |
| Validation.Ipv6LoopbackAccepted | lib/utils/validation.ts:20 | as written, `http://[::1]/` passes the guard |
| Validation.Public172Rejected | lib/utils/validation.ts:28 | as written, the public hosts 172.2.x and 172.200-255.x are rejected |
| Validation.Private172Iff | lib/utils/validation.ts:28 | the corrected 172 rule blocks `172.<d>.…` exactly when d is 16 to 31 |
| Validation.FixedRejectsIpv6Loopback | lib/utils/validation.ts:20 | the corrected guard rejects the IPv6 loopback as the URL parser reports it |
| Validation.FixedRejectsPrivate172 | lib/utils/validation.ts:28 | the corrected guard rejects every address in 172.16.0.0/12 |
| Validation.FixedAcceptsPublic172 | lib/utils/validation.ts:28 | the corrected guard accepts http(s) URLs to every other 172.x address |
| Validation.FixedAgreesElsewhere | lib/utils/validation.ts:5-42 | away from `[::1]` and hosts starting `172.`, the corrected guard decides exactly as written |
| Validation.DecodeUrl | lib/utils/validation.ts:70-76 | the URI-decoded text when decoding succeeds, otherwise the input unchanged |
| Validation.DecodeEncodeUrl | lib/utils/validation.ts:63-76 | decoding what `encodeUrl` produced gives back the original URL |
| Validation.DecodeUrlFallback | lib/utils/validation.ts:70-76 | malformed escapes (a lone `%`, non-hex digits, a cut UTF-8 sequence) come back verbatim |
| UriComponent.DecodeEncode | lib/utils/validation.ts:63-76 | `decodeURIComponent(encodeURIComponent(s)) == s` for every string |
| UriComponent.EncodeAlphabet | lib/utils/validation.ts:63-65 | every encoded character is unreserved, `%`, or an upper-case hex digit |
| UriComponent.Utf8RoundTrip | lib/utils/validation.ts:63-76 | the UTF-8 encoding of a character decodes back to it |
| Encoding.UnHexHex | lib/fingerprint/hybrid.ts:15 | lower-case hex rendering of bytes reads back to the same bytes |
| Encoding.Hex | lib/fingerprint/hybrid.ts:15 | the rendering has two lower-case hex digits per byte |
| Encoding.Base64Encode | lib/fingerprint/client.ts:43-45 | the base64 text has length `4*ceil(n/3)` and its first character encodes the top six bits of the first byte |
| Encoding.Base64Alphabet | lib/fingerprint/client.ts:43-45 | every character of base64 output is in the base64 alphabet or is `=` |
| Encoding.Base64UnpaddedLength | lib/fingerprint/client.ts:43-45 | with the padding removed, n bytes become `ceil(4n/3)` characters |
| Encoding.Btoa | lib/fingerprint/client.ts:43 | `btoa` succeeds exactly when every character is below 256 |
| RateLimiting.Recent | lib/utils/rate-limiter.ts:22-28 | the filter keeps no more stamps than were stored, each strictly inside the last 60 000 ms |
| RateLimiting.RecentMembers | lib/utils/rate-limiter.ts:22-28 | a stamp is kept exactly when it was stored and is strictly inside the last 60 000 ms |
| RateLimiting.NoneRecent | lib/utils/rate-limiter.ts:22-28 | when every stored stamp is a full window old, nothing is kept |
| RateLimiting.RateLimiter.constructor | lib/utils/rate-limiter.ts:6-9 | the limiter starts with an empty cache |
| RateLimiting.RateLimiter.CheckRateLimit | lib/utils/rate-limiter.ts:17-43 | the result and the new cache are one `Step` of the old cache |
| RateLimiting.RateLimiter.ClearRateLimit | lib/utils/rate-limiter.ts:48-50 | exactly the identifier's entry is removed |
| RateLimiting.WindowBoundary | lib/utils/rate-limiter.ts:22-28 | a stamp exactly 60 000 ms old no longer counts; one a millisecond younger does |
| RateLimiting.StepSpec | lib/utils/rate-limiter.ts:28-42 | over the limit: refused with 0 remaining and the cache unchanged; under it: admitted, `now` appended, remaining is the limit less the recent count |
| RateLimiting.RemainingBounds | lib/utils/rate-limiter.ts:39-42 | an admitted request leaves between 0 and limit−1 requests |
| RateLimiting.StepFrame | lib/utils/rate-limiter.ts:17-43 | only the identifier's entry changes, and it holds at most `limit` stamps |
| RateLimiting.StepKeepsBounded | lib/utils/rate-limiter.ts:17-43 | with a fixed limit, no entry ever holds more than `limit` stamps |
| RateLimiting.AdmittedAfterWindow | lib/utils/rate-limiter.ts:21-42 | once a full window has passed since every stamp, the next request is admitted with limit−1 left |
| RateLimiting.ExpiryUnobservable | lib/utils/rate-limiter.ts:6-9 | dropping a fully stale entry, as the one-minute TTL does, changes no result and no other entry |
| RateLimiting.BurstAtOneInstant | lib/utils/rate-limiter.ts:17-43 | calls at one instant are admitted one by one until the limit, then refused |
| RateLimiting.BurstSaturates | lib/utils/rate-limiter.ts:31-33 | after `limit` calls at one instant, further calls change nothing |
| RateLimiting.RecentOfRecent | lib/utils/rate-limiter.ts:28 | stamps already inside the window stay there |
| Tally.CountsOverDistinct | lib/analytics/queries.ts:20-44 | the occurrence counts over the distinct keys add up to the length of the list |
| Tally.WeightsOverDistinct | lib/analytics/queries.ts:20-44 | per-key weight sums over the distinct keys add up to the total weight |
| Storage.HashUrl | lib/analytics/storage.ts:9-11 | eight lower-case hex digits: the hex of the first four MD5 bytes |
| Storage.HexPrefix | lib/analytics/storage.ts:9-11 | the first 2k hex digits are the hex of the first k bytes |
| Storage.DocIdInjective | lib/analytics/storage.ts:22-23 | with fixed-length fingerprints and URL hashes, equal document ids come exactly from equal triples |
| Storage.UpsertCreates | lib/analytics/storage.ts:31-48 | a first click creates its document with count 1, equal timestamps and the request's fields |
| Storage.UpsertRepeats | lib/analytics/storage.ts:49-57 | a repeat click adds one to the count, moves the last click and the URL, and keeps the first click and device |
| Storage.UpsertFrame | lib/analytics/storage.ts:17-63 | only the document at the request's id is touched |
| Storage.ClickStore.constructor | lib/analytics/storage.ts:17-63 | the collection starts empty |
| Storage.ClickStore.StoreTrackingData | lib/analytics/storage.ts:17-63 | when the store answers, the collection becomes the upsert; otherwise it is unchanged and the call fails |
| Storage.ClickStore.GetClickByFingerprint | lib/analytics/storage.ts:68-84 | a document exactly when the store answers and one has that id, and then that document |
| Storage.ClickStore.DeleteOldTrackingData | lib/analytics/storage.ts:90-112 | the collection keeps exactly the documents clicked at or after the cutoff; the result is how many were deleted |
| Storage.SweepSpec | lib/analytics/storage.ts:90-112 | the kept and deleted sets partition the collection, kept documents are unchanged, and sweeping again deletes nothing |
| Storage.ClickCountIsCallCount | lib/analytics/storage.ts:17-63 | after sequential stores, a document exists exactly for the ids stored and its count is the number of stores to it |
| Storage.UpsertChronological | lib/analytics/storage.ts:31-57 | with a clock that never goes back, first click ≤ last click ≤ clock and created ≤ updated stay true |
| Storage.ApplyAllChronological | lib/analytics/storage.ts:17-63 | a sequential run with a non-decreasing clock leaves every document chronological |
| Storage.StoredIdsAreLong | lib/analytics/storage.ts:22-23 | a document id is ten characters longer than its fingerprint and campaign id together |
| Storage.BareFingerprintNotFound | lib/analytics/storage.ts:68-84 | no document id written by `storeTrackingData` equals a bare 64-digit fingerprint |
| Queries.ClickWeight | lib/analytics/queries.ts:38 | a missing or zero count weighs one click, any other count weighs itself |
| Queries.ReferrerOrNull | lib/analytics/queries.ts:81 | the empty referrer reads as null |
| Queries.LatestIsMax | lib/analytics/queries.ts:40-43 | a campaign's newest click is the largest present `last_click`, absent only when none is present |
| Queries.SummaryStep | lib/analytics/queries.ts:22-44 | one more document changes only its own campaign's row: one more device and its click weight |
| Queries.SummaryAbsent | lib/analytics/queries.ts:26-34 | a campaign with no documents has the empty row |
| Queries.InsertSorted | lib/analytics/queries.ts:46-50 | inserting into a list ordered by recency keeps it ordered |
| Queries.SortByRecency | lib/analytics/queries.ts:46-50 | the sort is a permutation, newest first, rows without a last click at the end |
| Queries.SortKeepsSums | lib/analytics/queries.ts:46-50 | sorting keeps the number of rows and their device and click totals |
| Queries.SummariesSums | lib/analytics/queries.ts:20-44 | over any campaign list, the rows add up to the per-campaign counts and weights |
| Queries.SummariesTotals | lib/analytics/queries.ts:20-44 | the unsorted rows number the distinct campaigns; their devices add up to the documents and their clicks to the total weight |
| Queries.SummariesMembers | lib/analytics/queries.ts:20-44 | a row is present exactly when it is the summary of a campaign that occurs |
| Queries.AllCampaignsSpec | lib/analytics/queries.ts:14-55 | one row per campaign, each that campaign's summary; devices add up to the number of documents, clicks to the total weight; newest first |
| Queries.Record | lib/analytics/queries.ts:22-44 | one document creates its campaign's row when new, counts one more device and its click weight there, and leaves every other row alone |
| Queries.GetAllCampaigns | lib/analytics/queries.ts:14-55 | the overview is the sorted per-campaign summaries of the snapshot, empty for an empty collection |
| Queries.Matching | lib/analytics/queries.ts:65-68 | the query returns as many documents as the campaign id occurs in the collection |
| Queries.MatchingMembers | lib/analytics/queries.ts:65-68 | a document is returned exactly when it is in the collection and belongs to the campaign |
| Queries.GetCampaignAnalytics | lib/analytics/queries.ts:60-96 | one device entry per campaign document in order; the devices count is the number of documents, the clicks total is the entries' sum |
| Queries.CollectEntries | lib/analytics/queries.ts:70-84 | the loop builds one entry per document, in order, and its running total is the sum of their clicks |
| Queries.EntrySumIsWeight | lib/analytics/queries.ts:73-84 | the campaign page's click total is the campaign's total click weight in the collection |
| Queries.AnalyticsAgreeWithSummary | lib/analytics/queries.ts:60-96 | the campaign page's device count and click total equal the overview row's, and each entry is keyed by its document id |
| Queries.GetDeviceBreakdown | lib/analytics/queries.ts:101-123 | each counter is the number of the campaign's devices of that type; together they count every device |
| Queries.CountDeviceTypes | lib/analytics/queries.ts:107-116 | each counter is the number of entries of that device type, and together they count every entry |
| Queries.CountBy | lib/analytics/queries.ts:132-137 | a name has an entry exactly when it occurs, and its value is its number of occurrences |
| Queries.CountsAddUp | lib/analytics/queries.ts:132-137 | the counts over the distinct names add up to the number of names |
| Queries.GetBrowserStats | lib/analytics/queries.ts:128-144 | one entry per browser seen with its device count; the counts add up to the campaign's documents |
| Queries.GetOSStats | lib/analytics/queries.ts:149-165 | one entry per operating system seen with its device count; the counts add up to the campaign's documents |
| Queries.GetTotalStats | lib/analytics/queries.ts:170-187 | the number of distinct campaigns, of documents and the total click weight; zeros for an empty collection |
| TrackRoute.OrElse | app/api/track/route.ts:86-91 | a given non-empty value is kept, otherwise the fallback |
| TrackRoute.OrNull | app/api/track/route.ts:86-91 | a given non-empty value is kept, otherwise null |
| TrackRoute.ValidationOrder | app/api/track/route.ts:26-67 | missing fields are reported first, then the fingerprint, then the campaign id; a request passes exactly when every check does, the last being `isValidTargetUrl` as written |
| TrackRoute.FixedRouteDiffers | app/api/track/route.ts:58-67 | the route with the corrected URL guard decides like the route as written except on requests passing the earlier checks whose target host is `::1`, `[::1]` or starts `172.` |
| TrackRoute.LoopbackTargetDiverges | app/api/track/route.ts:58-67 | a request to `http://[::1]/` passes the route as written and is refused by the corrected one |
| TrackRoute.Public172TargetDiverges | app/api/track/route.ts:58-67 | a request to a public `172.2.…` or `172.200-255.…` host is refused by the route as written and passes the corrected one |
| TrackRoute.ValidatedRequest | app/api/track/route.ts:26-91 | what reaches the store has a valid fingerprint and campaign id and an http(s) target the guard as written accepts, copies the body's fields, and stores no empty string where null or `unknown` is meant |
| TrackRoute.Post | app/api/track/route.ts:8-124 | the reply, the limiter's cache and the store after the call are those of the endpoint's specification function |
| TrackRoute.Get | app/api/track/route.ts:127-135 | `GET` is always refused with 405 |
| TrackRoute.RefusalChangesNothing | app/api/track/route.ts:26-79 | a 400 or 429 leaves the store unchanged; a 400 also leaves the limiter unchanged |
| TrackRoute.StoreFailureSpendsQuota | app/api/track/route.ts:70-123 | a valid request spends quota even when the store fails and the reply is 500 |
| TrackRoute.TrackedCountsOneClick | app/api/track/route.ts:82-109 | a 200 counts exactly one click on the request's document, touches no other document, and reports the remaining quota as one digit |
| TrackRoute.StatusCodes | app/api/track/route.ts:8-124 | every reply is 200, 400, 429 or 500 |
| TrackRoute.EleventhRequestLimited | app/api/track/route.ts:70-79 | ten valid requests at one instant are tracked and the eleventh gets 429 |
| DeviceParser.ClassifyIff | lib/utils/device-parser.ts:13-21 | each device type arises from exactly the parser results named; other parser types are unknown |
| DeviceParser.ParsedFields | lib/utils/device-parser.ts:23-30 | names and versions found are kept, missing ones read `Unknown`, the User-Agent is kept verbatim |
| DeviceParser.LabelsDistinct | lib/utils/device-parser.ts:36-44 | no two device types share a label, and every label is capitalised |
| DeviceParser.FormatShowsType | lib/utils/device-parser.ts:49-51 | with the same browser and OS, two descriptions agree exactly when the device types do |
| Middleware.GateSpec | middleware.ts:8-27 | only `/dashboard` paths are gated; there a request passes exactly when its header is valid Basic auth; a refusal is the 401 challenge |
| Middleware.TokenAfterScheme | middleware.ts:35 | the token is the word after the first space |
| Middleware.SingleWordRefused | middleware.ts:35-38 | a header without a space has no token and is refused |
| Middleware.PlainCredentials | middleware.ts:40-47 | `user:password` with no further colon passes exactly when both match the configured values, `admin` when unset |
| Middleware.TrailingPieceIgnored | middleware.ts:41 | with the defaults, `admin:admin:anything` passes |
| Middleware.ColonPasswordUnreachable | middleware.ts:41-47 | a configured password containing `:` can never be entered |
| Middleware.FailuresRefused | middleware.ts:36-51 | an empty token, a decode error or credentials without a colon are refused |
| Patterns.RepeatMatchSpec | lib/utils/validation.ts:55-58 | the anchored bounded-repetition matcher accepts exactly the strings of allowed length made of class characters |
| Strings.BeforeFirst | lib/fingerprint/server.ts:15-18 | `split(sep)[0]` is a separator-free prefix that ends at the first separator or at the end of the text |
| Strings.FirstPieceUnique | lib/fingerprint/server.ts:15-18 | any separator-free prefix ending at a separator or at the end is the piece `split(sep)[0]` returns |
| Strings.SplitJoin | lib/fingerprint/server.ts:21 | joining the pieces of a split with the separator gives the original string |

## Left out

- The rate limiter's LRU capacity of 500 entries is not modelled. A full cache evicts the least recently used identifier, which then starts again with nothing recent.
- The cache TTL itself is not modelled. `RateLimiting.ExpiryUnobservable` shows that the expiry changes no result.
- SHA-256, MD5, SubtleCrypto and Thumbmark.js are parameters; their internals are not modelled.
- The URL parser, the User-Agent parser and Buffer's base64 decoder are parameters.
- `Date.now()`, `new Date()` and Firestore's server timestamp are parameters. Each call of `getCampaignAnalytics` reads one `now` for every missing timestamp.
- `setDate(getDate() - daysOld)` is modelled as whole days of 86 400 000 ms; daylight-saving shifts are not modelled.
- Firestore is a map from document id to document, and the snapshot order is the given sequence order. Transactions, concurrency and batch limits are not modelled: calls happen one after another.
- Firestore errors are a `reachable` flag. A store failure's thrown error is the route's 500, and a query's rethrown error is not modelled.
- Queries.SortByRecency: JavaScript's comparator returns 1 even when both rows lack a last click, so that order is engine-defined. The model uses a stable sort that keeps snapshot order among those rows.
- Queries.ClickWeight: `click_count` is an optional integer; a non-number value in a document is not modelled.
- TrackRoute.Post: the body's fields are strings or absent, and `device` is a well-formed device record as `parseUserAgent` builds it. A client sending other JSON is not modelled: a device whose `type` is another string, or a fingerprint sent as a one-element array, which passes the regular expression through string conversion and keys the limiter's cache by a fresh object on every call.
- Queries.GetDeviceBreakdown: assumes every stored device type is one of the four; a document with another `type` adds a key outside the four counters in the source, so their sum would fall short of the device count.
- Queries.CountBy, Queries.GetBrowserStats, Queries.GetOSStats: the source counts into a plain object, whose inherited keys (`__proto__`, `constructor`, `toString`) misbehave as browser or system names; the model counts into a map and does not model those names.
- Strings are sequences of Unicode scalar values, not UTF-16 code units; lone surrogates, which make `encodeURIComponent` throw, cannot arise.
- Middleware: the `config.matcher` routing is not modelled; the `/dashboard` prefix test in the function body is.
- Middleware: a decode failure in the `try` block is the decoder returning none.
- RateLimiting: only the call with the route's limit is used by the endpoint; other limits are modelled but never exercised by a caller.
- The UI components, app/api/analytics/route.ts and lib/firebase are not part of this model.

## Findings

| source | as written | input that shows it | evidently intended | confidence | as-written member | corrected member |
|---|---|---|---|---|---|---|
| lib/fingerprint/client.ts:67-69 | when SubtleCrypto throws, the combination falls back to unpadded base64 text cut to 64 characters, which the track endpoint's fingerprint check rejects | any server hash starting with a hex digit while SubtleCrypto throws: the base64 text then starts with one of `M N O Q R Y Z`, e.g. server hash `a` gives `YT…` | a fallback that still yields 64 hex digits, which the track endpoint accepts | not executed | ClientFingerprint.FallbackCombineRejected | ClientFingerprint.CombineClientFingerprintsFixed |
| lib/utils/validation.ts:20 | the blocklist entry `::1` never matches, because `URL.hostname` reports the IPv6 loopback with brackets | `http://[::1]/` | the IPv6 loopback is rejected | not executed | Validation.Ipv6LoopbackAccepted | Validation.FixedRejectsIpv6Loopback |
| lib/utils/validation.ts:28 | `startsWith('172.2')` also matches public addresses outside 172.16.0.0/12 | `http://172.2.0.1/`, `http://172.200.0.1/` | only 172.16.0.0 to 172.31.255.255 are rejected | not executed | Validation.Public172Rejected | Validation.FixedAcceptsPublic172 |
