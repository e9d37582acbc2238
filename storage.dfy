/** The click store (lib/analytics/storage.ts): one document per
    (fingerprint, campaign, target URL) under a composite id, created on the
    first click and counted up on every later one, and a sweep deleting the
    documents whose last click is too old.

    The `clicks` collection is a map from document id to `ClickData`, owned
    by a `ClickStore` object and changed one call at a time. The server
    timestamp is the parameter `now`; MD5 (RFC 1321) is the parameter `md5`
    giving the 16-byte digest of the URL; `reachable` says whether the
    Firestore calls succeed (when they do not, the call throws). */
module Storage {
  import opened Base
  import opened Types
  import Encoding
  import Tally

  /** An MD5 digest. */
  type Digest16 = s: seq<byte> | |s| == 16 witness seq(16, i => 0)

  const MsPerDay: int := 86400000

  /** `deleteOldTrackingData`'s default age, in days. */
  const DefaultRetentionDays: int := 90

  /** `hashUrl`: the first 8 hex digits of the URL's MD5, that is the first
      four bytes of the digest in base16. */
  function HashUrl(md5: string -> Digest16, url: string): (h: string)
    ensures |h| == 8 && forall i :: 0 <= i < 8 ==> Encoding.IsLowerHexDigit(h[i])
    ensures h == Encoding.Hex(md5(url)[..4])
  {
    HexPrefix(md5(url), 4);
    Encoding.Hex(md5(url))[..8]
  }

  /** Rendering a prefix of the bytes renders a prefix of the text. */
  lemma {:induction false} HexPrefix(bs: seq<byte>, k: nat)
    requires k <= |bs|
    ensures Encoding.Hex(bs)[..2 * k] == Encoding.Hex(bs[..k])
  {
    if k > 0 {
      HexPrefix(bs[1..], k - 1);
      assert bs[..k][1..] == bs[1..][..k - 1];
      assert Encoding.Hex(bs) == Encoding.HexByte(bs[0]) + Encoding.Hex(bs[1..]);
      assert Encoding.Hex(bs[..k]) == Encoding.HexByte(bs[0]) + Encoding.Hex(bs[..k][1..]);
    }
  }

  /** `${fingerprint}_${campaignId}_${urlHash}` */
  function DocId(fingerprint: string, campaignId: string, urlHash: string): string {
    fingerprint + "_" + campaignId + "_" + urlHash
  }

  /** The document a request is recorded under. */
  function KeyOf(md5: string -> Digest16, data: TrackingRequest): string {
    DocId(data.fingerprint, data.campaignId, HashUrl(md5, data.targetUrl))
  }

  /** With fingerprints and URL hashes of fixed lengths (64 and 8 for every
      stored click) the id determines the triple, even though a campaign id
      may itself contain `_`. */
  lemma DocIdInjective(f1: string, c1: string, h1: string, f2: string, c2: string, h2: string)
    requires |f1| == |f2| && |h1| == |h2|
    ensures DocId(f1, c1, h1) == DocId(f2, c2, h2) <==> f1 == f2 && c1 == c2 && h1 == h2
  {
    var k1, k2 := DocId(f1, c1, h1), DocId(f2, c2, h2);
    if k1 == k2 {
      assert |c1| == |c2|;
      assert f1 == k1[..|f1|] && f2 == k2[..|f2|];
      assert c1 == k1[|f1| + 1..|f1| + 1 + |c1|] && c2 == k2[|f2| + 1..|f2| + 1 + |c2|];
      assert h1 == k1[|k1| - |h1|..] && h2 == k2[|k2| - |h2|..];
    }
  }

  /** The document written for a first click. */
  function Created(data: TrackingRequest, now: Millis): ClickData {
    ClickData(data.fingerprint, data.campaignId, data.targetUrl, now, now, now, now, 1,
              data.device, data.referrer, data.ip, data.language, data.serverHash, data.clientHash)
  }

  /** The update for a returning click: newer last click, one more click, the new target URL. */
  function Bumped(doc: ClickData, targetUrl: string, now: Millis): ClickData {
    doc.(lastClick := now, updatedAt := now, clickCount := doc.clickCount + 1, targetUrl := targetUrl)
  }

  /** The store after `storeTrackingData(data)` succeeds. */
  function Upsert(docs: map<string, ClickData>, key: string, data: TrackingRequest, now: Millis): map<string, ClickData> {
    if key !in docs then docs[key := Created(data, now)]
    else docs[key := Bumped(docs[key], data.targetUrl, now)]
  }

  /** A first click creates its document with a count of 1, every timestamp
      `now`, and the request's fields copied. */
  lemma UpsertCreates(docs: map<string, ClickData>, key: string, data: TrackingRequest, now: Millis)
    requires key !in docs
    ensures var d := Upsert(docs, key, data, now)[key];
      && d.clickCount == 1
      && d.firstClick == now && d.lastClick == now && d.createdAt == now && d.updatedAt == now
      && d.fingerprint == data.fingerprint && d.campaignId == data.campaignId && d.targetUrl == data.targetUrl
      && d.device == data.device && d.referrer == data.referrer && d.ip == data.ip
      && d.language == data.language && d.serverHash == data.serverHash && d.clientHash == data.clientHash
  {
  }

  /** A repeat click adds one to the count, moves the last click and the
      update time to `now`, replaces the target URL, and keeps every other
      field, the first click and the creation time included. */
  lemma UpsertRepeats(docs: map<string, ClickData>, key: string, data: TrackingRequest, now: Millis)
    requires key in docs
    ensures var d := Upsert(docs, key, data, now)[key];
      && d.clickCount == docs[key].clickCount + 1
      && d.lastClick == now && d.updatedAt == now && d.targetUrl == data.targetUrl
      && d.(lastClick := docs[key].lastClick, updatedAt := docs[key].updatedAt,
            clickCount := docs[key].clickCount, targetUrl := docs[key].targetUrl) == docs[key]
  {
  }

  /** Only the document at the key is touched. */
  lemma UpsertFrame(docs: map<string, ClickData>, key: string, data: TrackingRequest, now: Millis)
    ensures Upsert(docs, key, data, now).Keys == docs.Keys + {key}
    ensures forall k :: k in docs && k != key ==> Upsert(docs, key, data, now)[k] == docs[k]
  {
  }

  /** The outcome of a store call: done, or the thrown `Failed to store tracking data`. */
  datatype StoreOutcome = Stored | StoreFailed

  /** The `clicks` collection. */
  class ClickStore {
    var docs: map<string, ClickData>

    constructor()
      ensures docs == map[]
    {
      docs := map[];
    }

    /** `storeTrackingData(data)` with the clock reading `now`. */
    method StoreTrackingData(md5: string -> Digest16, data: TrackingRequest, now: Millis, reachable: bool)
      returns (outcome: StoreOutcome)
      modifies this
      ensures outcome == (if reachable then Stored else StoreFailed)
      ensures docs == if reachable then Upsert(old(docs), KeyOf(md5, data), data, now) else old(docs)
    {
      if !reachable {
        return StoreFailed;
      }
      var urlHash := HashUrl(md5, data.targetUrl);
      var docId := DocId(data.fingerprint, data.campaignId, urlHash);
      if docId !in docs {
        docs := docs[docId := Created(data, now)];
      } else {
        docs := docs[docId := Bumped(docs[docId], data.targetUrl, now)];
      }
      outcome := Stored;
    }

    /** `getClickByFingerprint(fingerprint)`: the document whose id is the
        bare fingerprint; `None` when there is none or the read fails. */
    method GetClickByFingerprint(fingerprint: string, reachable: bool) returns (r: Option<ClickData>)
      ensures r.Some? <==> reachable && fingerprint in docs
      ensures r.Some? ==> r.value == docs[fingerprint]
    {
      if !reachable || fingerprint !in docs {
        return None;
      }
      r := Some(docs[fingerprint]);
    }

    /** `deleteOldTrackingData(daysOld)` at time `now`: the documents whose
        last click is before the cutoff are deleted in one batch and their
        number returned; `None` is the thrown error, and then nothing is deleted. */
    method DeleteOldTrackingData(daysOld: int, now: Millis, reachable: bool) returns (r: Option<nat>)
      modifies this
      ensures !reachable ==> r.None? && docs == old(docs)
      ensures reachable ==> && r == Some(|Expired(old(docs), Cutoff(now, daysOld))|)
                            && docs == Retained(old(docs), Cutoff(now, daysOld))
    {
      if !reachable {
        return None;
      }
      var cutoff := Cutoff(now, daysOld);
      var snapshot := set k | k in docs && docs[k].lastClick < cutoff;
      var pending := snapshot;
      ghost var original := docs;
      while pending != {}
        invariant pending <= snapshot
        invariant snapshot == Expired(original, cutoff)
        invariant docs == map k | k in original && (k !in snapshot || k in pending) :: original[k]
        decreases pending
      {
        var k :| k in pending;
        docs := docs - {k};
        pending := pending - {k};
      }
      r := Some(|snapshot|);
    }
  }

  /** `cutoffDate.setDate(cutoffDate.getDate() - daysOld)`, as whole days of milliseconds. */
  function Cutoff(now: Millis, daysOld: int): Millis {
    now - daysOld * MsPerDay
  }

  /** The ids the sweep deletes: last click strictly before the cutoff. */
  function Expired(docs: map<string, ClickData>, cutoff: Millis): set<string> {
    set k | k in docs && docs[k].lastClick < cutoff
  }

  /** The documents the sweep keeps. */
  function Retained(docs: map<string, ClickData>, cutoff: Millis): map<string, ClickData> {
    map k | k in docs && docs[k].lastClick >= cutoff :: docs[k]
  }

  /** The sweep keeps exactly the documents clicked at or after the cutoff,
      unchanged, and the number it reports is the number that disappeared. */
  lemma {:induction false} SweepSpec(docs: map<string, ClickData>, cutoff: Millis)
    ensures forall k :: k in Retained(docs, cutoff) <==> k in docs && docs[k].lastClick >= cutoff
    ensures forall k :: k in Retained(docs, cutoff) ==> Retained(docs, cutoff)[k] == docs[k]
    ensures |Expired(docs, cutoff)| + |Retained(docs, cutoff)| == |docs|
    ensures Retained(Retained(docs, cutoff), cutoff) == Retained(docs, cutoff)
  {
    var kept := Retained(docs, cutoff).Keys;
    assert docs.Keys == Expired(docs, cutoff) + kept;
    assert Expired(docs, cutoff) !! kept;
  }

  /** One event: the request stored and the server clock at that moment. */
  type Event = (TrackingRequest, Millis)

  /** The store after a sequence of successful `storeTrackingData` calls, in order. */
  function ApplyAll(md5: string -> Digest16, docs: map<string, ClickData>, events: seq<Event>): map<string, ClickData> {
    if events == [] then docs
    else
      var last := events[|events| - 1];
      Upsert(ApplyAll(md5, docs, events[..|events| - 1]), KeyOf(md5, last.0), last.0, last.1)
  }

  /** The document ids of the events, in order. */
  function EventKeys(md5: string -> Digest16, events: seq<Event>): (ks: seq<string>)
    ensures |ks| == |events| && forall i :: 0 <= i < |events| ==> ks[i] == KeyOf(md5, events[i].0)
  {
    seq(|events|, i requires 0 <= i < |events| => KeyOf(md5, events[i].0))
  }

  /** Run one after another from an empty store, the store holds a document
      exactly for the keys that occurred, and each document's count is the
      number of calls with its key. */
  lemma {:induction false} ClickCountIsCallCount(md5: string -> Digest16, events: seq<Event>, key: string)
    ensures key in ApplyAll(md5, map[], events) <==> key in EventKeys(md5, events)
    ensures key in ApplyAll(md5, map[], events) ==>
      ApplyAll(md5, map[], events)[key].clickCount == Tally.Count(EventKeys(md5, events), key)
  {
    if events != [] {
      var init := events[..|events| - 1];
      ClickCountIsCallCount(md5, init, key);
      assert EventKeys(md5, events)[..|events| - 1] == EventKeys(md5, init);
      assert EventKeys(md5, events) == EventKeys(md5, init) + [KeyOf(md5, events[|events| - 1].0)];
    }
  }

  /** Every document's clicks are ordered: created first, clicked first,
      clicked last, no later than the clock. */
  ghost predicate Chronological(docs: map<string, ClickData>, clock: Millis) {
    forall k :: k in docs ==>
      docs[k].createdAt == docs[k].firstClick <= docs[k].lastClick == docs[k].updatedAt <= clock
  }

  /** With a clock that never goes back, storing keeps every document chronological. */
  lemma UpsertChronological(docs: map<string, ClickData>, clock: Millis, key: string, data: TrackingRequest, now: Millis)
    requires Chronological(docs, clock) && clock <= now
    ensures Chronological(Upsert(docs, key, data, now), now)
  {
  }

  /** The timestamps of the events, in order. */
  predicate NonDecreasing(events: seq<Event>) {
    forall i, j :: 0 <= i < j < |events| ==> events[i].1 <= events[j].1
  }

  /** Run sequentially with a non-decreasing clock from an empty store, every
      document's last click is at or after its first. */
  lemma {:induction false} ApplyAllChronological(md5: string -> Digest16, events: seq<Event>)
    requires events != [] && NonDecreasing(events)
    ensures Chronological(ApplyAll(md5, map[], events), events[|events| - 1].1)
    ensures forall k :: k in ApplyAll(md5, map[], events) ==>
      ApplyAll(md5, map[], events)[k].firstClick <= ApplyAll(md5, map[], events)[k].lastClick
  {
    var init := events[..|events| - 1];
    var last := events[|events| - 1];
    if init == [] {
      UpsertChronological(map[], last.1, KeyOf(md5, last.0), last.0, last.1);
    } else {
      assert NonDecreasing(init);
      ApplyAllChronological(md5, init);
      UpsertChronological(ApplyAll(md5, map[], init), init[|init| - 1].1, KeyOf(md5, last.0), last.0, last.1);
    }
  }

  /** Ids of stored clicks are longer than any fingerprint of 64 characters,
      so `getClickByFingerprint` never finds a document that
      `storeTrackingData` wrote for such a fingerprint. */
  lemma StoredIdsAreLong(md5: string -> Digest16, data: TrackingRequest)
    ensures |KeyOf(md5, data)| == |data.fingerprint| + |data.campaignId| + 10
  {
  }

  /** Every document id of a run is longer than 64 characters when every
      fingerprint is 64 characters long, so a lookup by a bare fingerprint
      finds nothing. */
  lemma {:induction false} BareFingerprintNotFound(md5: string -> Digest16, events: seq<Event>, fingerprint: string)
    requires forall i :: 0 <= i < |events| ==> |events[i].0.fingerprint| == 64
    requires |fingerprint| == 64
    ensures fingerprint !in ApplyAll(md5, map[], events)
  {
    if events != [] {
      BareFingerprintNotFound(md5, events[..|events| - 1], fingerprint);
      StoredIdsAreLong(md5, events[|events| - 1].0);
    }
  }
}
