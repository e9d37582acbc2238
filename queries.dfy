/** The dashboard's read side (lib/analytics/queries.ts): per-campaign
    summaries over the whole `clicks` collection, one campaign's device list,
    and the breakdowns and totals derived from them.

    A snapshot is the sequence of documents the query returns, in the order
    it returns them. A document may lack a count or timestamps (the store
    writes them, but nothing stops other writers), so those are `Option`s.
    Each query's `catch` only rethrows, so a failed read is not modelled. */
module Queries {
  import opened Base
  import opened Types
  import Tally

  /** A document as read back: its id and the fields the queries look at. */
  datatype StoredClick = StoredClick(
    id: string,
    campaignId: string,
    device: DeviceInfo,
    firstClick: Option<Millis>,
    lastClick: Option<Millis>,
    clickCount: Option<int>,
    referrer: Option<string>)

  /** One campaign's row on the overview. */
  datatype CampaignStats = CampaignStats(
    id: string,
    campaignId: string,
    uniqueDevices: int,
    totalClicks: int,
    lastClick: Option<Millis>)

  /** One device of a campaign. */
  datatype DeviceAnalytics = DeviceAnalytics(
    fingerprint: string,
    device: DeviceInfo,
    firstClick: Millis,
    lastClick: Millis,
    clickCount: int,
    referrer: Option<string>)

  datatype CampaignAnalytics = CampaignAnalytics(
    campaignId: string,
    uniqueDevices: int,
    totalClicks: int,
    devices: seq<DeviceAnalytics>)

  datatype DeviceBreakdown = DeviceBreakdown(mobile: int, tablet: int, desktop: int, unknown: int)

  datatype TotalStats = TotalStats(totalCampaigns: int, totalUniqueDevices: int, totalClicks: int)

  /** `data.click_count || 1`: a missing or zero count is taken as one click. */
  function ClickWeight(count: Option<int>): (w: int)
    ensures count.None? ==> w == 1
    ensures count.Some? ==> w == (if count.value == 0 then 1 else count.value)
    ensures (count.None? || count.value >= 0) ==> w >= 1
  {
    if count.None? || count.value == 0 then 1 else count.value
  }

  /** `data.referrer || null`: the empty referrer reads as none. */
  function ReferrerOrNull(referrer: Option<string>): (r: Option<string>)
    ensures r.Some? <==> referrer.Some? && referrer.value != ""
    ensures r.Some? ==> r == referrer
  {
    if referrer.Some? && referrer.value == "" then None else referrer
  }

  function CampaignIds(docs: seq<StoredClick>): (ids: seq<string>)
    ensures |ids| == |docs| && forall i :: 0 <= i < |docs| ==> ids[i] == docs[i].campaignId
  {
    seq(|docs|, i requires 0 <= i < |docs| => docs[i].campaignId)
  }

  /** Each document's campaign paired with its click weight. */
  function Weighted(docs: seq<StoredClick>): (ws: seq<(string, int)>)
    ensures |ws| == |docs|
    ensures forall i :: 0 <= i < |docs| ==> ws[i] == (docs[i].campaignId, ClickWeight(docs[i].clickCount))
  {
    seq(|docs|, i requires 0 <= i < |docs| => (docs[i].campaignId, ClickWeight(docs[i].clickCount)))
  }

  /** The overview's rule for the newest click: an absent current value is
      replaced by whatever comes, a present one only by a strictly later time. */
  function Later(current: Option<Millis>, candidate: Option<Millis>): Option<Millis> {
    if current.None? || (candidate.Some? && candidate.value > current.value) then candidate else current
  }

  /** The newest click of campaign `c` as the overview's loop computes it. */
  function Latest(docs: seq<StoredClick>, c: string): Option<Millis> {
    if docs == [] then None
    else
      var prev := Latest(docs[..|docs| - 1], c);
      var d := docs[|docs| - 1];
      if d.campaignId == c then Later(prev, d.lastClick) else prev
  }

  /** The summary of campaign `c` over the documents. */
  function Summary(docs: seq<StoredClick>, c: string): CampaignStats {
    CampaignStats(c, c, Tally.Count(CampaignIds(docs), c), Tally.Weight(Weighted(docs), c), Latest(docs, c))
  }

  function SummariesOver(docs: seq<StoredClick>, ks: seq<string>): (r: seq<CampaignStats>)
    ensures |r| == |ks| && forall i :: 0 <= i < |ks| ==> r[i] == Summary(docs, ks[i])
  {
    seq(|ks|, i requires 0 <= i < |ks| => Summary(docs, ks[i]))
  }

  /** The summaries in the order their campaigns first appear in the snapshot
      (the iteration order of the `Map` they are grouped in). */
  function Summaries(docs: seq<StoredClick>): seq<CampaignStats> {
    SummariesOver(docs, Tally.Distinct(CampaignIds(docs)))
  }

  /** The newest click is the largest present `last_click` of the campaign,
      and absent only when none of its documents has one. */
  lemma {:induction false} LatestIsMax(docs: seq<StoredClick>, c: string)
    ensures Latest(docs, c).None? <==>
      forall i :: 0 <= i < |docs| && docs[i].campaignId == c ==> docs[i].lastClick.None?
    ensures Latest(docs, c).Some? ==>
      && (exists i :: 0 <= i < |docs| && docs[i].campaignId == c && docs[i].lastClick == Latest(docs, c))
      && forall i :: 0 <= i < |docs| && docs[i].campaignId == c && docs[i].lastClick.Some? ==>
           docs[i].lastClick.value <= Latest(docs, c).value
  {
    if docs != [] {
      var init := docs[..|docs| - 1];
      LatestIsMax(init, c);
      assert forall i :: 0 <= i < |init| ==> init[i] == docs[i];
      var last := |docs| - 1;
      if Latest(init, c).Some? {
        var j :| 0 <= j < |init| && init[j].campaignId == c && init[j].lastClick == Latest(init, c);
        assert docs[j] == init[j];
      }
      if docs[last].campaignId == c && docs[last].lastClick.Some? {
        assert docs[last].lastClick == Latest(docs, c) || docs[last].lastClick.value <= Latest(docs, c).value;
      }
    }
  }

  /** Extending the snapshot by one document changes only that document's campaign summary. */
  lemma SummaryStep(docs: seq<StoredClick>, i: nat, c: string)
    requires i < |docs|
    ensures var s := Summary(docs[..i], c);
      Summary(docs[..i + 1], c) ==
        if docs[i].campaignId == c then
          s.(uniqueDevices := s.uniqueDevices + 1,
             totalClicks := s.totalClicks + ClickWeight(docs[i].clickCount),
             lastClick := Later(s.lastClick, docs[i].lastClick))
        else s
  {
    assert docs[..i + 1][..i] == docs[..i];
    assert CampaignIds(docs[..i + 1])[..i] == CampaignIds(docs[..i]);
    assert Weighted(docs[..i + 1])[..i] == Weighted(docs[..i]);
  }

  /** A campaign absent from the snapshot has the empty summary. */
  lemma {:induction false} SummaryAbsent(docs: seq<StoredClick>, c: string)
    requires c !in CampaignIds(docs)
    ensures Summary(docs, c) == CampaignStats(c, c, 0, 0, None)
  {
    assert Tally.KeysOf(Weighted(docs)) == CampaignIds(docs);
    Tally.WeightAbsent(Weighted(docs), c);
    LatestIsMax(docs, c);
  }

  // ---------------------------------------------------------------------
  // Sorting the overview

  /** `a` sorts strictly before `b`: it has a last click and `b` has none or an earlier one. */
  predicate Precedes(a: CampaignStats, b: CampaignStats) {
    a.lastClick.Some? && (b.lastClick.None? || a.lastClick.value > b.lastClick.value)
  }

  /** Newest first, the ones without a last click at the end. */
  predicate ByRecency(s: seq<CampaignStats>) {
    forall i, j :: 0 <= i < j < |s| ==> !Precedes(s[j], s[i])
  }

  function Insert(x: CampaignStats, s: seq<CampaignStats>): (r: seq<CampaignStats>)
    ensures multiset(r) == multiset(s) + multiset{x}
  {
    if s == [] || !Precedes(s[0], x) then [x] + s
    else
      assert s == [s[0]] + s[1..];
      [s[0]] + Insert(x, s[1..])
  }

  /** Inserting into a list sorted by recency keeps it sorted. */
  lemma {:induction false} InsertSorted(x: CampaignStats, s: seq<CampaignStats>)
    requires ByRecency(s)
    ensures ByRecency(Insert(x, s))
  {
    if s == [] || !Precedes(s[0], x) {
      ConsSorted(x, s);
    } else {
      SortedTail(s);
      InsertSorted(x, s[1..]);
      InsertedAfterHead(x, s);
      ConsSorted(s[0], Insert(x, s[1..]));
    }
  }

  /** A sorted list stays sorted when a head no later element precedes is put in front. */
  lemma ConsSorted(a: CampaignStats, s: seq<CampaignStats>)
    requires ByRecency(s)
    requires forall j :: 0 <= j < |s| ==> !Precedes(s[j], a)
    ensures ByRecency([a] + s)
  {
    var r := [a] + s;
    forall i, j | 0 <= i < j < |r| ensures !Precedes(r[j], r[i]) {
      assert r[j] == s[j - 1];
      if i > 0 {
        assert r[i] == s[i - 1];
      }
    }
  }

  lemma SortedTail(s: seq<CampaignStats>)
    requires ByRecency(s) && s != []
    ensures ByRecency(s[1..])
  {
    forall i, j | 0 <= i < j < |s[1..]| ensures !Precedes(s[1..][j], s[1..][i]) {
      assert s[1..][i] == s[i + 1] && s[1..][j] == s[j + 1];
    }
  }

  /** When the head precedes `x`, nothing of the insertion into the tail precedes the head. */
  lemma InsertedAfterHead(x: CampaignStats, s: seq<CampaignStats>)
    requires ByRecency(s) && s != [] && Precedes(s[0], x)
    ensures forall j :: 0 <= j < |Insert(x, s[1..])| ==> !Precedes(Insert(x, s[1..])[j], s[0])
  {
    var rest := Insert(x, s[1..]);
    forall j | 0 <= j < |rest| ensures !Precedes(rest[j], s[0]) {
      assert rest[j] in multiset(rest);
      if rest[j] != x {
        assert rest[j] in multiset(s[1..]);
        var k :| 0 <= k < |s[1..]| && s[1..][k] == rest[j];
        assert s[k + 1] == rest[j];
      }
    }
  }

  /** The `sort` of the overview: a stable sort newest first, with the
      campaigns lacking a last click after all others. */
  function SortByRecency(s: seq<CampaignStats>): (r: seq<CampaignStats>)
    ensures multiset(r) == multiset(s)
    ensures ByRecency(r)
  {
    if s == [] then []
    else
      InsertSorted(s[0], SortByRecency(s[1..]));
      assert s == [s[0]] + s[1..];
      Insert(s[0], SortByRecency(s[1..]))
  }

  function SumDevices(s: seq<CampaignStats>): int {
    if s == [] then 0 else s[0].uniqueDevices + SumDevices(s[1..])
  }

  function SumClicks(s: seq<CampaignStats>): int {
    if s == [] then 0 else s[0].totalClicks + SumClicks(s[1..])
  }

  /** Sorting moves rows about without changing what they add up to. */
  lemma {:induction false} SortKeepsSums(s: seq<CampaignStats>)
    ensures |SortByRecency(s)| == |s|
    ensures SumDevices(SortByRecency(s)) == SumDevices(s)
    ensures SumClicks(SortByRecency(s)) == SumClicks(s)
  {
    if s != [] {
      SortKeepsSums(s[1..]);
      InsertSums(s[0], SortByRecency(s[1..]));
    }
  }

  lemma {:induction false} InsertSums(x: CampaignStats, s: seq<CampaignStats>)
    ensures |Insert(x, s)| == |s| + 1
    ensures SumDevices(Insert(x, s)) == x.uniqueDevices + SumDevices(s)
    ensures SumClicks(Insert(x, s)) == x.totalClicks + SumClicks(s)
  {
    if s != [] && Precedes(s[0], x) {
      InsertSums(x, s[1..]);
      assert ([s[0]] + Insert(x, s[1..]))[1..] == Insert(x, s[1..]);
    }
  }

  /** Over any list of campaigns, the rows add up to the per-key sums. */
  lemma {:induction false} SummariesSums(docs: seq<StoredClick>, ks: seq<string>)
    ensures SumDevices(SummariesOver(docs, ks)) == Tally.SumWeights(ks, Tally.WithOnes(CampaignIds(docs)))
    ensures SumClicks(SummariesOver(docs, ks)) == Tally.SumWeights(ks, Weighted(docs))
  {
    if ks != [] {
      SummariesSums(docs, ks[1..]);
      assert SummariesOver(docs, ks)[1..] == SummariesOver(docs, ks[1..]);
      Tally.CountIsWeight(CampaignIds(docs), ks[0]);
    }
  }

  /** The overview accounts for every document once: its rows' devices add
      up to the number of documents and its clicks to the sum of all click
      weights, there is one row per campaign, and each row is that campaign's summary. */
  lemma AllCampaignsSpec(docs: seq<StoredClick>)
    ensures var r := SortByRecency(Summaries(docs));
      && |r| == |Tally.Distinct(CampaignIds(docs))|
      && (forall x :: x in r <==> x.campaignId in CampaignIds(docs) && x == Summary(docs, x.campaignId))
      && SumDevices(r) == |docs|
      && SumClicks(r) == Tally.Total(Weighted(docs))
      && ByRecency(r)
  {
    var s := Summaries(docs);
    var r := SortByRecency(s);
    SortKeepsSums(s);
    SummariesTotals(docs);
    SummariesMembers(docs);
    forall x: CampaignStats ensures x in r <==> x in s {
      assert x in r <==> x in multiset(r);
      assert x in s <==> x in multiset(s);
    }
  }

  /** The unsorted rows: one per campaign, adding up to the documents and their weights. */
  lemma SummariesTotals(docs: seq<StoredClick>)
    ensures |Summaries(docs)| == |Tally.Distinct(CampaignIds(docs))|
    ensures SumDevices(Summaries(docs)) == |docs|
    ensures SumClicks(Summaries(docs)) == Tally.Total(Weighted(docs))
  {
    var ids := CampaignIds(docs);
    SummariesSums(docs, Tally.Distinct(ids));
    Tally.CountsOverDistinct(ids);
    assert Tally.KeysOf(Weighted(docs)) == ids;
    Tally.WeightsOverDistinct(Weighted(docs));
  }

  /** The unsorted rows are exactly the summaries of the campaigns present. */
  lemma SummariesMembers(docs: seq<StoredClick>)
    ensures forall x: CampaignStats :: x in Summaries(docs) <==> x.campaignId in CampaignIds(docs) && x == Summary(docs, x.campaignId)
  {
    var ks := Tally.Distinct(CampaignIds(docs));
    forall x: CampaignStats | x.campaignId in CampaignIds(docs) && x == Summary(docs, x.campaignId)
      ensures x in Summaries(docs)
    {
      var k :| 0 <= k < |ks| && ks[k] == x.campaignId;
      assert Summaries(docs)[k] == x;
    }
  }

  /** The grouping `Map` after the documents seen so far: its keys in
      insertion order and each key's summary. */
  ghost predicate Grouped(seen: seq<StoredClick>, campaigns: map<string, CampaignStats>, order: seq<string>) {
    && order == Tally.Distinct(CampaignIds(seen))
    && (forall c :: c in campaigns <==> c in order)
    && (forall c :: c in campaigns ==> campaigns[c] == Summary(seen, c))
  }

  /** The row a document's campaign has before the document is counted: a
      fresh zero row when the campaign is new. */
  function RowFor(campaigns: map<string, CampaignStats>, c: string): CampaignStats {
    if c in campaigns then campaigns[c] else CampaignStats(c, c, 0, 0, None)
  }

  /** A row after counting one more document of its campaign. */
  function Counted(row: CampaignStats, d: StoredClick): CampaignStats {
    row.(uniqueDevices := row.uniqueDevices + 1,
         totalClicks := row.totalClicks + ClickWeight(d.clickCount),
         lastClick := Later(row.lastClick, d.lastClick))
  }

  /** One turn of the grouping loop keeps the map equal to the summaries:
      the document's row is counted (starting from a zero row when its
      campaign is new, which then joins the order) and no other row changes. */
  lemma GroupedStep(docs: seq<StoredClick>, i: nat, campaigns: map<string, CampaignStats>, order: seq<string>,
                    campaigns': map<string, CampaignStats>, order': seq<string>, next: nat)
    requires i < |docs| && next == i + 1 && Grouped(docs[..i], campaigns, order)
    requires forall k :: k in campaigns' <==> k in campaigns || k == docs[i].campaignId
    requires forall k :: k in campaigns && k != docs[i].campaignId ==> campaigns'[k] == campaigns[k]
    requires docs[i].campaignId in campaigns' &&
             campaigns'[docs[i].campaignId] == Counted(RowFor(campaigns, docs[i].campaignId), docs[i])
    requires order' == if docs[i].campaignId in campaigns then order else order + [docs[i].campaignId]
    ensures Grouped(docs[..next], campaigns', order')
  {
    var c := docs[i].campaignId;
    assert CampaignIds(docs[..i + 1]) == CampaignIds(docs)[..i + 1];
    assert CampaignIds(docs[..i]) == CampaignIds(docs)[..i];
    Tally.DistinctPrefixStep(CampaignIds(docs), i);
    if c !in campaigns {
      SummaryAbsent(docs[..i], c);
    }
    SummaryStep(docs, i, c);
    forall k | k in campaigns' ensures campaigns'[k] == Summary(docs[..i + 1], k) {
      SummaryStep(docs, i, k);
    }
  }

  /** The body of the grouping `forEach`: count one document into its
      campaign's row, creating a zero row (last in the order) when the
      campaign is new; no other row changes. */
  method Record(campaigns: map<string, CampaignStats>, order: seq<string>, data: StoredClick)
    returns (campaigns': map<string, CampaignStats>, order': seq<string>)
    ensures forall k :: k in campaigns' <==> k in campaigns || k == data.campaignId
    ensures forall k :: k in campaigns && k != data.campaignId ==> campaigns'[k] == campaigns[k]
    ensures data.campaignId in campaigns' &&
            campaigns'[data.campaignId] == Counted(RowFor(campaigns, data.campaignId), data)
    ensures order' == if data.campaignId in campaigns then order else order + [data.campaignId]
  {
    var campaignId := data.campaignId;
    campaigns', order' := campaigns, order;
    if campaignId !in campaigns' {
      campaigns' := campaigns'[campaignId := CampaignStats(campaignId, campaignId, 0, 0, None)];
      order' := order' + [campaignId];
    }
    var campaign := campaigns'[campaignId];
    var lastClick := campaign.lastClick;
    if lastClick.None? || (data.lastClick.Some? && data.lastClick.value > lastClick.value) {
      lastClick := data.lastClick;
    }
    campaigns' := campaigns'[campaignId := campaign.(uniqueDevices := campaign.uniqueDevices + 1,
                                                     totalClicks := campaign.totalClicks + ClickWeight(data.clickCount),
                                                     lastClick := lastClick)];
  }

  /** `getAllCampaigns()` over a snapshot. */
  method GetAllCampaigns(docs: seq<StoredClick>) returns (r: seq<CampaignStats>)
    ensures r == SortByRecency(Summaries(docs))
    ensures docs == [] ==> r == []
  {
    var campaigns: map<string, CampaignStats> := map[];
    var order: seq<string> := [];
    var i := 0;
    assert CampaignIds(docs[..0]) == [];
    while i < |docs|
      invariant 0 <= i <= |docs|
      invariant Grouped(docs[..i], campaigns, order)
    {
      var campaigns', order' := Record(campaigns, order, docs[i]);
      GroupedStep(docs, i, campaigns, order, campaigns', order', i + 1);
      campaigns, order, i := campaigns', order', i + 1;
    }
    assert docs[..i] == docs;
    var values := seq(|order|, k requires 0 <= k < |order| => campaigns[order[k]]);
    assert values == Summaries(docs);
    r := SortByRecency(values);
  }

  // ---------------------------------------------------------------------
  // One campaign

  /** `.where('campaign_id', '==', campaignId)`: the campaign's documents in snapshot order. */
  function Matching(docs: seq<StoredClick>, c: string): (ms: seq<StoredClick>)
    ensures |ms| == Tally.Count(CampaignIds(docs), c)
  {
    if docs == [] then []
    else
      var init := docs[..|docs| - 1];
      var d := docs[|docs| - 1];
      assert CampaignIds(docs)[..|docs| - 1] == CampaignIds(init);
      assert docs == init + [d];
      if d.campaignId == c then Matching(init, c) + [d] else Matching(init, c)
  }

  /** The query returns exactly the documents of the campaign. */
  lemma {:induction false} MatchingMembers(docs: seq<StoredClick>, c: string)
    ensures forall d :: d in Matching(docs, c) <==> d in docs && d.campaignId == c
  {
    if docs != [] {
      var n := |docs| - 1;
      MatchingMembers(docs[..n], c);
      assert docs == docs[..n] + [docs[n]];
    }
  }

  /** The device entry of one document; missing times read as the clock `now`. */
  function Entry(d: StoredClick, now: Millis): DeviceAnalytics {
    DeviceAnalytics(
      d.id, d.device,
      if d.firstClick.Some? then d.firstClick.value else now,
      if d.lastClick.Some? then d.lastClick.value else now,
      ClickWeight(d.clickCount),
      ReferrerOrNull(d.referrer))
  }

  function Entries(ms: seq<StoredClick>, now: Millis): (es: seq<DeviceAnalytics>)
    ensures |es| == |ms| && forall i :: 0 <= i < |ms| ==> es[i] == Entry(ms[i], now)
  {
    seq(|ms|, i requires 0 <= i < |ms| => Entry(ms[i], now))
  }

  function EntrySum(es: seq<DeviceAnalytics>): int {
    if es == [] then 0 else EntrySum(es[..|es| - 1]) + es[|es| - 1].clickCount
  }

  /** `getCampaignAnalytics(campaignId)` over a snapshot, with `new Date()` reading `now`. */
  method GetCampaignAnalytics(docs: seq<StoredClick>, campaignId: string, now: Millis) returns (r: CampaignAnalytics)
    ensures r.campaignId == campaignId
    ensures r.devices == Entries(Matching(docs, campaignId), now)
    ensures r.uniqueDevices == |r.devices| == Tally.Count(CampaignIds(docs), campaignId)
    ensures r.totalClicks == EntrySum(r.devices)
  {
    var snapshot := Matching(docs, campaignId);
    var devices, totalClicks := CollectEntries(snapshot, now);
    r := CampaignAnalytics(campaignId, |devices|, totalClicks, devices);
  }

  /** The loop over the snapshot: one entry per document, and the running total of their clicks. */
  method CollectEntries(snapshot: seq<StoredClick>, now: Millis) returns (devices: seq<DeviceAnalytics>, totalClicks: int)
    ensures devices == Entries(snapshot, now)
    ensures totalClicks == EntrySum(devices)
  {
    devices := [];
    totalClicks := 0;
    var i := 0;
    while i < |snapshot|
      invariant 0 <= i <= |snapshot|
      invariant devices == Entries(snapshot[..i], now)
      invariant totalClicks == EntrySum(devices)
    {
      var data := snapshot[i];
      var entry := Entry(data, now);
      EntriesPrefixStep(snapshot, i, now);
      EntrySumSnoc(devices, entry);
      devices := devices + [entry];
      totalClicks := totalClicks + ClickWeight(data.clickCount);
      i := i + 1;
    }
    assert snapshot[..i] == snapshot;
  }

  /** The campaign page agrees with the overview: its device list has one
      entry per document of the campaign, keyed by document id, and its
      total is the overview row's total. */
  lemma AnalyticsAgreeWithSummary(docs: seq<StoredClick>, c: string, now: Millis)
    ensures var es := Entries(Matching(docs, c), now);
      && |es| == Summary(docs, c).uniqueDevices
      && EntrySum(es) == Summary(docs, c).totalClicks
      && forall i :: 0 <= i < |es| ==> es[i].fingerprint == Matching(docs, c)[i].id
  {
    EntrySumIsWeight(docs, c, now);
  }

  /** The campaign's entries add up to its weight in the snapshot. */
  lemma {:induction false} EntrySumIsWeight(docs: seq<StoredClick>, c: string, now: Millis)
    ensures EntrySum(Entries(Matching(docs, c), now)) == Tally.Weight(Weighted(docs), c)
  {
    if docs != [] {
      var n := |docs| - 1;
      EntrySumIsWeight(docs[..n], c, now);
      WeightedPrefix(docs);
      var ms := Matching(docs[..n], c);
      if docs[n].campaignId == c {
        EntriesSnoc(ms, docs[n], now);
        EntrySumSnoc(Entries(ms, now), Entry(docs[n], now));
      }
    }
  }

  lemma WeightedPrefix(docs: seq<StoredClick>)
    requires docs != []
    ensures Weighted(docs)[..|docs| - 1] == Weighted(docs[..|docs| - 1])
  {
  }

  lemma EntriesSnoc(ms: seq<StoredClick>, d: StoredClick, now: Millis)
    ensures Entries(ms + [d], now) == Entries(ms, now) + [Entry(d, now)]
  {
  }

  lemma EntriesPrefixStep(ms: seq<StoredClick>, i: nat, now: Millis)
    requires i < |ms|
    ensures Entries(ms[..i + 1], now) == Entries(ms[..i], now) + [Entry(ms[i], now)]
  {
    assert ms[..i + 1] == ms[..i] + [ms[i]];
    EntriesSnoc(ms[..i], ms[i], now);
  }

  lemma EntrySumSnoc(es: seq<DeviceAnalytics>, e: DeviceAnalytics)
    ensures EntrySum(es + [e]) == EntrySum(es) + e.clickCount
  {
    assert (es + [e])[..|es|] == es;
  }

  // ---------------------------------------------------------------------
  // Breakdowns

  function Kinds(ms: seq<StoredClick>): (ks: seq<DeviceType>)
    ensures |ks| == |ms| && forall i :: 0 <= i < |ms| ==> ks[i] == ms[i].device.deviceType
  {
    seq(|ms|, i requires 0 <= i < |ms| => ms[i].device.deviceType)
  }

  /** `getDeviceBreakdown(campaignId)`: how many of the campaign's devices are of each type. */
  method GetDeviceBreakdown(docs: seq<StoredClick>, campaignId: string, now: Millis) returns (b: DeviceBreakdown)
    ensures var kinds := Kinds(Matching(docs, campaignId));
      && b.mobile == Tally.Count(kinds, Mobile)
      && b.tablet == Tally.Count(kinds, Tablet)
      && b.desktop == Tally.Count(kinds, Desktop)
      && b.unknown == Tally.Count(kinds, Unknown)
    ensures b.mobile + b.tablet + b.desktop + b.unknown == Tally.Count(CampaignIds(docs), campaignId)
  {
    var analytics := GetCampaignAnalytics(docs, campaignId, now);
    b := CountDeviceTypes(analytics.devices, Kinds(Matching(docs, campaignId)));
  }

  /** The loop of `getDeviceBreakdown`: one count per device type, read from each entry. */
  method CountDeviceTypes(devices: seq<DeviceAnalytics>, kinds: seq<DeviceType>) returns (b: DeviceBreakdown)
    requires |kinds| == |devices|
    requires forall i :: 0 <= i < |devices| ==> devices[i].device.deviceType == kinds[i]
    ensures b.mobile == Tally.Count(kinds, Mobile) && b.tablet == Tally.Count(kinds, Tablet)
    ensures b.desktop == Tally.Count(kinds, Desktop) && b.unknown == Tally.Count(kinds, Unknown)
    ensures b.mobile + b.tablet + b.desktop + b.unknown == |kinds|
  {
    b := DeviceBreakdown(0, 0, 0, 0);
    var i := 0;
    while i < |devices|
      invariant 0 <= i <= |devices|
      invariant b.mobile == Tally.Count(kinds[..i], Mobile) && b.tablet == Tally.Count(kinds[..i], Tablet)
      invariant b.desktop == Tally.Count(kinds[..i], Desktop) && b.unknown == Tally.Count(kinds[..i], Unknown)
      invariant b.mobile + b.tablet + b.desktop + b.unknown == i
    {
      Tally.CountPrefixStep(kinds, i, Mobile);
      Tally.CountPrefixStep(kinds, i, Tablet);
      Tally.CountPrefixStep(kinds, i, Desktop);
      Tally.CountPrefixStep(kinds, i, Unknown);
      match devices[i].device.deviceType {
        case Mobile => b := b.(mobile := b.mobile + 1);
        case Tablet => b := b.(tablet := b.tablet + 1);
        case Desktop => b := b.(desktop := b.desktop + 1);
        case Unknown => b := b.(unknown := b.unknown + 1);
      }
      i := i + 1;
    }
    assert kinds[..i] == kinds;
  }

  /** The count of each name in the list, as the `stats[name] = (stats[name] || 0) + 1` loop builds it. */
  method CountBy(names: seq<string>) returns (stats: map<string, int>)
    ensures forall k :: k in stats <==> k in names
    ensures forall k :: k in stats ==> stats[k] == Tally.Count(names, k) >= 1
  {
    stats := map[];
    var i := 0;
    while i < |names|
      invariant 0 <= i <= |names|
      invariant forall k :: k in stats <==> k in names[..i]
      invariant forall k :: k in stats ==> stats[k] == Tally.Count(names[..i], k)
    {
      var name := names[i];
      assert names[..i + 1] == names[..i] + [name];
      assert names[..i + 1][..i] == names[..i];
      stats := stats[name := (if name in stats then stats[name] else 0) + 1];
      i := i + 1;
    }
    assert names[..i] == names;
  }

  /** The sum of a map's values over a list of keys. */
  function SumOver(ks: seq<string>, stats: map<string, int>): int
    requires forall k :: k in ks ==> k in stats
  {
    if ks == [] then 0 else stats[ks[0]] + SumOver(ks[1..], stats)
  }

  /** A table of counts built by `CountBy` adds up to the number of names it counted. */
  lemma CountsAddUp(names: seq<string>, stats: map<string, int>)
    requires forall k :: k in stats <==> k in names
    requires forall k :: k in stats ==> stats[k] == Tally.Count(names, k)
    ensures SumOver(Tally.Distinct(names), stats) == |names|
  {
    SumOverIsSumWeights(Tally.Distinct(names), names, stats);
    Tally.CountsOverDistinct(names);
  }

  lemma {:induction false} SumOverIsSumWeights(ks: seq<string>, names: seq<string>, stats: map<string, int>)
    requires forall k :: k in ks ==> k in stats
    requires forall k :: k in stats ==> stats[k] == Tally.Count(names, k)
    ensures SumOver(ks, stats) == Tally.SumWeights(ks, Tally.WithOnes(names))
  {
    if ks != [] {
      SumOverIsSumWeights(ks[1..], names, stats);
      Tally.CountIsWeight(names, ks[0]);
    }
  }

  function Browsers(ms: seq<StoredClick>): (bs: seq<string>)
    ensures |bs| == |ms| && forall i :: 0 <= i < |ms| ==> bs[i] == ms[i].device.browser
  {
    seq(|ms|, i requires 0 <= i < |ms| => ms[i].device.browser)
  }

  function OperatingSystems(ms: seq<StoredClick>): (os: seq<string>)
    ensures |os| == |ms| && forall i :: 0 <= i < |ms| ==> os[i] == ms[i].device.os
  {
    seq(|ms|, i requires 0 <= i < |ms| => ms[i].device.os)
  }

  /** `getBrowserStats(campaignId)`: for each browser seen, how many of the campaign's devices use it. */
  method GetBrowserStats(docs: seq<StoredClick>, campaignId: string, now: Millis) returns (stats: map<string, int>)
    ensures forall k :: k in stats <==> k in Browsers(Matching(docs, campaignId))
    ensures forall k :: k in stats ==> stats[k] == Tally.Count(Browsers(Matching(docs, campaignId)), k) >= 1
    ensures SumOver(Tally.Distinct(Browsers(Matching(docs, campaignId))), stats) == Tally.Count(CampaignIds(docs), campaignId)
  {
    var analytics := GetCampaignAnalytics(docs, campaignId, now);
    var browsers := seq(|analytics.devices|, i requires 0 <= i < |analytics.devices| => analytics.devices[i].device.browser);
    assert browsers == Browsers(Matching(docs, campaignId));
    stats := CountBy(browsers);
    CountsAddUp(browsers, stats);
  }

  /** `getOSStats(campaignId)`: for each operating system seen, how many of the campaign's devices run it. */
  method GetOSStats(docs: seq<StoredClick>, campaignId: string, now: Millis) returns (stats: map<string, int>)
    ensures forall k :: k in stats <==> k in OperatingSystems(Matching(docs, campaignId))
    ensures forall k :: k in stats ==> stats[k] == Tally.Count(OperatingSystems(Matching(docs, campaignId)), k) >= 1
    ensures SumOver(Tally.Distinct(OperatingSystems(Matching(docs, campaignId))), stats) == Tally.Count(CampaignIds(docs), campaignId)
  {
    var analytics := GetCampaignAnalytics(docs, campaignId, now);
    var systems := seq(|analytics.devices|, i requires 0 <= i < |analytics.devices| => analytics.devices[i].device.os);
    assert systems == OperatingSystems(Matching(docs, campaignId));
    stats := CountBy(systems);
    CountsAddUp(systems, stats);
  }

  // ---------------------------------------------------------------------
  // Totals

  /** The `reduce` sums over the overview's rows. */
  function Totals(campaigns: seq<CampaignStats>): TotalStats {
    TotalStats(|campaigns|, SumDevices(campaigns), SumClicks(campaigns))
  }

  /** `getTotalStats()`: the number of campaigns, of documents, and of clicks
      (each document's count, a missing or zero one taken as 1). */
  method GetTotalStats(docs: seq<StoredClick>) returns (t: TotalStats)
    ensures t.totalCampaigns == |Tally.Distinct(CampaignIds(docs))|
    ensures t.totalUniqueDevices == |docs|
    ensures t.totalClicks == Tally.Total(Weighted(docs))
    ensures docs == [] ==> t == TotalStats(0, 0, 0)
  {
    var campaigns := GetAllCampaigns(docs);
    AllCampaignsSpec(docs);
    t := Totals(campaigns);
  }
}
