/**
  The app's link processor (`XLinkProcessor`): it validates a post link,
  extracts its ID and records one observation of the post in the app's
  SQLite database. That schema differs from the scheduler's: `tweet_metrics`
  has no followers column, and `engagement_metrics` is a log with one row per
  stored observation (keyed by nothing), not a table keyed by date.

  The connection is opened and `BEGIN TRANSACTION` is issued inside the outer
  `try`, so every fault is reported; a transaction is all-or-nothing.
 */
module LinkProcessor {
  import opened Common
  import opened UtcTime
  import opened TweetIds
  import opened XStore
  import opened XAggregate

  /** `XPostData` of this component: the six counters and the post's metadata, without followers. */
  datatype LinkPostData = LinkPostData(counters: Counters, postDate: Day, text: string)

  /** `EngagementSummary` */
  datatype EngagementSummary = EngagementSummary(date: Day, impressions: int, engagements: int)

  /** A row of the app's `engagement_metrics` log. */
  datatype EngagementEntry = EngagementEntry(tweetId: string, date: Day, impressions: int, engagements: int)

  /**
    The app's tables. `tweet_metrics` rows reuse the scheduler's row shape,
    with 0 in the followers position the app's schema does not have.
   */
  datatype LinkDb = LinkDb(tweets: map<string, Tweet>, metrics: seq<MetricsRow>, engagement: seq<EngagementEntry>)

  datatype LinkStored = LinkStored(result: StoreResult, db: LinkDb)

  /** The observation as the scheduler's store would take it: no follower count, so 0. */
  function AsPostData(data: LinkPostData): PostData
  {
    PostData(data.counters, 0, data.postDate, data.text)
  }

  /** The scheduler's view of the app's tables: the same `tweets` and history, no daily table. */
  function AsXDb(db: LinkDb): XDb
  {
    XDb(db.tweets, db.metrics, map[])
  }

  /** `XLinkProcessor.isValidXLink`: the same pattern as every other copy of the check. */
  predicate IsLink(url: string)
  {
    IsValidXLink(url)
  }

  /**
    `calculateEngagementMetrics(postData)` at time `now`: views as
    impressions, the five interaction counters as engagements, and today's
    UTC date.
   */
  function CalculateEngagementMetrics(data: LinkPostData, now: Millis): (s: EngagementSummary)
    ensures s.date == DayOf(now)
    ensures s.impressions == data.counters.views
  {
    EngagementSummary(DayOf(now), data.counters.views, Engagement(data.counters))
  }

  /**
    One observation's summary is what the scheduler's daily aggregation
    computes for a day holding only that observation.
   */
  lemma SummaryIsOneRowDay(data: LinkPostData, tweetId: string, now: Millis)
    ensures var s := CalculateEngagementMetrics(data, now);
            var t := DayTotals([MetricsRow(tweetId, data.counters, 0, now)]);
            s.impressions == t.impressions && s.engagements == t.engagements
  {
    var row := MetricsRow(tweetId, data.counters, 0, now);
    assert [row][..0] == [];
    assert SumBy([row], Views) == SumBy([], Views) + Views(row);
    assert SumBy([row], RowEngagement) == SumBy([], RowEngagement) + RowEngagement(row);
  }

  /** The committed transaction: tweet inserted if absent, one metrics row and one engagement row appended. */
  function CommitPost(db: LinkDb, tweetId: string, url: string, data: LinkPostData, now: Millis): (r: LinkStored)
    ensures r.result.success && r.result.updated
    ensures r.result.message == (if tweetId in db.tweets then UpdatedMessage else StoredMessage)
    ensures r.db.tweets.Keys == db.tweets.Keys + {tweetId}
    ensures forall id | id in db.tweets :: r.db.tweets[id] == db.tweets[id]
    ensures |r.db.metrics| == |db.metrics| + 1 && r.db.metrics[..|db.metrics|] == db.metrics
    ensures |r.db.engagement| == |db.engagement| + 1 && r.db.engagement[..|db.engagement|] == db.engagement
    ensures r.db.engagement[|db.engagement|].tweetId == tweetId
  {
    var s := CommitStore(AsXDb(db), tweetId, url, AsPostData(data), now);
    var e := CalculateEngagementMetrics(data, now);
    var entry := EngagementEntry(tweetId, e.date, e.impressions, e.engagements);
    LinkStored(s.result, LinkDb(s.db.tweets, s.db.metrics, db.engagement + [entry]))
  }

  /**
    `XLinkProcessor.storePostData(url, postData)` at time `now`, with the
    database failing as `fault` says: the connection is opened first, then
    the ID is checked, then the transaction runs.
   */
  function StorePostData(db: LinkDb, url: string, data: LinkPostData, now: Millis, fault: Fault): (r: LinkStored)
    ensures r.result.success <==> ExtractTweetId(url) != "" && fault.NoFault?
    ensures !r.result.success ==> r.db == db && !r.result.updated
    ensures fault.FailsOnConnect? ==> r.result.message == MessageOr(fault.error, StoreFailedMessage)
    ensures !fault.FailsOnConnect? && ExtractTweetId(url) == "" ==> r.result.message == NoTweetIdMessage
    ensures ExtractTweetId(url) != "" && (fault.FailsOnBegin? || fault.FailsInTransaction?)
            ==> r.result.message == MessageOr(fault.error, StoreFailedMessage)
    ensures r.result.success ==> r == CommitPost(db, ExtractTweetId(url), url, data, now)
  {
    if fault.FailsOnConnect? then LinkStored(Failure(MessageOr(fault.error, StoreFailedMessage)), db)
    else
      var tweetId := ExtractTweetId(url);
      if tweetId == "" then LinkStored(Failure(NoTweetIdMessage), db)
      else if fault.NoFault? then CommitPost(db, tweetId, url, data, now)
      else LinkStored(Failure(MessageOr(fault.error, StoreFailedMessage)), db)
  }

  /**
    On `tweets` and `tweet_metrics`, and in what it returns, the app's store
    behaves exactly like `storeXPostData` given the same observation without
    followers; it differs only in the engagement log it also writes.
   */
  lemma StorePostDataAgreesWithStoreXPostData(db: LinkDb, url: string, data: LinkPostData, now: Millis, fault: Fault)
    ensures var r := StorePostData(db, url, data, now, fault);
            var x := StoreXPostData(AsXDb(db), url, AsPostData(data), now, fault);
            r.result == x.result && r.db.tweets == x.db.tweets && r.db.metrics == x.db.metrics
  {
  }

  /** The row a successful call appends to the engagement log: this post, today's date, its summary. */
  lemma StoredEntryIsTodaysSummary(db: LinkDb, url: string, data: LinkPostData, now: Millis)
    requires ExtractTweetId(url) != ""
    ensures var r := StorePostData(db, url, data, now, NoFault);
            var s := CalculateEngagementMetrics(data, now);
            r.db.engagement == db.engagement + [EngagementEntry(ExtractTweetId(url), s.date, s.impressions, s.engagements)]
            && r.db.metrics == db.metrics + [MetricsRow(ExtractTweetId(url), data.counters, 0, now)]
  {
  }

  /** Every valid link is stored when the database does not fail. */
  lemma ValidLinkIsStored(db: LinkDb, url: string, data: LinkPostData, now: Millis)
    requires IsLink(url)
    ensures StorePostData(db, url, data, now, NoFault).result.success
  {
    ValidLinkHasTweetId(url);
  }

  /**
    The link-submission route rebuilds `https://x.com/i/status/<id>` from
    the submitted ID; with a working database that ID is what gets stored.
   */
  lemma SubmittedIdIsStored(db: LinkDb, id: string, data: LinkPostData, now: Millis)
    requires id != "" && AllDigits(id)
    ensures var r := StorePostData(db, "https://" + SubmissionUrl(id), data, now, NoFault);
            r.result.success && id in r.db.tweets && r.db.engagement[|db.engagement|].tweetId == id
  {
    SubmissionUrlRoundTrip(id);
  }

  /** The rows of the engagement log dated `d`. */
  function EntriesOn(log: seq<EngagementEntry>, d: Day): (r: seq<EngagementEntry>)
    ensures |r| <= |log|
    ensures forall i | 0 <= i < |r| :: r[i].date == d && r[i] in log
  {
    if |log| == 0 then []
    else
      var n := |log| - 1;
      EntriesOn(log[..n], d) + (if log[n].date == d then [log[n]] else [])
  }

  /**
    Storing the same link twice on one UTC day leaves two engagement rows
    for that day, where the scheduler's daily table keeps one row per date.
   */
  lemma StoreTwiceSameDayLogsTwoRows(db: LinkDb, url: string, first: LinkPostData, second: LinkPostData, t1: Millis, t2: Millis)
    requires ExtractTweetId(url) != ""
    requires DayOf(t1) == DayOf(t2)
    ensures var s1 := StorePostData(db, url, first, t1, NoFault);
            var s2 := StorePostData(s1.db, url, second, t2, NoFault);
            |EntriesOn(s2.db.engagement, DayOf(t1))| == |EntriesOn(db.engagement, DayOf(t1))| + 2
            && s2.result.message == UpdatedMessage
  {
    var d := DayOf(t1);
    var s1 := StorePostData(db, url, first, t1, NoFault);
    var s2 := StorePostData(s1.db, url, second, t2, NoFault);
    var n := |db.engagement|;
    assert s1.db.engagement[..n] == db.engagement;
    assert s2.db.engagement[..n + 1] == s1.db.engagement;
    assert EntriesOn(s1.db.engagement, d) == EntriesOn(db.engagement, d) + [s1.db.engagement[n]];
    assert EntriesOn(s2.db.engagement, d) == EntriesOn(s1.db.engagement, d) + [s2.db.engagement[n + 1]];
  }

  /** The foreign keys of `tweet_metrics` and `engagement_metrics` on `tweets`. */
  predicate ValidLinkDb(db: LinkDb)
  {
    Valid(AsXDb(db)) && forall i | 0 <= i < |db.engagement| :: db.engagement[i].tweetId in db.tweets
  }

  /** Every call, failed or not, keeps both foreign keys. */
  lemma StorePostDataKeepsKeys(db: LinkDb, url: string, data: LinkPostData, now: Millis, fault: Fault)
    requires ValidLinkDb(db)
    ensures ValidLinkDb(StorePostData(db, url, data, now, fault).db)
  {
    var r := StorePostData(db, url, data, now, fault);
    if r.result.success {
      var id := ExtractTweetId(url);
      var s := CommitStore(AsXDb(db), id, url, AsPostData(data), now);
      assert Valid(s.db);
      assert forall i | 0 <= i < |r.db.engagement| :: r.db.engagement[i].tweetId in r.db.tweets by {
        forall i | 0 <= i < |r.db.engagement|
          ensures r.db.engagement[i].tweetId in r.db.tweets
        {
          if i < |db.engagement| {
            assert r.db.engagement[i] == db.engagement[i];
          }
        }
      }
    }
  }
}
