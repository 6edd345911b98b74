/**
  The X-post store: the `tweets` table (keyed by tweet ID, insert-if-absent),
  the append-only `tweet_metrics` history and the `engagement_metrics` daily
  table (keyed by date), together with the write paths that record one
  observation of a post: the scheduler's `upsertTweetAndMetrics` (identical in
  the backend and frontend copies) and the app's `storeXPostData`.

  A transaction is modelled as all-or-nothing: either every statement of the
  `BEGIN ... COMMIT` block takes effect or, after `ROLLBACK`, none does.
 */
module XStore {
  import opened Common
  import opened UtcTime
  import opened TweetIds

  /** The six per-post counters reported by the X API. */
  datatype Counters = Counters(likes: int, retweets: int, replies: int, views: int, quotes: int, bookmarks: int)

  /** likes + retweets + replies + quotes + bookmarks: the engagement formula shared by every component. */
  function Engagement(c: Counters): int
  {
    c.likes + c.retweets + c.replies + c.quotes + c.bookmarks
  }

  /** `XPostData`: one observation of a post as handed to the store. */
  datatype PostData = PostData(counters: Counters, followers: int, postDate: Day, text: string)

  /** A `tweets` row (the key, `tweet_id`, is the map key of `XDb.tweets`). */
  datatype Tweet = Tweet(url: string, text: string, postDate: Day)

  /** A `tweet_metrics` row. */
  datatype MetricsRow = MetricsRow(tweetId: string, counters: Counters, followers: int, collectedAt: Millis)

  /** An `engagement_metrics` row (the key, `date`, is the map key of `XDb.engagement`). */
  datatype DailyEngagement = DailyEngagement(impressions: int, engagements: int, followers: int)

  datatype XDb = XDb(tweets: map<string, Tweet>, metrics: seq<MetricsRow>, engagement: map<Day, DailyEngagement>)

  /** The foreign key of `tweet_metrics.tweet_id` on `tweets`. */
  predicate Valid(db: XDb)
  {
    forall i | 0 <= i < |db.metrics| :: db.metrics[i].tweetId in db.tweets
  }

  /**
    `{ success, message, updated }`; `updated` is `false` where the source
    leaves the field out (it is only ever set to `true`).
   */
  datatype StoreResult = StoreResult(success: bool, message: string, updated: bool)

  /** A call that returned, with the database state after it. */
  datatype Stored = Stored(result: StoreResult, db: XDb)

  /** A call either returns or throws; a thrown call leaves the database unchanged. */
  datatype Attempt = Completed(stored: Stored) | Threw(error: Thrown)

  /**
    Where the database fails during one store call, if at all: opening the
    connection (`getDb`), issuing `BEGIN`, or any statement inside the transaction.
   */
  datatype Fault = NoFault | FailsOnConnect(error: Thrown) | FailsOnBegin(error: Thrown) | FailsInTransaction(error: Thrown)

  const NoTweetIdMessage: string := "Could not extract tweet ID from URL"
  const StoreFailedMessage: string := "Failed to store X post data"
  const UpdatedMessage: string := "Tweet metrics updated"
  const StoredMessage: string := "New tweet metrics stored"

  function Failure(message: string): StoreResult
  {
    StoreResult(false, message, false)
  }

  /** The committed transaction: the tweet is inserted if absent, and one metrics row is appended. */
  function CommitStore(db: XDb, tweetId: string, url: string, data: PostData, now: Millis): (r: Stored)
    ensures r.result.success && r.result.updated
    ensures r.result.message == (if tweetId in db.tweets then UpdatedMessage else StoredMessage)
    ensures r.db.tweets.Keys == db.tweets.Keys + {tweetId}
    ensures forall id | id in db.tweets :: r.db.tweets[id] == db.tweets[id]
    ensures tweetId !in db.tweets ==> r.db.tweets[tweetId] == Tweet(url, data.text, data.postDate)
    ensures r.db.metrics == db.metrics + [MetricsRow(tweetId, data.counters, data.followers, now)]
    ensures r.db.engagement == db.engagement
    ensures Valid(db) ==> Valid(r.db)
  {
    var tweets := if tweetId in db.tweets then db.tweets else db.tweets[tweetId := Tweet(url, data.text, data.postDate)];
    var row := MetricsRow(tweetId, data.counters, data.followers, now);
    var message := if tweetId in db.tweets then UpdatedMessage else StoredMessage;
    Stored(StoreResult(true, message, true), db.(tweets := tweets, metrics := db.metrics + [row]))
  }

  /**
    `upsertTweetAndMetrics(url, postData)` at time `now`. The connection is
    opened before the ID is extracted, and `BEGIN` is issued outside the
    `try`, so faults there escape the call; a fault inside the transaction
    is rolled back and reported.
   */
  function UpsertTweetAndMetrics(db: XDb, url: string, data: PostData, now: Millis, fault: Fault): (r: Attempt)
    ensures r.Threw? <==> fault.FailsOnConnect? || (ExtractTweetId(url) != "" && fault.FailsOnBegin?)
    ensures r.Completed? ==> (r.stored.result.success <==> ExtractTweetId(url) != "" && fault.NoFault?)
    ensures r.Completed? && !r.stored.result.success ==> r.stored.db == db
    ensures r.Completed? && ExtractTweetId(url) == "" ==> r.stored.result == Failure(NoTweetIdMessage)
    ensures r.Completed? && fault.FailsInTransaction? && ExtractTweetId(url) != ""
            ==> r.stored.result == Failure(MessageOr(fault.error, StoreFailedMessage))
    ensures r.Completed? && r.stored.result.success ==> r.stored == CommitStore(db, ExtractTweetId(url), url, data, now)
  {
    if fault.FailsOnConnect? then Threw(fault.error)
    else
      var tweetId := ExtractTweetId(url);
      if tweetId == "" then Completed(Stored(Failure(NoTweetIdMessage), db))
      else if fault.FailsOnBegin? then Threw(fault.error)
      else if fault.FailsInTransaction? then Completed(Stored(Failure(MessageOr(fault.error, StoreFailedMessage)), db))
      else Completed(CommitStore(db, tweetId, url, data, now))
  }

  /**
    `storeXPostData(url, postData)`: the same transaction, but the whole body
    sits inside an outer `try`, so every fault is reported as a failure.
   */
  function StoreXPostData(db: XDb, url: string, data: PostData, now: Millis, fault: Fault): (r: Stored)
    ensures r.result.success <==> ExtractTweetId(url) != "" && fault.NoFault?
    ensures !r.result.success ==> r.db == db && !r.result.updated
    ensures fault.FailsOnConnect? ==> r.result.message == MessageOr(fault.error, StoreFailedMessage)
    ensures !fault.FailsOnConnect? && ExtractTweetId(url) == "" ==> r.result.message == NoTweetIdMessage
    ensures r.result.success ==> r == CommitStore(db, ExtractTweetId(url), url, data, now)
  {
    if fault.FailsOnConnect? then Stored(Failure(MessageOr(fault.error, StoreFailedMessage)), db)
    else
      var tweetId := ExtractTweetId(url);
      if tweetId == "" then Stored(Failure(NoTweetIdMessage), db)
      else if fault.NoFault? then CommitStore(db, tweetId, url, data, now)
      else Stored(Failure(MessageOr(fault.error, StoreFailedMessage)), db)
  }

  /** `storeXPostData` is `upsertTweetAndMetrics` with every escaping error caught and reported. */
  lemma StoreXPostDataCatchesUpsert(db: XDb, url: string, data: PostData, now: Millis, fault: Fault)
    ensures StoreXPostData(db, url, data, now, fault)
            == match UpsertTweetAndMetrics(db, url, data, now, fault)
               case Completed(s) => s
               case Threw(t) => Stored(Failure(MessageOr(t, StoreFailedMessage)), db)
  {
  }

  /** Observing a tweet that is already stored keeps `tweets` as it is and grows the history by exactly one row. */
  lemma StoreExistingTweet(db: XDb, url: string, data: PostData, now: Millis)
    requires ExtractTweetId(url) != "" && ExtractTweetId(url) in db.tweets
    ensures var r := StoreXPostData(db, url, data, now, NoFault);
            r.db.tweets == db.tweets && |r.db.metrics| == |db.metrics| + 1
            && r.result.message == UpdatedMessage
  {
  }

  /**
    Storing the same link twice: the first call may add the tweet, the
    second adds none, and each appends one metrics row.
   */
  lemma StoreSameLinkTwice(db: XDb, url: string, first: PostData, second: PostData, t1: Millis, t2: Millis)
    requires ExtractTweetId(url) != ""
    ensures var s1 := StoreXPostData(db, url, first, t1, NoFault);
            var s2 := StoreXPostData(s1.db, url, second, t2, NoFault);
            s2.db.tweets == s1.db.tweets
            && |s1.db.tweets| <= |db.tweets| + 1
            && s2.db.metrics == db.metrics + [MetricsRow(ExtractTweetId(url), first.counters, first.followers, t1),
                                              MetricsRow(ExtractTweetId(url), second.counters, second.followers, t2)]
            && s2.db.tweets[ExtractTweetId(url)] == s1.db.tweets[ExtractTweetId(url)]
            && s2.result.message == UpdatedMessage
  {
    var id := ExtractTweetId(url);
    var s1 := StoreXPostData(db, url, first, t1, NoFault);
    assert s1.db.tweets.Keys == db.tweets.Keys + {id};
    assert |s1.db.tweets.Keys| <= |db.tweets.Keys| + 1;
  }
}
