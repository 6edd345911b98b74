/**
  The daily X job (`xMetricsScheduler`): at midnight UTC it fetches the
  previous UTC day's posts from the list API, stores each one with the
  previous day as its post date, and then recomputes `engagement_metrics`.
  The fetch itself is not modelled: its outcome for the job's window is a
  parameter, as are the database faults met along the way.
 */
module XIngest {
  import opened Common
  import opened UtcTime
  import opened TweetIds
  import opened XStore
  import opened XAggregate

  /** One element of the API response's `data` array; `public_metrics` may be missing. */
  datatype ApiTweet = ApiTweet(id: string, text: string, publicMetrics: Option<map<string, int>>)

  /** `fetchTwitterListMetrics(sinceTime, untilTime)` either returns the array or throws. */
  datatype FetchResult = Fetched(items: seq<ApiTweet>) | FetchFailed(error: Thrown)

  /** `tweet.public_metrics?.[name] ?? 0` */
  function Metric(t: ApiTweet, name: string): int
  {
    match t.publicMetrics
    case None => 0
    case Some(m) => if name in m then m[name] else 0
  }

  /** The `postData` the job builds for a fetched post: every counter defaults to 0, views come from `impressions`. */
  function ToPostData(t: ApiTweet, postDate: Day): PostData
  {
    var counters := Counters(Metric(t, "likes"), Metric(t, "retweets"), Metric(t, "replies"),
                             Metric(t, "impressions"), Metric(t, "quotes"), Metric(t, "bookmarks"));
    PostData(counters, Metric(t, "followers"), postDate, t.text)
  }

  /** A post without `public_metrics` is stored with every counter at 0. */
  lemma MissingMetricsAreZero(t: ApiTweet, postDate: Day)
    requires t.publicMetrics.None?
    ensures ToPostData(t, postDate).counters == Counters(0, 0, 0, 0, 0, 0)
    ensures ToPostData(t, postDate).followers == 0
  {
  }

  /** `views` is read from `impressions`; a `views` field in the response is never consulted. */
  lemma ViewsComeFromImpressions(t: ApiTweet, postDate: Day, m: map<string, int>)
    requires t.publicMetrics == Some(m)
    ensures ToPostData(t, postDate).counters.views == (if "impressions" in m then m["impressions"] else 0)
    ensures "impressions" !in m ==> ToPostData(t, postDate).counters.views == 0
  {
  }

  /** The database fault met by the `i`-th store call (none beyond the listed ones). */
  function FaultAt(faults: seq<Fault>, i: nat): Fault
  {
    if i < |faults| then faults[i] else NoFault
  }

  /** How many of the store calls reported success. */
  function SuccessCount(rs: seq<StoreResult>): (n: nat)
    ensures n <= |rs|
    ensures n == |rs| <==> forall i | 0 <= i < |rs| :: rs[i].success
  {
    if |rs| == 0 then 0
    else
      var init := rs[..|rs| - 1];
      assert forall i | 0 <= i < |init| :: init[i] == rs[i];
      SuccessCount(init) + (if rs[|rs| - 1].success then 1 else 0)
  }

  /** The store loop either runs to the end or is abandoned by an error escaping one call. */
  datatype LoopOutcome =
    | LoopDone(db: XDb, results: seq<StoreResult>)
    | LoopAborted(db: XDb, results: seq<StoreResult>, error: Thrown)

  /** Fault `f` escapes `upsertTweetAndMetrics` when the job stores post `t`. */
  predicate Escapes(t: ApiTweet, f: Fault)
  {
    f.FailsOnConnect? || (ExtractTweetId(JobUrl(t.id)) != "" && f.FailsOnBegin?)
  }

  /** Post `t` is stored by the job: tweets are only ever added, a new one carries `postDate`, one row per success. */
  predicate StoreEffect(before: XDb, after: XDb, postDate: Day, successes: nat)
  {
    && (forall id | id in before.tweets :: id in after.tweets && after.tweets[id] == before.tweets[id])
    && (forall id | id in after.tweets && id !in before.tweets :: after.tweets[id].postDate == postDate)
    && |after.metrics| == |before.metrics| + successes
    && after.metrics[..|before.metrics|] == before.metrics
    && after.engagement == before.engagement
    && (Valid(before) ==> Valid(after))
  }

  /** One iteration of the store loop, after the iterations summarised by `prev`. */
  function StoreStep(prev: LoopOutcome, t: ApiTweet, f: Fault, postDate: Day, now: Millis): (r: LoopOutcome)
    ensures prev.LoopAborted? ==> r == prev
    ensures prev.LoopDone? ==> (r.LoopDone? <==> !Escapes(t, f))
    ensures prev.LoopDone? && r.LoopDone? ==> |r.results| == |prev.results| + 1 && r.results[..|prev.results|] == prev.results
    ensures prev.LoopDone? && r.LoopAborted? ==> r.results == prev.results
    ensures StoreEffect(prev.db, r.db, postDate, SuccessCount(r.results) - SuccessCount(prev.results))
  {
    match prev
    case LoopAborted(_, _, _) => prev
    case LoopDone(db, rs) =>
      match UpsertTweetAndMetrics(db, JobUrl(t.id), ToPostData(t, postDate), now, f)
      case Threw(e) => LoopAborted(db, rs, e)
      case Completed(s) =>
        StoreStepDone(db, rs, s, ExtractTweetId(JobUrl(t.id)), JobUrl(t.id), ToPostData(t, postDate), now);
        LoopDone(s.db, rs + [s.result])
  }

  lemma StoreStepDone(db: XDb, rs: seq<StoreResult>, s: Stored, tweetId: string, url: string, data: PostData, now: Millis)
    requires !s.result.success ==> s.db == db
    requires s.result.success ==> s == CommitStore(db, tweetId, url, data, now)
    ensures (rs + [s.result])[..|rs|] == rs
    ensures StoreEffect(db, s.db, data.postDate, SuccessCount(rs + [s.result]) - SuccessCount(rs))
  {
    assert (rs + [s.result])[..|rs|] == rs;
    if s.result.success {
      CommitEffect(db, s, tweetId, url, data, now);
    } else {
      assert s.db.metrics[..|db.metrics|] == db.metrics;
    }
  }

  lemma CommitEffect(db: XDb, s: Stored, tweetId: string, url: string, data: PostData, now: Millis)
    requires s == CommitStore(db, tweetId, url, data, now)
    ensures StoreEffect(db, s.db, data.postDate, 1)
  {
    assert s.db.metrics[..|db.metrics|] == db.metrics;
  }

  lemma StoreEffectTrans(a: XDb, b: XDb, c: XDb, postDate: Day, m: nat, n: nat)
    requires StoreEffect(a, b, postDate, m) && StoreEffect(b, c, postDate, n)
    ensures StoreEffect(a, c, postDate, m + n)
  {
    assert c.metrics[..|a.metrics|] == c.metrics[..|b.metrics|][..|a.metrics|];
  }

  /** `for (const tweet of tweets) await upsertTweetAndMetrics(url, postData)`, stamping every post with `postDate`. */
  function StoreLoop(db: XDb, items: seq<ApiTweet>, postDate: Day, now: Millis, faults: seq<Fault>): (r: LoopOutcome)
    ensures r.LoopDone? ==> |r.results| == |items|
    ensures r.LoopAborted? ==> |r.results| < |items|
    ensures StoreEffect(db, r.db, postDate, SuccessCount(r.results))
  {
    if |items| == 0 then LoopDone(db, [])
    else
      var init := items[..|items| - 1];
      var i := |items| - 1;
      var prev := StoreLoop(db, init, postDate, now, faults);
      var r := StoreStep(prev, items[i], FaultAt(faults, i), postDate, now);
      StoreEffectTrans(db, prev.db, r.db, postDate, SuccessCount(prev.results),
                       SuccessCount(r.results) - SuccessCount(prev.results));
      r
  }

  /** None of the first `n` store calls meets a fault that escapes it. */
  predicate NoEscapeBefore(items: seq<ApiTweet>, faults: seq<Fault>, n: nat)
    requires n <= |items|
  {
    forall i | 0 <= i < n :: !Escapes(items[i], FaultAt(faults, i))
  }

  lemma NoEscapeBeforeOfPrefix(items: seq<ApiTweet>, faults: seq<Fault>, n: nat)
    requires 0 < |items| && n < |items|
    ensures NoEscapeBefore(items[..|items| - 1], faults, n) <==> NoEscapeBefore(items, faults, n)
  {
    assert forall j | 0 <= j < n :: items[..|items| - 1][j] == items[j];
  }

  lemma NoEscapeBeforeStep(items: seq<ApiTweet>, faults: seq<Fault>, n: nat)
    requires n < |items|
    ensures NoEscapeBefore(items, faults, n + 1) <==> NoEscapeBefore(items, faults, n) && !Escapes(items[n], FaultAt(faults, n))
  {
  }

  /**
    A store call's own failure (`success: false`) does not stop the loop;
    only an error escaping a call does, and then the loop stops at that post.
   */
  lemma {:induction false} StoreLoopStopsOnlyOnEscape(db: XDb, items: seq<ApiTweet>, postDate: Day, now: Millis, faults: seq<Fault>)
    ensures var r := StoreLoop(db, items, postDate, now, faults);
            (r.LoopDone? <==> NoEscapeBefore(items, faults, |items|))
            && (r.LoopAborted? ==> Escapes(items[|r.results|], FaultAt(faults, |r.results|))
                                   && NoEscapeBefore(items, faults, |r.results|))
  {
    if |items| > 0 {
      var init := items[..|items| - 1];
      var i := |items| - 1;
      StoreLoopStopsOnlyOnEscape(db, init, postDate, now, faults);
      var prev := StoreLoop(db, init, postDate, now, faults);
      var r := StoreStep(prev, items[i], FaultAt(faults, i), postDate, now);
      assert StoreLoop(db, items, postDate, now, faults) == r;
      NoEscapeBeforeOfPrefix(items, faults, |prev.results|);
      if prev.LoopAborted? {
        assert init[|prev.results|] == items[|prev.results|];
      } else {
        NoEscapeBeforeOfPrefix(items, faults, i);
        NoEscapeBeforeStep(items, faults, i);
      }
    }
  }

  /** What one run of the job leaves behind: the database, the store results, the aggregation summary, a caught error. */
  datatype JobRun = JobRun(db: XDb, results: seq<StoreResult>, summary: Option<Summary>, caught: Option<Thrown>)

  /** Fetch, store, aggregate; anything thrown ends the run and is caught. */
  function RunStages(db: XDb, now: Millis, fetch: FetchResult, faults: seq<Fault>, agg: AggFault): JobRun
  {
    match fetch
    case FetchFailed(e) => JobRun(db, [], None, Some(e))
    case Fetched(items) =>
      match StoreLoop(db, items, PreviousDayWindow(now).dateDay, now, faults)
      case LoopAborted(db', rs, e) => JobRun(db', rs, None, Some(e))
      case LoopDone(db', rs) =>
        var a := Aggregate(db', agg);
        JobRun(a.db, rs, a.summary, a.caught)
  }

  /** The database the store loop of a run leaves, whether or not it completed. */
  function StoredState(db: XDb, now: Millis, items: seq<ApiTweet>, faults: seq<Fault>): XDb
  {
    StoreLoop(db, items, PreviousDayWindow(now).dateDay, now, faults).db
  }

  /**
    The backend job body at time `now`: the schema is initialised first
    (`connect` is the error that step throws, if any), then the stages run;
    `agg` says where, if anywhere, the aggregation step throws.
   */
  function DailyJob(db: XDb, now: Millis, connect: Option<Thrown>, fetch: FetchResult, faults: seq<Fault>, agg: AggFault): (r: JobRun)
    ensures connect.Some? || fetch.FetchFailed? ==> r.db == db && r.results == [] && r.summary.None?
    ensures r.summary.Some? ==> |r.results| == |fetch.items|
    ensures r.caught.None? <==> r.summary.Some?
    ensures forall id | id in db.tweets :: id in r.db.tweets && r.db.tweets[id] == db.tweets[id]
    ensures forall id | id in r.db.tweets && id !in db.tweets :: r.db.tweets[id].postDate == DayOf(now) - 1
    ensures Valid(db) ==> Valid(r.db)
  {
    if connect.Some? then JobRun(db, [], None, connect) else RunStages(db, now, fetch, faults, agg)
  }

  /**
    The run completes exactly when the schema step and the fetch succeed,
    no store call throws (a store call that merely reports failure does not
    stop it) and the aggregation does not throw.
   */
  lemma DailyJobAggregatesIffNoEscape(db: XDb, now: Millis, connect: Option<Thrown>, fetch: FetchResult, faults: seq<Fault>, agg: AggFault)
    ensures DailyJob(db, now, connect, fetch, faults, agg).summary.Some?
            <==> connect.None? && fetch.Fetched? && NoEscapeBefore(fetch.items, faults, |fetch.items|)
                 && !AggregationFails(StoredState(db, now, fetch.items, faults), agg)
    ensures var r := DailyJob(db, now, connect, fetch, faults, agg);
            connect.None? && fetch.Fetched? && r.summary.None?
            ==> (exists k | 0 <= k < |fetch.items| :: Escapes(fetch.items[k], FaultAt(faults, k)) && |r.results| == k)
                || (|r.results| == |fetch.items| && AggregationFails(StoredState(db, now, fetch.items, faults), agg))
  {
    if connect.None? && fetch.Fetched? {
      StoreLoopStopsOnlyOnEscape(db, fetch.items, PreviousDayWindow(now).dateDay, now, faults);
      var r := DailyJob(db, now, connect, fetch, faults, agg);
      var loop := StoreLoop(db, fetch.items, PreviousDayWindow(now).dateDay, now, faults);
      if loop.LoopAborted? {
        var k := |r.results|;
        assert Escapes(fetch.items[k], FaultAt(faults, k));
      }
    }
  }

  /**
    Once the store loop completes, the run's tables and summary are those of
    aggregating the stored state: the full recompute when the aggregation
    does not throw, the days before the failing date otherwise.
   */
  lemma CompletedLoopAggregatesStoredState(db: XDb, now: Millis, items: seq<ApiTweet>, faults: seq<Fault>, agg: AggFault)
    requires NoEscapeBefore(items, faults, |items|)
    ensures var s := StoredState(db, now, items, faults);
            var r := DailyJob(db, now, None, Fetched(items), faults, agg);
            |r.results| == |items|
            && (!AggregationFails(s, agg) ==> r.db == Recompute(s) && r.summary == Some(SummaryOf(s)) && r.caught.None?)
            && (agg.FailsBeforeLoop? ==> r.db == s && r.summary.None? && r.caught == Some(agg.error))
            && (AggregationFails(s, agg) && agg.FailsOnDate? ==> r.db == PartialRecompute(s, agg.date) && r.summary.None? && r.caught == Some(agg.error))
  {
    StoreLoopStopsOnlyOnEscape(db, items, PreviousDayWindow(now).dateDay, now, faults);
  }

  /**
    The app's job body: no schema step, but the three modules are imported
    dynamically before the fetch (`imports` is the error an import throws, if any).
   */
  function DailyJobTs(db: XDb, now: Millis, imports: Option<Thrown>, fetch: FetchResult, faults: seq<Fault>, agg: AggFault): (r: JobRun)
    ensures imports.Some? ==> r.db == db && r.summary.None? && r.caught == imports
  {
    if imports.Some? then JobRun(db, [], None, imports) else RunStages(db, now, fetch, faults, agg)
  }

  /** Once its imports load, the app's job does exactly what the backend job does with a working schema step. */
  lemma DailyJobTsMatchesBackend(db: XDb, now: Millis, fetch: FetchResult, faults: seq<Fault>, agg: AggFault)
    ensures DailyJobTs(db, now, None, fetch, faults, agg) == DailyJob(db, now, None, fetch, faults, agg)
  {
  }

  /**
    A run whose database calls all succeed writes one metrics row per
    fetched post and leaves `engagement_metrics` recomputed from the stored
    state, with that state's summary.
   */
  lemma CleanRunStoresEveryPost(db: XDb, now: Millis, items: seq<ApiTweet>)
    requires forall i | 0 <= i < |items| :: items[i].id != "" && AllDigits(items[i].id)
    ensures var s := StoredState(db, now, items, []);
            var r := DailyJob(db, now, None, Fetched(items), [], AggNoFault);
            r.db == Recompute(s) && r.summary == Some(SummaryOf(s))
            && |s.metrics| == |r.db.metrics| == |db.metrics| + |items|
            && forall i | 0 <= i < |items| :: items[i].id in r.db.tweets
  {
    var day := PreviousDayWindow(now).dateDay;
    CleanLoopStoresEveryPost(db, items, day, now);
    var loop := StoreLoop(db, items, day, now, []);
    var s := loop.db;
    assert Aggregate(s, AggNoFault) == AggResult(Recompute(s), Some(SummaryOf(s)), None);
    assert DailyJob(db, now, None, Fetched(items), [], AggNoFault) == JobRun(Recompute(s), loop.results, Some(SummaryOf(s)), None);
  }

  lemma {:induction false} CleanLoopStoresEveryPost(db: XDb, items: seq<ApiTweet>, postDate: Day, now: Millis)
    requires forall i | 0 <= i < |items| :: items[i].id != "" && AllDigits(items[i].id)
    ensures var r := StoreLoop(db, items, postDate, now, []);
            r.LoopDone? && |r.db.metrics| == |db.metrics| + |items|
            && (forall i | 0 <= i < |r.results| :: r.results[i].success)
            && forall i | 0 <= i < |items| :: items[i].id in r.db.tweets
  {
    if |items| > 0 {
      var init := items[..|items| - 1];
      var t := items[|items| - 1];
      assert items == init + [t];
      CleanLoopStoresEveryPost(db, init, postDate, now);
      var front := StoreLoop(db, init, postDate, now, []);
      JobUrlRoundTrip(t.id);
      var s := UpsertTweetAndMetrics(front.db, JobUrl(t.id), ToPostData(t, postDate), now, NoFault);
      assert s.Completed? && s.stored.result.success;
      assert s.stored == CommitStore(front.db, t.id, JobUrl(t.id), ToPostData(t, postDate), now);
      var r := StoreStep(front, t, NoFault, postDate, now);
      assert r == LoopDone(s.stored.db, front.results + [s.stored.result]);
      assert StoreLoop(db, items, postDate, now, []) == r;
      IdsStayStored(init, t, front.db.tweets.Keys, r.db.tweets.Keys);
      forall i | 0 <= i < |r.results|
        ensures r.results[i].success
      {
        if i < |front.results| {
          assert r.results[i] == front.results[i];
        }
      }
    }
  }

  lemma IdsStayStored(init: seq<ApiTweet>, t: ApiTweet, before: set<string>, after: set<string>)
    requires forall i | 0 <= i < |init| :: init[i].id in before
    requires after == before + {t.id}
    ensures forall i | 0 <= i < |init + [t]| :: (init + [t])[i].id in after
  {
  }

  /** A failed fetch abandons the run: nothing is stored and nothing is aggregated. */
  lemma FetchFailureStoresNothing(db: XDb, now: Millis, e: Thrown, faults: seq<Fault>, agg: AggFault)
    ensures DailyJob(db, now, None, FetchFailed(e), faults, agg) == JobRun(db, [], None, Some(e))
  {
  }
}
