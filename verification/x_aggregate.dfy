/**
  The daily rollup of `tweet_metrics` into `engagement_metrics`: for every
  distinct `post_date` of `tweets`, in ascending order, the metrics rows of
  that day's tweets are summed (views into impressions, the five engagement
  counters into engagements), their `followers` maximised (starting from 0),
  and the result written over the day's row. Days without metrics rows are
  skipped. The backend job also returns a summary of what it wrote; the app's
  script variant performs the same writes and returns nothing.
 */
module XAggregate {
  import opened Common
  import opened UtcTime
  import opened XStore

  function Views(r: MetricsRow): int
  {
    r.counters.views
  }

  function RowEngagement(r: MetricsRow): int
  {
    Engagement(r.counters)
  }

  /** The tweet of row `r` is in `tweets` and was posted on day `d` (the `JOIN ... WHERE tweets.post_date = $1`). */
  predicate PostedOn(tweets: map<string, Tweet>, r: MetricsRow, d: Day)
  {
    r.tweetId in tweets && tweets[r.tweetId].postDate == d
  }

  /** The metrics rows the per-day query returns for `d`. */
  function Join(tweets: map<string, Tweet>, metrics: seq<MetricsRow>, d: Day): (rows: seq<MetricsRow>)
    ensures forall i | 0 <= i < |rows| :: rows[i] in metrics && PostedOn(tweets, rows[i], d)
    ensures forall i | 0 <= i < |metrics| && PostedOn(tweets, metrics[i], d) :: metrics[i] in rows
  {
    if |metrics| == 0 then []
    else
      var last := metrics[|metrics| - 1];
      var front := Join(tweets, metrics[..|metrics| - 1], d);
      assert forall i | 0 <= i < |metrics| - 1 :: metrics[i] == metrics[..|metrics| - 1][i];
      if PostedOn(tweets, last, d) then front + [last] else front
  }

  /** The join keeps every matching row as often as `tweet_metrics` holds it, and no other row. */
  lemma {:induction false} JoinKeepsMultiplicity(tweets: map<string, Tweet>, metrics: seq<MetricsRow>, d: Day)
    ensures forall r :: multiset(Join(tweets, metrics, d))[r] == if PostedOn(tweets, r, d) then multiset(metrics)[r] else 0
  {
    if |metrics| > 0 {
      var init := metrics[..|metrics| - 1];
      var last := metrics[|metrics| - 1];
      JoinKeepsMultiplicity(tweets, init, d);
      var front := Join(tweets, init, d);
      assert metrics == init + [last];
      assert multiset(metrics) == multiset(init) + multiset{last};
      if PostedOn(tweets, last, d) {
        assert Join(tweets, metrics, d) == front + [last];
        assert multiset(front + [last]) == multiset(front) + multiset{last};
      } else {
        assert Join(tweets, metrics, d) == front;
      }
    }
  }

  function RowsFor(db: XDb, d: Day): seq<MetricsRow>
  {
    Join(db.tweets, db.metrics, d)
  }

  /** Day `d` has at least one metrics row, so the loop writes a row for it. */
  predicate Active(db: XDb, d: Day)
  {
    |RowsFor(db, d)| > 0
  }

  /** `SELECT DISTINCT post_date FROM tweets`. */
  function PostDates(db: XDb): set<Day>
  {
    set id | id in db.tweets :: db.tweets[id].postDate
  }

  /** The days that get a row written: post dates with at least one metrics row. */
  function ActiveDays(db: XDb): set<Day>
  {
    set d | d in PostDates(db) && Active(db, d)
  }

  /** The running maximum of `followers`, starting from 0. */
  function MaxFollowers(rows: seq<MetricsRow>): (m: int)
    ensures m >= 0
    ensures forall i | 0 <= i < |rows| :: rows[i].followers <= m
    ensures m == 0 || exists i | 0 <= i < |rows| :: rows[i].followers == m
  {
    if |rows| == 0 then 0
    else
      var init := rows[..|rows| - 1];
      var m := MaxFollowers(init);
      assert forall i | 0 <= i < |init| :: rows[i] == init[i];
      Max(m, rows[|rows| - 1].followers)
  }

  /** The row written for a day whose metrics rows are `rows`. */
  function DayTotals(rows: seq<MetricsRow>): DailyEngagement
  {
    DailyEngagement(SumBy(rows, Views), SumBy(rows, RowEngagement), MaxFollowers(rows))
  }

  /** `engagement_metrics` after the loop has visited the dates `ds`, in order. */
  function WriteDays(db: XDb, ds: seq<Day>): (e: map<Day, DailyEngagement>)
    ensures e.Keys == db.engagement.Keys + (set d | d in ds && Active(db, d))
    ensures forall d | d in ds && Active(db, d) :: e[d] == DayTotals(RowsFor(db, d))
    ensures forall d | d in db.engagement && !(d in ds && Active(db, d)) :: e[d] == db.engagement[d]
  {
    if |ds| == 0 then db.engagement
    else
      var init := ds[..|ds| - 1];
      var last := ds[|ds| - 1];
      assert forall d :: d in ds <==> d in init || d == last;
      var e := WriteDays(db, init);
      if Active(db, last) then e[last := DayTotals(RowsFor(db, last))] else e
  }

  /** `aggregateEngagementMetrics()` of the app's script: the writes, without a summary. */
  function Recompute(db: XDb): (r: XDb)
    ensures r.tweets == db.tweets && r.metrics == db.metrics
    ensures r.engagement.Keys == db.engagement.Keys + ActiveDays(db)
    ensures forall d | d in ActiveDays(db) :: r.engagement[d] == DayTotals(RowsFor(db, d))
    ensures forall d | d in db.engagement && d !in ActiveDays(db) :: r.engagement[d] == db.engagement[d]
  {
    var dates := SortedSet(PostDates(db));
    assert (set d | d in dates && Active(db, d)) == ActiveDays(db);
    db.(engagement := WriteDays(db, dates))
  }

  /** One entry of the backend job's `upserts`. */
  datatype Upserted = Upserted(date: Day, impressions: int, engagements: int, followers: int)

  /** `{ daysProcessed, upserts }` */
  datatype Summary = Summary(daysProcessed: nat, upserts: seq<Upserted>)

  function ToUpserted(d: Day, e: DailyEngagement): Upserted
  {
    Upserted(d, e.impressions, e.engagements, e.followers)
  }

  /** The upserts the loop over `ds` pushes, in order. */
  function UpsertsFor(db: XDb, ds: seq<Day>): (u: seq<Upserted>)
    ensures forall i | 0 <= i < |u| :: u[i].date in ds && Active(db, u[i].date)
    ensures forall i | 0 <= i < |u| :: u[i] == ToUpserted(u[i].date, DayTotals(RowsFor(db, u[i].date)))
  {
    if |ds| == 0 then []
    else
      var init := ds[..|ds| - 1];
      var last := ds[|ds| - 1];
      var front := UpsertsFor(db, init);
      assert forall i | 0 <= i < |front| :: front[i].date in ds;
      if Active(db, last) then front + [ToUpserted(last, DayTotals(RowsFor(db, last)))] else front
  }

  /** Every date of `ds` with rows gets an upsert. */
  lemma {:induction false} UpsertsForCoversActive(db: XDb, ds: seq<Day>, d: Day)
    requires d in ds && Active(db, d)
    ensures exists i | 0 <= i < |UpsertsFor(db, ds)| :: UpsertsFor(db, ds)[i].date == d
  {
    var init := ds[..|ds| - 1];
    var last := ds[|ds| - 1];
    var u := UpsertsFor(db, ds);
    if d == last {
      assert u[|u| - 1].date == d;
    } else {
      assert d in init;
      UpsertsForCoversActive(db, init, d);
      var front := UpsertsFor(db, init);
      var i :| 0 <= i < |front| && front[i].date == d;
      assert u[i] == front[i];
    }
  }

  /** Visiting the dates in ascending order yields upserts in ascending date order. */
  lemma {:induction false} UpsertsForAscending(db: XDb, ds: seq<Day>)
    requires StrictlyIncreasing(ds)
    ensures forall i, j | 0 <= i < j < |UpsertsFor(db, ds)| :: UpsertsFor(db, ds)[i].date < UpsertsFor(db, ds)[j].date
  {
    if |ds| > 0 {
      var init := ds[..|ds| - 1];
      var last := ds[|ds| - 1];
      assert StrictlyIncreasing(init);
      UpsertsForAscending(db, init);
      var front := UpsertsFor(db, init);
      assert forall i | 0 <= i < |front| :: front[i].date in init;
      assert forall d | d in init :: d < last;
    }
  }

  /** The upserts the backend job reports for `db`. */
  function ExpectedUpserts(db: XDb): seq<Upserted>
  {
    UpsertsFor(db, SortedSet(PostDates(db)))
  }

  /** Every day with a metrics row is a post date (the join only sees stored tweets). */
  lemma ActiveDaysAreRowDays(db: XDb, d: Day)
    ensures d in ActiveDays(db) <==> exists i | 0 <= i < |db.metrics| :: PostedOn(db.tweets, db.metrics[i], d)
  {
    if exists i | 0 <= i < |db.metrics| :: PostedOn(db.tweets, db.metrics[i], d) {
      var i :| 0 <= i < |db.metrics| && PostedOn(db.tweets, db.metrics[i], d);
      var id := db.metrics[i].tweetId;
      assert db.tweets[id].postDate in PostDates(db);
      assert db.metrics[i] in RowsFor(db, d);
    }
    if d in ActiveDays(db) {
      var rows := RowsFor(db, d);
      assert rows[0] in db.metrics;
      var k :| 0 <= k < |db.metrics| && db.metrics[k] == rows[0];
      assert PostedOn(db.tweets, db.metrics[k], d);
    }
  }

  /**
    The inner loop of the job: views summed into impressions, the five
    engagement counters into engagements, followers maximised from 0.
   */
  method AccumulateDay(metrics: seq<MetricsRow>) returns (impressions: int, engagements: int, followers: int)
    ensures DailyEngagement(impressions, engagements, followers) == DayTotals(metrics)
  {
    impressions, engagements, followers := 0, 0, 0;
    for j := 0 to |metrics|
      invariant impressions == SumBy(metrics[..j], Views)
      invariant engagements == SumBy(metrics[..j], RowEngagement)
      invariant followers == MaxFollowers(metrics[..j])
    {
      assert metrics[..j + 1][..j] == metrics[..j];
      var m := metrics[j];
      impressions := impressions + m.counters.views;
      engagements := engagements + m.counters.likes + m.counters.retweets + m.counters.replies
                     + m.counters.quotes + m.counters.bookmarks;
      if m.followers > followers {
        followers := m.followers;
      }
    }
    assert metrics[..|metrics|] == metrics;
  }

  /** The summary the backend job returns for a run over `db` that completes. */
  function SummaryOf(db: XDb): Summary
  {
    Summary(|ExpectedUpserts(db)|, ExpectedUpserts(db))
  }

  /**
    Where, if anywhere, a run of the aggregator throws. `FailsBeforeLoop` is
    `getDb()` or the dates query. `FailsOnDate(d, e)` is the join or the
    upsert for post date `d`: a lost connection, or the range error of an
    INTEGER column when a day's summed views exceed 2147483647. The writes
    are separate statements with no transaction around them.
   */
  datatype AggFault = AggNoFault | FailsBeforeLoop(error: Thrown) | FailsOnDate(date: Day, error: Thrown)

  /** The fault fires: a date fault only fires if the loop reaches its date. */
  predicate AggregationFails(db: XDb, f: AggFault)
  {
    f.FailsBeforeLoop? || (f.FailsOnDate? && f.date in PostDates(db))
  }

  /** The days of `ds` before `d`, in order. */
  function Before(ds: seq<Day>, d: Day): (r: seq<Day>)
    ensures forall x :: x in r <==> x in ds && x < d
  {
    if |ds| == 0 then []
    else (if ds[0] < d then [ds[0]] else []) + Before(ds[1..], d)
  }

  /** The tables a run leaves when the queries for post date `d` throw: the earlier active days are rewritten, nothing from `d` on. */
  function PartialRecompute(db: XDb, d: Day): (r: XDb)
    ensures r.tweets == db.tweets && r.metrics == db.metrics
    ensures r.engagement.Keys == db.engagement.Keys + (set x | x in ActiveDays(db) && x < d)
    ensures forall x | x in ActiveDays(db) && x < d :: r.engagement[x] == DayTotals(RowsFor(db, x))
    ensures forall x | x in db.engagement && !(x in ActiveDays(db) && x < d) :: r.engagement[x] == db.engagement[x]
  {
    var ds := Before(SortedSet(PostDates(db)), d);
    assert (set x | x in ds && Active(db, x)) == (set x | x in ActiveDays(db) && x < d);
    db.(engagement := WriteDays(db, ds))
  }

  /** What a run of the backend aggregator returns: the tables, the summary, or the error it threw. */
  datatype AggResult = AggResult(db: XDb, summary: Option<Summary>, caught: Option<Thrown>)

  /** The outcome of one run of `aggregateEngagementMetrics()` under fault `f`. */
  function Aggregate(db: XDb, f: AggFault): (r: AggResult)
    ensures r.caught.None? <==> !AggregationFails(db, f)
    ensures r.summary.Some? <==> r.caught.None?
    ensures r.db.tweets == db.tweets && r.db.metrics == db.metrics
  {
    if f.FailsBeforeLoop? then AggResult(db, None, Some(f.error))
    else if AggregationFails(db, f) then AggResult(PartialRecompute(db, f.date), None, Some(f.error))
    else AggResult(Recompute(db), Some(SummaryOf(db)), None)
  }

  /**
    The backend `aggregateEngagementMetrics()`: a loop over the distinct
    post dates in ascending order, an overwrite upsert per day with rows,
    and the summary of what was written. A throw ends the run with the
    days already written left in place.
   */
  method AggregateEngagementMetrics(db: XDb, fault: AggFault) returns (db': XDb, summary: Option<Summary>, caught: Option<Thrown>)
    ensures AggResult(db', summary, caught) == Aggregate(db, fault)
    ensures fault.FailsBeforeLoop? ==> db' == db && caught == Some(fault.error)
    ensures AggregationFails(db, fault) && fault.FailsOnDate? ==> db' == PartialRecompute(db, fault.date) && caught == Some(fault.error)
    ensures summary.Some? ==> db' == Recompute(db) && summary.value.upserts == ExpectedUpserts(db)
    ensures summary.Some? ==> summary.value.daysProcessed == |summary.value.upserts|
    ensures summary.Some? ==> forall i, j | 0 <= i < j < |summary.value.upserts| :: summary.value.upserts[i].date < summary.value.upserts[j].date
    ensures summary.Some? ==> forall d :: d in ActiveDays(db) <==> exists i | 0 <= i < |summary.value.upserts| :: summary.value.upserts[i].date == d
    ensures summary.Some? ==> forall i | 0 <= i < |summary.value.upserts| ::
              summary.value.upserts[i] == ToUpserted(summary.value.upserts[i].date, db'.engagement[summary.value.upserts[i].date])
  {
    if fault.FailsBeforeLoop? {
      return db, None, Some(fault.error);
    }
    var dates := SortedSet(PostDates(db));
    db' := db;
    var upserts: seq<Upserted> := [];
    for i := 0 to |dates|
      invariant db' == db.(engagement := WriteDays(db, dates[..i]))
      invariant upserts == UpsertsFor(db, dates[..i])
      invariant fault.FailsOnDate? ==> fault.date !in dates[..i]
    {
      var d := dates[i];
      if fault.FailsOnDate? && fault.date == d {
        PrefixIsBefore(db, dates, i);
        return db', None, Some(fault.error);
      }
      LoopStep(db, dates, i);
      var metrics := RowsFor(db', d);
      assert metrics == RowsFor(db, d);
      if |metrics| > 0 {
        var impressions, engagements, followers := AccumulateDay(metrics);
        db' := db'.(engagement := db'.engagement[d := DailyEngagement(impressions, engagements, followers)]);
        upserts := upserts + [Upserted(d, impressions, engagements, followers)];
      }
    }
    assert dates[..|dates|] == dates;
    summary := Some(Summary(|upserts|, upserts));
    caught := None;
    AggregateSummaryFacts(db, db', upserts);
  }

  /** The loop stopped at `dates[i]` has written exactly the days before it. */
  lemma PrefixIsBefore(db: XDb, dates: seq<Day>, i: nat)
    requires i < |dates| && StrictlyIncreasing(dates)
    ensures WriteDays(db, dates[..i]) == WriteDays(db, Before(dates, dates[i]))
  {
    var a := dates[..i];
    var b := Before(dates, dates[i]);
    forall x
      ensures x in a <==> x in b
    {
      if x in b {
        var j :| 0 <= j < |dates| && dates[j] == x;
        assert j < i;
        assert a[j] == x;
      }
    }
    WriteDaysSameDays(db, a, b);
  }

  /** `WriteDays` depends only on which days are visited, not on their order or repetition. */
  lemma WriteDaysSameDays(db: XDb, a: seq<Day>, b: seq<Day>)
    requires forall x :: x in a <==> x in b
    ensures WriteDays(db, a) == WriteDays(db, b)
  {
    var ea := WriteDays(db, a);
    var eb := WriteDays(db, b);
    assert ea.Keys == eb.Keys;
    forall x | x in ea
      ensures ea[x] == eb[x]
    {
    }
  }

  /** A clean run after a failed one writes the tables a clean first run would have. */
  lemma CleanRunRepairsPartialRun(db: XDb, d: Day)
    ensures Recompute(PartialRecompute(db, d)) == Recompute(db)
    ensures SummaryOf(PartialRecompute(db, d)) == SummaryOf(db)
  {
    var part := PartialRecompute(db, d);
    SameRawTables(part, db);
    RecomputeOverPartial(db, part, Recompute(part), Recompute(db), d);
    UpsertsForReadsRawTables(part, db, SortedSet(PostDates(db)));
  }

  lemma RecomputeOverPartial(db: XDb, part: XDb, fixed: XDb, clean: XDb, d: Day)
    requires part.engagement.Keys == db.engagement.Keys + (set x | x in ActiveDays(db) && x < d)
    requires forall x | x in db.engagement && !(x in ActiveDays(db) && x < d) :: part.engagement[x] == db.engagement[x]
    requires ActiveDays(part) == ActiveDays(db) && forall x :: RowsFor(part, x) == RowsFor(db, x)
    requires fixed.tweets == db.tweets && fixed.metrics == db.metrics
    requires fixed.engagement.Keys == part.engagement.Keys + ActiveDays(part)
    requires forall x | x in ActiveDays(part) :: fixed.engagement[x] == DayTotals(RowsFor(part, x))
    requires forall x | x in part.engagement && x !in ActiveDays(part) :: fixed.engagement[x] == part.engagement[x]
    requires clean.tweets == db.tweets && clean.metrics == db.metrics
    requires clean.engagement.Keys == db.engagement.Keys + ActiveDays(db)
    requires forall x | x in ActiveDays(db) :: clean.engagement[x] == DayTotals(RowsFor(db, x))
    requires forall x | x in db.engagement && x !in ActiveDays(db) :: clean.engagement[x] == db.engagement[x]
    ensures fixed == clean
  {
    assert fixed.engagement.Keys == clean.engagement.Keys;
    forall x | x in clean.engagement
      ensures fixed.engagement[x] == clean.engagement[x]
    {
      if x in ActiveDays(db) {
        assert RowsFor(part, x) == RowsFor(db, x);
      }
    }
  }

  /** One more date visited: its day is written and its upsert appended when it has rows. */
  lemma LoopStep(db: XDb, dates: seq<Day>, i: nat)
    requires i < |dates|
    ensures WriteDays(db, dates[..i + 1])
            == if Active(db, dates[i]) then WriteDays(db, dates[..i])[dates[i] := DayTotals(RowsFor(db, dates[i]))]
               else WriteDays(db, dates[..i])
    ensures UpsertsFor(db, dates[..i + 1])
            == UpsertsFor(db, dates[..i]) + if Active(db, dates[i]) then [ToUpserted(dates[i], DayTotals(RowsFor(db, dates[i])))] else []
  {
    assert dates[..i + 1][..i] == dates[..i];
  }

  /** What the summary says about the rows the job wrote. */
  lemma AggregateSummaryFacts(db: XDb, db': XDb, upserts: seq<Upserted>)
    requires db' == Recompute(db) && upserts == ExpectedUpserts(db)
    ensures forall i, j | 0 <= i < j < |upserts| :: upserts[i].date < upserts[j].date
    ensures forall d :: d in ActiveDays(db) <==> exists i | 0 <= i < |upserts| :: upserts[i].date == d
    ensures forall i | 0 <= i < |upserts| :: upserts[i] == ToUpserted(upserts[i].date, db'.engagement[upserts[i].date])
  {
    var dates := SortedSet(PostDates(db));
    UpsertsForAscending(db, dates);
    forall d | d in ActiveDays(db)
      ensures exists i | 0 <= i < |upserts| :: upserts[i].date == d
    {
      UpsertsForCoversActive(db, dates, d);
    }
    forall i | 0 <= i < |upserts|
      ensures upserts[i].date in ActiveDays(db)
    {
      assert upserts[i].date in dates;
    }
  }

  /** The upserts depend only on the raw tables, not on `engagement_metrics`. */
  lemma {:induction false} UpsertsForReadsRawTables(a: XDb, b: XDb, ds: seq<Day>)
    requires a.tweets == b.tweets && a.metrics == b.metrics
    ensures UpsertsFor(a, ds) == UpsertsFor(b, ds)
  {
    if |ds| > 0 {
      UpsertsForReadsRawTables(a, b, ds[..|ds| - 1]);
      assert RowsFor(a, ds[|ds| - 1]) == RowsFor(b, ds[|ds| - 1]);
    }
  }

  lemma SameRawTables(a: XDb, b: XDb)
    requires a.tweets == b.tweets && a.metrics == b.metrics
    ensures forall d :: RowsFor(a, d) == RowsFor(b, d)
    ensures PostDates(a) == PostDates(b) && ActiveDays(a) == ActiveDays(b)
  {
  }

  /** Running the rollup again over unchanged raw tables writes the same rows. */
  lemma RecomputeIsIdempotent(db: XDb)
    ensures Recompute(Recompute(db)) == Recompute(db)
  {
    var once := Recompute(db);
    var twice := Recompute(once);
    SameRawTables(once, db);
    RewriteSameRows(db, once, twice);
  }

  /** Writing the active days again, with the same totals, over a table that already holds them changes nothing. */
  lemma RewriteSameRows(db: XDb, once: XDb, twice: XDb)
    requires once.engagement.Keys == db.engagement.Keys + ActiveDays(db)
    requires forall d | d in ActiveDays(db) :: once.engagement[d] == DayTotals(RowsFor(db, d))
    requires twice.tweets == once.tweets && twice.metrics == once.metrics
    requires ActiveDays(once) == ActiveDays(db) && forall d :: RowsFor(once, d) == RowsFor(db, d)
    requires twice.engagement.Keys == once.engagement.Keys + ActiveDays(once)
    requires forall d | d in ActiveDays(once) :: twice.engagement[d] == DayTotals(RowsFor(once, d))
    requires forall d | d in once.engagement && d !in ActiveDays(once) :: twice.engagement[d] == once.engagement[d]
    ensures twice.engagement == once.engagement
  {
    forall d | d in once.engagement
      ensures twice.engagement[d] == once.engagement[d]
    {
      if d in ActiveDays(once) {
        assert RowsFor(once, d) == RowsFor(db, d);
      }
    }
  }

  /** A second run reports the same upserts as the first. */
  lemma RecomputeKeepsUpserts(db: XDb)
    ensures ExpectedUpserts(Recompute(db)) == ExpectedUpserts(db)
  {
    var once := Recompute(db);
    SameRawTables(once, db);
    UpsertsForReadsRawTables(once, db, SortedSet(PostDates(db)));
  }

  /**
    A day with views 5 and 10, engagement counters summing to 3 and 7, and
    followers 100 and 250 gets impressions 15, engagements 10, followers 250.
   */
  lemma TwoRowDayExample(a: MetricsRow, b: MetricsRow)
    requires a.counters.views == 5 && b.counters.views == 10
    requires Engagement(a.counters) == 3 && Engagement(b.counters) == 7
    requires a.followers == 100 && b.followers == 250
    ensures DayTotals([a, b]) == DailyEngagement(15, 10, 250)
  {
    var one := [a];
    assert [a, b][..1] == one;
    assert one[..0] == [];
    assert SumBy(one, RowEngagement) == RowEngagement(a) == 3;
    assert MaxFollowers(one) == Max(0, a.followers) == 100;
    assert SumBy([a, b], Views) == SumBy(one, Views) + Views(b) == 15;
    assert SumBy([a, b], RowEngagement) == SumBy(one, RowEngagement) + RowEngagement(b) == 10;
    assert MaxFollowers([a, b]) == Max(MaxFollowers(one), b.followers) == 250;
  }

  /** followers is a maximum, not a sum: it never exceeds the largest single row, however many rows there are. */
  lemma FollowersIsNotASum(rows: seq<MetricsRow>, bound: int)
    requires bound >= 0
    requires forall i | 0 <= i < |rows| :: rows[i].followers <= bound
    ensures DayTotals(rows).followers <= bound
  {
  }
}
