# X and Discord metrics pipelines, modelled in Dafny

This project models the logic behind two background metrics pipelines and their read side.

- **X post ingestion and daily rollup.** A daily job fetches yesterday's posts from the X API. It stores each one in `tweets` (insert if absent) and appends one observation to `tweet_metrics` (an append-only history). It then recomputes `engagement_metrics`, one row per post date: views are summed, the five interaction counters are summed, and followers is the maximum. The app has its own copies of these steps: `storeXPostData`, the link processor, the scheduled job and the aggregator. It also has three `getDailyMetrics` readers, which differ in how they treat followers and how they pick "the last N days".
- **Discord message counter and member gauge.** A bot counts messages in memory per (server, channel, UTC day). Every five minutes it flushes each positive cell to `message_counts` as an additive upsert. Once a day it writes every guild's member count to `user_counts` as an overwriting upsert. An API computes range queries, per-server statistics and a daily summary.
- **UTC time helpers.** These compute the delay until the configured UTC hour, the milliseconds until the next UTC midnight and their h/m/s breakdown, the previous day's window in seconds, and the cutoff-based choice between "today" and "yesterday".
- **Link validation and resubmission cooldown.** The URL-shape check and the extraction of a post ID. The form hook's state machine enforces a 5-minute cooldown between resubmissions of the same post.

Conventions:

- Time is an `int` count of milliseconds since the epoch. A day is `t / 86400000`.
- A `YYYY-MM-DD` string stands for its day number. Fixed-width date keys order lexicographically as days do, so every comparison, `ORDER BY` and `UNIQUE` on a date key is one on the day number.
- Tables are immutable values:
  - keyed tables are maps, or sequences of rows with a unique-key invariant;
  - histories are sequences.
- Each database call takes a fault parameter saying where, if anywhere, it throws. For the aggregator this is `XAggregate.AggFault`: before the loop, or at the queries of one post date. Its writes run outside any transaction, so a failing date leaves the earlier days rewritten.
- The X API response is a parameter (`Fetched(items)` or `FetchFailed(error)`).

Modules, one per component of the program:

| module | file | program part |
|---|---|---|
| `Common` | common.dfy | shared helpers: `Option`, thrown errors, sums, filters, stable sort, digit strings |
| `UtcTime` | utc_time.dfy | the UTC helpers of the Discord utilities and of both X schedulers |
| `TweetIds` | tweet_ids.dfy | `extractTweetId`, `isValidXLink`, the URLs the job and the submission route build |
| `XStore` | x_store.dfy | `upsertTweetAndMetrics` and `storeXPostData` |
| `XAggregate` | x_aggregate.dfy | both `aggregateEngagementMetrics` |
| `XIngest` | x_ingest.dfy | the daily X job, backend and app versions |
| `XQueries` | x_queries.dfy | the `getDailyMetrics` and `getMetricsByTimeRange` readers |
| `LinkProcessor` | link_processor.dfy | `XLinkProcessor` |
| `Submission` | submission.dfy | the link-submission hook |
| `DiscordStore` | discord_store.dfy | `message_counts`, `user_counts` and their upserts and queries |
| `MessageCounter` | message_counter.dfy | the in-memory counter, its flush and its shutdown |
| `UserSnapshot` | user_snapshot.dfy | the daily member-count snapshot |
| `DiscordApi` | discord_api.dfy | `getServerStats`, `getDailySummary`, `getCurrentMemoryStats` |

Notes on the model:

- Where a comment and the code disagree, the model follows the code.
  - The aggregator's header comment says followers is the latest value of the day. The code takes the maximum (`XAggregate.FollowersIsNotASum`).
  - `getDateFromUTCHour`'s comments say both branches count for yesterday. The code returns today's date once the cutoff hour has passed (`UtcTime.DateFromUtcHour`).
- The `tweet_metrics` DDL of both databases has no `followers` column, yet the scheduler's insert writes one. Rows are modelled with a follower count, as the row type in `src/lib/db/schema.ts` has it. The app's SQLite `tweet_metrics` has no follower column, so the link processor stores 0 there.
- The frontend's `upsertTweetAndMetrics` (`frontend/src/features/x-metrics/services/sub/xMetricsDb.ts:22-76`) is the same code as the scheduler's. `XStore.UpsertTweetAndMetrics` models both.
- The link-submission route (`src/app/api/(x-link)/link-submission/route.ts`, line 72) rebuilds `https://x.com/i/status/<id>` from the ID in the request. Its reply's `updated` is whatever the link processor returned, and that is `true` on every success. So the hook's "already up to date" branch is modelled, but this route never reaches it.
- Both halves of the form's link check use the same pattern. A link that passes the format check always yields an ID, so the hook's "Could not extract tweet ID" branch cannot be reached (`Submission.WellFormedLinkReachesCooldown`, `TweetIds.ValidLinkHasTweetId`).

## Model

| member | source | states |
|---|---|---|
| `UtcTime.DayOf` | backend/src/schedulers/discord-metrics/utils.js:1-3 | the UTC date of an instant is the unique day whose 24 hours contain it |
| `UtcTime.TodayDate` | backend/src/schedulers/discord-metrics/utils.js:31-33 | a formatted date names the day that begins at the instant's UTC midnight |
| `UtcTime.DayOfUnique` | backend/src/schedulers/discord-metrics/utils.js:1-3 | any day whose 24-hour span contains the instant is its UTC date |
| `UtcTime.DayOfShift` | backend/src/schedulers/discord-metrics/utils.js:19-28 | moving an instant by k whole days moves its UTC date by exactly k |
| `UtcTime.TargetTime` | backend/src/schedulers/discord-metrics/utils.js:7-12 | the target is today at H:00:00.000 UTC, moved to tomorrow only when now is strictly after it |
| `UtcTime.DelayUntilHour` | backend/src/schedulers/discord-metrics/utils.js:5-14 | the delay is target minus now, lies in [0, 86400000), lands exactly on H:00:00.000 UTC, and is 0 exactly when now is that instant |
| `UtcTime.DelayIsEarliest` | backend/src/schedulers/discord-metrics/utils.js:7-14 | no instant between now and the scheduled one falls at hour H, so the first firing is the earliest possible |
| `UtcTime.MidnightCutoffExamples` | backend/src/schedulers/discord-metrics/utils.js:7-14 | with H = 0, 23:00 UTC waits 3600000 ms and 00:30 UTC waits 84600000 ms |
| `UtcTime.FiringsAtHourDaily` | backend/src/schedulers/discord-metrics/utils.js:19-28 | every firing after start-up falls at hour H, no earlier than start-up, and consecutive firings are 86400000 ms apart |
| `UtcTime.DateFromUtcHour` | backend/src/schedulers/discord-metrics/utils.js:42-55 | the date is today's UTC date when the current UTC hour is at least the cutoff, otherwise yesterday's |
| `UtcTime.DateFromUtcHourShiftsByCutoff` | backend/src/schedulers/discord-metrics/utils.js:42-55 | that choice is the UTC date of the instant H hours earlier, i.e. days run from cutoff to cutoff |
| `UtcTime.MsUntilNextMidnight` | src/features/x-metrics/services/xMetricsScheduler.ts:5-9 | the wait lies in (0, 86400000], ends on a UTC midnight, and is a full day exactly at midnight |
| `UtcTime.NextMidnightMatchesCutoffDelay` | src/features/x-metrics/services/xMetricsScheduler.ts:5-9 | the app's wait equals the Discord scheduler's delay for hour 0, except at midnight itself, where it is a whole day rather than 0 |
| `UtcTime.BreakDown` | src/features/x-metrics/services/xMetricsScheduler.ts:13-16 | minutes and seconds are below 60, hours are at most 24 for a wait of at most a day, and h, m, s reassemble the wait to within one second below |
| `UtcTime.PreviousDayWindow` | backend/src/schedulers/x-metrics/scheduler/xMetricsScheduler.js:8-15 | since is yesterday's UTC midnight in seconds, until is one second before today's, they are 86399 apart, and the date is yesterday |
| `UtcTime.WindowIsYesterday` | backend/src/schedulers/x-metrics/scheduler/xMetricsScheduler.js:11-14 | a second lies in the window exactly when its UTC date is the window's date string |
| `TweetIds.FirstMatchFrom` | backend/src/schedulers/x-metrics/scheduler/sub/xMetricsDb.js:6-9 | the result is the leftmost position at or after the start where "/status/" and a digit occur, or none when there is none |
| `TweetIds.ExtractTweetId` | backend/src/schedulers/x-metrics/scheduler/sub/xMetricsDb.js:6-9 | the extracted ID consists of digits only |
| `TweetIds.ExtractTweetIdIsLeftmostMatch` | backend/src/schedulers/x-metrics/scheduler/sub/xMetricsDb.js:6-9 | the ID is empty exactly when no "/status/" is followed by a digit; otherwise it is the whole digit run after the leftmost such occurrence |
| `TweetIds.JobUrlRoundTrip` | backend/src/schedulers/x-metrics/scheduler/xMetricsScheduler.js:40 | for a non-empty all-digit post ID, extracting from the URL the job builds gives that ID back |
| `TweetIds.SubmissionUrlRoundTrip` | src/services/x-metrics/XLinkProcessor.ts:41-44 | for a non-empty all-digit ID, the link processor's extraction from `https://x.com/i/status/<id>` (the URL the submission route rebuilds) gives that ID back |
| `TweetIds.HandleRunLength` | src/services/x-metrics/XLinkProcessor.ts:36-39 | the handle is the longest prefix of letters, digits and underscores |
| `TweetIds.ValidLinkParts` | src/services/x-metrics/XLinkProcessor.ts:36-39 | an accepted link splits into a scheme, an optional "www.", a host, and a handle then "/status/" then a digit |
| `TweetIds.IsValidXLinkMeansPattern` | src/services/x-metrics/XLinkProcessor.ts:36-39 | the link check accepts exactly the strings that start with http(s)://[www.](twitter.com or x.com)/handle/status/digit, whatever follows |
| `TweetIds.ValidLinkHasTweetId` | src/services/x-metrics/XLinkProcessor.ts:36-44 | every valid link yields a non-empty all-digit post ID |
| `XStore.CommitStore` | backend/src/schedulers/x-metrics/scheduler/sub/xMetricsDb.js:22-57 | a committed call inserts the post only if its ID is new, never alters an existing post, appends exactly one metrics row carrying the counters, keeps the foreign key, and reports "updated" or "stored" by prior existence |
| `XStore.UpsertTweetAndMetrics` | backend/src/schedulers/x-metrics/scheduler/sub/xMetricsDb.js:14-65 | connection and BEGIN failures escape; an empty ID fails without writing; a failure inside the transaction rolls back every write and returns the error's message; success happens exactly for a non-empty ID with no fault |
| `XStore.StoreXPostData` | src/features/x-metrics/services/xMetricsGetter.ts:25-91 | every fault, connection included, becomes success false with no writes; success happens exactly for an extractable ID and a working database, with the same commit |
| `XStore.StoreXPostDataCatchesUpsert` | src/features/x-metrics/services/xMetricsGetter.ts:85-91 | the app's store is the scheduler's with every escaping error caught and reported by its message |
| `XStore.StoreExistingTweet` | backend/src/schedulers/x-metrics/scheduler/sub/xMetricsDb.js:25-57 | storing a known post leaves `tweets` unchanged, adds one history row and reports "updated" |
| `XStore.StoreSameLinkTwice` | backend/src/schedulers/x-metrics/scheduler/sub/xMetricsDb.js:25-50 | storing one link twice adds at most one post, never changes it on the second call, and appends both observations in order |
| `XAggregate.Join` | backend/src/schedulers/x-metrics/scheduler/sub/xMetricsAggregator.js:25-33 | every joined row is a metrics row whose post has that post date, and every such row is joined |
| `XAggregate.JoinKeepsMultiplicity` | backend/src/schedulers/x-metrics/scheduler/sub/xMetricsAggregator.js:25-33 | each metrics row whose post has that post date is joined as many times as `tweet_metrics` holds it; no other row is joined |
| `XAggregate.MaxFollowers` | backend/src/schedulers/x-metrics/scheduler/sub/xMetricsAggregator.js:39-45 | followers is at least 0 and at least every row's count, and it is 0 or some row's count |
| `XAggregate.AccumulateDay` | backend/src/schedulers/x-metrics/scheduler/sub/xMetricsAggregator.js:38-46 | the loop yields the sum of views, the sum of the five interaction counters, and the maximum of followers from 0 |
| `XAggregate.WriteDays` | backend/src/schedulers/x-metrics/scheduler/sub/xMetricsAggregator.js:49-59 | each visited active date gets its totals, overwriting any row; every other existing row keeps its values |
| `XAggregate.Recompute` | src/features/x-metrics/services/aggregateEngagementMetrics.ts:14-62 | the raw tables are unchanged; exactly the dates with metrics rows are written with their totals; a date with no rows keeps its old row |
| `XAggregate.UpsertsFor` | backend/src/schedulers/x-metrics/scheduler/sub/xMetricsAggregator.js:61-66 | every summary entry is a visited active date with that date's totals |
| `XAggregate.UpsertsForCoversActive` | backend/src/schedulers/x-metrics/scheduler/sub/xMetricsAggregator.js:35 | every visited date that has metrics rows has a summary entry |
| `XAggregate.UpsertsForAscending` | backend/src/schedulers/x-metrics/scheduler/sub/xMetricsAggregator.js:17-19 | visiting dates in ascending order gives summary entries in strictly ascending date order |
| `XAggregate.ActiveDaysAreRowDays` | backend/src/schedulers/x-metrics/scheduler/sub/xMetricsAggregator.js:17-35 | a date is processed exactly when some metrics row belongs to a post with that post date |
| `XAggregate.PartialRecompute` | backend/src/schedulers/x-metrics/scheduler/sub/xMetricsAggregator.js:17-59 | when the queries of post date d throw, the raw tables are unchanged, every active date before d holds its totals, and every other row keeps its values |
| `XAggregate.Aggregate` | backend/src/schedulers/x-metrics/scheduler/sub/xMetricsAggregator.js:13-73 | a run throws exactly when its fault fires (a date fault only if that date is a post date); it returns a summary exactly when nothing was thrown; the raw tables are never changed |
| `XAggregate.AggregateEngagementMetrics` | backend/src/schedulers/x-metrics/scheduler/sub/xMetricsAggregator.js:13-73 | a failure before the loop changes nothing; a failure at a post date leaves the days before it rewritten and throws; otherwise the result table is the recompute, and the summary lists each active date once, in ascending order, with the values written, daysProcessed being its length |
| `XAggregate.PrefixIsBefore` | backend/src/schedulers/x-metrics/scheduler/sub/xMetricsAggregator.js:17-23 | a loop over ascending dates stopped at a date has written exactly the dates before it |
| `XAggregate.WriteDaysSameDays` | backend/src/schedulers/x-metrics/scheduler/sub/xMetricsAggregator.js:23-59 | the rows written depend only on which dates are visited |
| `XAggregate.CleanRunRepairsPartialRun` | backend/src/schedulers/x-metrics/scheduler/sub/xMetricsAggregator.js:17-72 | a clean run after a failed one leaves the tables, and reports the summary, of a clean first run |
| `XAggregate.UpsertsForReadsRawTables` | backend/src/schedulers/x-metrics/scheduler/sub/xMetricsAggregator.js:17-59 | the summary depends only on `tweets` and `tweet_metrics`, not on `engagement_metrics` |
| `XAggregate.RecomputeIsIdempotent` | backend/src/schedulers/x-metrics/scheduler/sub/xMetricsAggregator.js:17-59 | running the aggregation twice with no raw-table change gives the same tables as running it once |
| `XAggregate.RecomputeKeepsUpserts` | backend/src/schedulers/x-metrics/scheduler/sub/xMetricsAggregator.js:17-72 | a second run reports the same summary as the first |
| `XAggregate.TwoRowDayExample` | backend/src/schedulers/x-metrics/scheduler/sub/xMetricsAggregator.js:40-46 | a day with views 5 and 10, engagements 3 and 7, and followers 100 and 250 is written as (15, 10, 250) |
| `XAggregate.FollowersIsNotASum` | backend/src/schedulers/x-metrics/scheduler/sub/xMetricsAggregator.js:45 | the daily followers never exceed a bound that every row's count respects: a maximum, not a sum |
| `XIngest.MissingMetricsAreZero` | backend/src/schedulers/x-metrics/scheduler/xMetricsScheduler.js:29-39 | a post without public metrics is stored with all counters and followers 0 |
| `XIngest.ViewsComeFromImpressions` | backend/src/schedulers/x-metrics/scheduler/xMetricsScheduler.js:35 | views are the API's impressions, or 0 when that field is missing |
| `XIngest.StoreStep` | backend/src/schedulers/x-metrics/scheduler/xMetricsScheduler.js:28-42 | one iteration either records a result and continues or, when the store escapes, stops the loop with the results so far |
| `XIngest.StoreLoop` | backend/src/schedulers/x-metrics/scheduler/xMetricsScheduler.js:28-42 | a completed loop has one result per item; the database gains only rows and posts dated yesterday, one history row per success |
| `XIngest.StoreLoopStopsOnlyOnEscape` | backend/src/schedulers/x-metrics/scheduler/xMetricsScheduler.js:28-46 | the loop completes exactly when no store escapes; an aborted loop stopped at the first item whose store escaped |
| `XIngest.DailyJob` | backend/src/schedulers/x-metrics/scheduler/xMetricsScheduler.js:18-51 | a connection or fetch failure changes nothing; otherwise existing posts are untouched, new posts are dated yesterday, and the foreign key is kept; the run has a summary exactly when nothing was caught |
| `XIngest.DailyJobAggregatesIffNoEscape` | backend/src/schedulers/x-metrics/scheduler/xMetricsScheduler.js:25-50 | the run completes exactly when the connection and fetch succeed, no store escapes and the aggregation does not throw; otherwise it stopped at the first escaping item or in the aggregation |
| `XIngest.CompletedLoopAggregatesStoredState` | backend/src/schedulers/x-metrics/scheduler/xMetricsScheduler.js:28-50 | once the store loop completes, the run's tables and summary are the recompute of the stored state and its summary; an aggregation failure leaves that state untouched or rewritten up to the failing date, and is caught |
| `XIngest.DailyJobTs` | src/features/x-metrics/services/xMetricsScheduler.ts:60-98 | a failure loading the app's modules is caught and changes nothing |
| `XIngest.DailyJobTsMatchesBackend` | src/features/x-metrics/services/xMetricsScheduler.ts:66-97 | once its modules load, the app's job behaves exactly like the scheduler's, aggregation failures included |
| `XIngest.CleanRunStoresEveryPost` | backend/src/schedulers/x-metrics/scheduler/xMetricsScheduler.js:25-45 | with a working database every fetched post is stored, the history grows by one row per post, and the run ends with the recompute of the stored state and its summary |
| `XIngest.CleanLoopStoresEveryPost` | backend/src/schedulers/x-metrics/scheduler/xMetricsScheduler.js:28-42 | with no faults the loop completes, every store succeeds, and every post ID is in `tweets` |
| `XIngest.FetchFailureStoresNothing` | backend/src/schedulers/x-metrics/scheduler/xMetricsScheduler.js:48-50 | a failed fetch stores nothing, skips aggregation, and is caught |
| `XQueries.DaysOfRangeReadsBack` | frontend/src/features/x-metrics/services/sub/xMetricsDb.ts:168-174 | "Nd" reads back as N; "all" and anything not digits then "d" apply no filter |
| `XQueries.OnDates` | src/features/x-metrics/services/xMetricsGetter.ts:217-222 | a row is kept exactly when its date is among those chosen, and no row is duplicated |
| `XQueries.AtOrAfter` | src/services/x-metrics/XMetricsGetter.ts:41-50 | a row is kept exactly when its date is on or after the cutoff |
| `XQueries.NewestDatesAreRanked` | src/features/x-metrics/services/xMetricsGetter.ts:217-222 | a date is among the N most recent distinct dates exactly when fewer than N distinct dates are newer |
| `XQueries.RecentWindowKeepsShortHistory` | src/services/x-metrics/XMetricsGetter.ts:117-131 | with at most N distinct dates the last-N-days filter keeps every row |
| `XQueries.RecentWindowKeepsLaterRows` | src/features/x-metrics/services/xMetricsGetter.ts:217-222 | the window is closed upwards: a row as new as a kept row is kept |
| `XQueries.OffsetWindow` | frontend/src/features/x-metrics/services/sub/xMetricsDb.ts:177-181 | with fewer than N rows nothing qualifies; otherwise the rows on or after some date of the table are kept |
| `XQueries.OffsetWindowCutoffIsNthNewest` | frontend/src/features/x-metrics/services/sub/xMetricsDb.ts:177-181 | with one row per date and at least N rows, the cutoff is the N-th newest date: exactly N - 1 dates of the table are later |
| `XQueries.NthNewestHasNewer` | frontend/src/features/x-metrics/services/sub/xMetricsDb.ts:178-180 | in the newest-first order of a table with one row per date, the row at position k has exactly k later dates |
| `XQueries.DistinctDatesPermutation` | frontend/src/lib/db/index.ts:57 | reordering a table with unique dates keeps them unique |
| `XQueries.OffsetWindowIsRecentWindow` | frontend/src/features/x-metrics/services/sub/xMetricsDb.ts:177-181 | with one row per date and at least N rows, the OFFSET form keeps the same rows, in the same order, as the N-most-recent-dates form |
| `XQueries.PeriodOrderIsYearThenWeek` | frontend/src/features/x-metrics/services/sub/xMetricsDb.ts:130-151 | week periods order by year then week, and two days share a period exactly when year and week (or year and month) agree |
| `XQueries.KeyRows` | frontend/src/features/x-metrics/services/sub/xMetricsDb.ts:130-160 | every row is tagged with its period and kept in place |
| `XQueries.GroupRow` | frontend/src/features/x-metrics/services/sub/xMetricsDb.ts:189-196 | the group carries its period, has a followers column exactly when the reader selects one, and is labelled with its date under day grouping |
| `XQueries.GroupRowSummarises` | frontend/src/features/x-metrics/services/sub/xMetricsDb.ts:130-160 | a group sums impressions and engagements, its start and end dates are its earliest and latest row dates, and followers is the rows' maximum or sum as the reader says |
| `XQueries.GroupRows` | src/features/x-metrics/services/xMetricsGetter.ts:176-197 | one aggregate per listed period, each summarising exactly that period's rows |
| `XQueries.GroupBy` | frontend/src/features/x-metrics/services/sub/xMetricsDb.ts:140-159 | one aggregate per distinct period, in strictly ascending period order, each summarising its period's rows |
| `XQueries.GroupByCoversPeriods` | frontend/src/features/x-metrics/services/sub/xMetricsDb.ts:140-159 | every period present in the table has an aggregate |
| `XQueries.TotalOverGroups` | src/features/x-metrics/services/xMetricsGetter.ts:176-197 | the aggregates over distinct periods add up to the total over those periods' rows |
| `XQueries.GroupByConserves` | src/features/x-metrics/services/xMetricsGetter.ts:176-197 | grouping loses and duplicates nothing: impressions, engagements and summed followers add up to the table's totals |
| `XQueries.DayGroupsAreRows` | src/services/x-metrics/XMetricsGetter.ts:100-108 | with one row per date, each day group holds exactly that row |
| `XQueries.FrontendDailyMetrics` | frontend/src/features/x-metrics/services/sub/xMetricsDb.ts:119-200 | a connection failure escapes and a query failure gives []; "Nd" keeps the OFFSET window (nothing for N = 0), otherwise every row, grouped with the maximum of followers |
| `XQueries.DailyMetrics` | src/features/x-metrics/services/xMetricsGetter.ts:154-243 | a connection failure escapes and a query failure gives []; "Nd" keeps the rows of the N most recent distinct dates, otherwise every row, grouped |
| `XQueries.FeatureDailyMetrics` | src/features/x-metrics/services/xMetricsGetter.ts:176-197 | this reader is the recent-dates reader with followers summed, and every aggregate carries followers |
| `XQueries.FrontendDailyMetricsCorrected` | frontend/src/features/x-metrics/services/sub/xMetricsDb.ts:174-182 | the frontend reader with its filter keeping the last N distinct dates and followers as a maximum |
| `XQueries.OffsetHidesShortHistory` | frontend/src/features/x-metrics/services/sub/xMetricsDb.ts:177-181 | with fewer than N rows the frontend reader returns nothing, where the corrected reader returns every row grouped |
| `XQueries.OffsetHidesThreeDays` | frontend/src/features/x-metrics/services/sub/xMetricsDb.ts:177-181 | three days of data asked for as "7d" give no rows as written and three rows corrected |
| `XQueries.ServiceDailyMetrics` | src/services/x-metrics/XMetricsGetter.ts:63-150 | grouping is forced to day unless the range is "7d"; the rows are the N most recent distinct dates or all; no aggregate has followers; a connection failure escapes; a query failure gives [] |
| `XQueries.MetricsByTimeRange` | src/services/x-metrics/XMetricsGetter.ts:24-60 | the rows dated within the last N days (all for "all"), as a permutation of them sorted by ascending date; a connection failure escapes; a query failure gives [] |
| `XQueries.WiderRangeReturnsMore` | src/services/x-metrics/XMetricsGetter.ts:41-50 | every row returned for 7 days is returned for 14, every one for 14 for 30, and every one for 30 for "all" |
| `XQueries.FrontendMetricsByTimeRange` | frontend/src/features/x-metrics/services/sub/xMetricsDb.ts:81-114 | as written the reader returns no row whatever the range, unless the connection fails |
| `XQueries.FrontendMetricsAlwaysEmpty` | frontend/src/features/x-metrics/services/sub/xMetricsDb.ts:86-113 | one row dated today is missing even for "all", where the intended reader returns it |
| `LinkProcessor.CalculateEngagementMetrics` | src/services/x-metrics/XLinkProcessor.ts:46-59 | the summary is dated today (UTC) and its impressions are the views |
| `LinkProcessor.SummaryIsOneRowDay` | src/services/x-metrics/XLinkProcessor.ts:46-59 | one observation's summary equals what the daily aggregation computes for a day holding only that observation |
| `LinkProcessor.CommitPost` | src/services/x-metrics/XLinkProcessor.ts:75-130 | the post is inserted only if new, existing posts are untouched, one metrics row and one engagement row for that post are appended, and the message reflects prior existence |
| `LinkProcessor.StorePostData` | src/services/x-metrics/XLinkProcessor.ts:61-145 | success happens exactly for an extractable ID and a working database; any failure writes nothing and reports the missing ID or the error's message |
| `LinkProcessor.StorePostDataAgreesWithStoreXPostData` | src/services/x-metrics/XLinkProcessor.ts:61-107 | on `tweets`, `tweet_metrics` and the reply, the link processor behaves exactly like `storeXPostData` without followers |
| `LinkProcessor.StoredEntryIsTodaysSummary` | src/services/x-metrics/XLinkProcessor.ts:93-121 | a successful call appends this observation to the history and today's summary of it to the engagement log |
| `LinkProcessor.ValidLinkIsStored` | src/services/x-metrics/XLinkProcessor.ts:36-68 | every valid link is stored when the database does not fail |
| `LinkProcessor.SubmittedIdIsStored` | src/services/x-metrics/XLinkProcessor.ts:61-145 | given the URL `https://x.com/i/status/<id>` that the submission route rebuilds, the ID a user submits is the ID stored, both in `tweets` and in the new engagement row |
| `LinkProcessor.EntriesOn` | src/services/x-metrics/XLinkProcessor.ts:110-121 | the entries of a day are rows of the log with that date |
| `LinkProcessor.StoreTwiceSameDayLogsTwoRows` | src/services/x-metrics/XLinkProcessor.ts:110-121 | storing one link twice on a UTC day leaves two more engagement rows for that day, and the second call reports "updated" |
| `LinkProcessor.StorePostDataKeepsKeys` | src/lib/db/index.ts:44-52 | every call, failed or not, keeps both foreign keys on `tweets` |
| `Submission.TrimStart` | src/hooks/x-metrics/xLinkSubmission.tsx:73 | the result is a suffix that starts with no JavaScript whitespace, and every character removed before it is whitespace |
| `Submission.TrimEnd` | src/hooks/x-metrics/xLinkSubmission.tsx:73 | the result is a prefix that ends with no JavaScript whitespace, and every character removed after it is whitespace |
| `Submission.TrimIsEmptyIffBlank` | src/hooks/x-metrics/xLinkSubmission.tsx:73-76 | trimming leaves nothing exactly when every character is whitespace |
| `Submission.LinkIsNotBlank` | src/hooks/x-metrics/xLinkSubmission.tsx:73-82 | a link that passes the format check is never blank |
| `Submission.CleanXLink` | src/hooks/x-metrics/xLinkSubmission.tsx:37-41 | an ID comes back exactly when "/status/" is followed by a digit somewhere, and it is non-empty digits |
| `Submission.FormatCheckYieldsId` | src/hooks/x-metrics/xLinkSubmission.tsx:37-45 | for a link passing the format check, cleaning yields the same ID as the link processor extracts |
| `Submission.Prune` | src/hooks/x-metrics/xLinkSubmission.tsx:50-52 | an entry survives exactly when fewer than 300000 ms have passed since it was recorded; the result is the list's fresh entries in their order, repeats kept, as `filter` returns them |
| `Submission.FindTweet` | src/hooks/x-metrics/xLinkSubmission.tsx:55-57 | the result is the first entry with that ID, or none exactly when no entry has it |
| `Submission.CeilThousandthsBounds` | src/hooks/x-metrics/xLinkSubmission.tsx:59-63 | the rounded-up quotient is the least whole number of seconds covering the milliseconds |
| `Submission.WaitSecondsBounds` | src/hooks/x-metrics/xLinkSubmission.tsx:59-66 | the reported wait is ceil((300000 − elapsed) / 1000) seconds, at least 1, and at most 300 when the entry is not in the future |
| `Submission.CanSubmitTweet` | src/hooks/x-metrics/xLinkSubmission.tsx:47-70 | the kept list is the fresh entries in order; a submission is blocked exactly when a surviving entry has the same ID, and the wait is the remaining cooldown of the first such entry, the one `find` returns |
| `Submission.SubmitXLink` | src/hooks/x-metrics/xLinkSubmission.tsx:72-142 | blank then format then cooldown are checked in order; the request carries the extracted ID; success mirrors an ok reply; the post is held back only after an ok, updated reply |
| `Submission.WellFormedLinkReachesCooldown` | src/hooks/x-metrics/xLinkSubmission.tsx:85-94 | a well-formed link is either sent or refused with a wait of at least one second, never with "Could not extract" |
| `Submission.BlockedWaitIsBounded` | src/hooks/x-metrics/xLinkSubmission.tsx:59-67 | when no entry lies in the future, a reported wait is between 1 and 300 seconds |
| `Submission.UpdatedTweetIsHeldBack` | src/hooks/x-metrics/xLinkSubmission.tsx:114-119 | after an ok, updated reply, the same link is refused for the next 300000 ms |
| `Submission.UnchangedTweetIsNotHeldBack` | src/hooks/x-metrics/xLinkSubmission.tsx:109-133 | after a failed or not-updated reply the same link can be sent again at once |
| `Submission.CooldownExpires` | src/hooks/x-metrics/xLinkSubmission.tsx:25-52 | once 300000 ms have passed since the recorded reply, the same link can be sent again |
| `DiscordStore.Lookup` | backend/src/schedulers/discord-metrics/scheduler/sub/db.js:37-49 | a key has a count exactly when a row of the table has that key |
| `DiscordStore.LookupIsARow` | backend/src/schedulers/discord-metrics/scheduler/sub/db.js:37-49 | the count found for a key is the count of a row with that key |
| `DiscordStore.Put` | backend/src/schedulers/discord-metrics/scheduler/sub/db.js:83-96 | writing a key sets its count, leaves every other key, adds a row only for a new key, and keeps keys unique |
| `DiscordStore.UpsertMessageCount` | backend/src/schedulers/discord-metrics/scheduler/sub/db.js:63-81 | the stored count becomes the old count plus the delta (the delta if absent) and is returned; other keys are untouched; a store error is rethrown |
| `DiscordStore.UpsertUserCount` | backend/src/schedulers/discord-metrics/scheduler/sub/db.js:83-101 | the stored count becomes the given count and is returned; other keys are untouched; a store error is rethrown |
| `DiscordStore.MessageUpsertsAdd` | backend/src/schedulers/discord-metrics/scheduler/sub/db.js:69 | two additive upserts of a and b leave the same counts as one upsert of a + b |
| `DiscordStore.UserUpsertLastWriteWins` | backend/src/schedulers/discord-metrics/scheduler/sub/db.js:89 | the member gauge keeps only the most recent count for a (server, date) |
| `DiscordStore.UserUpsertIdempotent` | backend/src/schedulers/discord-metrics/scheduler/sub/db.js:83-96 | writing the same member count twice is the same as writing it once |
| `DiscordStore.GetMessageCounts` | backend/src/schedulers/discord-metrics/scheduler/sub/db.js:103-135 | exactly the rows of the server, of the channel when given, and within the inclusive date bounds when given, newest date first; errors rethrown |
| `DiscordStore.GetUserCounts` | backend/src/schedulers/discord-metrics/scheduler/sub/db.js:137-165 | exactly the rows of the server within the inclusive date bounds when given, newest date first; errors rethrown |
| `DiscordStore.OneUserRowPerDay` | backend/src/schedulers/discord-metrics/scheduler/sub/db.js:37 | under the (server, date) primary key, a one-day query returns at most one member count |
| `MessageCounter.TrackedChannels` | backend/src/schedulers/discord-metrics/scheduler/sub/tracker.js:8-11 | a channel is tracked exactly when some server's configured list names it |
| `MessageCounter.Increment` | backend/src/schedulers/discord-metrics/scheduler/sub/tracker.js:26-42 | the counted cell goes up by one, created at 0 if absent; every other cell is unchanged; counts stay non-negative and keys unique |
| `MessageCounter.InsertNewCell` | backend/src/schedulers/discord-metrics/scheduler/sub/tracker.js:26-38 | a new cell inserted anywhere adds exactly its key and keeps every other count |
| `MessageCounter.OnMessage` | backend/src/schedulers/discord-metrics/scheduler/sub/tracker.js:17-42 | a message from a bot, outside a guild or in an untracked channel changes nothing; any other message adds one to (guild, channel, today) only |
| `MessageCounter.CountingAddsOne` | backend/src/schedulers/discord-metrics/scheduler/sub/tracker.js:17-42 | counting a message raises the pending-plus-stored total of exactly one key by one |
| `MessageCounter.Pending` | backend/src/schedulers/discord-metrics/scheduler/sub/tracker.js:73-79 | the upserts sent are for cells with positive counts only, one per cell |
| `MessageCounter.ZeroAll` | backend/src/schedulers/discord-metrics/scheduler/sub/tracker.js:84-95 | every cell is set to 0 and none is removed |
| `MessageCounter.FlushAsWritten` | backend/src/schedulers/discord-metrics/scheduler/sub/tracker.js:69-100 | the positive cells are sent in order until one fails; cells are zeroed only when all were sent and the total was positive; on a failure no cell is reset |
| `MessageCounter.Flush` | backend/src/schedulers/discord-metrics/scheduler/sub/tracker.js:69-100 | the corrected flush keeps every cell (zeroing, never removing) and keeps stored keys unique |
| `MessageCounter.FlushConserves` | backend/src/schedulers/discord-metrics/scheduler/sub/tracker.js:73-99 | for every key, pending plus stored messages are the same before and after the corrected flush, whichever upsert fails |
| `MessageCounter.FlushAgreesWithoutFailure` | backend/src/schedulers/discord-metrics/scheduler/sub/tracker.js:84-95 | when no upsert fails, the corrected flush and the code as written store the same counts and leave the same pending counts |
| `MessageCounter.FlushAsWrittenInflates` | backend/src/schedulers/discord-metrics/scheduler/sub/tracker.js:96-99 | as written, a failure after a key's upsert leaves that key counted twice: its total grows by its pending count |
| `MessageCounter.PartialFlushDoubleCounts` | backend/src/schedulers/discord-metrics/scheduler/sub/tracker.js:96-99 | two channels with one message each, the second upsert failing, then a clean flush: the first channel is stored as 2 as written and as 1 corrected |
| `MessageCounter.IdleFlushChangesNothing` | backend/src/schedulers/discord-metrics/scheduler/sub/tracker.js:76-84 | with every cell at 0 a flush sends nothing and changes nothing |
| `MessageCounter.InMemoryStats` | backend/src/schedulers/discord-metrics/scheduler/sub/tracker.js:102-125 | servers count the distinct server keys, channels the distinct (server, channel) pairs, pending the sum of the cells; the cells themselves are returned |
| `MessageCounter.StatsCountDistinct` | backend/src/schedulers/discord-metrics/scheduler/sub/tracker.js:102-125 | there are no more servers than channels and no more channels than cells, and a non-empty counter has a server |
| `MessageCounter.CleanFlushEmptiesCounter` | backend/src/schedulers/discord-metrics/scheduler/sub/tracker.js:84-95 | after a flush with no failure nothing is pending, yet every server and channel is still listed |
| `MessageCounter.Tick` | backend/src/schedulers/discord-metrics/scheduler/sub/tracker.js:48-50 | once the periodic flush is cleared, a tick changes nothing |
| `MessageCounter.Shutdown` | backend/src/schedulers/discord-metrics/scheduler/sub/tracker.js:53-61 | shutdown clears the periodic flush, then performs one final flush |
| `MessageCounter.NoFlushAfterShutdown` | backend/src/schedulers/discord-metrics/scheduler/sub/tracker.js:53-61 | after shutdown no periodic flush runs again |
| `UserSnapshot.Recorded` | backend/src/schedulers/discord-metrics/scheduler/scheduler.js:52-64 | the recorded guilds are some of the bot's guilds, in iteration order |
| `UserSnapshot.SnapshotTable` | backend/src/schedulers/discord-metrics/scheduler/scheduler.js:52-64 | the per-guild writes keep `user_counts` keyed by (server, date) |
| `UserSnapshot.TriggerUserSnapshot` | backend/src/schedulers/discord-metrics/scheduler/scheduler.js:45-68 | the loop writes under one date read before it, skips guilds whose upsert throws, and counts servers and members over the recorded guilds only |
| `UserSnapshot.SnapshotRecordsEachGuild` | backend/src/schedulers/discord-metrics/scheduler/scheduler.js:48-64 | each guild whose upsert succeeds holds its member count under today's date; a failing guild keeps its old value; no other key changes |
| `UserSnapshot.TotalsCountRecordedGuilds` | backend/src/schedulers/discord-metrics/scheduler/scheduler.js:57-67 | totalServers is the number of guilds minus those whose upsert threw |
| `UserSnapshot.ScheduledSnapshot` | backend/src/schedulers/discord-metrics/scheduler/scheduler.js:5-36 | the scheduled callback runs the same loop and keeps `user_counts` keyed by (server, date) |
| `UserSnapshot.ScheduledFiringDates` | backend/src/schedulers/discord-metrics/scheduler/scheduler.js:39 | the n-th scheduled snapshot fires at the cutoff hour and records n days after the first |
| `DiscordApi.RoundDiv` | backend/src/schedulers/discord-metrics/scheduler/sub/api.js:63 | the average is the quotient rounded to the nearest integer, halves upwards, as `Math.round` does |
| `DiscordApi.GetServerUserCounts` | backend/src/schedulers/discord-metrics/scheduler/sub/api.js:16-22 | the result is the database query's; a failure is rethrown with the server in its message |
| `DiscordApi.GetServerMessageCounts` | backend/src/schedulers/discord-metrics/scheduler/sub/api.js:32-38 | the result is the database query's; a failure is rethrown with the server in its message |
| `DiscordApi.RecordsOf` | backend/src/schedulers/discord-metrics/scheduler/sub/api.js:76-85 | a channel's records are records of that channel |
| `DiscordApi.BucketOf` | backend/src/schedulers/discord-metrics/scheduler/sub/api.js:76-85 | a channel's bucket is found exactly when the channel has one |
| `DiscordApi.AddToBucket` | backend/src/schedulers/discord-metrics/scheduler/sub/api.js:77-84 | a record goes into its channel's bucket, created if absent; the other buckets are unchanged and the total grows by its count |
| `DiscordApi.GroupByChannel` | backend/src/schedulers/discord-metrics/scheduler/sub/api.js:76-85 | one bucket per distinct channel of the records |
| `DiscordApi.GroupByChannelPartitions` | backend/src/schedulers/discord-metrics/scheduler/sub/api.js:76-85 | each channel's bucket holds exactly that channel's records, in order, with their sum |
| `DiscordApi.RecordsOfNonEmptyIffPresent` | backend/src/schedulers/discord-metrics/scheduler/sub/api.js:76-85 | a channel has records exactly when it occurs among them |
| `DiscordApi.GroupByChannelKeepsTotal` | backend/src/schedulers/discord-metrics/scheduler/sub/api.js:68-85 | the bucket totals add up to totalMessages |
| `DiscordApi.Statistics` | backend/src/schedulers/discord-metrics/scheduler/sub/api.js:56-87 | totals count the records; latest is the first user record or 0; averages are rounded quotients, 0 with no records; byChannel is the grouping |
| `DiscordApi.GetServerStats` | backend/src/schedulers/discord-metrics/scheduler/sub/api.js:46-91 | an end outside the range of `Date` fails with "Invalid time value" before either query runs; otherwise the window ends today and starts `days` days earlier, both record lists are the database's for that window, and the statistics are those of these lists; a query failure is rethrown with the server |
| `DiscordApi.EmptyWindowHasNoMessages` | backend/src/schedulers/discord-metrics/scheduler/sub/db.js:113-124 | a window whose start is after its end returns no message rows |
| `DiscordApi.EmptyWindowHasNoUsers` | backend/src/schedulers/discord-metrics/scheduler/sub/db.js:141-152 | a window whose start is after its end returns no user rows |
| `DiscordApi.NegativeDaysGiveEmptyStats` | backend/src/schedulers/discord-metrics/scheduler/sub/api.js:48-67 | a negative look-back returns statistics exactly when its start is a valid date; then the window starts after today, both lists are empty and every count and average is 0 |
| `DiscordApi.LatestIsNewest` | backend/src/schedulers/discord-metrics/scheduler/sub/api.js:62 | latest is the count of the server's newest in-window record |
| `DiscordApi.Breakdown` | backend/src/schedulers/discord-metrics/scheduler/sub/api.js:123-136 | one entry per server with user rows; each carries the user count of that server's last row, which the `forEach` writes last, sums that server's message records and lists their channels |
| `DiscordApi.Summarize` | backend/src/schedulers/discord-metrics/scheduler/sub/api.js:113-136 | servers and channels are distinct-ID counts; users and messages are sums; the breakdown covers the servers |
| `DiscordApi.GetDailySummaryAsWritten` | backend/src/schedulers/discord-metrics/scheduler/sub/api.js:106-142 | as written, the summary can only ever mention a server literally named '%' |
| `DiscordApi.RowsOn` | backend/src/schedulers/discord-metrics/scheduler/sub/api.js:109-110 | the rows of a date, in either table, are exactly that table's rows with that date |
| `DiscordApi.GetDailySummary` | backend/src/schedulers/discord-metrics/scheduler/sub/api.js:106-142 | the corrected summary totals every server's rows of that date; a failure is rethrown with the date |
| `DiscordApi.WildcardSeesNothing` | backend/src/schedulers/discord-metrics/scheduler/sub/api.js:109-110 | one server with 10 members and 5 messages on a date gives an all-zero summary as written and 1, 10, 5 corrected |
| `DiscordApi.WildcardMatchesOnlyLiteral` | backend/src/schedulers/discord-metrics/scheduler/sub/db.js:103-110 | with no server literally named '%', the summary as written is all zeros with an empty breakdown |
| `DiscordApi.GetCurrentMemoryStats` | backend/src/schedulers/discord-metrics/scheduler/sub/api.js:97-99 | the API returns the tracker's in-memory counts: distinct servers, distinct channels, the pending sum |

## Left out

- I/O, logging and process plumbing: console output, signal handlers and `process.exit`.
- Timers and concurrency.
  - `setTimeout`, `setInterval` and the 24-hour repeat are modelled as the instants at which they fire (`UtcTime.FiringTime`).
  - The tracker resets cells after awaited upserts, so a message counted during a flush is zeroed with the rest. A sequential model cannot express interleaving; the model assumes no message arrives mid-flush.
- Transactions. `BEGIN` and `COMMIT` go through a `pg` pool and may run on different connections. The model assumes the intended all-or-nothing semantics. A `ROLLBACK` that itself fails is not modelled.
- The X API client. The fetch is an abstract result: a list of posts or a thrown error.
- Calendar fields.
  - ISO week, year and month of a day are a parameter (`XQueries.Calendar`) rather than a Gregorian calendar.
  - The mismatch between `EXTRACT(YEAR)` and the ISO week `IW` around New Year is therefore not exhibited.
  - A label is modelled by its fields (`XQueries.Label`), not by its text. The SQLite service prints the start and end of a week or month group as `YYYY-MM-DD` text. The PostgreSQL readers select `MIN(CAST(date AS date))`, which node-postgres returns as a `Date`, so their labels print the `Date.prototype.toString()` form; the day label there is a `Date` object too.
- Tie order. Rows that share a date come back from `ORDER BY date` in an order SQL leaves open. The model keeps them in table order.
- Number precision. JavaScript numbers are modelled as unbounded integers; sums beyond 2^53 are not. The frontend reader's `SUM(impressions)` and `SUM(engagements)` (`xMetricsDb.ts:136-137`) are PostgreSQL `bigint`, which node-postgres delivers as decimal strings since no type parser is set; the model gives them as integers, so the chart hook's `typeof … === 'number'` checks that would reject such rows are not modelled.
- Database engines. The app's `@/lib/db` is SQLite without a `query` method, so every `db.query` call on it throws a TypeError. The model gives these callers the PostgreSQL semantics their SQL is written for:
  - the readers in `src/features/x-metrics/services/xMetricsGetter.ts`;
  - `XStore.StoreXPostData` (`src/features/x-metrics/services/xMetricsGetter.ts:30-38`), whose contract covers that TypeError only as a connection-level fault;
  - `XAggregate.Recompute` (`src/features/x-metrics/services/aggregateEngagementMetrics.ts:12-20`), the app's script, which as written fails at its first query.
- `getMetricsByTimeRange` in `src/features/x-metrics/services/xMetricsGetter.ts:115-150` duplicates `XQueries.MetricsByTimeRange` and has no member of its own.
- One fault per reader. A reader issuing two statements fails as a whole.
- The React loading state, the two-second timer that clears messages, and rendering.
- DDL and pools. Only keys, uniqueness and foreign keys are taken from them.
- The clock. `storePostData` reads the clock twice, for `collected_at` and for the engagement date; `getServerStats` reads it twice, for the end date and for the start date (`api.js:48-49`). In each case one instant `now` stands for both reads.
- `XIngest.StoreLoop` stamps every history row of a run with the job's one `now`. The scheduler's upsert reads the clock again for each post's `collected_at` (`xMetricsDb.js:48`), so the real rows of one run carry increasing instants. No modelled reader uses `collected_at`.
- Integer columns. `engagement_metrics` stores impressions, engagements and followers as 32-bit INTEGER. The model does not compute the range check from the sums: a day whose views exceed 2147483647 makes the upsert throw, and that throw is a `XAggregate.FailsOnDate` fault the caller supplies.
- `DiscordApi.GetServerStats` requires `days != 0`. With `days = 0` and some message rows, `averagePerDay` is `Math.round(total / 0)`, which is Infinity, -Infinity or NaN. Integers cannot hold these values. `days` is also taken to be an integer; a fractional look-back is not modelled.
- `LinkProcessor.LinkPostData` types `postDate` as a day. The link-submission route passes the API's `createdAt` text, and `XLinkProcessor.ts:83-88` stores it unchanged as `post_date`, so that column is not a `YYYY-MM-DD` key. No modelled operation reads the link processor's `post_date`. The aggregator's `SELECT DISTINCT post_date` would still treat such a text as one key, but not as a calendar day.
- `UtcTime.DayText` states only that a date text is non-empty. The `YYYY-MM-DD` rendering is represented by the day number it names.
- `XStore.StoreXPostData` does not state the message of an in-transaction fault in its contract. `XStore.StoreXPostDataCatchesUpsert` gives it through `XStore.UpsertTweetAndMetrics`.
- `MessageCounter.Flush` states only shape and key uniqueness in its contract. Its content is stated by `MessageCounter.FlushConserves` and `MessageCounter.FlushAgreesWithoutFailure`.

## Findings

| source | as written | input that shows it | evidently intended | confidence | as-written member | corrected member |
|---|---|---|---|---|---|---|
| backend/src/schedulers/discord-metrics/scheduler/sub/tracker.js:96-99 | a failed flush resets no cell, although the upserts before the failing one were already added to `message_counts` | cells A = 1 and B = 1; the upsert for B fails; the next flush succeeds; A is stored as 2 | each delta is added exactly once | not executed | `MessageCounter.FlushAsWritten`, `MessageCounter.PartialFlushDoubleCounts` | `MessageCounter.Flush`, `MessageCounter.FlushConserves` |
| backend/src/schedulers/discord-metrics/scheduler/sub/api.js:109-110 | '%' is passed as an "all servers" wildcard, but the queries compare `server_id = $1` | one server with 10 members and 5 messages on the day; the summary reports 0 servers, 0 users and 0 messages | the summary covers every server's rows of the day | not executed | `DiscordApi.GetDailySummaryAsWritten`, `DiscordApi.WildcardSeesNothing` | `DiscordApi.GetDailySummary` |
| frontend/src/features/x-metrics/services/sub/xMetricsDb.ts:177-181 | "last N days" keeps rows on or after the N-th newest row; with fewer than N rows the subquery is empty and nothing is kept | three days of data requested as "7d" give no rows | with fewer than N dates, every row is kept | not executed | `XQueries.FrontendDailyMetrics`, `XQueries.OffsetHidesThreeDays` | `XQueries.FrontendDailyMetricsCorrected`, `XQueries.OffsetHidesShortHistory` |
| frontend/src/features/x-metrics/services/sub/xMetricsDb.ts:86-104 | the statement selects `tweet_id`, which `engagement_metrics` lacks, and uses SQLite's `date(?, ?)` on PostgreSQL; the error is swallowed | one row dated today, range "all": the reader returns [] | the rows of the range in ascending date order | not executed | `XQueries.FrontendMetricsByTimeRange`, `XQueries.FrontendMetricsAlwaysEmpty` | `XQueries.MetricsByTimeRange`, `XQueries.WiderRangeReturnsMore` |
