/**
  The read side of the X metrics over `engagement_metrics`: the three
  `getDailyMetrics` variants (the frontend's, on PostgreSQL; the app
  feature's; the app service's, on SQLite) and the `getMetricsByTimeRange`
  readers.

  The SQL statements are modelled by what they select: a `WHERE` is a
  filter, `GROUP BY` collects the rows of one period, `ORDER BY` is a
  stable sort. Calendar fields the database derives from a date (year,
  week of the year, month) are a parameter: this model treats dates as
  opaque day numbers.
 */
module XQueries {
  import opened Common
  import opened UtcTime

  /** An `engagement_metrics` row as the readers see it (`followers` is 0 where the schema has no such column). */
  datatype EngagementRow = EngagementRow(date: Day, impressions: int, engagements: int, followers: int)

  type Table = seq<EngagementRow>

  /** A reader's outcome: its rows, or an error that escapes it (`getDb()` is awaited outside the `try`). */
  datatype Reply<T> = Answer(rows: seq<T>) | Escaped(error: Thrown)

  /** Where the database fails, if at all: opening the connection, or running the statement. */
  datatype QueryFault = NoQueryFault | ConnectFails(error: Thrown) | QueryFails(error: Thrown)

  // ---- the time-range argument

  /**
    `/^\d+d$/.test(range) ? parseInt(range, 10) : null`: the number of days
    of a range such as '7d', or nothing for 'all' and anything else.
   */
  function DaysOfRange(range: string): Option<nat>
  {
    if |range| >= 2 && range[|range| - 1] == 'd' && AllDigits(range[..|range| - 1])
    then Some(DecimalValue(range[..|range| - 1]))
    else None
  }

  /**
    The pattern accepts exactly a digit run followed by 'd', and reads back
    the number written: every `NatToString(n) + "d"` gives `n`, and 'all'
    or a string with anything after the 'd' gives no window.
   */
  lemma DaysOfRangeReadsBack(n: nat, range: string)
    ensures DaysOfRange(NatToString(n) + "d") == Some(n)
    ensures DaysOfRange("all") == None
    ensures DaysOfRange(range).Some? ==> |range| >= 2 && range[|range| - 1] == 'd' && AllDigits(range[..|range| - 1])
    ensures DaysOfRange(range + "x").None?
  {
    var s := NatToString(n) + "d";
    assert s[..|s| - 1] == NatToString(n);
    assert "all"[2] == 'l';
  }

  // ---- the date windows

  function Dates(t: Table): set<Day>
  {
    set x | x in t :: x.date
  }

  /** The distinct dates of `t` later than `d`. */
  function NewerDates(t: Table, d: Day): set<Day>
  {
    set x | x in Dates(t) && x > d
  }

  /** `SELECT date FROM engagement_metrics GROUP BY date ORDER BY date DESC LIMIT n` */
  function NewestDates(t: Table, n: nat): set<Day>
  {
    var ds := SortedSet(Dates(t));
    var from := if n <= |ds| then |ds| - n else 0;
    set i | from <= i < |ds| :: ds[i]
  }

  /** The rows whose date is in `s` (`WHERE date IN (...)`), in table order. */
  function OnDates(t: Table, s: set<Day>): (r: Table)
    ensures forall x :: x in r <==> x in t && x.date in s
    ensures multiset(r) <= multiset(t)
  {
    if |t| == 0 then []
    else
      var n := |t| - 1;
      assert t == t[..n] + [t[n]];
      OnDates(t[..n], s) + (if t[n].date in s then [t[n]] else [])
  }

  /** The rows dated `c` or later (`WHERE date >= c`), in table order. */
  function AtOrAfter(t: Table, c: Day): (r: Table)
    ensures forall x :: x in r <==> x in t && x.date >= c
    ensures multiset(r) <= multiset(t)
  {
    if |t| == 0 then []
    else
      var n := |t| - 1;
      assert t == t[..n] + [t[n]];
      AtOrAfter(t[..n], c) + (if t[n].date >= c then [t[n]] else [])
  }

  /** The window of the LIMIT form: the rows of the `n` most recent distinct dates. */
  function RecentWindow(t: Table, n: nat): Table
  {
    OnDates(t, NewestDates(t, n))
  }

  function NegDate(x: EngagementRow): int { -x.date }

  function RowDate(x: EngagementRow): int { x.date }

  /**
    The window of the OFFSET form: `date >= (SELECT date ... ORDER BY date
    DESC OFFSET n - 1 LIMIT 1)`. With fewer than `n` rows the subquery is
    empty, the comparison is with NULL, and no row qualifies.
   */
  function OffsetWindow(t: Table, n: nat): (r: Table)
    requires n >= 1
    ensures |t| < n ==> r == []
    ensures |t| >= n ==> exists c :: c in Dates(t) && r == AtOrAfter(t, c)
  {
    var newestFirst := SortBy(t, NegDate);
    if |newestFirst| < n then []
    else
      assert newestFirst[n - 1] in multiset(t);
      AtOrAfter(t, newestFirst[n - 1].date)
  }

  lemma {:induction false} SuffixImageCard(ds: seq<int>, i: nat)
    requires StrictlyIncreasing(ds) && i <= |ds|
    ensures |set j | i <= j < |ds| :: ds[j]| == |ds| - i
    decreases |ds| - i
  {
    if i < |ds| {
      SuffixImageCard(ds, i + 1);
      var later := set j | i + 1 <= j < |ds| :: ds[j];
      assert (set j | i <= j < |ds| :: ds[j]) == {ds[i]} + later;
      assert ds[i] !in later;
    }
  }

  /** In the ascending listing `ds` of `s`, the elements of `s` above `ds[i]` are the ones after position `i`. */
  lemma GreaterCount(s: set<int>, ds: seq<int>, i: nat)
    requires StrictlyIncreasing(ds) && i < |ds|
    requires forall x :: x in ds <==> x in s
    ensures |set x | x in s && x > ds[i]| == |ds| - i - 1
  {
    var later := set j | i + 1 <= j < |ds| :: ds[j];
    forall x | x in s && x > ds[i]
      ensures x in later
    {
      var j :| 0 <= j < |ds| && ds[j] == x;
      assert j > i;
    }
    assert (set x | x in s && x > ds[i]) == later;
    SuffixImageCard(ds, i + 1);
  }

  /** A strictly increasing sequence holds each value at one position only. */
  lemma IndexUnique(ds: seq<int>, i: nat, k: nat)
    requires StrictlyIncreasing(ds) && i < |ds| && k < |ds|
    requires ds[i] == ds[k]
    ensures i == k
  {
  }

  /**
    The LIMIT form keeps a date exactly when fewer than `n` distinct dates
    of the table are later than it.
   */
  lemma NewestDatesAreRanked(t: Table, n: nat, d: Day)
    ensures d in NewestDates(t, n) <==> d in Dates(t) && |NewerDates(t, d)| < n
  {
    var s := Dates(t);
    var ds := SortedSet(s);
    var from := if n <= |ds| then |ds| - n else 0;
    assert NewestDates(t, n) == set i | from <= i < |ds| :: ds[i];
    if d in s {
      assert d in ds;
      var i :| 0 <= i < |ds| && ds[i] == d;
      GreaterCount(s, ds, i);
      assert NewerDates(t, d) == set x | x in s && x > ds[i];
      if d in NewestDates(t, n) {
        var k :| from <= k < |ds| && ds[k] == d;
        IndexUnique(ds, i, k);
      } else {
        assert !(from <= i);
      }
    }
  }

  /** With `n` or fewer distinct dates, the LIMIT window is the whole table. */
  lemma RecentWindowKeepsShortHistory(t: Table, n: nat)
    requires |Dates(t)| <= n
    ensures RecentWindow(t, n) == t
  {
    var ds := SortedSet(Dates(t));
    assert NewestDates(t, n) == set i | 0 <= i < |ds| :: ds[i];
    forall x | x in t
      ensures x.date in NewestDates(t, n)
    {
      assert x.date in Dates(t);
      assert x.date in ds;
    }
    AllOnDates(t, NewestDates(t, n));
  }

  lemma {:induction false} AllOnDates(t: Table, s: set<Day>)
    requires forall x | x in t :: x.date in s
    ensures OnDates(t, s) == t
  {
    if |t| > 0 {
      var n := |t| - 1;
      var init := t[..n];
      assert t == init + [t[n]];
      AllOnDates(init, s);
      OnDatesSnoc(init, t[n], s);
    }
  }

  lemma OnDatesSnoc(t: Table, x: EngagementRow, s: set<Day>)
    ensures OnDates(t + [x], s) == OnDates(t, s) + (if x.date in s then [x] else [])
  {
    assert (t + [x])[..|t|] == t;
  }

  /** The LIMIT window is closed upwards: a kept row's later rows are kept too. */
  lemma RecentWindowKeepsLaterRows(t: Table, n: nat, x: EngagementRow, y: EngagementRow)
    requires x in RecentWindow(t, n) && y in t && y.date >= x.date
    ensures y in RecentWindow(t, n)
  {
    NewestDatesAreRanked(t, n, x.date);
    NewestDatesAreRanked(t, n, y.date);
    assert NewerDates(t, y.date) <= NewerDates(t, x.date);
    SubsetCard(NewerDates(t, y.date), NewerDates(t, x.date));
  }

  lemma SubsetCard(a: set<Day>, b: set<Day>)
    requires a <= b
    ensures |a| <= |b|
  {
    assert b == a + (b - a);
  }

  /** `engagement_metrics.date` is UNIQUE: no two rows share a date. */
  predicate DistinctDates(t: Table)
  {
    forall i, j | 0 <= i < j < |t| :: t[i].date != t[j].date
  }

  /**
    On a table with one row per date, the OFFSET subquery picks the `n`-th
    newest date: exactly `n - 1` dates of the table are later than the cutoff.
   */
  lemma OffsetWindowCutoffIsNthNewest(t: Table, n: nat)
    requires 1 <= n <= |t| && DistinctDates(t)
    ensures exists c :: c in Dates(t) && |NewerDates(t, c)| == n - 1 && OffsetWindow(t, n) == AtOrAfter(t, c)
  {
    var c := NthNewestCutoff(t, n);
  }

  lemma NthNewestCutoff(t: Table, n: nat) returns (c: Day)
    requires 1 <= n <= |t| && DistinctDates(t)
    ensures c in Dates(t) && |NewerDates(t, c)| == n - 1 && OffsetWindow(t, n) == AtOrAfter(t, c)
  {
    var nf := SortBy(t, NegDate);
    OffsetWindowUnfold(t, n, nf);
    c := NthNewestHasNewer(t, nf, n - 1);
  }

  /** In a newest-first reordering of a table with one row per date, the dates above position `k` are the later ones. */
  lemma NthNewestHasNewer(t: Table, nf: Table, k: nat) returns (c: Day)
    requires DistinctDates(t) && multiset(nf) == multiset(t) && SortedBy(nf, NegDate) && k < |nf|
    ensures c == nf[k].date && c in Dates(t) && |NewerDates(t, c)| == k
  {
    c := nf[k].date;
    assert nf[k] in multiset(t);
    DistinctDatesPermutation(t, nf);
    NewerAreBefore(t, nf, k);
    BeforeAreNewer(t, nf, k);
    assert NewerDates(t, nf[k].date) == set j | 0 <= j < k :: nf[j].date;
    PrefixDatesCard(nf, k);
  }

  lemma OffsetWindowUnfold(t: Table, n: nat, nf: Table)
    requires 1 <= n <= |t| && nf == SortBy(t, NegDate)
    ensures OffsetWindow(t, n) == AtOrAfter(t, nf[n - 1].date)
    ensures multiset(nf) == multiset(t) && SortedBy(nf, NegDate) && n - 1 < |nf|
  {
  }

  lemma NewerAreBefore(t: Table, nf: Table, k: nat)
    requires multiset(nf) == multiset(t) && SortedBy(nf, NegDate) && k < |nf|
    ensures forall x | x in NewerDates(t, nf[k].date) :: x in set j | 0 <= j < k :: nf[j].date
  {
    assert forall j | k <= j < |nf| :: NegDate(nf[k]) <= NegDate(nf[j]);
    forall x | x in NewerDates(t, nf[k].date)
      ensures x in set j | 0 <= j < k :: nf[j].date
    {
      var y :| y in t && y.date == x;
      assert y in multiset(nf);
      var j :| 0 <= j < |nf| && nf[j] == y;
      assert j < k;
    }
  }

  lemma BeforeAreNewer(t: Table, nf: Table, k: nat)
    requires multiset(nf) == multiset(t) && SortedBy(nf, NegDate) && DistinctDates(nf) && k < |nf|
    ensures forall j | 0 <= j < k :: nf[j].date in NewerDates(t, nf[k].date)
  {
    forall j | 0 <= j < k
      ensures nf[j].date in NewerDates(t, nf[k].date)
    {
      assert nf[j] in multiset(t);
      assert nf[j].date in Dates(t);
      assert NegDate(nf[j]) <= NegDate(nf[k]);
    }
  }

  /** A reordering of a table with one row per date still has one row per date. */
  lemma DistinctDatesPermutation(t: Table, u: Table)
    requires DistinctDates(t) && multiset(u) == multiset(t)
    ensures DistinctDates(u)
  {
    forall i, j | 0 <= i < j < |u|
      ensures u[i].date != u[j].date
    {
      if u[i].date == u[j].date {
        assert u[i] in multiset(t) && u[j] in multiset(t);
        var p :| 0 <= p < |t| && t[p] == u[i];
        var q :| 0 <= q < |t| && t[q] == u[j];
        assert p == q;
        CountOfDistinct(t, p);
        CountOfRepeated(u, i, j);
        assert false;
      }
    }
  }

  lemma CountOfDistinct(t: Table, k: nat)
    requires DistinctDates(t) && k < |t|
    ensures multiset(t)[t[k]] == 1
  {
    var a, b := t[..k], t[k + 1..];
    assert t == a + [t[k]] + b;
    assert t[k] !in a && t[k] !in b;
  }

  lemma CountOfRepeated(u: Table, i: nat, j: nat)
    requires i < j < |u| && u[i] == u[j]
    ensures multiset(u)[u[i]] >= 2
  {
    var a, b := u[..j], u[j + 1..];
    assert u == a + [u[j]] + b;
    assert u[i] == a[i];
  }

  /** The first `k` rows of a table with one row per date carry `k` different dates. */
  lemma {:induction false} PrefixDatesCard(t: Table, k: nat)
    requires DistinctDates(t) && k <= |t|
    ensures |set j | 0 <= j < k :: t[j].date| == k
  {
    if k > 0 {
      PrefixDatesCard(t, k - 1);
      var front := set j | 0 <= j < k - 1 :: t[j].date;
      assert (set j | 0 <= j < k :: t[j].date) == front + {t[k - 1].date};
      assert t[k - 1].date !in front;
    }
  }

  /**
    On a table with one row per date and at least `n` rows, the OFFSET form
    selects the same rows, in the same order, as the LIMIT form.
   */
  lemma OffsetWindowIsRecentWindow(t: Table, n: nat)
    requires 1 <= n <= |t| && DistinctDates(t)
    ensures OffsetWindow(t, n) == RecentWindow(t, n)
  {
    OffsetWindowCutoffIsNthNewest(t, n);
    var c :| c in Dates(t) && |NewerDates(t, c)| == n - 1 && OffsetWindow(t, n) == AtOrAfter(t, c);
    var s := NewestDates(t, n);
    forall x | x in t
      ensures x.date >= c <==> x.date in s
    {
      NewestDatesAreRanked(t, n, x.date);
      RankAgainstCutoff(t, n, c, x.date);
    }
    AtOrAfterIsOnDates(t, c, s);
  }

  /** A date is at or after the cutoff exactly when fewer than `n` dates are later than it. */
  lemma RankAgainstCutoff(t: Table, n: nat, c: Day, d: Day)
    requires c in Dates(t) && |NewerDates(t, c)| == n - 1
    ensures d >= c <==> |NewerDates(t, d)| < n
  {
    if d > c {
      assert NewerDates(t, d) <= NewerDates(t, c);
      SubsetCard(NewerDates(t, d), NewerDates(t, c));
    } else if d < c {
      assert c !in NewerDates(t, c);
      assert NewerDates(t, c) + {c} <= NewerDates(t, d);
      SubsetCard(NewerDates(t, c) + {c}, NewerDates(t, d));
    }
  }

  /** Two filters of the same table that keep the same rows are the same sequence. */
  lemma {:induction false} AtOrAfterIsOnDates(t: Table, c: Day, s: set<Day>)
    requires forall x | x in t :: x.date >= c <==> x.date in s
    ensures AtOrAfter(t, c) == OnDates(t, s)
  {
    if |t| > 0 {
      var n := |t| - 1;
      assert t == t[..n] + [t[n]];
      AtOrAfterIsOnDates(t[..n], c, s);
    }
  }

  // ---- grouping

  datatype Grouping = ByDay | ByWeek | ByMonth

  type TwoDigits = n: int | 0 <= n < 100

  /**
    The calendar fields the database derives from a date: the year
    (`EXTRACT(YEAR ...)`, `strftime('%Y', ...)`), the week of the year
    (`TO_CHAR(..., 'IW')` on PostgreSQL, `strftime('%W', ...)` on SQLite)
    and the month. Week and month are two-digit texts, so they order as
    their numbers do.
   */
  datatype DateFields = DateFields(year: int, week: TwoDigits, month: TwoDigits)

  type Calendar = Day -> DateFields

  /** The group a date falls in, as one integer ordered like `ORDER BY year, week` (or month). */
  function PeriodOf(g: Grouping, cal: Calendar, d: Day): int
  {
    match g
    case ByDay => d
    case ByWeek => cal(d).year * 100 + cal(d).week
    case ByMonth => cal(d).year * 100 + cal(d).month
  }

  /** The period number orders and identifies groups as the `(year, week)` pair does. */
  lemma PeriodOrderIsYearThenWeek(cal: Calendar, a: Day, b: Day)
    ensures PeriodOf(ByWeek, cal, a) < PeriodOf(ByWeek, cal, b)
            <==> cal(a).year < cal(b).year || (cal(a).year == cal(b).year && cal(a).week < cal(b).week)
    ensures PeriodOf(ByWeek, cal, a) == PeriodOf(ByWeek, cal, b)
            <==> cal(a).year == cal(b).year && cal(a).week == cal(b).week
    ensures PeriodOf(ByMonth, cal, a) == PeriodOf(ByMonth, cal, b)
            <==> cal(a).year == cal(b).year && cal(a).month == cal(b).month
  {
  }

  /**
    The `label` the readers attach to a row, by its fields: the day, or
    `${year}-W${week} (${start} to ${end})` and `${year}-${month} (${start} to ${end})`.
   */
  datatype Label =
    | DayLabel(date: Day)
    | WeekLabel(year: int, week: int, start: Day, end: Day)
    | MonthLabel(year: int, month: int, start: Day, end: Day)

  /** Which followers column the statement computes, if any. */
  datatype FollowersColumn = MaxFollowers | SumFollowers | NoFollowers

  /** One row of a `getDailyMetrics` result. */
  datatype Aggregated = Aggregated(period: int, startDate: Day, endDate: Day, impressions: int,
                                   engagements: int, followers: Option<int>, rowLabel: Label)

  /** A row with the group its date falls in, as the statement computes it before grouping. */
  datatype Keyed = Keyed(period: int, row: EngagementRow)

  function KeyRows(t: Table, g: Grouping, cal: Calendar): (kt: seq<Keyed>)
    ensures |kt| == |t|
    ensures forall i | 0 <= i < |t| :: kt[i] == Keyed(PeriodOf(g, cal, t[i].date), t[i])
  {
    if |t| == 0 then []
    else KeyRows(t[..|t| - 1], g, cal) + [Keyed(PeriodOf(g, cal, t[|t| - 1].date), t[|t| - 1])]
  }

  /** The rows of the group `k`, in table order. */
  function InPeriod(kt: seq<Keyed>, k: int): Table
  {
    if |kt| == 0 then []
    else
      var n := |kt| - 1;
      InPeriod(kt[..n], k) + (if kt[n].period == k then [kt[n].row] else [])
  }

  /** The rows whose group is one of `ks`, in table order. */
  function InPeriods(kt: seq<Keyed>, ks: seq<int>): Table
  {
    if |kt| == 0 then []
    else
      var n := |kt| - 1;
      InPeriods(kt[..n], ks) + (if kt[n].period in ks then [kt[n].row] else [])
  }

  function Rows(kt: seq<Keyed>): Table
  {
    if |kt| == 0 then [] else Rows(kt[..|kt| - 1]) + [kt[|kt| - 1].row]
  }

  function Periods(kt: seq<Keyed>): set<int>
  {
    set e | e in kt :: e.period
  }

  /** A group holds exactly the rows keyed with it. */
  lemma {:induction false} InPeriodMembers(kt: seq<Keyed>, k: int, x: EngagementRow)
    ensures x in InPeriod(kt, k) <==> Keyed(k, x) in kt
  {
    if |kt| > 0 {
      var n := |kt| - 1;
      InPeriodMembers(kt[..n], k, x);
      assert kt == kt[..n] + [kt[n]];
    }
  }

  lemma PeriodHasRows(kt: seq<Keyed>, k: int)
    requires k in Periods(kt)
    ensures |InPeriod(kt, k)| > 0
  {
    var e :| e in kt && e.period == k;
    InPeriodMembers(kt, k, e.row);
  }

  lemma RowsSnoc(kt: seq<Keyed>, e: Keyed)
    ensures Rows(kt + [e]) == Rows(kt) + [e.row]
  {
    assert (kt + [e])[..|kt|] == kt;
  }

  lemma {:induction false} RowsOfKeyRows(t: Table, g: Grouping, cal: Calendar)
    ensures Rows(KeyRows(t, g, cal)) == t
  {
    if |t| > 0 {
      var n := |t| - 1;
      var init := t[..n];
      var e := Keyed(PeriodOf(g, cal, t[n].date), t[n]);
      RowsOfKeyRows(init, g, cal);
      RowsSnoc(KeyRows(init, g, cal), e);
      calc {
        Rows(KeyRows(t, g, cal));
        Rows(KeyRows(init, g, cal) + [e]);
        Rows(KeyRows(init, g, cal)) + [e.row];
        init + [t[n]];
      }
      assert t == init + [t[n]];
    }
  }

  /** What a `SUM(...)` adds up. */
  datatype Measure = Impressions | Engagements | Followers

  function RowMeasure(m: Measure, x: EngagementRow): int
  {
    match m
    case Impressions => x.impressions
    case Engagements => x.engagements
    case Followers => x.followers
  }

  function Total(t: Table, m: Measure): int
  {
    if |t| == 0 then 0 else Total(t[..|t| - 1], m) + RowMeasure(m, t[|t| - 1])
  }

  function MaxFollowersOf(t: Table): (m: int)
    requires |t| > 0
    ensures forall x | x in t :: x.followers <= m
    ensures exists x | x in t :: x.followers == m
  {
    var n := |t| - 1;
    assert t == t[..n] + [t[n]];
    if n == 0 then t[0].followers
    else
      var rest := MaxFollowersOf(t[..n]);
      if t[n].followers > rest then t[n].followers else rest
  }

  function MinDate(t: Table): (m: Day)
    requires |t| > 0
    ensures forall x | x in t :: m <= x.date
    ensures exists x | x in t :: x.date == m
  {
    var n := |t| - 1;
    assert t == t[..n] + [t[n]];
    if n == 0 then t[0].date
    else
      var rest := MinDate(t[..n]);
      if t[n].date < rest then t[n].date else rest
  }

  function MaxDate(t: Table): (m: Day)
    requires |t| > 0
    ensures forall x | x in t :: x.date <= m
    ensures exists x | x in t :: x.date == m
  {
    var n := |t| - 1;
    assert t == t[..n] + [t[n]];
    if n == 0 then t[0].date
    else
      var rest := MaxDate(t[..n]);
      if t[n].date > rest then t[n].date else rest
  }

  function LabelFor(g: Grouping, k: int, start: Day, end: Day): Label
  {
    match g
    case ByDay => DayLabel(k)
    case ByWeek => WeekLabel(k / 100, k % 100, start, end)
    case ByMonth => MonthLabel(k / 100, k % 100, start, end)
  }

  function FollowersOf(rows: Table, fc: FollowersColumn): Option<int>
    requires |rows| > 0
  {
    match fc
    case MaxFollowers => Some(MaxFollowersOf(rows))
    case SumFollowers => Some(Total(rows, Followers))
    case NoFollowers => None
  }

  /** The result row of a group (groups are never empty: an empty one stands for nothing). */
  function GroupRow(rows: Table, k: int, g: Grouping, fc: FollowersColumn): (a: Aggregated)
    ensures a.period == k
    ensures a.followers.None? <==> fc.NoFollowers?
    ensures g.ByDay? ==> a.rowLabel == DayLabel(k)
  {
    if |rows| == 0 then Aggregated(k, 0, 0, 0, 0, if fc.NoFollowers? then None else Some(0), LabelFor(g, k, 0, 0))
    else
    var start := MinDate(rows);
    var end := MaxDate(rows);
    Aggregated(k, start, end, Total(rows, Impressions), Total(rows, Engagements), FollowersOf(rows, fc), LabelFor(g, k, start, end))
  }

  /**
    A group's row spans its rows' dates, sums their impressions and
    engagements, and carries the largest or the summed followers, or none,
    as the statement asks.
   */
  lemma GroupRowSummarises(rows: Table, k: int, g: Grouping, fc: FollowersColumn)
    requires |rows| > 0
    ensures var a := GroupRow(rows, k, g, fc);
            && a.impressions == Total(rows, Impressions) && a.engagements == Total(rows, Engagements)
            && (forall x | x in rows :: a.startDate <= x.date <= a.endDate)
            && (exists x | x in rows :: x.date == a.startDate) && (exists x | x in rows :: x.date == a.endDate)
            && (fc.MaxFollowers? ==> a.followers.Some? && (forall x | x in rows :: x.followers <= a.followers.value)
                                     && exists x | x in rows :: x.followers == a.followers.value)
            && (fc.SumFollowers? ==> a.followers == Some(Total(rows, Followers)))
            && (fc.NoFollowers? <==> a.followers.None?)
  {
  }

  function GroupRows(kt: seq<Keyed>, ks: seq<int>, g: Grouping, fc: FollowersColumn): (r: seq<Aggregated>)
    ensures |r| == |ks|
    ensures forall i | 0 <= i < |ks| :: r[i].period == ks[i] && r[i] == GroupRow(InPeriod(kt, ks[i]), ks[i], g, fc)
  {
    if |ks| == 0 then []
    else
      var n := |ks| - 1;
      var front := GroupRows(kt, ks[..n], g, fc);
      var r := front + [GroupRow(InPeriod(kt, ks[n]), ks[n], g, fc)];
      assert forall i | 0 <= i < n :: ks[..n][i] == ks[i] && r[i] == front[i];
      r
  }

  /**
    `SELECT ... GROUP BY <period> ORDER BY <period> ASC`: one row per
    period present, in ascending period order, each built from its own rows.
   */
  function GroupBy(kt: seq<Keyed>, g: Grouping, fc: FollowersColumn): (r: seq<Aggregated>)
    ensures |r| == |Periods(kt)|
    ensures forall i, j | 0 <= i < j < |r| :: r[i].period < r[j].period
    ensures forall i | 0 <= i < |r| :: r[i].period in Periods(kt)
    ensures forall i | 0 <= i < |r| :: r[i] == GroupRow(InPeriod(kt, r[i].period), r[i].period, g, fc)
  {
    var ks := SortedSet(Periods(kt));
    var r := GroupRows(kt, ks, g, fc);
    GroupRowsInOrder(kt, ks, Periods(kt), r, g, fc);
    r
  }

  /** Rows built over an ascending listing `ks` of the periods `ps` are one per period, ascending. */
  lemma GroupRowsInOrder(kt: seq<Keyed>, ks: seq<int>, ps: set<int>, r: seq<Aggregated>, g: Grouping, fc: FollowersColumn)
    requires StrictlyIncreasing(ks) && |ks| == |ps| && forall x :: x in ks <==> x in ps
    requires |r| == |ks|
    requires forall i | 0 <= i < |ks| :: r[i].period == ks[i] && r[i] == GroupRow(InPeriod(kt, ks[i]), ks[i], g, fc)
    ensures |r| == |ps|
    ensures forall i, j | 0 <= i < j < |r| :: r[i].period < r[j].period
    ensures forall i | 0 <= i < |r| :: r[i].period in ps
    ensures forall i | 0 <= i < |r| :: r[i] == GroupRow(InPeriod(kt, r[i].period), r[i].period, g, fc)
  {
    forall i | 0 <= i < |r|
      ensures r[i].period in ps
    {
      assert ks[i] in ks;
    }
  }

  /** Every period present has its row in the result. */
  lemma GroupByCoversPeriods(kt: seq<Keyed>, g: Grouping, fc: FollowersColumn, k: int)
    requires k in Periods(kt)
    ensures exists i | 0 <= i < |GroupBy(kt, g, fc)| :: GroupBy(kt, g, fc)[i].period == k
  {
    var ks := SortedSet(Periods(kt));
    assert k in ks;
    var i :| 0 <= i < |ks| && ks[i] == k;
    assert GroupBy(kt, g, fc)[i].period == k;
  }

  function AggMeasure(m: Measure, a: Aggregated): int
  {
    match m
    case Impressions => a.impressions
    case Engagements => a.engagements
    case Followers => if a.followers.Some? then a.followers.value else 0
  }

  function AggTotal(r: seq<Aggregated>, m: Measure): int
  {
    if |r| == 0 then 0 else AggTotal(r[..|r| - 1], m) + AggMeasure(m, r[|r| - 1])
  }

  lemma InPeriodsSnoc(kt: seq<Keyed>, e: Keyed, ks: seq<int>, k: int)
    ensures InPeriods(kt + [e], ks) == InPeriods(kt, ks) + (if e.period in ks then [e.row] else [])
    ensures InPeriod(kt + [e], k) == InPeriod(kt, k) + (if e.period == k then [e.row] else [])
  {
    assert (kt + [e])[..|kt|] == kt;
  }

  lemma TotalSnoc(t: Table, x: EngagementRow, m: Measure)
    ensures Total(t + [x], m) == Total(t, m) + RowMeasure(m, x)
    ensures Total(t + [], m) == Total(t, m)
  {
    assert (t + [x])[..|t|] == t;
    assert t + [] == t;
  }

  lemma {:induction false} TotalSplitsOffPeriod(kt: seq<Keyed>, ks: seq<int>, k: int, m: Measure)
    requires k !in ks
    ensures Total(InPeriods(kt, ks + [k]), m) == Total(InPeriods(kt, ks), m) + Total(InPeriod(kt, k), m)
  {
    if |kt| > 0 {
      var n := |kt| - 1;
      var init := kt[..n];
      var e := kt[n];
      assert kt == init + [e];
      TotalSplitsOffPeriod(init, ks, k, m);
      InPeriodsSnoc(init, e, ks + [k], k);
      InPeriodsSnoc(init, e, ks, k);
      var a := InPeriods(init, ks + [k]);
      var b := InPeriods(init, ks);
      var c := InPeriod(init, k);
      TotalSnoc(a, e.row, m);
      TotalSnoc(b, e.row, m);
      TotalSnoc(c, e.row, m);
    }
  }

  lemma AggTotalSnoc(r: seq<Aggregated>, a: Aggregated, m: Measure)
    ensures AggTotal(r + [a], m) == AggTotal(r, m) + AggMeasure(m, a)
  {
    assert (r + [a])[..|r|] == r;
  }

  /** The last group's measure is its rows' total. */
  lemma GroupMeasure(kt: seq<Keyed>, k: int, g: Grouping, fc: FollowersColumn, m: Measure)
    requires k in Periods(kt)
    requires m.Followers? ==> fc.SumFollowers?
    ensures AggMeasure(m, GroupRow(InPeriod(kt, k), k, g, fc)) == Total(InPeriod(kt, k), m)
  {
    PeriodHasRows(kt, k);
    GroupRowSummarises(InPeriod(kt, k), k, g, fc);
  }

  lemma {:induction false} TotalOverGroups(kt: seq<Keyed>, ks: seq<int>, g: Grouping, fc: FollowersColumn, m: Measure)
    requires forall k | k in ks :: k in Periods(kt)
    requires forall i, j | 0 <= i < j < |ks| :: ks[i] != ks[j]
    requires m.Followers? ==> fc.SumFollowers?
    ensures AggTotal(GroupRows(kt, ks, g, fc), m) == Total(InPeriods(kt, ks), m)
  {
    if |ks| == 0 {
      NoPeriods(kt, m);
    } else {
      var n := |ks| - 1;
      var init := ks[..n];
      var k := ks[n];
      assert ks == init + [k];
      DistinctInit(ks, init);
      TotalOverGroups(kt, init, g, fc, m);
      var last := GroupRow(InPeriod(kt, k), k, g, fc);
      GroupRowsSnoc(kt, ks, g, fc);
      AggTotalSnoc(GroupRows(kt, init, g, fc), last, m);
      TotalSplitsOffPeriod(kt, init, k, m);
      GroupMeasure(kt, k, g, fc, m);
    }
  }

  lemma DistinctInit(ks: seq<int>, init: seq<int>)
    requires |ks| > 0 && init == ks[..|ks| - 1]
    requires forall i, j | 0 <= i < j < |ks| :: ks[i] != ks[j]
    ensures forall i, j | 0 <= i < j < |init| :: init[i] != init[j]
    ensures ks[|ks| - 1] !in init
  {
    forall i | 0 <= i < |init|
      ensures init[i] != ks[|ks| - 1]
    {
      assert init[i] == ks[i];
    }
  }

  lemma GroupRowsSnoc(kt: seq<Keyed>, ks: seq<int>, g: Grouping, fc: FollowersColumn)
    requires |ks| > 0
    ensures GroupRows(kt, ks, g, fc)
            == GroupRows(kt, ks[..|ks| - 1], g, fc) + [GroupRow(InPeriod(kt, ks[|ks| - 1]), ks[|ks| - 1], g, fc)]
  {
  }

  lemma {:induction false} NoPeriods(kt: seq<Keyed>, m: Measure)
    ensures Total(InPeriods(kt, []), m) == 0
  {
    if |kt| > 0 {
      var rest := InPeriods(kt[..|kt| - 1], []);
      NoPeriods(kt[..|kt| - 1], m);
      assert InPeriods(kt, []) == rest by { assert rest + [] == rest; }
    }
  }

  lemma {:induction false} AllInPeriods(kt: seq<Keyed>, ks: seq<int>)
    requires forall e | e in kt :: e.period in ks
    ensures InPeriods(kt, ks) == Rows(kt)
  {
    if |kt| > 0 {
      var n := |kt| - 1;
      assert forall e | e in kt[..n] :: e in kt;
      AllInPeriods(kt[..n], ks);
      assert kt[n] in kt;
    }
  }

  /**
    Grouping loses and invents nothing: the impressions and engagements of
    the result add up to the table's, and so do the followers when the
    statement sums them.
   */
  lemma GroupByConserves(t: Table, g: Grouping, cal: Calendar, fc: FollowersColumn, m: Measure)
    requires m.Followers? ==> fc.SumFollowers?
    ensures AggTotal(GroupBy(KeyRows(t, g, cal), g, fc), m) == Total(t, m)
  {
    var kt := KeyRows(t, g, cal);
    var ks := SortedSet(Periods(kt));
    TotalOverGroups(kt, ks, g, fc, m);
    AllInPeriods(kt, ks);
    RowsOfKeyRows(t, g, cal);
  }

  /** On a table with one row per date (the PostgreSQL key), each day's group is that day's row alone. */
  lemma {:induction false} DayGroupsAreRows(t: Table, cal: Calendar, x: EngagementRow)
    requires forall a, b | 0 <= a < b < |t| :: t[a].date != t[b].date
    requires x in t
    ensures InPeriod(KeyRows(t, ByDay, cal), x.date) == [x]
  {
    var n := |t| - 1;
    var init := t[..n];
    var kt := KeyRows(t, ByDay, cal);
    assert kt[..n] == KeyRows(init, ByDay, cal);
    assert kt[n] == Keyed(t[n].date, t[n]);
    if t[n] == x {
      var front := InPeriod(kt[..n], x.date);
      if |front| > 0 {
        InPeriodMembers(kt[..n], x.date, front[0]);
        assert false;
      }
    } else {
      assert x in init by { assert t == init + [t[n]]; }
      DayGroupsAreRows(init, cal, x);
      assert t[n].date != x.date by {
        var i :| 0 <= i < n && init[i] == x;
      }
    }
  }

  // ---- getDailyMetrics

  /**
    The frontend's `getDailyMetrics(range, grouping)` (PostgreSQL, MAX of
    followers, the OFFSET window). '0d' makes the statement `OFFSET -1`,
    which the database rejects, so the reader returns [].
   */
  function FrontendDailyMetrics(t: Table, range: string, g: Grouping, cal: Calendar, fault: QueryFault): (r: Reply<Aggregated>)
    ensures fault.ConnectFails? <==> r.Escaped?
    ensures fault.QueryFails? ==> r == Answer([])
    ensures fault.NoQueryFault? && (range == "all" || DaysOfRange(range).None?) ==> r == Answer(GroupBy(KeyRows(t, g, cal), g, MaxFollowers))
    ensures fault.NoQueryFault? && range != "all" && DaysOfRange(range).Some? ==>
              var n := DaysOfRange(range).value;
              r == Answer(if n == 0 then [] else GroupBy(KeyRows(OffsetWindow(t, n), g, cal), g, MaxFollowers))
  {
    if fault.ConnectFails? then Escaped(fault.error)
    else if fault.QueryFails? then Answer([])
    else
      var days := if range == "all" then None else DaysOfRange(range);
      if days.None? then Answer(GroupBy(KeyRows(t, g, cal), g, MaxFollowers))
      else if days.value == 0 then Answer([])
      else Answer(GroupBy(KeyRows(OffsetWindow(t, days.value), g, cal), g, MaxFollowers))
  }

  /**
    `getDailyMetrics(range, grouping)` with the LIMIT window: the app
    feature's reader sums followers; the frontend's, corrected to keep the
    `n` most recent dates, takes their maximum.
   */
  function DailyMetrics(t: Table, range: string, g: Grouping, cal: Calendar, fc: FollowersColumn, fault: QueryFault): (r: Reply<Aggregated>)
    ensures fault.ConnectFails? <==> r.Escaped?
    ensures fault.QueryFails? ==> r == Answer([])
    ensures fault.NoQueryFault? && (range == "all" || DaysOfRange(range).None?) ==> r == Answer(GroupBy(KeyRows(t, g, cal), g, fc))
    ensures fault.NoQueryFault? && range != "all" && DaysOfRange(range).Some? ==>
              r == Answer(GroupBy(KeyRows(RecentWindow(t, DaysOfRange(range).value), g, cal), g, fc))
  {
    if fault.ConnectFails? then Escaped(fault.error)
    else if fault.QueryFails? then Answer([])
    else
      var days := if range == "all" then None else DaysOfRange(range);
      if days.None? then Answer(GroupBy(KeyRows(t, g, cal), g, fc))
      else Answer(GroupBy(KeyRows(RecentWindow(t, days.value), g, cal), g, fc))
  }

  /** The app feature's `getDailyMetrics`: SUM of followers in every grouping. */
  function FeatureDailyMetrics(t: Table, range: string, g: Grouping, cal: Calendar, fault: QueryFault): (r: Reply<Aggregated>)
    ensures r == DailyMetrics(t, range, g, cal, SumFollowers, fault)
    ensures r.Answer? ==> forall i | 0 <= i < |r.rows| :: r.rows[i].followers.Some?
  {
    DailyMetrics(t, range, g, cal, SumFollowers, fault)
  }

  /** The frontend's `getDailyMetrics` as evidently intended: the LIMIT window, with MAX of followers. */
  function FrontendDailyMetricsCorrected(t: Table, range: string, g: Grouping, cal: Calendar, fault: QueryFault): (r: Reply<Aggregated>)
    ensures r == DailyMetrics(t, range, g, cal, MaxFollowers, fault)
  {
    DailyMetrics(t, range, g, cal, MaxFollowers, fault)
  }

  /**
    The OFFSET finding, in general: when the table holds fewer rows than
    the days asked for, the frontend returns nothing at all, while the
    LIMIT window keeps every row.
   */
  lemma OffsetHidesShortHistory(t: Table, range: string, g: Grouping, cal: Calendar)
    requires range != "all" && DaysOfRange(range).Some? && |t| < DaysOfRange(range).value
    ensures FrontendDailyMetrics(t, range, g, cal, NoQueryFault) == Answer([])
    ensures FrontendDailyMetricsCorrected(t, range, g, cal, NoQueryFault) == Answer(GroupBy(KeyRows(t, g, cal), g, MaxFollowers))
  {
    var n := DaysOfRange(range).value;
    assert Periods(KeyRows([], g, cal)) == {};
    DatesBoundedByRows(t);
    RecentWindowKeepsShortHistory(t, n);
  }

  /** Three days of data, one row each. */
  const ThreeDays: Table := [EngagementRow(1, 10, 1, 5), EngagementRow(2, 20, 2, 5), EngagementRow(3, 30, 3, 5)]

  /** A concrete instance: three days of data and a '7d' request. */
  lemma OffsetHidesThreeDays(cal: Calendar)
    ensures FrontendDailyMetrics(ThreeDays, "7d", ByDay, cal, NoQueryFault) == Answer([])
    ensures |FrontendDailyMetricsCorrected(ThreeDays, "7d", ByDay, cal, NoQueryFault).rows| == 3
  {
    SevenDaysRange();
    OffsetHidesShortHistory(ThreeDays, "7d", ByDay, cal);
    ThreeDaysHaveThreePeriods(cal);
  }

  lemma SevenDaysRange()
    ensures DaysOfRange("7d") == Some(7)
  {
    DaysOfRangeReadsBack(7, "");
    assert NatToString(7) == "7";
    assert "7d" == NatToString(7) + "d";
  }

  lemma ThreeDaysHaveThreePeriods(cal: Calendar)
    ensures |Periods(KeyRows(ThreeDays, ByDay, cal))| == 3
  {
    var t := ThreeDays;
    var kt := KeyRows(t, ByDay, cal);
    assert kt == [Keyed(1, t[0]), Keyed(2, t[1]), Keyed(3, t[2])];
    assert Periods(kt) == {1, 2, 3};
  }

  lemma {:induction false} DatesBoundedByRows(t: Table)
    ensures |Dates(t)| <= |t|
  {
    if |t| > 0 {
      var n := |t| - 1;
      DatesBoundedByRows(t[..n]);
      assert Dates(t) == Dates(t[..n]) + {t[n].date} by {
        assert t == t[..n] + [t[n]];
      }
    }
  }

  // ---- the app service (SQLite)

  /** The service's `TimeRange`: '7d' | '14d' | '30d' | 'all'. */
  datatype TimeRange = Last7 | Last14 | Last30 | AllTime

  function DaysOf(range: TimeRange): Option<nat>
  {
    match range
    case Last7 => Some(7)
    case Last14 => Some(14)
    case Last30 => Some(30)
    case AllTime => None
  }

  /**
    The service's `getDailyMetrics(range, grouping)`: grouping is forced to
    days unless the range is '7d'; no followers column.
   */
  function ServiceDailyMetrics(t: Table, range: TimeRange, grouping: Grouping, cal: Calendar, fault: QueryFault): (r: Reply<Aggregated>)
    ensures fault.ConnectFails? <==> r.Escaped?
    ensures fault.QueryFails? ==> r == Answer([])
    ensures r.Answer? ==> forall i | 0 <= i < |r.rows| :: r.rows[i].followers.None?
    ensures r.Answer? && range != Last7 ==> forall i | 0 <= i < |r.rows| :: r.rows[i].rowLabel.DayLabel?
    ensures fault.NoQueryFault? ==>
              var g := if range == Last7 then grouping else ByDay;
              var rows := if range == AllTime then t else RecentWindow(t, DaysOf(range).value);
              r == Answer(GroupBy(KeyRows(rows, g, cal), g, NoFollowers))
  {
    var g := if range == Last7 then grouping else ByDay;
    if fault.ConnectFails? then Escaped(fault.error)
    else if fault.QueryFails? then Answer([])
    else
      var rows := if range == AllTime then t else RecentWindow(t, DaysOf(range).value);
      Answer(GroupBy(KeyRows(rows, g, cal), g, NoFollowers))
  }

  // ---- getMetricsByTimeRange

  /**
    The service's `getMetricsByTimeRange(range)` on day `today`: the rows
    dated no earlier than `date('now', '-N days')`, oldest first.
   */
  function MetricsByTimeRange(t: Table, range: TimeRange, today: Day, fault: QueryFault): (r: Reply<EngagementRow>)
    ensures fault.ConnectFails? <==> r.Escaped?
    ensures fault.QueryFails? ==> r == Answer([])
    ensures fault.NoQueryFault? ==> r.Answer? && SortedBy(r.rows, RowDate)
    ensures fault.NoQueryFault? && range == AllTime ==> multiset(r.rows) == multiset(t)
    ensures fault.NoQueryFault? && range != AllTime ==>
              multiset(r.rows) == multiset(AtOrAfter(t, today - DaysOf(range).value))
  {
    if fault.ConnectFails? then Escaped(fault.error)
    else if fault.QueryFails? then Answer([])
    else if range == AllTime then Answer(SortBy(t, RowDate))
    else Answer(SortBy(AtOrAfter(t, today - DaysOf(range).value), RowDate))
  }

  /** A row is returned exactly when it is in the table and its date falls in the range. */
  lemma MetricsByTimeRangeMembers(t: Table, range: TimeRange, today: Day, x: EngagementRow)
    ensures x in MetricsByTimeRange(t, range, today, NoQueryFault).rows
            <==> x in t && (range == AllTime || x.date >= today - DaysOf(range).value)
  {
    var r := MetricsByTimeRange(t, range, today, NoQueryFault).rows;
    assert x in r <==> x in multiset(r);
    if range == AllTime {
      assert x in t <==> x in multiset(t);
    } else {
      var a := AtOrAfter(t, today - DaysOf(range).value);
      assert x in a <==> x in multiset(a);
    }
  }

  /** A wider range returns every row a narrower one does. */
  lemma WiderRangeReturnsMore(t: Table, today: Day, x: EngagementRow)
    ensures x in MetricsByTimeRange(t, Last7, today, NoQueryFault).rows ==> x in MetricsByTimeRange(t, Last14, today, NoQueryFault).rows
    ensures x in MetricsByTimeRange(t, Last14, today, NoQueryFault).rows ==> x in MetricsByTimeRange(t, Last30, today, NoQueryFault).rows
    ensures x in MetricsByTimeRange(t, Last30, today, NoQueryFault).rows ==> x in MetricsByTimeRange(t, AllTime, today, NoQueryFault).rows
  {
    MetricsByTimeRangeMembers(t, Last7, today, x);
    MetricsByTimeRangeMembers(t, Last14, today, x);
    MetricsByTimeRangeMembers(t, Last30, today, x);
    MetricsByTimeRangeMembers(t, AllTime, today, x);
  }

  /**
    The frontend's `getMetricsByTimeRange(range)` as written: its statement
    selects `tweet_id`, which the PostgreSQL `engagement_metrics` table does
    not have, and binds SQLite's `?` placeholders into `date(?, ?)`; the
    database rejects it and the reader returns [] for every range.
   */
  function FrontendMetricsByTimeRange(t: Table, range: TimeRange, today: Day, fault: QueryFault): (r: Reply<EngagementRow>)
    ensures fault.ConnectFails? <==> r.Escaped?
    ensures r.Answer? ==> r.rows == []
  {
    if fault.ConnectFails? then Escaped(fault.error) else Answer([])
  }

  /** The finding: one row dated today, and even 'all' comes back empty; the intended reader returns it. */
  lemma FrontendMetricsAlwaysEmpty(today: Day)
    ensures var t := [EngagementRow(today, 100, 7, 0)];
            FrontendMetricsByTimeRange(t, AllTime, today, NoQueryFault) == Answer([])
            && MetricsByTimeRange(t, AllTime, today, NoQueryFault) == Answer(t)
  {
    var t := [EngagementRow(today, 100, 7, 0)];
    var r := MetricsByTimeRange(t, AllTime, today, NoQueryFault).rows;
    assert multiset(r) == multiset(t);
    assert |r| == 1;
    assert r[0] in multiset(t);
  }
}
