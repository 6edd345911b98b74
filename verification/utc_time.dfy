/**
  UTC calendar arithmetic on integer milliseconds since the epoch, as the
  schedulers and the Discord helpers compute it with `Date.UTC`,
  `setUTCHours`, `toISOString().slice(0, 10)` and `Math.floor`.

  A calendar day is identified by its number of days since 1970-01-01; the
  fixed-width `YYYY-MM-DD` strings the source uses as keys order exactly as
  these numbers do, so the model uses the number as the key.
 */
module UtcTime {
  import opened Common

  const MsPerSecond: int := 1000
  const MsPerMinute: int := 60 * MsPerSecond
  const MsPerHour: int := 60 * MsPerMinute
  const MsPerDay: int := 24 * MsPerHour

  /** Milliseconds since 1970-01-01T00:00:00Z. */
  type Millis = int

  /**
    The largest distance from the epoch a JavaScript `Date` can hold: 10^8
    days either way (ECMAScript's TimeClip). Outside it the date is invalid
    and `toISOString` throws a RangeError.
   */
  const MaxTimeValue: int := 100_000_000 * MsPerDay

  predicate IsTimeValue(t: Millis)
  {
    -MaxTimeValue <= t <= MaxTimeValue
  }

  /** Days since 1970-01-01; stands for the `YYYY-MM-DD` key of that UTC day. */
  type Day = int

  /**
    The text of a day key where it is interpolated into a message or a
    label. Dates are opaque keys in this model, so the key is rendered by
    its day number; only its place in the text matters.
   */
  function DayText(date: Day): (s: string)
    ensures |s| > 0
  {
    if date >= 0 then NatToString(date) else "-" + NatToString(-date)
  }

  /** The UTC calendar day containing `t` (`toISOString().split('T')[0]`). */
  function DayOf(t: Millis): (d: Day)
    ensures d * MsPerDay <= t < (d + 1) * MsPerDay
  {
    t / MsPerDay
  }

  /** 00:00:00.000 UTC of the day containing `t` (`setUTCHours(0, 0, 0, 0)`). */
  function MidnightOf(t: Millis): (m: Millis)
    ensures m <= t < m + MsPerDay
    ensures m % MsPerDay == 0
  {
    DayOf(t) * MsPerDay
  }

  /** `getUTCHours()` */
  function HourOf(t: Millis): (h: int)
    ensures 0 <= h < 24
  {
    (t % MsPerDay) / MsPerHour
  }

  /** `getTodayISODate()` and `formatDate(new Date(now))`: the UTC day of the clock reading. */
  function TodayDate(now: Millis): (d: Day)
    ensures MidnightOf(now) == d * MsPerDay
  {
    DayOf(now)
  }

  lemma DayOfShift(t: Millis, k: int)
    ensures DayOf(t + k * MsPerDay) == DayOf(t) + k
  {
    var d := DayOf(t);
    assert (d + k) * MsPerDay <= t + k * MsPerDay < (d + k + 1) * MsPerDay;
    DayOfUnique(t + k * MsPerDay, d + k);
  }

  /** Going back `k` whole days from `t` lands on the day `k` days before that of `t`. */
  lemma DayOfBack(t: Millis, k: int)
    ensures DayOf(t - k * MsPerDay) == DayOf(t) - k
  {
    DayOfShift(t, -k);
    assert t + (-k) * MsPerDay == t - k * MsPerDay;
  }

  /** A day number whose span contains `t` is the day of `t`. */
  lemma DayOfUnique(t: Millis, d: Day)
    requires d * MsPerDay <= t < (d + 1) * MsPerDay
    ensures DayOf(t) == d
  {
  }

  // ---------------------------------------------------------------------------
  // waitUntilHourUTC: delay until the next H:00:00.000 UTC

  /** `Date.UTC(year, month, date, hour, 0, 0)` for the day containing `now`. */
  function HourMarkToday(now: Millis, hour: int): Millis
  {
    MidnightOf(now) + hour * MsPerHour
  }

  /** The target instant: today at `hour`, moved one day later only when `now` is strictly after it. */
  function TargetTime(now: Millis, hour: int): (target: Millis)
    ensures target == HourMarkToday(now, hour) || target == HourMarkToday(now, hour) + MsPerDay
    ensures target == HourMarkToday(now, hour) + MsPerDay <==> now > HourMarkToday(now, hour)
  {
    var target := HourMarkToday(now, hour);
    if now > target then target + MsPerDay else target
  }

  /** The `setTimeout` delay `target - now` that arms the daily snapshot. */
  function DelayUntilHour(now: Millis, hour: int): (delay: int)
    ensures delay == TargetTime(now, hour) - now
    ensures 0 <= hour < 24 ==> 0 <= delay < MsPerDay
    ensures 0 <= hour < 24 ==> (now + delay) % MsPerDay == hour * MsPerHour
    ensures 0 <= hour < 24 ==> (delay == 0 <==> now % MsPerDay == hour * MsPerHour)
  {
    var delay := TargetTime(now, hour) - now;
    if 0 <= hour < 24 then
      var m := MidnightOf(now);
      assert now - m == now % MsPerDay;
      if now > m + hour * MsPerHour then
        assert (now + delay) == (DayOf(now) + 1) * MsPerDay + hour * MsPerHour;
        ModOfDayPlus(DayOf(now) + 1, hour * MsPerHour);
        delay
      else
        ModOfDayPlus(DayOf(now), hour * MsPerHour);
        delay
    else
      delay
  }

  lemma ModOfDayPlus(d: int, r: int)
    requires 0 <= r < MsPerDay
    ensures (d * MsPerDay + r) % MsPerDay == r
    ensures DayOf(d * MsPerDay + r) == d
  {
    DayOfUnique(d * MsPerDay + r, d);
  }

  /** The delay is the least non-negative wait that lands on `hour` o'clock exactly. */
  lemma {:induction false} DelayIsEarliest(now: Millis, hour: int, t: Millis)
    requires 0 <= hour < 24
    requires now <= t < now + DelayUntilHour(now, hour)
    ensures t % MsPerDay != hour * MsPerHour
  {
    var delay := DelayUntilHour(now, hour);
    var target := now + delay;
    if t % MsPerDay == hour * MsPerHour {
      // t and target are both at `hour` o'clock, so they differ by whole days,
      // but 0 < target - t <= delay < one day.
      assert false;
    }
  }

  /**
    The n-th firing of the daily snapshot (n = 0 is the `setTimeout`, later
    ones come from `setInterval(..., 24h)`), ignoring timer drift.
   */
  function FiringTime(now: Millis, hour: int, n: nat): Millis
  {
    now + DelayUntilHour(now, hour) + n * MsPerDay
  }

  lemma {:induction false} FiringsAtHourDaily(now: Millis, hour: int, n: nat)
    requires 0 <= hour < 24
    ensures now <= FiringTime(now, hour, n)
    ensures FiringTime(now, hour, n) % MsPerDay == hour * MsPerHour
    ensures FiringTime(now, hour, n + 1) - FiringTime(now, hour, n) == MsPerDay
  {
    var first := now + DelayUntilHour(now, hour);
    var d := DayOf(first);
    assert first == d * MsPerDay + hour * MsPerHour;
    assert FiringTime(now, hour, n) == (d + n) * MsPerDay + hour * MsPerHour;
    ModOfDayPlus(d + n, hour * MsPerHour);
  }

  /** With the cutoff at midnight, 23:00 UTC waits one hour and 00:30 UTC waits 23.5 hours. */
  lemma MidnightCutoffExamples(day: Day)
    ensures DelayUntilHour(day * MsPerDay + 23 * MsPerHour, 0) == 3600000
    ensures DelayUntilHour(day * MsPerDay + 30 * MsPerMinute, 0) == 84600000
  {
    ModOfDayPlus(day, 23 * MsPerHour);
    ModOfDayPlus(day, 30 * MsPerMinute);
  }

  // ---------------------------------------------------------------------------
  // getMsUntilNextMidnightUTC and its hours/minutes/seconds breakdown

  /** `Date.UTC(y, m, d + 1) - now`: time left until the next UTC midnight. */
  function MsUntilNextMidnight(now: Millis): (ms: int)
    ensures 0 < ms <= MsPerDay
    ensures (now + ms) % MsPerDay == 0
    ensures ms == MsPerDay <==> now % MsPerDay == 0
  {
    var ms := (DayOf(now) + 1) * MsPerDay - now;
    ModOfDayPlus(DayOf(now) + 1, 0);
    assert now % MsPerDay == now - DayOf(now) * MsPerDay;
    ms
  }

  /** Outside the instant of midnight itself, the time to midnight is the midnight-cutoff delay. */
  lemma NextMidnightMatchesCutoffDelay(now: Millis)
    ensures DelayUntilHour(now, 0) == 0 ==> MsUntilNextMidnight(now) == MsPerDay
    ensures DelayUntilHour(now, 0) != 0 ==> MsUntilNextMidnight(now) == DelayUntilHour(now, 0)
  {
  }

  datatype Breakdown = Breakdown(hours: int, minutes: int, seconds: int)

  /** `Math.floor(ms / 3600000)`, `Math.floor((ms % 3600000) / 60000)`, `Math.floor((ms % 60000) / 1000)` */
  function BreakDown(ms: nat): (b: Breakdown)
    ensures 0 <= b.minutes < 60 && 0 <= b.seconds < 60 && 0 <= b.hours
    ensures b.hours * MsPerHour + b.minutes * MsPerMinute + b.seconds * MsPerSecond <= ms
    ensures ms < b.hours * MsPerHour + b.minutes * MsPerMinute + b.seconds * MsPerSecond + MsPerSecond
    ensures ms <= MsPerDay ==> b.hours <= 24
  {
    var h := ms / MsPerHour;
    var m := (ms % MsPerHour) / MsPerMinute;
    var s := (ms % MsPerMinute) / MsPerSecond;
    MinuteRemainder(ms);
    Breakdown(h, m, s)
  }

  /** Taking the remainder by a minute after the remainder by an hour changes nothing. */
  lemma MinuteRemainder(ms: nat)
    ensures ms % MsPerMinute == (ms % MsPerHour) % MsPerMinute
    ensures ms % MsPerHour == (ms % MsPerHour) / MsPerMinute * MsPerMinute + (ms % MsPerHour) % MsPerMinute
  {
    var h := ms / MsPerHour;
    var r := ms % MsPerHour;
    assert ms == h * MsPerHour + r;
    assert ms == (h * 60) * MsPerMinute + r;
    var q := r / MsPerMinute;
    assert r == q * MsPerMinute + r % MsPerMinute;
    assert ms == (h * 60 + q) * MsPerMinute + r % MsPerMinute;
  }

  // ---------------------------------------------------------------------------
  // getPreviousDayTimestamps

  /** The ingestion window in whole seconds and the day it stands for. */
  datatype Window = Window(sinceTime: int, untilTime: int, dateDay: Day)

  /**
    `now.setUTCHours(0,0,0,0)`; `start = now - 24h`; `sinceTime = floor(start / 1000)`;
    `untilTime = floor(now / 1000) - 1`; `dateString = start.toISOString().slice(0, 10)`.
   */
  function PreviousDayWindow(now: Millis): (w: Window)
    ensures w.untilTime - w.sinceTime == 86399
    ensures w.sinceTime * MsPerSecond == MidnightOf(now) - MsPerDay
    ensures (w.untilTime + 1) * MsPerSecond == MidnightOf(now)
    ensures w.dateDay == DayOf(now) - 1
  {
    var midnight := MidnightOf(now);
    var start := midnight - MsPerDay;
    SecondsOfDayStart(DayOf(now) - 1);
    SecondsOfDayStart(DayOf(now));
    ModOfDayPlus(DayOf(now) - 1, 0);
    Window(start / MsPerSecond, midnight / MsPerSecond - 1, DayOf(start))
  }

  lemma SecondsOfDayStart(d: Day)
    ensures (d * MsPerDay) / MsPerSecond == d * 86400
    ensures (d * MsPerDay) / MsPerSecond * MsPerSecond == d * MsPerDay
  {
    assert d * MsPerDay == (d * 86400) * MsPerSecond;
  }

  /** Every second of the window lies in the window's day, and the window is exactly that day. */
  lemma WindowIsYesterday(now: Millis, sec: int)
    ensures PreviousDayWindow(now).sinceTime <= sec <= PreviousDayWindow(now).untilTime
        <==> DayOf(sec * MsPerSecond) == PreviousDayWindow(now).dateDay
  {
    var w := PreviousDayWindow(now);
    var d := w.dateDay;
    assert w.sinceTime * MsPerSecond == d * MsPerDay;
    if w.sinceTime <= sec <= w.untilTime {
      DayOfUnique(sec * MsPerSecond, d);
    }
    if DayOf(sec * MsPerSecond) == d {
      assert d * MsPerDay <= sec * MsPerSecond < (d + 1) * MsPerDay;
    }
  }

  // ---------------------------------------------------------------------------
  // getDateFromUTCHour

  /** The counting day for a cutoff hour: today once the UTC hour has reached the cutoff, else yesterday. */
  function DateFromUtcHour(now: Millis, hour: int): (d: Day)
    ensures d == DayOf(now) || d == DayOf(now) - 1
    ensures d == DayOf(now) <==> HourOf(now) >= hour
  {
    if HourOf(now) >= hour then DayOf(now) else DayOf(now) - 1
  }

  /** The counting day is the UTC day of the instant `hour` hours earlier: days roll over at the cutoff. */
  lemma {:induction false} DateFromUtcHourShiftsByCutoff(now: Millis, hour: int)
    requires 0 <= hour < 24
    ensures DateFromUtcHour(now, hour) == DayOf(now - hour * MsPerHour)
  {
    var d := DayOf(now);
    var r := now - d * MsPerDay;
    assert 0 <= r < MsPerDay;
    assert HourOf(now) == r / MsPerHour by {
      assert now % MsPerDay == r;
    }
    if r >= hour * MsPerHour {
      assert r / MsPerHour >= hour;
      DayOfUnique(now - hour * MsPerHour, d);
    } else {
      assert r / MsPerHour < hour;
      DayOfUnique(now - hour * MsPerHour, d - 1);
    }
  }
}
