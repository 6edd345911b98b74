/**
  The read side of the Discord tracker (`api.js`): thin wrappers over the
  two range queries, per-server statistics over a look-back window, a
  per-day summary across servers, and the pending in-memory counts.
  Every failure is rethrown as a new `Error` whose message names the
  operation and the server or date.
 */
module DiscordApi {
  import opened Common
  import opened UtcTime
  import opened DiscordStore
  import opened MessageCounter

  /** `error.message` of a caught value: the message of an `Error`, `undefined` for anything else. */
  function ErrorText(t: Thrown): string
  {
    match t
    case ErrorValue(m) => m
    case OtherValue => "undefined"
  }

  /** An API call either returns a value or throws an `Error` with the given message. */
  datatype ApiCall<T> = Value(v: T) | Failed(message: string)

  /** `Math.round(s / d)` for a positive divisor: the nearest integer, halves rounding up. */
  function RoundDiv(s: int, d: int): (r: int)
    requires d > 0
    ensures 2 * d * r - d <= 2 * s < 2 * d * r + d
  {
    (2 * s + d) / (2 * d)
  }

  function GetServerUserCounts(db: DiscordDb, server: string, startDate: Option<Day>, endDate: Option<Day>, fault: Option<Thrown>): (r: ApiCall<UserTable>)
    ensures fault.None? ==> r == Value(GetUserCounts(db.users, server, startDate, endDate, None).value)
    ensures fault.Some? ==> r == Failed("Failed to get user counts for server " + server + ": " + ErrorText(fault.value))
  {
    match GetUserCounts(db.users, server, startDate, endDate, fault)
    case Returned(rows) => Value(rows)
    case Rethrown(e) => Failed("Failed to get user counts for server " + server + ": " + ErrorText(e))
  }

  function GetServerMessageCounts(db: DiscordDb, server: string, channel: Option<string>, startDate: Option<Day>, endDate: Option<Day>,
                                  fault: Option<Thrown>): (r: ApiCall<MessageTable>)
    ensures fault.None? ==> r == Value(GetMessageCounts(db.messages, server, channel, startDate, endDate, None).value)
    ensures fault.Some? ==> r == Failed("Failed to get message counts for server " + server + ": " + ErrorText(fault.value))
  {
    match GetMessageCounts(db.messages, server, channel, startDate, endDate, fault)
    case Returned(rows) => Value(rows)
    case Rethrown(e) => Failed("Failed to get message counts for server " + server + ": " + ErrorText(e))
  }

  // ---- Grouping by channel

  /** One entry of `byChannel`: the channel's total and its records in query order. */
  datatype ChannelBucket = ChannelBucket(channel: string, totalMessages: int, records: MessageTable)

  /** The records of one channel, in their original order. */
  function RecordsOf(records: MessageTable, channel: string): (r: MessageTable)
    ensures forall x | x in r :: x in records && x.key.channel == channel
  {
    if |records| == 0 then []
    else
      var n := |records| - 1;
      RecordsOf(records[..n], channel) + (if records[n].key.channel == channel then [records[n]] else [])
  }

  function ChannelsOf(records: MessageTable): set<string>
  {
    set i | 0 <= i < |records| :: records[i].key.channel
  }

  function BucketChannels(buckets: seq<ChannelBucket>): set<string>
  {
    if |buckets| == 0 then {} else {buckets[0].channel} + BucketChannels(buckets[1..])
  }

  predicate DistinctChannels(buckets: seq<ChannelBucket>)
  {
    |buckets| == 0 || (buckets[0].channel !in BucketChannels(buckets[1..]) && DistinctChannels(buckets[1..]))
  }

  function BucketsTotal(buckets: seq<ChannelBucket>): int
  {
    if |buckets| == 0 then 0 else buckets[0].totalMessages + BucketsTotal(buckets[1..])
  }

  /** `byChannel[channel]`, if present. */
  function BucketOf(buckets: seq<ChannelBucket>, channel: string): (r: Option<ChannelBucket>)
    ensures r.Some? <==> channel in BucketChannels(buckets)
    ensures r.Some? ==> r.value.channel == channel
  {
    if |buckets| == 0 then None
    else if buckets[0].channel == channel then Some(buckets[0])
    else BucketOf(buckets[1..], channel)
  }

  /** `bucket.totalMessages += record.message_count; bucket.records.push(record)` */
  function Extend(b: ChannelBucket, x: Row<MessageKey>): ChannelBucket
  {
    ChannelBucket(b.channel, b.totalMessages + x.count, b.records + [x])
  }

  /** One `forEach` step: add the record to its channel's bucket, creating the bucket at the end if needed. */
  function AddToBucket(buckets: seq<ChannelBucket>, x: Row<MessageKey>): (r: seq<ChannelBucket>)
    ensures BucketChannels(r) == BucketChannels(buckets) + {x.key.channel}
    ensures DistinctChannels(buckets) ==> DistinctChannels(r)
    ensures BucketsTotal(r) == BucketsTotal(buckets) + x.count
    ensures forall c | c != x.key.channel :: BucketOf(r, c) == BucketOf(buckets, c)
    ensures BucketOf(buckets, x.key.channel).None? ==> BucketOf(r, x.key.channel) == Some(ChannelBucket(x.key.channel, x.count, [x]))
    ensures BucketOf(buckets, x.key.channel).Some? ==> BucketOf(r, x.key.channel) == Some(Extend(BucketOf(buckets, x.key.channel).value, x))
  {
    if |buckets| == 0 then [ChannelBucket(x.key.channel, x.count, [x])]
    else if buckets[0].channel == x.key.channel then
      [Extend(buckets[0], x)] + buckets[1..]
    else
      var rest := AddToBucket(buckets[1..], x);
      var r := [buckets[0]] + rest;
      assert r[1..] == rest;
      r
  }

  /** `byChannel`, built by one pass over the records in order. */
  function GroupByChannel(records: MessageTable): (buckets: seq<ChannelBucket>)
    ensures DistinctChannels(buckets)
    ensures BucketChannels(buckets) == ChannelsOf(records)
  {
    if |records| == 0 then []
    else
      var n := |records| - 1;
      ChannelsOfSnoc(records);
      AddToBucket(GroupByChannel(records[..n]), records[n])
  }

  function SumRecords(records: MessageTable): int
  {
    if |records| == 0 then 0 else SumRecords(records[..|records| - 1]) + records[|records| - 1].count
  }

  /** The bucket a channel with records `rs` should have: none when it has no records. */
  function ExpectedBucket(rs: MessageTable, c: string): Option<ChannelBucket>
  {
    if rs == [] then None else Some(ChannelBucket(c, SumRecords(rs), rs))
  }

  /**
    `byChannel` partitions the records: each channel that occurs has one
    bucket holding exactly that channel's records, in order, with their
    sum as its total, and no other channel has a bucket.
   */
  lemma {:induction false} GroupByChannelPartitions(records: MessageTable, c: string)
    ensures BucketOf(GroupByChannel(records), c) == ExpectedBucket(RecordsOf(records, c), c)
  {
    if |records| > 0 {
      var n := |records| - 1;
      var x := records[n];
      GroupByChannelPartitions(records[..n], c);
      var rs := RecordsOf(records[..n], c);
      assert GroupByChannel(records) == AddToBucket(GroupByChannel(records[..n]), x);
      var before := GroupByChannel(records[..n]);
      if c != x.key.channel {
        assert RecordsOf(records, c) == rs by { assert rs + [] == rs; }
        assert BucketOf(AddToBucket(before, x), c) == BucketOf(before, c);
      } else {
        assert RecordsOf(records, c) == rs + [x];
        PartitionStep(before, rs, x);
      }
    }
  }

  /** A channel has records exactly when it occurs among the records' channels. */
  lemma {:induction false} RecordsOfNonEmptyIffPresent(records: MessageTable, c: string)
    ensures RecordsOf(records, c) == [] <==> c !in ChannelsOf(records)
  {
    if |records| > 0 {
      var n := |records| - 1;
      RecordsOfNonEmptyIffPresent(records[..n], c);
      ChannelsOfSnoc(records);
    }
  }

  /** Adding a record to its own channel's bucket extends the expected bucket by that record. */
  lemma PartitionStep(buckets: seq<ChannelBucket>, rs: MessageTable, x: Row<MessageKey>)
    requires BucketOf(buckets, x.key.channel) == ExpectedBucket(rs, x.key.channel)
    ensures BucketOf(AddToBucket(buckets, x), x.key.channel) == ExpectedBucket(rs + [x], x.key.channel)
  {
    assert (rs + [x])[..|rs|] == rs;
    if rs == [] {
      assert [] + [x] == [x];
      assert SumRecords([x]) == SumRecords([]) + x.count;
    }
  }

  lemma ChannelsOfSnoc(records: MessageTable)
    requires |records| > 0
    ensures ChannelsOf(records) == ChannelsOf(records[..|records| - 1]) + {records[|records| - 1].key.channel}
  {
    var n := |records| - 1;
    assert forall i | 0 <= i < n :: records[..n][i] == records[i];
  }

  /** The bucket totals add up to `totalMessages`. */
  lemma {:induction false} GroupByChannelKeepsTotal(records: MessageTable)
    ensures BucketsTotal(GroupByChannel(records)) == SumRecords(records)
  {
    if |records| > 0 {
      GroupByChannelKeepsTotal(records[..|records| - 1]);
    }
  }

  // ---- getServerStats

  datatype UserStats = UserStats(total: nat, latest: int, average: int, records: UserTable)
  datatype MessageStats = MessageStats(totalRecords: nat, totalMessages: int, averagePerDay: int,
                                       byChannel: seq<ChannelBucket>, records: MessageTable)
  datatype ServerStats = ServerStats(serverId: string, startDate: Day, endDate: Day, days: int,
                                     userCounts: UserStats, messageCounts: MessageStats)

  function SumUsers(records: UserTable): int
  {
    if |records| == 0 then 0 else SumUsers(records[..|records| - 1]) + records[|records| - 1].count
  }

  /** The statistics over the rows the two queries returned. */
  function Statistics(server: string, startDate: Day, endDate: Day, days: int, users: UserTable, messages: MessageTable): (s: ServerStats)
    requires days > 0 || |messages| == 0
    ensures s.userCounts.total == |users| && s.messageCounts.totalRecords == |messages|
    ensures s.userCounts.latest == if |users| > 0 then users[0].count else 0
    ensures |users| > 0 ==> 2 * |users| * s.userCounts.average - |users| <= 2 * SumUsers(users) < 2 * |users| * s.userCounts.average + |users|
    ensures |users| == 0 ==> s.userCounts.average == 0
    ensures s.messageCounts.totalMessages == SumRecords(messages)
    ensures |messages| > 0 ==> 2 * days * s.messageCounts.averagePerDay - days <= 2 * SumRecords(messages) < 2 * days * s.messageCounts.averagePerDay + days
    ensures |messages| == 0 ==> s.messageCounts.averagePerDay == 0
    ensures s.messageCounts.byChannel == GroupByChannel(messages)
    ensures s.userCounts.records == users && s.messageCounts.records == messages
    ensures s.serverId == server && s.startDate == startDate && s.endDate == endDate && s.days == days
  {
    var userStats := UserStats(|users|, if |users| > 0 then users[0].count else 0,
                               if |users| > 0 then RoundDiv(SumUsers(users), |users|) else 0, users);
    var total := SumRecords(messages);
    var messageStats := MessageStats(|messages|, total, if |messages| > 0 then RoundDiv(total, days) else 0,
                                     GroupByChannel(messages), messages);
    ServerStats(server, startDate, endDate, days, userStats, messageStats)
  }

  /** The message of the RangeError `toISOString` throws for an invalid date. */
  const InvalidTimeValue: string := "Invalid time value"

  /** Both ends of the look-back window are instants a `Date` can hold. */
  predicate WindowRepresentable(days: int, now: Millis)
  {
    IsTimeValue(now) && IsTimeValue(now - days * MsPerDay)
  }

  /**
    `getServerStats(serverId, days)` at time `now`: the window runs from
    the UTC day `days` days before `now` to the UTC day of `now`, both
    ends included. `fault` is the error either query throws, if any. A
    negative `days` puts the start after the end, so the window is empty.
    An end outside the range of `Date` makes `toISOString` throw before
    either query runs. The source's default of `days = 30` applies only to
    a caller that omits the argument; here `days` is always given.
   */
  function GetServerStats(db: DiscordDb, server: string, days: int, now: Millis, fault: Option<Thrown>): (r: ApiCall<ServerStats>)
    requires days != 0
    ensures !WindowRepresentable(days, now) ==> r == Failed("Failed to get server stats for " + server + ": " + InvalidTimeValue)
    ensures WindowRepresentable(days, now) && fault.Some? ==> r == Failed("Failed to get server stats for " + server + ": " + ErrorText(fault.value))
    ensures WindowRepresentable(days, now) && fault.None? ==> r.Value? && r.v.endDate == DayOf(now) && r.v.startDate == DayOf(now) - days
    ensures r.Value? ==> r.v.messageCounts.records == GetMessageCounts(db.messages, server, None, Some(r.v.startDate), Some(r.v.endDate), None).value
    ensures r.Value? ==> r.v.userCounts.records == GetUserCounts(db.users, server, Some(r.v.startDate), Some(r.v.endDate), None).value
    ensures r.Value? ==> (days > 0 || |r.v.messageCounts.records| == 0)
                         && r.v == Statistics(server, r.v.startDate, r.v.endDate, days, r.v.userCounts.records, r.v.messageCounts.records)
  {
    if !WindowRepresentable(days, now) then Failed("Failed to get server stats for " + server + ": " + InvalidTimeValue)
    else if fault.Some? then Failed("Failed to get server stats for " + server + ": " + ErrorText(fault.value))
    else
      var endDate := DayOf(now);
      var startDate := DayOf(now - days * MsPerDay);
      DayOfBack(now, days);
      var users := GetUserCounts(db.users, server, Some(startDate), Some(endDate), None).value;
      var messages := GetMessageCounts(db.messages, server, None, Some(startDate), Some(endDate), None).value;
      EmptyWindowHasNoMessages(db.messages, server, startDate, endDate);
      Value(Statistics(server, startDate, endDate, days, users, messages))
  }

  /** A window whose start is after its end matches no message row. */
  lemma EmptyWindowHasNoMessages(t: MessageTable, server: string, startDate: Day, endDate: Day)
    ensures startDate > endDate ==> |GetMessageCounts(t, server, None, Some(startDate), Some(endDate), None).value| == 0
  {
    var r := GetMessageCounts(t, server, None, Some(startDate), Some(endDate), None).value;
    assert forall i | 0 <= i < |r| :: r[i] in r;
  }

  /** A window whose start is after its end matches no user row. */
  lemma EmptyWindowHasNoUsers(t: UserTable, server: string, startDate: Day, endDate: Day)
    ensures startDate > endDate ==> |GetUserCounts(t, server, Some(startDate), Some(endDate), None).value| == 0
  {
    var r := GetUserCounts(t, server, Some(startDate), Some(endDate), None).value;
    assert forall i | 0 <= i < |r| :: r[i] in r;
  }

  /**
    A negative look-back puts the start date after today: both lists are
    empty, and every count and average is 0.
   */
  lemma NegativeDaysGiveEmptyStats(db: DiscordDb, server: string, days: int, now: Millis)
    requires days < 0
    ensures GetServerStats(db, server, days, now, None).Value? <==> WindowRepresentable(days, now)
    ensures var r := GetServerStats(db, server, days, now, None);
            r.Value? ==>
            var s := r.v;
            s.startDate > s.endDate
            && s.userCounts.records == [] && s.messageCounts.records == []
            && s.userCounts.total == 0 && s.userCounts.latest == 0 && s.userCounts.average == 0
            && s.messageCounts.totalRecords == 0 && s.messageCounts.totalMessages == 0 && s.messageCounts.averagePerDay == 0
            && s.messageCounts.byChannel == []
  {
    var r := GetServerStats(db, server, days, now, None);
    if r.Value? {
      EmptyWindowHasNoMessages(db.messages, server, r.v.startDate, r.v.endDate);
      EmptyWindowHasNoUsers(db.users, server, r.v.startDate, r.v.endDate);
    }
  }

  /**
    `userCounts.latest` is the count of the newest day in the window: the
    rows come newest first, and a server has one row per day.
   */
  lemma LatestIsNewest(db: DiscordDb, server: string, days: int, now: Millis)
    requires days != 0
    ensures var r := GetServerStats(db, server, days, now, None);
            r.Value? ==>
            var s := r.v;
            var rows := s.userCounts.records;
            |rows| > 0 ==> (s.userCounts.latest == rows[0].count
                            && rows[0].key.server == server && s.startDate <= rows[0].key.date <= s.endDate
                            && forall x | x in rows :: x.key.date <= rows[0].key.date)
  {
    var r := GetServerStats(db, server, days, now, None);
    if r.Value? && |r.v.userCounts.records| > 0 {
      var rows := r.v.userCounts.records;
      assert rows[0] in rows;
      NewestFirstHead(rows);
    }
  }

  /** The head of a newest-first table is dated no earlier than any of its rows. */
  lemma NewestFirstHead(rows: UserTable)
    requires |rows| > 0 && NewestFirst(rows, UserDate)
    ensures forall x | x in rows :: x.key.date <= rows[0].key.date
  {
    forall x | x in rows
      ensures x.key.date <= rows[0].key.date
    {
      var i :| 0 <= i < |rows| && rows[i] == x;
      if i > 0 {
        assert UserDate(rows[0].key) >= UserDate(rows[i].key);
      }
    }
  }

  // ---- getDailySummary

  /** One entry of `serverBreakdown`. */
  datatype ServerBreakdown = ServerBreakdown(userCount: int, messageCount: int, channels: seq<string>)

  datatype DailySummary = DailySummary(date: Day, totalServers: nat, totalUsers: int, totalMessages: int,
                                       totalChannels: nat, serverBreakdown: map<string, ServerBreakdown>)

  function MessagesOfServer(messages: MessageTable, server: string): (r: MessageTable)
    ensures forall x | x in r :: x in messages && x.key.server == server
  {
    if |messages| == 0 then []
    else
      var n := |messages| - 1;
      MessagesOfServer(messages[..n], server) + (if messages[n].key.server == server then [messages[n]] else [])
  }

  function ChannelIds(messages: MessageTable): (r: seq<string>)
    ensures |r| == |messages| && forall i | 0 <= i < |r| :: r[i] == messages[i].key.channel
  {
    if |messages| == 0 then [] else ChannelIds(messages[..|messages| - 1]) + [messages[|messages| - 1].key.channel]
  }

  /** `count` is the user count of the last row of `users` for `server`, the one `forEach` writes last. */
  predicate LastRowCount(users: UserTable, server: string, count: int)
  {
    exists i | 0 <= i < |users| :: users[i].key.server == server && users[i].count == count
                                   && forall j | i < j < |users| :: users[j].key.server != server
  }

  /** A row for another server does not change which row is the last for `server`. */
  lemma LastRowCountSnoc(users: UserTable, server: string, count: int)
    requires |users| > 0 && users[|users| - 1].key.server != server
    requires LastRowCount(users[..|users| - 1], server, count)
    ensures LastRowCount(users, server, count)
  {
    var n := |users| - 1;
    var i :| 0 <= i < n && users[..n][i].key.server == server && users[..n][i].count == count
             && forall j | i < j < n :: users[..n][j].key.server != server;
    assert users[i] == users[..n][i];
    forall j | i < j < |users|
      ensures users[j].key.server != server
    {
      if j < n {
        assert users[j] == users[..n][j];
      }
    }
  }

  /** Appending a user row keeps every other server's last row and makes itself its server's last row. */
  lemma LastRowCountStep(users: UserTable, before: map<string, ServerBreakdown>)
    requires |users| > 0
    requires forall t | t in before :: LastRowCount(users[..|users| - 1], t, before[t].userCount)
    ensures forall t | t in before && t != users[|users| - 1].key.server :: LastRowCount(users, t, before[t].userCount)
    ensures LastRowCount(users, users[|users| - 1].key.server, users[|users| - 1].count)
  {
    forall t | t in before && t != users[|users| - 1].key.server
      ensures LastRowCount(users, t, before[t].userCount)
    {
      LastRowCountSnoc(users, t, before[t].userCount);
    }
  }

  /** The breakdown built by the `forEach` over the user rows (a later row for a server overwrites an earlier one). */
  function Breakdown(users: UserTable, messages: MessageTable): (m: map<string, ServerBreakdown>)
    ensures m.Keys == ServerIds(users)
    ensures forall s | s in m :: m[s].messageCount == SumRecords(MessagesOfServer(messages, s))
                                 && m[s].channels == ChannelIds(MessagesOfServer(messages, s))
    ensures forall s | s in m :: LastRowCount(users, s, m[s].userCount)
  {
    if |users| == 0 then map[]
    else
      var n := |users| - 1;
      var s := users[n].key.server;
      var ofServer := MessagesOfServer(messages, s);
      var before := Breakdown(users[..n], messages);
      ServerIdsSnoc(users);
      LastRowCountStep(users, before);
      before[s := ServerBreakdown(users[n].count, SumRecords(ofServer), ChannelIds(ofServer))]
  }

  /** The servers that have a user row. */
  function ServerIds(users: UserTable): set<string>
  {
    set i | 0 <= i < |users| :: users[i].key.server
  }

  /** Rows that all belong to `server` name no other server. */
  lemma OnlyServerIds(users: UserTable, server: string)
    requires forall x | x in users :: x.key.server == server
    ensures forall s | s in ServerIds(users) :: s == server
  {
    assert forall i | 0 <= i < |users| :: users[i] in users;
  }

  lemma ServerIdsSnoc(users: UserTable)
    requires |users| > 0
    ensures ServerIds(users) == ServerIds(users[..|users| - 1]) + {users[|users| - 1].key.server}
  {
    var n := |users| - 1;
    assert forall i | 0 <= i < n :: users[..n][i] == users[i];
  }

  /** The summary computed from the rows the two queries returned. */
  function Summarize(date: Day, users: UserTable, messages: MessageTable): (s: DailySummary)
    ensures s.totalServers == |ServerIds(users)| && s.totalChannels == |ChannelsOf(messages)|
    ensures s.totalUsers == SumUsers(users) && s.totalMessages == SumRecords(messages)
    ensures s.serverBreakdown.Keys == ServerIds(users)
  {
    DailySummary(date, |ServerIds(users)|, SumUsers(users), SumRecords(messages), |ChannelsOf(messages)|, Breakdown(users, messages))
  }

  /** The wildcard the source passes as the server ID. */
  const Wildcard: string := "%"

  /**
    `getDailySummary(date)` as written: '%' is meant as "all servers", but
    the queries compare `server_id = '%'`, so only a server whose ID is the
    literal string '%' is seen.
   */
  function GetDailySummaryAsWritten(db: DiscordDb, date: Day, fault: Option<Thrown>): (r: ApiCall<DailySummary>)
    ensures fault.Some? ==> r == Failed("Failed to get daily summary for " + DayText(date) + ": " + ErrorText(fault.value))
    ensures fault.None? ==> r.Value? && r.v.date == date
    ensures r.Value? ==> forall s | s in r.v.serverBreakdown :: s == Wildcard
  {
    if fault.Some? then Failed("Failed to get daily summary for " + DayText(date) + ": " + ErrorText(fault.value))
    else
      var users := GetUserCounts(db.users, Wildcard, Some(date), Some(date), None).value;
      var messages := GetMessageCounts(db.messages, Wildcard, None, Some(date), Some(date), None).value;
      OnlyServerIds(users, Wildcard);
      Value(Summarize(date, users, messages))
  }

  /** The rows of a table dated `date`, across all servers (`WHERE date = $1`). */
  function RowsOn<K(!new)>(t: seq<Row<K>>, dateOf: K -> Day, date: Day): (r: seq<Row<K>>)
    ensures forall x :: x in r <==> x in t && dateOf(x.key) == date
  {
    if |t| == 0 then []
    else
      var n := |t| - 1;
      var r := RowsOn(t[..n], dateOf, date) + (if dateOf(t[n].key) == date then [t[n]] else []);
      assert t == t[..n] + [t[n]];
      r
  }

  /**
    `getDailySummary(date)` as evidently intended: every server's rows for
    that date.
   */
  function GetDailySummary(db: DiscordDb, date: Day, fault: Option<Thrown>): (r: ApiCall<DailySummary>)
    ensures fault.Some? ==> r == Failed("Failed to get daily summary for " + DayText(date) + ": " + ErrorText(fault.value))
    ensures fault.None? ==> r.Value? && r.v.date == date
    ensures r.Value? ==> r.v.totalUsers == SumUsers(RowsOn(db.users, UserDate, date))
                         && r.v.totalMessages == SumRecords(RowsOn(db.messages, MessageDate, date))
                         && r.v.totalServers == |ServerIds(RowsOn(db.users, UserDate, date))|
  {
    if fault.Some? then Failed("Failed to get daily summary for " + DayText(date) + ": " + ErrorText(fault.value))
    else
      var users := RowsOn(db.users, UserDate, date);
      Value(Summarize(date, users, RowsOn(db.messages, MessageDate, date)))
  }

  /**
    The wildcard finding: with one server "s" holding 10 members and 5
    messages on day 7, the summary as written reports no servers, no users
    and no messages, while the intended one reports them all.
   */
  lemma WildcardSeesNothing()
    ensures var db := DiscordDb([Row(MessageKey("s", "c", 7), 5)], [Row(UserKey("s", 7), 10)]);
            var written := GetDailySummaryAsWritten(db, 7, None).v;
            var intended := GetDailySummary(db, 7, None).v;
            written.totalServers == 0 && written.totalUsers == 0 && written.totalMessages == 0
            && intended.totalServers == 1 && intended.totalUsers == 10 && intended.totalMessages == 5
  {
    var db := DiscordDb([Row(MessageKey("s", "c", 7), 5)], [Row(UserKey("s", 7), 10)]);
    var users := GetUserCounts(db.users, Wildcard, Some(7), Some(7), None).value;
    var messages := GetMessageCounts(db.messages, Wildcard, None, Some(7), Some(7), None).value;
    assert "s" != Wildcard;
    assert users == [];
    assert messages == [];
    var iu := RowsOn(db.users, UserDate, 7);
    assert iu == [Row(UserKey("s", 7), 10)] by {
      assert db.users[..0] == [];
    }
    assert ServerIds(iu) == {"s"};
    assert RowsOn(db.messages, MessageDate, 7) == db.messages by {
      assert db.messages[..0] == [];
    }
  }

  /**
    In general, the summary as written ignores every server but one named
    '%': with no such server, it reports nothing at all.
   */
  lemma WildcardMatchesOnlyLiteral(db: DiscordDb, date: Day)
    requires forall x | x in db.users :: x.key.server != Wildcard
    requires forall x | x in db.messages :: x.key.server != Wildcard
    ensures var s := GetDailySummaryAsWritten(db, date, None).v;
            s.totalServers == 0 && s.totalUsers == 0 && s.totalMessages == 0 && s.totalChannels == 0
            && s.serverBreakdown == map[]
  {
    var users := GetUserCounts(db.users, Wildcard, Some(date), Some(date), None).value;
    var messages := GetMessageCounts(db.messages, Wildcard, None, Some(date), Some(date), None).value;
    assert users == [];
    assert messages == [];
    assert ServerIds(users) == {};
    assert ChannelsOf(messages) == {};
  }

  /** `getCurrentMemoryStats()` returns the tracker's in-memory statistics unchanged. */
  function GetCurrentMemoryStats(cells: Cells): (s: Stats)
    ensures s.totalPendingCounts == SumCounts(cells) && s.details == cells
    ensures s.totalServers == |Servers(cells)| && s.totalChannels == |Channels(cells)|
  {
    InMemoryStats(cells)
  }
}
