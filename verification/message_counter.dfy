/**
  The Discord message tracker (`tracker.js`): an in-memory counter of
  messages per (server, channel, UTC day), flushed to `message_counts` with
  additive upserts.

  The source keeps the counter as nested objects, server -> channel -> date
  -> count. The model flattens it into a sequence of cells in the order
  `Object.entries` enumerates them. The IDs are digit strings, but Discord
  IDs exceed 2^32 - 2 and dates contain '-', so no key is an array index
  and every level enumerates in insertion order. The flat order therefore
  groups cells by server and, within a server, by channel: a new cell is
  placed after the last cell of its channel, or else after the last cell
  of its server, or else at the end.

  Handlers run one at a time: a message arriving while a flush awaits its
  upserts is not modelled.
 */
module MessageCounter {
  import opened Common
  import opened UtcTime
  import opened DiscordStore

  /** The fields of a `messageCreate` event the filter reads. */
  datatype Message = Message(channel: string, authorIsBot: bool, guild: Option<string>)

  /** `config.trackedChannels`: server ID -> list of channel IDs. */
  type TrackingConfig = map<string, seq<string>>

  /** The union of every server's channel list (the `Set` built at start-up). */
  function TrackedChannels(config: TrackingConfig): (tracked: set<string>)
    ensures forall s, i | s in config && 0 <= i < |config[s]| :: config[s][i] in tracked
    ensures forall c | c in tracked :: exists s | s in config :: c in config[s]
  {
    var tracked := set s, c | s in config && c in config[s] :: c;
    assert forall s, i | s in config && 0 <= i < |config[s]| :: config[s][i] in config[s];
    tracked
  }

  /** A message is counted iff its channel is tracked, its author is not a bot, and it was sent in a guild. */
  predicate ShouldCount(tracked: set<string>, m: Message)
  {
    m.channel in tracked && !m.authorIsBot && m.guild.Some?
  }

  /** The in-memory counter, one cell per (server, channel, date), in enumeration order. */
  type Cells = seq<Row<MessageKey>>

  /** Counts only ever go up from 0 between flushes, and flushes set them back to 0. */
  predicate NonNegative(cells: Cells)
  {
    forall i | 0 <= i < |cells| :: cells[i].count >= 0
  }

  predicate CounterInv(cells: Cells)
  {
    UniqueKeys(cells) && NonNegative(cells)
  }

  predicate SameChannel(a: MessageKey, b: MessageKey)
  {
    a.server == b.server && a.channel == b.channel
  }

  /** One past the last index `< n` whose cell satisfies `p`, or 0 when there is none. */
  function AfterLast(cells: Cells, n: nat, p: MessageKey -> bool): (r: nat)
    requires n <= |cells|
    ensures r <= n
    ensures r > 0 ==> p(cells[r - 1].key)
    ensures forall i | r <= i < n :: !p(cells[i].key)
  {
    if n == 0 then 0
    else if p(cells[n - 1].key) then n
    else AfterLast(cells, n - 1, p)
  }

  /** Where a new cell for `key` goes so that the flat order is the nested enumeration order. */
  function InsertPos(cells: Cells, key: MessageKey): (pos: nat)
    ensures pos <= |cells|
  {
    var afterChannel := AfterLast(cells, |cells|, k => SameChannel(k, key));
    if afterChannel > 0 then afterChannel
    else
      var afterServer := AfterLast(cells, |cells|, (k: MessageKey) => k.server == key.server);
      if afterServer > 0 then afterServer else |cells|
  }

  /**
    `inMemoryCounts[server][channel][date]++`, creating the missing levels
    and the cell at 0 first: exactly one cell goes up by one.
   */
  function Increment(cells: Cells, key: MessageKey): (r: Cells)
    requires CounterInv(cells)
    ensures CounterInv(r)
    ensures Lookup(r, key) == Some(CountOr0(cells, key) + 1)
    ensures forall k | k != key :: Lookup(r, k) == Lookup(cells, k)
    ensures Keys(r) == Keys(cells) + {key}
  {
    if key in Keys(cells) then
      LookupIsARow(cells, key);
      Put(cells, key, CountOr0(cells, key) + 1)
    else
      var pos := InsertPos(cells, key);
      assert cells == cells[..pos] + cells[pos..];
      InsertNewCell(cells[..pos], cells[pos..], Row(key, 1));
      cells[..pos] + ([Row(key, 1)] + cells[pos..])
  }

  /** Inserting a row with a new key anywhere adds that key and changes no other lookup. */
  lemma InsertNewCell(a: Cells, b: Cells, x: Row<MessageKey>)
    requires CounterInv(a + b) && x.key !in Keys(a + b) && x.count >= 0
    ensures var r := a + ([x] + b);
            CounterInv(r) && Keys(r) == Keys(a + b) + {x.key}
            && forall k :: Lookup(r, k) == if k == x.key then Some(x.count) else Lookup(a + b, k)
  {
    var r := a + ([x] + b);
    KeysOfConcat(a, b);
    UniqueKeysOfConcat(a, b);
    KeysOfConcat([x], b);
    KeysOfConcat(a, [x] + b);
    UniqueKeysOfConcat([x], b);
    UniqueKeysOfConcat(a, [x] + b);
    forall k
      ensures Lookup(r, k) == if k == x.key then Some(x.count) else Lookup(a + b, k)
    {
      LookupOfConcat(a, [x] + b, k);
      LookupOfConcat(a, b, k);
      LookupOfConcat([x], b, k);
    }
    assert forall i | 0 <= i < |r| :: r[i] == x || r[i] in a + b;
  }

  /** The `messageCreate` handler at time `now`: count the message in today's UTC cell, or ignore it. */
  function OnMessage(cells: Cells, tracked: set<string>, m: Message, now: Millis): (r: Cells)
    requires CounterInv(cells)
    ensures CounterInv(r)
    ensures !ShouldCount(tracked, m) ==> r == cells
    ensures ShouldCount(tracked, m) ==>
              Lookup(r, MessageKey(m.guild.value, m.channel, DayOf(now))) == Some(CountOr0(cells, MessageKey(m.guild.value, m.channel, DayOf(now))) + 1)
              && forall k | k != MessageKey(m.guild.value, m.channel, DayOf(now)) :: Lookup(r, k) == Lookup(cells, k)
  {
    if ShouldCount(tracked, m) then Increment(cells, MessageKey(m.guild.value, m.channel, DayOf(now))) else cells
  }

  /** The cells a flush sends, in enumeration order: those with a positive count. */
  function Pending(cells: Cells): (r: Cells)
    ensures |r| <= |cells|
    ensures forall i | 0 <= i < |r| :: r[i].count > 0
    ensures Keys(r) <= Keys(cells)
    ensures UniqueKeys(cells) ==> UniqueKeys(r)
  {
    if |cells| == 0 then []
    else if cells[0].count > 0 then [cells[0]] + Pending(cells[1..])
    else Pending(cells[1..])
  }

  /** `upsertMessageCount` for each sent cell in turn, each succeeding. */
  function ApplyUpserts(table: MessageTable, sends: Cells): (r: MessageTable)
    ensures UniqueKeys(table) ==> UniqueKeys(r)
    decreases |sends|
  {
    if |sends| == 0 then table
    else ApplyUpserts(UpsertMessageCount(table, sends[0].key, sends[0].count, None).value.table, sends[1..])
  }

  /** Every cell set to 0; cells are zeroed, never removed. */
  function ZeroAll(cells: Cells): (r: Cells)
    ensures |r| == |cells| && Keys(r) == Keys(cells)
    ensures forall i | 0 <= i < |r| :: r[i] == Row(cells[i].key, 0)
    ensures UniqueKeys(cells) ==> UniqueKeys(r)
  {
    if |cells| == 0 then [] else [Row(cells[0].key, 0)] + ZeroAll(cells[1..])
  }

  /** The cells whose key is in `ks` set to 0, the others kept. */
  function ZeroKeys(cells: Cells, ks: set<MessageKey>): (r: Cells)
    ensures |r| == |cells| && Keys(r) == Keys(cells)
    ensures forall i | 0 <= i < |r| :: r[i] == if cells[i].key in ks then Row(cells[i].key, 0) else cells[i]
    ensures UniqueKeys(cells) ==> UniqueKeys(r)
  {
    if |cells| == 0 then []
    else [if cells[0].key in ks then Row(cells[0].key, 0) else cells[0]] + ZeroKeys(cells[1..], ks)
  }

  function SumCounts(cells: Cells): int
  {
    if |cells| == 0 then 0 else cells[0].count + SumCounts(cells[1..])
  }

  /** The counter and the table after a flush. */
  datatype Flushed = Flushed(cells: Cells, table: MessageTable)

  /** Index of the first upsert that throws, if it is one of the sends. */
  function FailureIndex(sends: Cells, failAt: Option<nat>): Option<nat>
  {
    if failAt.Some? && failAt.value < |sends| then failAt else None
  }

  /**
    `flushCountsToDB` as written: the upserts before a failing one have
    already been added to the table, but on any failure no cell is reset;
    when every upsert succeeds and something was sent, every cell is reset.
   */
  function FlushAsWritten(cells: Cells, table: MessageTable, failAt: Option<nat>): (r: Flushed)
    ensures var sends := Pending(cells);
            match FailureIndex(sends, failAt)
            case Some(k) => r == Flushed(cells, ApplyUpserts(table, sends[..k]))
            case None => r.table == ApplyUpserts(table, sends)
                         && r.cells == if SumCounts(sends) > 0 then ZeroAll(cells) else cells
  {
    var sends := Pending(cells);
    match FailureIndex(sends, failAt)
    case Some(k) => Flushed(cells, ApplyUpserts(table, sends[..k]))
    case None =>
      var totalFlushed := SumCounts(sends);
      Flushed(if totalFlushed > 0 then ZeroAll(cells) else cells, ApplyUpserts(table, sends))
  }

  /**
    The flush as evidently intended: a cell is reset exactly when its
    count has reached the table, so a failure part-way resets the cells
    sent before it and keeps the rest for the next attempt.
   */
  function Flush(cells: Cells, table: MessageTable, failAt: Option<nat>): (r: Flushed)
    ensures |r.cells| == |cells| && Keys(r.cells) == Keys(cells)
    ensures UniqueKeys(table) ==> UniqueKeys(r.table)
  {
    var sends := Pending(cells);
    var sent := match FailureIndex(sends, failAt) case Some(k) => sends[..k] case None => sends;
    Flushed(ZeroKeys(cells, Keys(sent)), ApplyUpserts(table, sent))
  }

  /** What a message has contributed so far: its stored count plus its pending count. */
  function Total(cells: Cells, table: MessageTable, k: MessageKey): int
  {
    CountOr0(table, k) + CountOr0(cells, k)
  }

  // ---- Lemmas about the pieces of a flush

  lemma {:induction false} ApplyUpsertsAdds(table: MessageTable, sends: Cells, k: MessageKey)
    requires UniqueKeys(sends)
    ensures CountOr0(ApplyUpserts(table, sends), k) == CountOr0(table, k) + CountOr0(sends, k)
    decreases |sends|
  {
    if |sends| > 0 {
      var next := UpsertMessageCount(table, sends[0].key, sends[0].count, None).value.table;
      ApplyUpsertsAdds(next, sends[1..], k);
      if sends[0].key == k {
        assert k !in Keys(sends[1..]);
      }
    }
  }

  lemma {:induction false} PendingCount(cells: Cells, k: MessageKey)
    requires CounterInv(cells)
    ensures CountOr0(Pending(cells), k) == CountOr0(cells, k)
  {
    if |cells| > 0 {
      PendingCount(cells[1..], k);
      if cells[0].key == k && cells[0].count <= 0 {
        assert k !in Keys(cells[1..]);
        assert k !in Keys(Pending(cells[1..]));
      }
    }
  }

  lemma {:induction false} PrefixCount(s: Cells, n: nat, k: MessageKey)
    requires UniqueKeys(s) && n <= |s|
    ensures UniqueKeys(s[..n])
    ensures CountOr0(s[..n], k) == if k in Keys(s[..n]) then CountOr0(s, k) else 0
  {
    assert s == s[..n] + s[n..];
    UniqueKeysOfConcat(s[..n], s[n..]);
    LookupOfConcat(s[..n], s[n..], k);
  }

  lemma {:induction false} ZeroKeysCount(cells: Cells, ks: set<MessageKey>, k: MessageKey)
    ensures CountOr0(ZeroKeys(cells, ks), k) == if k in ks && k in Keys(cells) then 0 else CountOr0(cells, k)
  {
    if |cells| > 0 {
      ZeroKeysCount(cells[1..], ks, k);
    }
  }

  lemma {:induction false} ZeroAllCount(cells: Cells, k: MessageKey)
    ensures CountOr0(ZeroAll(cells), k) == 0
  {
    if |cells| > 0 {
      ZeroAllCount(cells[1..], k);
    }
  }

  lemma {:induction false} SumCountsOfPositive(s: Cells)
    requires forall i | 0 <= i < |s| :: s[i].count > 0
    ensures SumCounts(s) > 0 <==> |s| > 0
  {
    if |s| > 0 {
      SumCountsOfPositive(s[1..]);
    }
  }

  // ---- Properties of the flush

  /**
    The corrected flush conserves every message: for every key, stored
    plus pending is the same before and after, wherever an upsert fails.
   */
  lemma FlushConserves(cells: Cells, table: MessageTable, failAt: Option<nat>, k: MessageKey)
    requires CounterInv(cells)
    ensures Total(Flush(cells, table, failAt).cells, Flush(cells, table, failAt).table, k) == Total(cells, table, k)
  {
    var sends := Pending(cells);
    var sent := match FailureIndex(sends, failAt) case Some(j) => sends[..j] case None => sends;
    assert sent == sends[..|sent|];
    PrefixCount(sends, |sent|, k);
    PendingCount(cells, k);
    ApplyUpsertsAdds(table, sent, k);
    ZeroKeysCount(cells, Keys(sent), k);
    assert Keys(sent) <= Keys(sends) <= Keys(cells) by {
      KeysOfConcat(sends[..|sent|], sends[|sent|..]);
      assert sends == sends[..|sent|] + sends[|sent|..];
    }
  }

  /** When every upsert succeeds, both flushes agree. */
  lemma FlushAgreesWithoutFailure(cells: Cells, table: MessageTable, failAt: Option<nat>)
    requires CounterInv(cells)
    requires FailureIndex(Pending(cells), failAt).None?
    ensures FlushAsWritten(cells, table, failAt).table == Flush(cells, table, failAt).table
    ensures forall k :: CountOr0(FlushAsWritten(cells, table, failAt).cells, k) == CountOr0(Flush(cells, table, failAt).cells, k)
  {
    var sends := Pending(cells);
    SumCountsOfPositive(sends);
    forall k
      ensures CountOr0(FlushAsWritten(cells, table, failAt).cells, k) == CountOr0(Flush(cells, table, failAt).cells, k)
    {
      PendingCount(cells, k);
      ZeroKeysCount(cells, Keys(sends), k);
      ZeroAllCount(cells, k);
      if |sends| == 0 {
        assert k !in Keys(sends);
      } else if k in Keys(cells) && k !in Keys(sends) {
        assert CountOr0(sends, k) == 0;
      }
    }
  }

  /**
    As written, a flush that fails after its first upsert inflates the
    pending-plus-stored total of every cell sent before the failure by that
    cell's count: the next flush sends it again.
   */
  lemma FlushAsWrittenInflates(cells: Cells, table: MessageTable, j: nat, k: MessageKey)
    requires CounterInv(cells)
    requires j < |Pending(cells)|
    requires k in Keys(Pending(cells)[..j])
    ensures var r := FlushAsWritten(cells, table, Some(j));
            Total(r.cells, r.table, k) == Total(cells, table, k) + CountOr0(cells, k)
            && CountOr0(cells, k) > 0
  {
    var sends := Pending(cells);
    var r := FlushAsWritten(cells, table, Some(j));
    assert r.cells == cells && r.table == ApplyUpserts(table, sends[..j]) by {
      assert FailureIndex(sends, Some(j)) == Some(j);
    }
    assert CountOr0(sends[..j], k) == CountOr0(cells, k) by {
      PrefixCount(sends, j, k);
      PendingCount(cells, k);
    }
    assert CountOr0(r.table, k) == CountOr0(table, k) + CountOr0(sends[..j], k) by {
      PrefixCount(sends, j, k);
      ApplyUpsertsAdds(table, sends[..j], k);
    }
    assert CountOr0(sends[..j], k) > 0 by {
      PrefixCount(sends, j, k);
      PositiveCountOfKey(sends[..j], k);
    }
  }

  lemma {:induction false} PositiveCountOfKey(s: Cells, k: MessageKey)
    requires forall i | 0 <= i < |s| :: s[i].count > 0
    requires k in Keys(s)
    ensures CountOr0(s, k) > 0
  {
    if s[0].key != k {
      PositiveCountOfKey(s[1..], k);
    }
  }

  /**
    A concrete double count: two messages, one each in channels A and B;
    the upsert for B fails, then the retry succeeds. Channel A ends with 2
    stored messages. The corrected flush stores 1.
   */
  lemma PartialFlushDoubleCounts()
    ensures var a := MessageKey("s", "A", 0);
            var b := MessageKey("s", "B", 0);
            var cells := [Row(a, 1), Row(b, 1)];
            var first := FlushAsWritten(cells, [], Some(1));
            var second := FlushAsWritten(first.cells, first.table, None);
            var fixed1 := Flush(cells, [], Some(1));
            var fixed2 := Flush(fixed1.cells, fixed1.table, None);
            CountOr0(second.table, a) == 2 && CountOr0(fixed2.table, a) == 1
            && CountOr0(second.table, b) == 1 && CountOr0(fixed2.table, b) == 1
  {
    var a := MessageKey("s", "A", 0);
    var b := MessageKey("s", "B", 0);
    var cells := [Row(a, 1), Row(b, 1)];
    assert a != b;
    assert Pending(cells) == cells;
    assert cells[..1] == [Row(a, 1)];
    var first := FlushAsWritten(cells, [], Some(1));
    assert first.table == [Row(a, 1)];
    assert Pending(first.cells) == cells;
    var second := FlushAsWritten(first.cells, first.table, None);
    var mid := UpsertMessageCount([Row(a, 1)], a, 1, None).value.table;
    assert mid == [Row(a, 2)];
    assert UpsertMessageCount(mid, b, 1, None).value.table == [Row(a, 2), Row(b, 1)];
    assert ApplyUpserts(mid, [Row(b, 1)]) == [Row(a, 2), Row(b, 1)];
    assert second.table == [Row(a, 2), Row(b, 1)];
    var fixed1 := Flush(cells, [], Some(1));
    assert fixed1.cells == [Row(a, 0), Row(b, 1)];
    assert fixed1.table == [Row(a, 1)];
    assert Pending(fixed1.cells) == [Row(b, 1)];
    var fixed2 := Flush(fixed1.cells, fixed1.table, None);
    assert fixed2.table == [Row(a, 1), Row(b, 1)];
  }

  /** A flush with nothing pending sends nothing and changes nothing. */
  lemma IdleFlushChangesNothing(cells: Cells, table: MessageTable, failAt: Option<nat>)
    requires CounterInv(cells)
    requires forall i | 0 <= i < |cells| :: cells[i].count == 0
    ensures FlushAsWritten(cells, table, failAt) == Flushed(cells, table)
    ensures Flush(cells, table, failAt).table == table
  {
    NoPendingWhenAllZero(cells);
  }

  lemma {:induction false} NoPendingWhenAllZero(cells: Cells)
    requires forall i | 0 <= i < |cells| :: cells[i].count == 0
    ensures Pending(cells) == []
  {
    if |cells| > 0 {
      NoPendingWhenAllZero(cells[1..]);
    }
  }

  /** Counting a message adds exactly one to its key's total and leaves every other key's total alone. */
  lemma CountingAddsOne(cells: Cells, table: MessageTable, tracked: set<string>, m: Message, now: Millis, k: MessageKey)
    requires CounterInv(cells)
    ensures Total(OnMessage(cells, tracked, m, now), table, k)
            == Total(cells, table, k)
               + (if ShouldCount(tracked, m) && k == MessageKey(m.guild.value, m.channel, DayOf(now)) then 1 else 0)
  {
  }

  /** `getInMemoryStats()`: a read-only summary of the counter. */
  datatype Stats = Stats(totalServers: nat, totalChannels: nat, totalPendingCounts: int, details: Cells)

  function Servers(cells: Cells): set<string>
  {
    set i | 0 <= i < |cells| :: cells[i].key.server
  }

  function Channels(cells: Cells): set<(string, string)>
  {
    set i | 0 <= i < |cells| :: (cells[i].key.server, cells[i].key.channel)
  }

  function InMemoryStats(cells: Cells): (s: Stats)
    ensures s.totalServers == |Servers(cells)| && s.totalChannels == |Channels(cells)|
    ensures s.totalPendingCounts == SumCounts(cells)
    ensures s.details == cells
  {
    Stats(|Servers(cells)|, |Channels(cells)|, SumCounts(cells), cells)
  }

  /** A server is counted once however many channels it has, and a channel once however many days it has. */
  lemma {:induction false} StatsCountDistinct(cells: Cells)
    ensures var s := InMemoryStats(cells);
            s.totalServers <= s.totalChannels <= |cells| && (|cells| > 0 ==> s.totalServers > 0)
  {
    if |cells| > 0 {
      var init := cells[..|cells| - 1];
      StatsCountDistinct(init);
      ServersAndChannelsSnoc(cells);
      var c := cells[|cells| - 1].key;
      CardStep(Channels(init), Servers(init), c.server, c.channel);
    }
  }

  lemma CardStep(channels: set<(string, string)>, servers: set<string>, server: string, channel: string)
    requires |servers| <= |channels| && ((server, channel) in channels ==> server in servers)
    ensures |servers + {server}| <= |channels + {(server, channel)}| <= |channels| + 1
    ensures |servers + {server}| > 0
  {
    if (server, channel) in channels {
      assert channels + {(server, channel)} == channels;
      assert servers + {server} == servers;
    }
  }

  lemma ServersAndChannelsSnoc(cells: Cells)
    requires |cells| > 0
    ensures var init, c := cells[..|cells| - 1], cells[|cells| - 1].key;
            Channels(cells) == Channels(init) + {(c.server, c.channel)}
            && Servers(cells) == Servers(init) + {c.server}
            && ((c.server, c.channel) in Channels(init) ==> c.server in Servers(init))
  {
    var n := |cells| - 1;
    var init := cells[..n];
    assert forall i | 0 <= i < n :: init[i] == cells[i];
  }

  /** After a flush in which every upsert succeeds, nothing is pending but every server and channel is still listed. */
  lemma CleanFlushEmptiesCounter(cells: Cells, table: MessageTable)
    requires CounterInv(cells)
    ensures var s := InMemoryStats(FlushAsWritten(cells, table, None).cells);
            s.totalPendingCounts == 0
            && s.totalServers == |Servers(cells)| && s.totalChannels == |Channels(cells)|
  {
    var sends := Pending(cells);
    SumCountsOfPositive(sends);
    var r := FlushAsWritten(cells, table, None).cells;
    if |sends| == 0 {
      AllZeroWhenNothingPending(cells);
      SumCountsOfZero(cells);
    } else {
      SumCountsOfZero(r);
    }
    assert Servers(r) == Servers(cells) by {
      assert forall i | 0 <= i < |r| :: r[i].key == cells[i].key;
    }
    assert Channels(r) == Channels(cells) by {
      assert forall i | 0 <= i < |r| :: r[i].key == cells[i].key;
    }
  }

  lemma {:induction false} AllZeroWhenNothingPending(cells: Cells)
    requires NonNegative(cells) && Pending(cells) == []
    ensures forall i | 0 <= i < |cells| :: cells[i].count == 0
  {
    if |cells| > 0 {
      AllZeroWhenNothingPending(cells[1..]);
      assert forall i | 1 <= i < |cells| :: cells[i] == cells[1..][i - 1];
    }
  }

  lemma {:induction false} SumCountsOfZero(cells: Cells)
    requires forall i | 0 <= i < |cells| :: cells[i].count == 0
    ensures SumCounts(cells) == 0
  {
    if |cells| > 0 {
      SumCountsOfZero(cells[1..]);
    }
  }

  /** The tracker between events: the counter and whether the five-minute flush timer is armed. */
  datatype Tracker = Tracker(cells: Cells, flushTimerArmed: bool)

  /** The periodic flush fires only while its timer is armed. */
  function Tick(t: Tracker, table: MessageTable, failAt: Option<nat>): (r: (Tracker, MessageTable))
    ensures !t.flushTimerArmed ==> r == (t, table)
  {
    if t.flushTimerArmed then
      var f := FlushAsWritten(t.cells, table, failAt);
      (t.(cells := f.cells), f.table)
    else (t, table)
  }

  /**
    The shutdown handler: the interval is cleared first, then one final
    flush runs, so no periodic flush can follow the final one.
   */
  function Shutdown(t: Tracker, table: MessageTable, failAt: Option<nat>): (r: (Tracker, MessageTable))
    ensures !r.0.flushTimerArmed
    ensures r.1 == FlushAsWritten(t.cells, table, failAt).table && r.0.cells == FlushAsWritten(t.cells, table, failAt).cells
  {
    var stopped := t.(flushTimerArmed := false);
    var f := FlushAsWritten(stopped.cells, table, failAt);
    (stopped.(cells := f.cells), f.table)
  }

  /** Any tick after shutdown is a no-op. */
  lemma NoFlushAfterShutdown(t: Tracker, table: MessageTable, failAt: Option<nat>, later: Option<nat>)
    ensures var s := Shutdown(t, table, failAt);
            Tick(s.0, s.1, later) == s
  {
  }
}
