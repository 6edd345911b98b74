/**
  The daily member-count snapshot (`scheduler.js`): for every guild the bot
  is in, the guild's member count is written to `user_counts` under today's
  UTC date. A guild whose upsert throws is logged and skipped.
 */
module UserSnapshot {
  import opened Common
  import opened UtcTime
  import opened DiscordStore

  /** An entry of `client.guilds.cache`. */
  datatype Guild = Guild(id: string, memberCount: int)

  /** `{ totalServers, totalUsers }` */
  datatype SnapshotTotals = SnapshotTotals(totalServers: nat, totalUsers: int)

  /** The error thrown by the `i`-th guild's upsert, if any. */
  function FaultAt(faults: seq<Option<Thrown>>, i: nat): Option<Thrown>
  {
    if i < |faults| then faults[i] else None
  }

  function MemberCount(g: Guild): int { g.memberCount }

  /** The guilds whose count was recorded, in iteration order. */
  function Recorded(guilds: seq<Guild>, faults: seq<Option<Thrown>>): (r: seq<Guild>)
    ensures |r| <= |guilds|
    ensures forall g | g in r :: g in guilds
  {
    if |guilds| == 0 then []
    else
      var n := |guilds| - 1;
      Recorded(guilds[..n], faults) + (if FaultAt(faults, n).None? then [guilds[n]] else [])
  }

  /** `user_counts` after the loop: each recorded guild's count overwritten under `date`. */
  function SnapshotTable(users: UserTable, guilds: seq<Guild>, faults: seq<Option<Thrown>>, date: Day): (r: UserTable)
    ensures UniqueKeys(users) ==> UniqueKeys(r)
  {
    if |guilds| == 0 then users
    else
      var n := |guilds| - 1;
      var before := SnapshotTable(users, guilds[..n], faults, date);
      match UpsertUserCount(before, UserKey(guilds[n].id, date), guilds[n].memberCount, FaultAt(faults, n))
      case Returned(u) => u.table
      case Rethrown(_) => before
  }

  /**
    `triggerUserSnapshot(client, config)` at time `now`: the date is read
    once, before the loop; the totals count only the guilds recorded.
   */
  method TriggerUserSnapshot(users: UserTable, guilds: seq<Guild>, faults: seq<Option<Thrown>>, now: Millis)
    returns (table: UserTable, totals: SnapshotTotals)
    ensures table == SnapshotTable(users, guilds, faults, DayOf(now))
    ensures totals.totalServers == |Recorded(guilds, faults)|
    ensures totals.totalUsers == SumBy(Recorded(guilds, faults), MemberCount)
  {
    var date := DayOf(now);
    var totalServers: nat := 0;
    var totalUsers := 0;
    table := users;
    var i := 0;
    while i < |guilds|
      invariant 0 <= i <= |guilds|
      invariant table == SnapshotTable(users, guilds[..i], faults, date)
      invariant totalServers == |Recorded(guilds[..i], faults)|
      invariant totalUsers == SumBy(Recorded(guilds[..i], faults), MemberCount)
    {
      var g := guilds[i];
      assert guilds[..i + 1][..i] == guilds[..i];
      var rec := Recorded(guilds[..i], faults);
      match UpsertUserCount(table, UserKey(g.id, date), g.memberCount, FaultAt(faults, i)) {
        case Returned(u) =>
          table := u.table;
          totalServers := totalServers + 1;
          totalUsers := totalUsers + g.memberCount;
          assert Recorded(guilds[..i + 1], faults) == rec + [g];
          assert (rec + [g])[..|rec|] == rec;
        case Rethrown(_) =>
          assert Recorded(guilds[..i + 1], faults) == rec;
      }
      i := i + 1;
    }
    assert guilds[..i] == guilds;
    totals := SnapshotTotals(totalServers, totalUsers);
  }

  /** No two guilds share an ID (`guilds.cache` is keyed by ID). */
  predicate DistinctIds(guilds: seq<Guild>)
  {
    forall i, j | 0 <= i < j < |guilds| :: guilds[i].id != guilds[j].id
  }

  /**
    Each guild whose upsert succeeds ends up with its member count under
    `date`; a guild whose upsert throws keeps whatever it had; every other
    key is untouched.
   */
  lemma {:induction false} SnapshotRecordsEachGuild(users: UserTable, guilds: seq<Guild>, faults: seq<Option<Thrown>>, date: Day, k: UserKey)
    requires DistinctIds(guilds)
    ensures var t := SnapshotTable(users, guilds, faults, date);
            (forall i | 0 <= i < |guilds| && k == UserKey(guilds[i].id, date) ::
               Lookup(t, k) == if FaultAt(faults, i).None? then Some(guilds[i].memberCount) else Lookup(users, k))
            && ((forall i | 0 <= i < |guilds| :: k != UserKey(guilds[i].id, date)) ==> Lookup(t, k) == Lookup(users, k))
  {
    if |guilds| > 0 {
      var n := |guilds| - 1;
      var init := guilds[..n];
      assert DistinctIds(init);
      SnapshotRecordsEachGuild(users, init, faults, date, k);
      assert forall i | 0 <= i < n :: init[i] == guilds[i];
    }
  }

  /** Totals as the loop accumulates them: one server and its members per recorded guild. */
  lemma {:induction false} TotalsCountRecordedGuilds(guilds: seq<Guild>, faults: seq<Option<Thrown>>)
    ensures |Recorded(guilds, faults)| == |guilds| - |set i | 0 <= i < |guilds| && FaultAt(faults, i).Some?|
  {
    if |guilds| > 0 {
      var n := |guilds| - 1;
      TotalsCountRecordedGuilds(guilds[..n], faults);
      var before := set i | 0 <= i < n && FaultAt(faults, i).Some?;
      var after := set i | 0 <= i < |guilds| && FaultAt(faults, i).Some?;
      if FaultAt(faults, n).Some? {
        assert after == before + {n};
      } else {
        assert after == before;
      }
    }
  }

  /**
    The scheduled callback: the same loop, armed through the hour delay with
    the configured cutoff hour, with any outer error swallowed. Its date is
    the UTC day on which it fires.
   */
  function ScheduledSnapshot(users: UserTable, guilds: seq<Guild>, faults: seq<Option<Thrown>>, firedAt: Millis): (r: UserTable)
    ensures UniqueKeys(users) ==> UniqueKeys(r)
  {
    SnapshotTable(users, guilds, faults, DayOf(firedAt))
  }

  /**
    The `n`-th firing after start-up at `now` falls at the cutoff hour and
    records under the UTC day it fires on, which is `n` days after the first.
   */
  lemma ScheduledFiringDates(now: Millis, cutoffHour: int, n: nat)
    requires 0 <= cutoffHour < 24
    ensures DayOf(FiringTime(now, cutoffHour, n)) == DayOf(FiringTime(now, cutoffHour, 0)) + n
    ensures FiringTime(now, cutoffHour, n) % MsPerDay == cutoffHour * MsPerHour
  {
    FiringsAtHourDaily(now, cutoffHour, n);
    DayOfShift(FiringTime(now, cutoffHour, 0), n);
  }
}
