/**
  The Discord tracker's two PostgreSQL tables: `message_counts`, keyed by
  (server, channel, date) and written with an additive upsert, and
  `user_counts`, keyed by (server, date) and written with an overwrite
  upsert. A table is a sequence of rows holding at most one row per key;
  the order of the sequence plays no part in any contract except where a
  query sorts it.
 */
module DiscordStore {
  import opened Common
  import opened UtcTime

  /** One row of a keyed table: the primary key and the stored count. */
  datatype Row<K> = Row(key: K, count: int)

  /** The keys present in a table. */
  function Keys<K(==,!new)>(t: seq<Row<K>>): set<K>
  {
    if |t| == 0 then {} else {t[0].key} + Keys(t[1..])
  }

  /** The primary-key constraint: no key occurs twice. */
  predicate UniqueKeys<K(==,!new)>(t: seq<Row<K>>)
  {
    |t| == 0 || (t[0].key !in Keys(t[1..]) && UniqueKeys(t[1..]))
  }

  /** The stored count for `k`, if any row has that key. */
  function Lookup<K(==,!new)>(t: seq<Row<K>>, k: K): (r: Option<int>)
    ensures r.Some? <==> k in Keys(t)
  {
    if |t| == 0 then None
    else if t[0].key == k then Some(t[0].count)
    else Lookup(t[1..], k)
  }

  /** A count found by `Lookup` is the count of a row of the table. */
  lemma {:induction false} LookupIsARow<K(!new)>(t: seq<Row<K>>, k: K)
    requires k in Keys(t)
    ensures Row(k, Lookup(t, k).value) in t
  {
    if t[0].key != k {
      LookupIsARow(t[1..], k);
    }
  }

  /** The stored count for `k`, or 0 when there is no row. */
  function CountOr0<K(==,!new)>(t: seq<Row<K>>, k: K): int
  {
    match Lookup(t, k)
    case None => 0
    case Some(c) => c
  }

  /** `INSERT ... ON CONFLICT (key) DO UPDATE SET count = EXCLUDED.count`. */
  function Put<K(==,!new)>(t: seq<Row<K>>, k: K, v: int): (r: seq<Row<K>>)
    ensures Lookup(r, k) == Some(v)
    ensures forall k' | k' != k :: Lookup(r, k') == Lookup(t, k')
    ensures Keys(r) == Keys(t) + {k}
    ensures |r| == if k in Keys(t) then |t| else |t| + 1
    ensures UniqueKeys(t) ==> UniqueKeys(r)
    ensures forall i | 0 <= i < |r| :: r[i] == Row(k, v) || r[i] in t
  {
    if |t| == 0 then [Row(k, v)]
    else if t[0].key == k then [Row(k, v)] + t[1..]
    else
      var rest := Put(t[1..], k, v);
      assert ([t[0]] + rest)[1..] == rest;
      [t[0]] + rest
  }

  /** The key of a `message_counts` row. */
  datatype MessageKey = MessageKey(server: string, channel: string, date: Day)

  /** The key of a `user_counts` row. */
  datatype UserKey = UserKey(server: string, date: Day)

  type MessageTable = seq<Row<MessageKey>>
  type UserTable = seq<Row<UserKey>>

  /** The database state the tracker writes to. */
  datatype DiscordDb = DiscordDb(messages: MessageTable, users: UserTable)

  predicate Valid(db: DiscordDb)
  {
    UniqueKeys(db.messages) && UniqueKeys(db.users)
  }

  /** A query either returns or rethrows the driver's error (after logging it). */
  datatype Call<T> = Returned(value: T) | Rethrown(error: Thrown)

  /** The new table and the `RETURNING` value of an upsert. */
  datatype Upserted<K> = Upserted(table: seq<Row<K>>, returned: int)

  /**
    `upsertMessageCount(server, channel, date, count)`: the stored count
    becomes the old count plus `count` (or `count` when there was no row),
    and the new total is returned. `fault` is the driver error, if any.
   */
  function UpsertMessageCount(t: MessageTable, key: MessageKey, count: int, fault: Option<Thrown>): (r: Call<Upserted<MessageKey>>)
    ensures fault.Some? <==> r.Rethrown?
    ensures fault.Some? ==> r.error == fault.value
    ensures r.Returned? ==> Lookup(r.value.table, key) == Some(CountOr0(t, key) + count)
                            && r.value.returned == CountOr0(t, key) + count
    ensures r.Returned? ==> forall k | k != key :: Lookup(r.value.table, k) == Lookup(t, k)
    ensures r.Returned? && UniqueKeys(t) ==> UniqueKeys(r.value.table)
  {
    if fault.Some? then Rethrown(fault.value)
    else
      var total := CountOr0(t, key) + count;
      Returned(Upserted(Put(t, key, total), total))
  }

  /**
    `upsertUserCount(server, date, count)`: the stored count becomes
    `count` whatever was there before.
   */
  function UpsertUserCount(t: UserTable, key: UserKey, count: int, fault: Option<Thrown>): (r: Call<Upserted<UserKey>>)
    ensures fault.Some? <==> r.Rethrown?
    ensures fault.Some? ==> r.error == fault.value
    ensures r.Returned? ==> Lookup(r.value.table, key) == Some(count) && r.value.returned == count
    ensures r.Returned? ==> forall k | k != key :: Lookup(r.value.table, k) == Lookup(t, k)
    ensures r.Returned? && UniqueKeys(t) ==> UniqueKeys(r.value.table)
  {
    if fault.Some? then Rethrown(fault.value) else Returned(Upserted(Put(t, key, count), count))
  }

  /** Two tables that agree on every key's count. */
  ghost predicate SameCounts<K(!new)>(a: seq<Row<K>>, b: seq<Row<K>>)
  {
    forall k :: Lookup(a, k) == Lookup(b, k)
  }

  /** Two additive upserts of the same key store the sum of the deltas, as one upsert of the sum would. */
  lemma MessageUpsertsAdd(t: MessageTable, key: MessageKey, a: int, b: int)
    ensures var first := UpsertMessageCount(t, key, a, None).value.table;
            var second := UpsertMessageCount(first, key, b, None).value;
            second.returned == CountOr0(t, key) + a + b
            && SameCounts(second.table, UpsertMessageCount(t, key, a + b, None).value.table)
  {
  }

  /** The user gauge is last-write-wins: a second upsert of the same key hides the first. */
  lemma UserUpsertLastWriteWins(t: UserTable, key: UserKey, a: int, b: int)
    ensures var first := UpsertUserCount(t, key, a, None).value.table;
            SameCounts(UpsertUserCount(first, key, b, None).value.table, UpsertUserCount(t, key, b, None).value.table)
  {
  }

  /** Writing the same user count twice changes nothing the second time: the overwrite is idempotent. */
  lemma UserUpsertIdempotent(t: UserTable, key: UserKey, a: int)
    ensures var first := UpsertUserCount(t, key, a, None).value.table;
            UpsertUserCount(first, key, a, None).value.table == first
  {
    var first := UpsertUserCount(t, key, a, None).value.table;
    PutSameValue(first, key, a);
  }

  /** Putting the value a key already holds returns the table as it was. */
  lemma {:induction false} PutSameValue<K(!new)>(t: seq<Row<K>>, k: K, v: int)
    requires Lookup(t, k) == Some(v)
    ensures Put(t, k, v) == t
  {
    if t[0].key != k {
      PutSameValue(t[1..], k, v);
    }
  }

  /** A date bound is applied only when it is given (a `null` or empty argument is falsy). */
  predicate InRange(d: Day, startDate: Option<Day>, endDate: Option<Day>)
  {
    (startDate.None? || startDate.value <= d) && (endDate.None? || d <= endDate.value)
  }

  /** The channel filter is applied only for a non-empty channel ID. */
  predicate ChannelMatches(channel: string, wanted: Option<string>)
  {
    wanted.None? || wanted.value == "" || channel == wanted.value
  }

  /** The `WHERE` clause of `getMessageCounts`. */
  predicate MessageRowMatches(r: Row<MessageKey>, server: string, channel: Option<string>, startDate: Option<Day>, endDate: Option<Day>)
  {
    r.key.server == server && ChannelMatches(r.key.channel, channel) && InRange(r.key.date, startDate, endDate)
  }

  /** The `WHERE` clause of `getUserCounts`. */
  predicate UserRowMatches(r: Row<UserKey>, server: string, startDate: Option<Day>, endDate: Option<Day>)
  {
    r.key.server == server && InRange(r.key.date, startDate, endDate)
  }

  /** `ORDER BY date DESC` as an ascending sort on the negated date. */
  function NegDate(r: Row<MessageKey>): int { -r.key.date }
  function NegUserDate(r: Row<UserKey>): int { -r.key.date }

  /** Rows with newer dates come first. */
  predicate NewestFirst<K>(s: seq<Row<K>>, date: K -> Day)
  {
    forall i, j | 0 <= i < j < |s| :: date(s[i].key) >= date(s[j].key)
  }

  function MessageDate(k: MessageKey): Day { k.date }
  function UserDate(k: UserKey): Day { k.date }

  /** The `WHERE` clause of `getMessageCounts` as a row test. */
  function MessageMatcher(server: string, channel: Option<string>, startDate: Option<Day>, endDate: Option<Day>): Row<MessageKey> -> bool
  {
    x => MessageRowMatches(x, server, channel, startDate, endDate)
  }

  /** The `WHERE` clause of `getUserCounts` as a row test. */
  function UserMatcher(server: string, startDate: Option<Day>, endDate: Option<Day>): Row<UserKey> -> bool
  {
    x => UserRowMatches(x, server, startDate, endDate)
  }

  lemma NegDateFirst(s: MessageTable)
    requires SortedBy(s, NegDate)
    ensures NewestFirst(s, MessageDate)
  {
    assert forall i, j | 0 <= i < j < |s| :: NegDate(s[i]) <= NegDate(s[j]);
  }

  lemma NegUserDateFirst(s: UserTable)
    requires SortedBy(s, NegUserDate)
    ensures NewestFirst(s, UserDate)
  {
    assert forall i, j | 0 <= i < j < |s| :: NegUserDate(s[i]) <= NegUserDate(s[j]);
  }

  /**
    `getMessageCounts(server, channel, startDate, endDate)`: exactly the
    matching rows, newest date first. Rows sharing a date come back in an
    order SQL leaves open; the model keeps them in table order.
   */
  function GetMessageCounts(t: MessageTable, server: string, channel: Option<string>, startDate: Option<Day>, endDate: Option<Day>,
                            fault: Option<Thrown>): (r: Call<MessageTable>)
    ensures fault.Some? <==> r.Rethrown?
    ensures r.Returned? ==> multiset(r.value) == multiset(Filter(t, MessageMatcher(server, channel, startDate, endDate)))
    ensures r.Returned? ==> forall x :: x in r.value <==> x in t && MessageRowMatches(x, server, channel, startDate, endDate)
    ensures r.Returned? ==> NewestFirst(r.value, MessageDate)
  {
    if fault.Some? then Rethrown(fault.value)
    else
      var rows := Filter(t, MessageMatcher(server, channel, startDate, endDate));
      var sorted := SortBy(rows, NegDate);
      SameElements(sorted, rows);
      NegDateFirst(sorted);
      Returned(sorted)
  }

  /** `getUserCounts(server, startDate, endDate)`: exactly the matching rows, newest date first. */
  function GetUserCounts(t: UserTable, server: string, startDate: Option<Day>, endDate: Option<Day>, fault: Option<Thrown>): (r: Call<UserTable>)
    ensures fault.Some? <==> r.Rethrown?
    ensures r.Returned? ==> multiset(r.value) == multiset(Filter(t, UserMatcher(server, startDate, endDate)))
    ensures r.Returned? ==> forall x :: x in r.value <==> x in t && UserRowMatches(x, server, startDate, endDate)
    ensures r.Returned? ==> NewestFirst(r.value, UserDate)
  {
    if fault.Some? then Rethrown(fault.value)
    else
      var rows := Filter(t, UserMatcher(server, startDate, endDate));
      var sorted := SortBy(rows, NegUserDate);
      SameElements(sorted, rows);
      NegUserDateFirst(sorted);
      Returned(sorted)
  }

  /** In a table with one row per key, a server-and-day query returns at most one user row. */
  lemma {:induction false} OneUserRowPerDay(t: UserTable, server: string, d: Day)
    requires UniqueKeys(t)
    ensures |Filter(t, UserMatcher(server, Some(d), Some(d)))| <= 1
    decreases |t|
  {
    if |t| > 0 {
      var p := UserMatcher(server, Some(d), Some(d));
      var init := t[..|t| - 1];
      UniqueKeysInit(t);
      OneUserRowPerDay(init, server, d);
      assert t == init + [t[|t| - 1]];
      FilterAppend(init, [t[|t| - 1]], p);
      if p(t[|t| - 1]) && |Filter(init, p)| == 1 {
        var a := Filter(init, p)[0];
        assert a in init && a.key == UserKey(server, d) == t[|t| - 1].key;
        UniqueKeysLastIsNew(t);
        KeysHasRowKey(init, a);
        assert false;
      }
    }
  }

  lemma {:induction false} KeysHasRowKey<K(!new)>(t: seq<Row<K>>, x: Row<K>)
    requires x in t
    ensures x.key in Keys(t)
  {
    if t[0] != x {
      KeysHasRowKey(t[1..], x);
    }
  }

  lemma {:induction false} KeysOfAppend<K(!new)>(t: seq<Row<K>>, x: Row<K>)
    ensures Keys(t + [x]) == Keys(t) + {x.key}
  {
    if |t| > 0 {
      assert (t + [x])[1..] == t[1..] + [x];
      KeysOfAppend(t[1..], x);
    }
  }

  /** Dropping the last row keeps the key constraint, and the dropped key was not among the others. */
  lemma {:induction false} UniqueKeysInit<K(!new)>(t: seq<Row<K>>)
    requires |t| > 0 && UniqueKeys(t)
    ensures UniqueKeys(t[..|t| - 1])
  {
    if |t| > 1 {
      UniqueKeysInit(t[1..]);
      assert t[1..][..|t[1..]| - 1] == t[..|t| - 1][1..];
      var init := t[..|t| - 1];
      KeysOfAppend(init[1..], t[|t| - 1]);
      assert init[1..] + [t[|t| - 1]] == t[1..];
    }
  }

  lemma {:induction false} UniqueKeysLastIsNew<K(!new)>(t: seq<Row<K>>)
    requires |t| > 0 && UniqueKeys(t)
    ensures t[|t| - 1].key !in Keys(t[..|t| - 1])
  {
    if |t| > 1 {
      UniqueKeysLastIsNew(t[1..]);
      var init := t[..|t| - 1];
      assert t[1..][..|t[1..]| - 1] == init[1..];
      KeysOfAppend(init[1..], t[|t| - 1]);
      assert init[1..] + [t[|t| - 1]] == t[1..];
      assert init == [t[0]] + init[1..];
    }
  }

  lemma {:induction false} KeysOfConcat<K(!new)>(a: seq<Row<K>>, b: seq<Row<K>>)
    ensures Keys(a + b) == Keys(a) + Keys(b)
  {
    if |a| == 0 {
      assert a + b == b;
    } else {
      assert (a + b)[1..] == a[1..] + b;
      KeysOfConcat(a[1..], b);
    }
  }

  lemma {:induction false} LookupOfConcat<K(!new)>(a: seq<Row<K>>, b: seq<Row<K>>, k: K)
    ensures Lookup(a + b, k) == if k in Keys(a) then Lookup(a, k) else Lookup(b, k)
  {
    if |a| == 0 {
      assert a + b == b;
    } else {
      assert (a + b)[1..] == a[1..] + b;
      LookupOfConcat(a[1..], b, k);
    }
  }

  lemma {:induction false} UniqueKeysOfConcat<K(!new)>(a: seq<Row<K>>, b: seq<Row<K>>)
    ensures UniqueKeys(a + b) <==> UniqueKeys(a) && UniqueKeys(b) && Keys(a) !! Keys(b)
  {
    if |a| == 0 {
      assert a + b == b;
    } else {
      assert (a + b)[1..] == a[1..] + b;
      UniqueKeysOfConcat(a[1..], b);
      KeysOfConcat(a[1..], b);
    }
  }
}
