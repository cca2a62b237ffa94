/**
 What the writes do to what the reads report: membership after grants and
 revocations, the lookup counters against the audit log, `get_stats` after
 each write, and the order of a user's lookups after a new one.
 */
module Properties {
  import opened Schema
  import opened Writes
  import opened Reads

  // ---------------------------------------------------------------- admins and bans

  /** After `add_admin` the user is an admin; nobody else's status moves, and no ban does. */
  lemma AddAdminGrants(t: Tables, userId: UserId, addedBy: UserId, now: string, other: UserId)
    ensures IsAdmin(AddAdmin(t, userId, addedBy, now), userId)
    ensures other != userId ==> (IsAdmin(AddAdmin(t, userId, addedBy, now), other) <==> IsAdmin(t, other))
    ensures IsBanned(AddAdmin(t, userId, addedBy, now), other) <==> IsBanned(t, other)
  {
  }

  /** After `remove_admin` the user is no admin; nobody else's status moves. */
  lemma RemoveAdminRevokes(t: Tables, userId: UserId, other: UserId)
    ensures !IsAdmin(RemoveAdmin(t, userId), userId)
    ensures other != userId ==> (IsAdmin(RemoveAdmin(t, userId), other) <==> IsAdmin(t, other))
  {
  }

  /** `ban_user` fails exactly for a banned user; otherwise the user is banned afterwards. */
  lemma BanUserBans(t: Tables, userId: UserId, reason: string, bannedBy: UserId, now: string, other: UserId)
    ensures BanUser(t, userId, reason, bannedBy, now).Err? <==> IsBanned(t, userId)
    ensures BanUser(t, userId, reason, bannedBy, now).Ok? ==>
      && IsBanned(BanUser(t, userId, reason, bannedBy, now).value, userId)
      && (IsAdmin(BanUser(t, userId, reason, bannedBy, now).value, other) <==> IsAdmin(t, other))
  {
  }

  /** After `unban_user` the user is not banned; nobody else's status moves. */
  lemma UnbanUserLifts(t: Tables, userId: UserId, other: UserId)
    ensures !IsBanned(UnbanUser(t, userId), userId)
    ensures other != userId ==> (IsBanned(UnbanUser(t, userId), other) <==> IsBanned(t, other))
  {
  }

  // ---------------------------------------------------------------- total_lookups against the log

  /** Each user's `total_lookups` is the number of lookup rows with that user id. */
  ghost predicate TotalsMatchLookups(t: Tables)
  {
    forall u :: u in t.users ==> t.users[u].totalLookups == CountUser(t.lookups, u)
  }

  lemma CountUserAppend(ls: seq<LookupRow>, x: LookupRow, u: UserId)
    ensures CountUser(ls + [x], u) == CountUser(ls, u) + (if x.userId == u then 1 else 0)
  {
    assert (ls + [x])[..|ls|] == ls;
  }

  lemma CountCommandAppend(ls: seq<LookupRow>, x: LookupRow, c: string)
    ensures CountCommand(ls + [x], c) == CountCommand(ls, c) + (if x.command == c then 1 else 0)
  {
    assert (ls + [x])[..|ls|] == ls;
  }

  /** `save_lookup` keeps every user's counter equal to that user's number of lookup rows. */
  lemma SaveLookupKeepsTotals(t: Tables, userId: UserId, command: string, query: string, result: string,
                              date: string, timestamp: string)
    requires TotalsMatchLookups(t)
    ensures TotalsMatchLookups(SaveLookup(t, userId, command, query, result, date, timestamp))
  {
    var r := SaveLookup(t, userId, command, query, result, date, timestamp);
    forall u | u in r.users ensures r.users[u].totalLookups == CountUser(r.lookups, u) {
      CountUserAppend(t.lookups, r.lookups[|t.lookups|], u);
    }
  }

  /**
   `update_user` keeps the counters right exactly when the user already has a
   row or has no lookup rows yet: a new row always starts at 0.
   */
  lemma UpdateUserKeepsTotals(t: Tables, userId: UserId, username: Option<string>,
                              firstName: Option<string>, lastName: Option<string>, now: string)
    requires TotalsMatchLookups(t)
    ensures TotalsMatchLookups(UpdateUser(t, userId, username, firstName, lastName, now))
            <==> (userId in t.users || CountUser(t.lookups, userId) == 0)
  {
    var r := UpdateUser(t, userId, username, firstName, lastName, now);
    if userId !in t.users && CountUser(t.lookups, userId) != 0 {
      assert r.users[userId].totalLookups != CountUser(r.lookups, userId);
    }
  }

  /**
   A lookup saved for a user without a row, followed by that user's first
   `update_user`, leaves a counter that disagrees with the log.
   */
  lemma LookupBeforeFirstUpsert()
    ensures var t1 := SaveLookup(Empty(), 7, "cmd", "q", "{}", "2024-05-01", "2024-05-01 10:00:00");
            var t2 := UpdateUser(t1, 7, None, None, None, "2024-05-01T10:00:01");
            TotalsMatchLookups(t1) && !TotalsMatchLookups(t2)
  {
    var t1 := SaveLookup(Empty(), 7, "cmd", "q", "{}", "2024-05-01", "2024-05-01 10:00:00");
    CountUserAppend([], t1.lookups[0], 7);
    assert t1.lookups == [] + [t1.lookups[0]];
    UpdateUserKeepsTotals(t1, 7, None, None, None, "2024-05-01T10:00:01");
  }

  // ---------------------------------------------------------------- a run of save_lookup calls

  datatype LookupCall = LookupCall(userId: UserId, command: string, query: string, result: string,
                                   date: string, timestamp: string)

  /** The tables after the calls, in order, each through `save_lookup`. */
  function Replay(t: Tables, calls: seq<LookupCall>): Tables
  {
    if calls == [] then t
    else
      var c := calls[|calls| - 1];
      SaveLookup(Replay(t, calls[..|calls| - 1]), c.userId, c.command, c.query, c.result, c.date, c.timestamp)
  }

  /** How many of the calls were made on `key.0` with command `key.1`. */
  function CallsOn(calls: seq<LookupCall>, key: DayCommand): nat
  {
    if calls == [] then 0
    else
      var c := calls[|calls| - 1];
      CallsOn(calls[..|calls| - 1], key) + (if (c.date, c.command) == key then 1 else 0)
  }

  /** How many of the calls were made for user `u`. */
  function CallsBy(calls: seq<LookupCall>, u: UserId): nat
  {
    if calls == [] then 0
    else CallsBy(calls[..|calls| - 1], u) + (if calls[|calls| - 1].userId == u then 1 else 0)
  }

  /** Each `daily_stats` counter grows by the number of calls made on its date with its command. */
  lemma {:induction false} ReplayCountsDaily(t: Tables, calls: seq<LookupCall>, key: DayCommand)
    ensures DailyCount(Replay(t, calls), key) == DailyCount(t, key) + CallsOn(calls, key)
  {
    if calls != [] {
      var c := calls[|calls| - 1];
      ReplayCountsDaily(t, calls[..|calls| - 1], key);
      var before := Replay(t, calls[..|calls| - 1]);
      if (c.date, c.command) != key && key in before.daily {
        assert Replay(t, calls).daily[key] == before.daily[key];
      }
    }
  }

  /** On a new database, `daily_stats[(d, c)]` is the number of calls on day `d` with command `c`. */
  lemma DailyCountsCalls(calls: seq<LookupCall>, key: DayCommand)
    ensures DailyCount(Replay(Empty(), calls), key) == CallsOn(calls, key)
  {
    ReplayCountsDaily(Empty(), calls, key);
  }

  /** A user who has a row gains one on `total_lookups` per call made for them. */
  lemma {:induction false} ReplayCountsUser(t: Tables, calls: seq<LookupCall>, u: UserId)
    requires u in t.users
    ensures u in Replay(t, calls).users
    ensures Replay(t, calls).users[u].totalLookups == t.users[u].totalLookups + CallsBy(calls, u)
  {
    if calls != [] {
      ReplayCountsUser(t, calls[..|calls| - 1], u);
    }
  }

  /** The log gains exactly one row per call, after the rows already there. */
  lemma {:induction false} ReplayAppendsLookups(t: Tables, calls: seq<LookupCall>)
    ensures |Replay(t, calls).lookups| == |t.lookups| + |calls|
    ensures Replay(t, calls).lookups[..|t.lookups|] == t.lookups
    ensures Replay(t, calls).users.Keys == t.users.Keys
  {
    if calls != [] {
      ReplayAppendsLookups(t, calls[..|calls| - 1]);
      var before := Replay(t, calls[..|calls| - 1]);
      assert Replay(t, calls).lookups[..|t.lookups|] == before.lookups[..|t.lookups|];
    }
  }

  // ---------------------------------------------------------------- get_stats after writes

  lemma SumSwap(m: map<UserId, UserRow>, j: UserId, k: UserId)
    requires j in m && k in m && j != k
    ensures (m - {j})[k] == m[k] && (m - {k})[j] == m[j]
    ensures m - {j} - {k} == m - {k} - {j}
    ensures |m - {j}| < |m| && |m - {k}| < |m|
  {
    assert (m - {j}).Keys == m.Keys - {j};
    assert (m - {k}).Keys == m.Keys - {k};
  }

  /** The sum over the users does not depend on which user is taken first. */
  lemma {:induction false} SumRemove(m: map<UserId, UserRow>, k: UserId)
    requires k in m
    ensures SumTotals(m) == m[k].totalLookups + SumTotals(m - {k})
    decreases |m|
  {
    var j := SomeKey(m);
    if j != k {
      SumSwap(m, j, k);
      SumRemove(m - {j}, k);
      SumRemove(m - {k}, j);
    }
  }

  /** Changing one user's row changes the sum by the change in that user's counter. */
  lemma SumUpdate(m: map<UserId, UserRow>, k: UserId, v: UserRow)
    ensures SumTotals(m[k := v]) + (if k in m then m[k].totalLookups else 0) == SumTotals(m) + v.totalLookups
  {
    SumRemove(m[k := v], k);
    assert m[k := v] - {k} == m - {k};
    if k in m {
      SumRemove(m, k);
    } else {
      assert m - {k} == m;
    }
  }

  /** `save_lookup` adds one to the lookup total exactly when the user has a row. */
  lemma StatsAfterSaveLookup(t: Tables, userId: UserId, command: string, query: string, result: string,
                             date: string, timestamp: string)
    ensures var s := GetStats(SaveLookup(t, userId, command, query, result, date, timestamp));
      && s.totalLookups == GetStats(t).totalLookups + (if userId in t.users then 1 else 0)
      && s.totalUsers == GetStats(t).totalUsers
      && s.totalAdmins == GetStats(t).totalAdmins
      && s.totalBanned == GetStats(t).totalBanned
  {
    var r := SaveLookup(t, userId, command, query, result, date, timestamp);
    if userId in t.users {
      SumUpdate(t.users, userId, r.users[userId]);
      assert r.users == t.users[userId := r.users[userId]];
    } else {
      assert r.users == t.users;
    }
  }

  /** `update_user` counts one more user exactly when the id is new, and keeps the lookup total. */
  lemma StatsAfterUpdateUser(t: Tables, userId: UserId, username: Option<string>,
                             firstName: Option<string>, lastName: Option<string>, now: string)
    ensures var s := GetStats(UpdateUser(t, userId, username, firstName, lastName, now));
      && s.totalUsers == GetStats(t).totalUsers + (if userId in t.users then 0 else 1)
      && s.totalLookups == GetStats(t).totalLookups
      && s.totalAdmins == GetStats(t).totalAdmins
      && s.totalBanned == GetStats(t).totalBanned
  {
    var r := UpdateUser(t, userId, username, firstName, lastName, now);
    assert r.users == t.users[userId := r.users[userId]];
    SumUpdate(t.users, userId, r.users[userId]);
    if userId !in t.users {
      assert r.users.Keys == t.users.Keys + {userId};
    }
  }

  /** The admin count of `get_stats` is the length of `get_all_admins`. */
  lemma StatsCountAdmins(t: Tables)
    ensures GetStats(t).totalAdmins == |GetAllAdmins(t)|
  {
  }

  lemma {:induction false} SumOfZeros(m: map<UserId, UserRow>)
    requires forall u :: u in m ==> m[u].totalLookups == 0
    ensures SumTotals(m) == 0
    decreases |m|
  {
    if |m| > 0 {
      HasSomeKey(m);
      var k :| k in m;
      assert (m - {k}).Keys == m.Keys - {k};
      SumRemove(m, k);
      SumOfZeros(m - {k});
    }
  }

  lemma {:induction false} SumOfCounts(m: map<UserId, UserRow>, ls: seq<LookupRow>)
    requires forall u :: u in m ==> m[u].totalLookups == CountUser(ls, u)
    requires forall i :: 0 <= i < |ls| ==> ls[i].userId in m
    ensures SumTotals(m) == |ls|
  {
    if ls == [] {
      SumOfZeros(m);
    } else {
      var init := ls[..|ls| - 1];
      var u := ls[|ls| - 1].userId;
      assert ls == init + [ls[|ls| - 1]];
      forall v | v in m ensures CountUser(ls, v) == CountUser(init, v) + (if v == u then 1 else 0) {
        CountUserAppend(init, ls[|ls| - 1], v);
      }
      var m' := m[u := m[u].(totalLookups := m[u].totalLookups - 1)];
      SumOfCounts(m', init);
      SumUpdate(m, u, m'[u]);
    }
  }

  /**
   When every lookup belongs to a user with a row and the counters agree
   with the log, `get_stats` reports as many lookups as the log holds.
   */
  lemma StatsCountLookupRows(t: Tables)
    requires TotalsMatchLookups(t)
    requires forall i :: 0 <= i < |t.lookups| ==> t.lookups[i].userId in t.users
    ensures GetStats(t).totalLookups == |t.lookups|
  {
    SumOfCounts(t.users, t.lookups);
  }

  // ---------------------------------------------------------------- reads of the log after save_lookup

  /** `save_lookup` raises the count of its command by one in `get_lookup_stats`' grouping and leaves the others. */
  lemma LookupCountsAfterSave(t: Tables, userId: UserId, command: string, query: string, result: string,
                              date: string, timestamp: string, c: string)
    ensures var r := SaveLookup(t, userId, command, query, result, date, timestamp);
      && CountCommand(r.lookups, c) == CountCommand(t.lookups, c) + (if c == command then 1 else 0)
      && CountUser(r.lookups, userId) == CountUser(t.lookups, userId) + 1
  {
    var r := SaveLookup(t, userId, command, query, result, date, timestamp);
    CountCommandAppend(t.lookups, r.lookups[|t.lookups|], c);
    CountUserAppend(t.lookups, r.lookups[|t.lookups|], userId);
  }

  /**
   A lookup stamped later than all of the user's earlier lookups is the
   first row `get_user_lookups` returns (for any limit but 0).
   */
  lemma NewestLookupFirst(t: Tables, userId: UserId, command: string, query: string, result: string,
                          date: string, timestamp: string, limit: int)
    requires forall x :: x in t.lookups && x.userId == userId ==> TextLt(x.timestamp, timestamp)
    requires limit != 0
    ensures var r := GetUserLookups(SaveLookup(t, userId, command, query, result, date, timestamp), userId, limit);
            |r| > 0 && r[0] == LookupSummary(command, query, timestamp)
  {
    var t' := SaveLookup(t, userId, command, query, result, date, timestamp);
    var row := t'.lookups[|t.lookups|];
    LookupCountsAfterSave(t, userId, command, query, result, date, timestamp, command);
    var all := UserLookupsByTime(t', userId);
    assert row in t'.lookups;
    assert row in multiset(all);
    assert all[0] in multiset(all);
    if all[0] != row {
      var k :| 0 <= k < |all| && all[k] == row;
      assert TimestampGe(all[0], all[k]);
      assert all[0] in t.lookups by {
        assert all[0] in t'.lookups;
        assert t'.lookups == t.lookups + [row];
      }
      TextLeAntisymmetric(all[0].timestamp, timestamp);
      assert false;
    }
    assert GetUserLookups(t', userId, limit)[0] == LookupSummaryOf(all[0]);
  }

  /**
   Two lookups of one user with the same command, query and second, and an
   older one: `LIMIT 2` lists the two twins, never the older row in place of one.
   */
  lemma TwinLookupsBothListed(t: Tables)
    requires t.lookups == TwinLog()
    ensures GetUserLookups(t, 1, 2) == [LookupSummary("c", "q", "b"), LookupSummary("c", "q", "b")]
  {
    var r := GetUserLookups(t, 1, 2);
    var x := t.lookups[0];
    TwinLogFacts();
    assert x in t.lookups && x.userId == 1;
    assert multiset(r)[LookupSummaryOf(x)] < 2 ==> forall i :: 0 <= i < |r| ==> TextLe(x.timestamp, r[i].timestamp);
    TwinsFillPage(r);
  }

  /** The log of the twin example: two rows with equal columns at second "b", one at the older "a". */
  function TwinLog(): seq<LookupRow>
  {
    [LookupRow(1, 1, "c", "q", "", "b"), LookupRow(2, 1, "c", "q", "", "b"), LookupRow(3, 1, "d", "q", "", "a")]
  }

  lemma TwinLogFacts()
    ensures CountUser(TwinLog(), 1) == 3
    ensures multiset(LookupSummaries(LookupsOf(TwinLog(), 1)))
            == multiset{LookupSummary("c", "q", "b"), LookupSummary("c", "q", "b"), LookupSummary("d", "q", "a")}
  {
    assert LookupsOf(TwinLog(), 1) == TwinLog();
    assert LookupSummaries(TwinLog()) ==
      [LookupSummary("c", "q", "b"), LookupSummary("c", "q", "b"), LookupSummary("d", "q", "a")];
  }

  /**
   Two rows drawn from the twins and the older row, where a twin left out is
   no newer than any row listed: both rows are twins.
   */
  lemma TwinsFillPage(r: seq<LookupSummary>)
    requires |r| == 2
    requires multiset(r) <= multiset{LookupSummary("c", "q", "b"), LookupSummary("c", "q", "b"), LookupSummary("d", "q", "a")}
    requires multiset(r)[LookupSummary("c", "q", "b")] < 2 ==> forall i :: 0 <= i < |r| ==> TextLe("b", r[i].timestamp)
    ensures r == [LookupSummary("c", "q", "b"), LookupSummary("c", "q", "b")]
  {
    assert r == [r[0], r[1]];
    assert r[0] in multiset(r) && r[1] in multiset(r);
    assert !TextLe("b", "a");
  }

  lemma ExampleCommands(ls: seq<LookupRow>)
    requires |ls| == 4
    requires ls[0].command == "cmd_a" && ls[1].command == "cmd_b"
    requires ls[2].command == "cmd_a" && ls[3].command == "cmd_a"
    ensures CountCommand(ls, "cmd_a") == 3 && CountCommand(ls, "cmd_b") == 1
    ensures Commands(ls) == ["cmd_a", "cmd_b"]
  {
    assert "cmd_a" != "cmd_b" by {
      assert "cmd_a"[4] != "cmd_b"[4];
    }
    var l1, l2, l3 := ls[..1], ls[..2], ls[..3];
    assert l1[..0] == [] && l2[..1] == l1 && l3[..2] == l2 && ls[..3] == l3;
    assert Commands(l1) == ["cmd_a"] && CountCommand(l1, "cmd_a") == 1 && CountCommand(l1, "cmd_b") == 0;
    assert Commands(l2) == ["cmd_a", "cmd_b"] && CountCommand(l2, "cmd_a") == 1 && CountCommand(l2, "cmd_b") == 1;
    assert Commands(l3) == ["cmd_a", "cmd_b"] && CountCommand(l3, "cmd_a") == 2 && CountCommand(l3, "cmd_b") == 1;
  }

  /** A log of commands `cmd_a`, `cmd_b`, `cmd_a`, `cmd_a` groups to `[("cmd_a", 3), ("cmd_b", 1)]`. */
  lemma StatsOfExampleLog(t: Tables)
    requires |t.lookups| == 4
    requires t.lookups[0].command == "cmd_a" && t.lookups[1].command == "cmd_b"
    requires t.lookups[2].command == "cmd_a" && t.lookups[3].command == "cmd_a"
    ensures GetLookupStats(t, 5) == [("cmd_a", 3), ("cmd_b", 1)]
  {
    ExampleCommands(t.lookups);
    var r := GetLookupStats(t, 5);
    assert |r| == 2;
    assert r[0].0 in Commands(t.lookups) && r[1].0 in Commands(t.lookups);
    assert r[0].0 != r[1].0 by {
      assert r[0] != r[1];
    }
  }

  /** Three lookups with `cmd_a` and one with `cmd_b`, saved one after another, group to `[("cmd_a", 3), ("cmd_b", 1)]`. */
  lemma LookupStatsExample()
    ensures var t1 := SaveLookup(Empty(), 1, "cmd_a", "q1", "{}", "2024-05-01", "2024-05-01 10:00:00");
            var t2 := SaveLookup(t1, 1, "cmd_b", "q2", "{}", "2024-05-01", "2024-05-01 10:00:01");
            var t3 := SaveLookup(t2, 2, "cmd_a", "q3", "{}", "2024-05-01", "2024-05-01 10:00:02");
            var t4 := SaveLookup(t3, 1, "cmd_a", "q4", "{}", "2024-05-01", "2024-05-01 10:00:03");
            GetLookupStats(t4, 5) == [("cmd_a", 3), ("cmd_b", 1)]
  {
    var t1 := SaveLookup(Empty(), 1, "cmd_a", "q1", "{}", "2024-05-01", "2024-05-01 10:00:00");
    var t2 := SaveLookup(t1, 1, "cmd_b", "q2", "{}", "2024-05-01", "2024-05-01 10:00:01");
    var t3 := SaveLookup(t2, 2, "cmd_a", "q3", "{}", "2024-05-01", "2024-05-01 10:00:02");
    var t4 := SaveLookup(t3, 1, "cmd_a", "q4", "{}", "2024-05-01", "2024-05-01 10:00:03");
    assert |t1.lookups| == 1 && |t2.lookups| == 2 && |t3.lookups| == 3 && |t4.lookups| == 4;
    assert t4.lookups[..3] == t3.lookups && t3.lookups[..2] == t2.lookups && t2.lookups[..1] == t1.lookups;
    StatsOfExampleLog(t4);
  }
}
