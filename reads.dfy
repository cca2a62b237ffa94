/**
 The read operations of `database.py` as queries over a `Tables` value.
 Where SQL leaves the order of rows open (no ORDER BY, or ties under one),
 the model commits to some order and states only what SQL guarantees.
 */
module Reads {
  import opened Schema
  import opened Sorting

  /** `get_user`: the whole row, or nothing when there is none. */
  function GetUser(t: Tables, userId: UserId): (r: Option<UserRow>)
    ensures r.Some? <==> userId in t.users
    ensures r.Some? ==> r.value == t.users[userId]
  {
    if userId in t.users then Some(t.users[userId]) else None
  }

  /** `is_admin`: some row of `admins` has this key. */
  predicate IsAdmin(t: Tables, userId: UserId)
  {
    userId in t.admins
  }

  /** `is_banned`: some row of `banned` has this key. */
  predicate IsBanned(t: Tables, userId: UserId)
  {
    userId in t.banned
  }

  /** `get_all_admins`: the `user_id` column of `admins`, in scan order. */
  ghost function GetAllAdmins(t: Tables): (r: seq<UserId>)
    ensures |r| == |t.admins|
    ensures Distinct(r)
    ensures forall id :: id in r <==> IsAdmin(t, id)
  {
    SeqOfSet(t.admins.Keys)
  }

  /** The rows of `users` with their keys, in scan order. */
  ghost function Entries(users: map<UserId, UserRow>): (r: seq<(UserId, UserRow)>)
    ensures |r| == |users|
    ensures forall i :: 0 <= i < |r| ==> r[i].0 in users && r[i].1 == users[r[i].0]
    ensures forall id :: id in users ==> (id, users[id]) in r
    ensures DistinctKeys(r)
  {
    var ids := SeqOfSet(users.Keys);
    var r := WithRows(users, ids);
    EntriesCover(users, ids, r);
    r
  }

  /** Each listed id with its row. */
  function WithRows(users: map<UserId, UserRow>, ids: seq<UserId>): (r: seq<(UserId, UserRow)>)
    requires forall i :: 0 <= i < |ids| ==> ids[i] in users
    ensures |r| == |ids|
    ensures forall i :: 0 <= i < |ids| ==> r[i] == (ids[i], users[ids[i]])
  {
    seq(|ids|, i requires 0 <= i < |ids| => (ids[i], users[ids[i]]))
  }

  lemma EntriesCover(users: map<UserId, UserRow>, ids: seq<UserId>, r: seq<(UserId, UserRow)>)
    requires forall id :: id in ids <==> id in users
    requires forall i :: 0 <= i < |ids| ==> ids[i] in users
    requires |r| == |ids| && forall i :: 0 <= i < |ids| ==> r[i] == (ids[i], users[ids[i]])
    ensures forall id :: id in users ==> (id, users[id]) in r
  {
    forall id | id in users ensures (id, users[id]) in r {
      var i :| 0 <= i < |ids| && ids[i] == id;
      assert r[i] == (id, users[id]);
    }
  }

  /** A row of `get_all_users`: `user_id, username, first_name, total_lookups, last_seen`. */
  datatype UserSummary = UserSummary(
    userId: UserId,
    username: Option<string>,
    firstName: Option<string>,
    totalLookups: nat,
    lastSeen: string)

  function Summary(userId: UserId, row: UserRow): UserSummary
  {
    UserSummary(userId, row.username, row.firstName, row.totalLookups, row.lastSeen)
  }

  /** `ge` of `ORDER BY last_seen DESC`. */
  predicate LastSeenGe(a: (UserId, UserRow), b: (UserId, UserRow))
  {
    TextLe(b.1.lastSeen, a.1.lastSeen)
  }

  lemma LastSeenGeIsTotalPreorder()
    ensures TotalPreorder(LastSeenGe)
  {
    forall a: (UserId, UserRow), b: (UserId, UserRow) ensures LastSeenGe(a, b) || LastSeenGe(b, a) {
      TextLeTotal(a.1.lastSeen, b.1.lastSeen);
    }
    forall a: (UserId, UserRow), b: (UserId, UserRow), c: (UserId, UserRow) | LastSeenGe(a, b) && LastSeenGe(b, c)
      ensures LastSeenGe(a, c)
    {
      TextLeTransitive(c.1.lastSeen, b.1.lastSeen, a.1.lastSeen);
    }
  }

  /** All users, most recently seen first. */
  ghost function UsersByLastSeen(users: map<UserId, UserRow>): (r: seq<(UserId, UserRow)>)
    ensures SortedBy(r, LastSeenGe)
    ensures multiset(r) == multiset(Entries(users))
  {
    LastSeenGeIsTotalPreorder();
    Sort(Entries(users), LastSeenGe)
  }

  function Summaries(s: seq<(UserId, UserRow)>): (r: seq<UserSummary>)
    ensures |r| == |s|
    ensures forall i :: 0 <= i < |s| ==> r[i] == Summary(s[i].0, s[i].1)
  {
    seq(|s|, i requires 0 <= i < |s| => Summary(s[i].0, s[i].1))
  }

  /**
   `get_all_users`: the users ordered by `last_seen` descending, then the
   window `OFFSET offset LIMIT limit` of that order.
   */
  ghost function GetAllUsers(t: Tables, limit: int, offset: int): (r: seq<UserSummary>)
    ensures |r| == PageSize(|t.users|, limit, offset)
    ensures forall i, j :: 0 <= i < j < |r| ==> TextLe(r[j].lastSeen, r[i].lastSeen)
    ensures forall i :: 0 <= i < |r| ==> r[i].userId in t.users && r[i] == Summary(r[i].userId, t.users[r[i].userId])
    ensures forall i, j :: 0 <= i < j < |r| ==> r[i].userId != r[j].userId
  {
    AllUsersPageOf(t.users, limit, offset);
    Summaries(Window(UsersByLastSeen(t.users), limit, offset))
  }

  lemma AllUsersPageOf(users: map<UserId, UserRow>, limit: int, offset: int)
    ensures |Summaries(Window(UsersByLastSeen(users), limit, offset))| == PageSize(|users|, limit, offset)
    ensures AllUsersPageRows(users, Summaries(Window(UsersByLastSeen(users), limit, offset)))
  {
    UsersByLastSeenFacts(users);
    PageOfNewestFirst(users, UsersByLastSeen(users), limit, offset);
  }

  /** Any window of a newest-first listing of users is a valid page. */
  lemma PageOfNewestFirst(users: map<UserId, UserRow>, all: seq<(UserId, UserRow)>, limit: int, offset: int)
    requires NewestFirst(users, all)
    ensures AllUsersPageRows(users, Summaries(Window(all, limit, offset)))
  {
    var page := Window(all, limit, offset);
    NewestFirstSlice(users, all, Skipped(|all|, offset), page);
    NewestFirstSummaries(users, page);
  }

  /** A page of `get_all_users`: `last_seen` non-increasing, each row one user's columns, no user twice. */
  ghost predicate AllUsersPageRows(users: map<UserId, UserRow>, r: seq<UserSummary>)
  {
    && (forall i, j :: 0 <= i < j < |r| ==> TextLe(r[j].lastSeen, r[i].lastSeen))
    && (forall i :: 0 <= i < |r| ==> r[i].userId in users && r[i] == Summary(r[i].userId, users[r[i].userId]))
    && (forall i, j :: 0 <= i < j < |r| ==> r[i].userId != r[j].userId)
  }

  /** Rows of `users` with their keys, `last_seen` non-increasing, no user twice. */
  ghost predicate NewestFirst(users: map<UserId, UserRow>, s: seq<(UserId, UserRow)>)
  {
    && (forall i, j :: 0 <= i < j < |s| ==> TextLe(s[j].1.lastSeen, s[i].1.lastSeen))
    && (forall i :: 0 <= i < |s| ==> s[i].0 in users && s[i].1 == users[s[i].0])
    && (forall i, j :: 0 <= i < j < |s| ==> s[i].0 != s[j].0)
  }

  lemma UsersByLastSeenFacts(users: map<UserId, UserRow>)
    ensures |UsersByLastSeen(users)| == |users|
    ensures NewestFirst(users, UsersByLastSeen(users))
  {
    var all := UsersByLastSeen(users);
    assert |all| == |multiset(all)| == |Entries(users)|;
    forall i | 0 <= i < |all| ensures all[i].0 in users && all[i].1 == users[all[i].0] {
      assert all[i] in multiset(Entries(users));
    }
    TopKeepsKeysDistinct(Entries(users), all, |all|);
    assert all[..|all|] == all;
    forall i, j | 0 <= i < j < |all| ensures TextLe(all[j].1.lastSeen, all[i].1.lastSeen) {
      assert LastSeenGe(all[i], all[j]);
    }
  }

  lemma NewestFirstSlice(users: map<UserId, UserRow>, s: seq<(UserId, UserRow)>, lo: nat, page: seq<(UserId, UserRow)>)
    requires NewestFirst(users, s) && lo + |page| <= |s| && page == s[lo..lo + |page|]
    ensures NewestFirst(users, page)
  {
    forall i, j | 0 <= i < j < |page| ensures TextLe(page[j].1.lastSeen, page[i].1.lastSeen) && page[i].0 != page[j].0 {
      assert page[i] == s[lo + i] && page[j] == s[lo + j];
    }
    forall i | 0 <= i < |page| ensures page[i].0 in users && page[i].1 == users[page[i].0] {
      assert page[i] == s[lo + i];
    }
  }

  lemma NewestFirstSummaries(users: map<UserId, UserRow>, s: seq<(UserId, UserRow)>)
    requires NewestFirst(users, s)
    ensures AllUsersPageRows(users, Summaries(s))
  {
  }

  /**
   A page that starts at the top and whose limit covers the table (no limit,
   or the default `limit=100` on at most 100 users) lists every user.
   */
  lemma AllUsersListsEveryone(t: Tables, limit: int, offset: int)
    requires (limit < 0 || limit >= |t.users|) && offset <= 0
    ensures forall id :: id in t.users ==> Summary(id, t.users[id]) in GetAllUsers(t, limit, offset)
  {
    var all := UsersByLastSeen(t.users);
    UsersByLastSeenFacts(t.users);
    assert Window(all, limit, offset) == all;
    SummariesCoverUsers(t.users, all);
  }

  /** Any ordering of all the entries, summarised, holds every user's summary. */
  lemma SummariesCoverUsers(users: map<UserId, UserRow>, all: seq<(UserId, UserRow)>)
    requires multiset(all) == multiset(Entries(users))
    ensures forall id :: id in users ==> Summary(id, users[id]) in Summaries(all)
  {
    forall id | id in users ensures Summary(id, users[id]) in Summaries(all) {
      assert (id, users[id]) in multiset(Entries(users));
      var i :| 0 <= i < |all| && all[i] == (id, users[id]);
      assert Summaries(all)[i] == Summary(id, users[id]);
    }
  }

  /** Consecutive pages of `get_all_users` join up with no row lost or repeated. */
  lemma {:induction false} PagesConcatenate(t: Tables, a: nat, b: nat, offset: nat)
    ensures GetAllUsers(t, a, offset) + GetAllUsers(t, b, offset + a) == GetAllUsers(t, a + b, offset)
  {
    var all := UsersByLastSeen(t.users);
    WindowsConcatenate(all, a, b, offset);
    SummariesConcatenate(Window(all, a, offset), Window(all, b, offset + a));
  }

  lemma SummariesConcatenate(s: seq<(UserId, UserRow)>, u: seq<(UserId, UserRow)>)
    ensures Summaries(s) + Summaries(u) == Summaries(s + u)
  {
  }

  /** A row of `get_recent_users` and `get_inactive_users`: `user_id, username, last_seen`. */
  datatype Activity = Activity(userId: UserId, username: Option<string>, lastSeen: string)

  function ActivityOf(userId: UserId, row: UserRow): Activity
  {
    Activity(userId, row.username, row.lastSeen)
  }

  ghost function Activities(users: map<UserId, UserRow>, ids: set<UserId>): (r: seq<Activity>)
    requires ids <= users.Keys
    ensures forall i :: 0 <= i < |r| ==> r[i].userId in ids && r[i] == ActivityOf(r[i].userId, users[r[i].userId])
    ensures forall id :: id in ids ==> ActivityOf(id, users[id]) in r
    ensures forall i, j :: 0 <= i < j < |r| ==> r[i].userId != r[j].userId
  {
    var s := SeqOfSet(ids);
    var r := seq(|s|, i requires 0 <= i < |s| => ActivityOf(s[i], users[s[i]]));
    assert forall id :: id in ids ==> ActivityOf(id, users[id]) in r by {
      forall id | id in ids ensures ActivityOf(id, users[id]) in r {
        var i :| 0 <= i < |s| && s[i] == id;
        assert r[i] == ActivityOf(id, users[id]);
      }
    }
    r
  }

  /** `get_recent_users`: the users with `last_seen >= cutoff`, in scan order. */
  ghost function GetRecentUsers(t: Tables, cutoff: string): (r: seq<Activity>)
    ensures forall i :: 0 <= i < |r| ==>
      r[i].userId in t.users && r[i] == ActivityOf(r[i].userId, t.users[r[i].userId]) && TextLe(cutoff, r[i].lastSeen)
    ensures forall id :: id in t.users && TextLe(cutoff, t.users[id].lastSeen) ==> ActivityOf(id, t.users[id]) in r
    ensures forall i, j :: 0 <= i < j < |r| ==> r[i].userId != r[j].userId
  {
    Activities(t.users, set id | id in t.users && TextLe(cutoff, t.users[id].lastSeen))
  }

  /** `get_inactive_users`: the users with `last_seen < cutoff`, in scan order. */
  ghost function GetInactiveUsers(t: Tables, cutoff: string): (r: seq<Activity>)
    ensures forall i :: 0 <= i < |r| ==>
      r[i].userId in t.users && r[i] == ActivityOf(r[i].userId, t.users[r[i].userId]) && TextLt(r[i].lastSeen, cutoff)
    ensures forall id :: id in t.users && TextLt(t.users[id].lastSeen, cutoff) ==> ActivityOf(id, t.users[id]) in r
    ensures forall i, j :: 0 <= i < j < |r| ==> r[i].userId != r[j].userId
  {
    Activities(t.users, set id | id in t.users && TextLt(t.users[id].lastSeen, cutoff))
  }

  /** Every user falls in exactly one of `get_recent_users` and `get_inactive_users` for the same cutoff. */
  lemma RecentAndInactivePartition(t: Tables, cutoff: string, id: UserId)
    requires id in t.users
    ensures ActivityOf(id, t.users[id]) in GetRecentUsers(t, cutoff)
            <==> ActivityOf(id, t.users[id]) !in GetInactiveUsers(t, cutoff)
  {
    TextLtIsNotGe(t.users[id].lastSeen, cutoff);
  }

  /** A row of `get_user_lookups`: `command, query, timestamp`. */
  datatype LookupSummary = LookupSummary(command: string, query: string, timestamp: string)

  function LookupSummaryOf(x: LookupRow): LookupSummary
  {
    LookupSummary(x.command, x.query, x.timestamp)
  }

  /** `WHERE user_id = u` over `lookups`, in insertion order. */
  function LookupsOf(ls: seq<LookupRow>, u: UserId): (r: seq<LookupRow>)
    ensures |r| == CountUser(ls, u)
    ensures forall x :: x in r <==> x in ls && x.userId == u
  {
    if ls == [] then []
    else
      var last := ls[|ls| - 1];
      assert ls == ls[..|ls| - 1] + [last];
      LookupsOf(ls[..|ls| - 1], u) + (if last.userId == u then [last] else [])
  }

  /** `ge` of `ORDER BY timestamp DESC`. */
  predicate TimestampGe(a: LookupRow, b: LookupRow)
  {
    TextLe(b.timestamp, a.timestamp)
  }

  lemma TimestampGeIsTotalPreorder()
    ensures TotalPreorder(TimestampGe)
  {
    forall a: LookupRow, b: LookupRow ensures TimestampGe(a, b) || TimestampGe(b, a) {
      TextLeTotal(a.timestamp, b.timestamp);
    }
    forall a: LookupRow, b: LookupRow, c: LookupRow | TimestampGe(a, b) && TimestampGe(b, c)
      ensures TimestampGe(a, c)
    {
      TextLeTransitive(c.timestamp, b.timestamp, a.timestamp);
    }
  }

  /** A user's lookups, newest first. */
  function UserLookupsByTime(t: Tables, userId: UserId): (r: seq<LookupRow>)
    ensures SortedBy(r, TimestampGe)
    ensures multiset(r) == multiset(LookupsOf(t.lookups, userId))
  {
    TimestampGeIsTotalPreorder();
    Sort(LookupsOf(t.lookups, userId), TimestampGe)
  }

  /**
   `get_user_lookups`: the user's lookups ordered by `timestamp` descending,
   at most `limit` of them. A lookup whose columns are listed fewer times than
   the user's log holds them was left out, and it is no newer than any row
   listed; no lookup is listed more often than the log holds it.
   */
  function GetUserLookups(t: Tables, userId: UserId, limit: int): (r: seq<LookupSummary>)
    ensures var n := CountUser(t.lookups, userId); |r| == if 0 <= limit < n then limit else n
    ensures forall i, j :: 0 <= i < j < |r| ==> TextLe(r[j].timestamp, r[i].timestamp)
    ensures forall i :: 0 <= i < |r| ==>
      exists x :: x in t.lookups && x.userId == userId && r[i] == LookupSummaryOf(x)
    ensures forall x, i ::
      (&& x in t.lookups && x.userId == userId
       && multiset(r)[LookupSummaryOf(x)] < multiset(LookupSummaries(LookupsOf(t.lookups, userId)))[LookupSummaryOf(x)]
       && 0 <= i < |r|) ==> TextLe(x.timestamp, r[i].timestamp)
    ensures multiset(r) <= multiset(LookupSummaries(LookupsOf(t.lookups, userId)))
  {
    NewestLookupsPage(t, userId, limit, Limit(UserLookupsByTime(t, userId), limit));
    NewestLookupsPageComplete(t, userId, limit, Limit(UserLookupsByTime(t, userId), limit));
    LookupSummaries(Limit(UserLookupsByTime(t, userId), limit))
  }

  lemma NewestLookupsPage(t: Tables, userId: UserId, limit: int, top: seq<LookupRow>)
    requires top == Limit(UserLookupsByTime(t, userId), limit)
    ensures var r := LookupSummaries(top);
      && (var n := CountUser(t.lookups, userId); |r| == if 0 <= limit < n then limit else n)
      && (forall i, j :: 0 <= i < j < |r| ==> TextLe(r[j].timestamp, r[i].timestamp))
      && (forall i :: 0 <= i < |r| ==> exists x :: x in t.lookups && x.userId == userId && r[i] == LookupSummaryOf(x))
  {
    var all := UserLookupsByTime(t, userId);
    assert top == all[..|top|];
    NewestLookupsFacts(t, userId, |top|);
    var r := LookupSummaries(top);
    forall i | 0 <= i < |r| ensures exists x :: x in t.lookups && x.userId == userId && r[i] == LookupSummaryOf(x) {
      var x := top[i];
      assert x in t.lookups && x.userId == userId && r[i] == LookupSummaryOf(x);
    }
  }

  /** The page leaves out only lookups no newer than those it lists, and repeats none. */
  lemma NewestLookupsPageComplete(t: Tables, userId: UserId, limit: int, top: seq<LookupRow>)
    requires top == Limit(UserLookupsByTime(t, userId), limit)
    ensures var r := LookupSummaries(top);
      && (forall x, i ::
            (&& x in t.lookups && x.userId == userId
             && multiset(r)[LookupSummaryOf(x)] < multiset(LookupSummaries(LookupsOf(t.lookups, userId)))[LookupSummaryOf(x)]
             && 0 <= i < |r|) ==> TextLe(x.timestamp, r[i].timestamp))
      && multiset(r) <= multiset(LookupSummaries(LookupsOf(t.lookups, userId)))
  {
    var all := UserLookupsByTime(t, userId);
    assert top == all[..|top|];
    NewestNotOmitted(LookupsOf(t.lookups, userId), all, top);
    TopSummariesFromLog(all, top, LookupsOf(t.lookups, userId));
  }

  /**
   A row of `log` whose summary the top of a newest-first ordering holds fewer
   times than `log` does is no newer than any row kept.
   */
  lemma NewestNotOmitted(log: seq<LookupRow>, all: seq<LookupRow>, top: seq<LookupRow>)
    requires SortedBy(all, TimestampGe) && multiset(all) == multiset(log)
    requires |top| <= |all| && top == all[..|top|]
    ensures forall x, i ::
      (&& x in log
       && multiset(LookupSummaries(top))[LookupSummaryOf(x)] < multiset(LookupSummaries(log))[LookupSummaryOf(x)]
       && 0 <= i < |top|) ==> TextLe(x.timestamp, top[i].timestamp)
  {
    SummariesPermute(all, log);
    forall x | x in log && multiset(LookupSummaries(top))[LookupSummaryOf(x)] < multiset(LookupSummaries(log))[LookupSummaryOf(x)]
      ensures forall i :: 0 <= i < |top| ==> TextLe(x.timestamp, top[i].timestamp)
    {
      LeftOutNoNewer(all, top, LookupSummaryOf(x));
    }
  }

  /** A summary the top of a newest-first ordering holds fewer times than the whole is no newer than any row kept. */
  lemma LeftOutNoNewer(all: seq<LookupRow>, top: seq<LookupRow>, y: LookupSummary)
    requires SortedBy(all, TimestampGe) && |top| <= |all| && top == all[..|top|]
    requires multiset(LookupSummaries(top))[y] < multiset(LookupSummaries(all))[y]
    ensures forall i :: 0 <= i < |top| ==> TextLe(y.timestamp, top[i].timestamp)
  {
    var rest := all[|top|..];
    assert all == top + rest;
    SummariesAppend(top, rest);
    var sr := LookupSummaries(rest);
    assert multiset(sr)[y] > 0;
    var m :| 0 <= m < |sr| && sr[m] == y;
    assert all[|top| + m] == rest[m];
    forall i | 0 <= i < |top| ensures TextLe(y.timestamp, top[i].timestamp) {
      assert TimestampGe(all[i], all[|top| + m]);
    }
  }

  /** The summaries of a prefix of a reordered log occur no more often than in the log. */
  lemma TopSummariesFromLog(all: seq<LookupRow>, top: seq<LookupRow>, log: seq<LookupRow>)
    requires multiset(all) == multiset(log) && |top| <= |all| && top == all[..|top|]
    ensures multiset(LookupSummaries(top)) <= multiset(LookupSummaries(log))
  {
    assert all == top + all[|top|..];
    SummariesAppend(top, all[|top|..]);
    SummariesPermute(all, log);
  }

  function LookupSummaries(s: seq<LookupRow>): (r: seq<LookupSummary>)
    ensures |r| == |s|
    ensures forall i :: 0 <= i < |s| ==> r[i] == LookupSummaryOf(s[i])
  {
    seq(|s|, i requires 0 <= i < |s| => LookupSummaryOf(s[i]))
  }

  lemma SummariesAppend(a: seq<LookupRow>, b: seq<LookupRow>)
    ensures LookupSummaries(a + b) == LookupSummaries(a) + LookupSummaries(b)
  {
  }

  lemma SummariesSlice(s: seq<LookupRow>, j: nat)
    requires j < |s|
    ensures LookupSummaries(s)[..j] == LookupSummaries(s[..j])
    ensures LookupSummaries(s)[j + 1..] == LookupSummaries(s[j + 1..])
  {
  }

  /** Summarising two orderings of the same rows gives two orderings of the same summaries. */
  lemma {:induction false} SummariesPermute(a: seq<LookupRow>, b: seq<LookupRow>)
    requires multiset(a) == multiset(b)
    ensures multiset(LookupSummaries(a)) == multiset(LookupSummaries(b))
  {
    if a == [] {
      assert |b| == |multiset(b)| == 0;
    } else {
      var x := a[0];
      assert x in multiset(b);
      var j :| 0 <= j < |b| && b[j] == x;
      var rest := b[..j] + b[j + 1..];
      RemoveOne(b, j);
      assert multiset(a[1..]) == multiset(rest) by {
        assert a == [x] + a[1..];
      }
      SummariesPermute(a[1..], rest);
      SummariesFront(a);
      SummariesDrop(b, j);
    }
  }

  /** Summarising a non-empty sequence: its first row's summary and the rest's. */
  lemma SummariesFront(a: seq<LookupRow>)
    requires a != []
    ensures multiset(LookupSummaries(a)) == multiset{LookupSummaryOf(a[0])} + multiset(LookupSummaries(a[1..]))
  {
    assert [a[0]] + a[1..] == a;
    SummariesAppend([a[0]], a[1..]);
    assert LookupSummaries([a[0]]) == [LookupSummaryOf(a[0])];
  }

  /** Summarising a sequence without its row at `j`: one occurrence fewer of that row's summary. */
  lemma SummariesDrop(b: seq<LookupRow>, j: nat)
    requires j < |b|
    ensures multiset(LookupSummaries(b[..j] + b[j + 1..])) == multiset(LookupSummaries(b)) - multiset{LookupSummaryOf(b[j])}
    ensures LookupSummaryOf(b[j]) in multiset(LookupSummaries(b))
  {
    var sb := LookupSummaries(b);
    RemoveOne(sb, j);
    SummariesSlice(b, j);
    SummariesAppend(b[..j], b[j + 1..]);
    assert LookupSummaries(b[..j] + b[j + 1..]) == sb[..j] + sb[j + 1..];
  }

  lemma NewestLookupsFacts(t: Tables, userId: UserId, k: nat)
    requires k <= |UserLookupsByTime(t, userId)|
    ensures |UserLookupsByTime(t, userId)| == CountUser(t.lookups, userId)
    ensures var top := UserLookupsByTime(t, userId)[..k];
      && (forall i, j :: 0 <= i < j < k ==> TextLe(top[j].timestamp, top[i].timestamp))
      && (forall i :: 0 <= i < k ==> top[i] in t.lookups && top[i].userId == userId)
  {
    var all := UserLookupsByTime(t, userId);
    assert |all| == |multiset(all)| == |LookupsOf(t.lookups, userId)|;
    forall i, j | 0 <= i < j < k ensures TextLe(all[..k][j].timestamp, all[..k][i].timestamp) {
      assert TimestampGe(all[i], all[j]);
    }
    forall i | 0 <= i < k ensures all[..k][i] in t.lookups && all[..k][i].userId == userId {
      assert all[i] in multiset(all);
    }
  }

  /** (user id, `total_lookups`) for every user, in scan order. */
  ghost function TotalsOf(users: map<UserId, UserRow>): (r: seq<(UserId, int)>)
    ensures |r| == |users|
    ensures DistinctKeys(r)
    ensures forall e :: e in r <==> e.0 in users && e.1 == users[e.0].totalLookups
  {
    var s := Entries(users);
    var r := Totals(s);
    TotalsCover(users, s, r);
    r
  }

  /** Each row's key with its `total_lookups`. */
  function Totals(s: seq<(UserId, UserRow)>): (r: seq<(UserId, int)>)
    ensures |r| == |s|
    ensures forall i :: 0 <= i < |s| ==> r[i] == (s[i].0, s[i].1.totalLookups as int)
  {
    seq(|s|, i requires 0 <= i < |s| => (s[i].0, s[i].1.totalLookups as int))
  }

  lemma TotalsCover(users: map<UserId, UserRow>, s: seq<(UserId, UserRow)>, r: seq<(UserId, int)>)
    requires forall i :: 0 <= i < |s| ==> s[i].0 in users && s[i].1 == users[s[i].0]
    requires forall id :: id in users ==> (id, users[id]) in s
    requires |r| == |s| && forall i :: 0 <= i < |s| ==> r[i] == (s[i].0, s[i].1.totalLookups as int)
    ensures forall e :: e in r <==> e.0 in users && e.1 == users[e.0].totalLookups
  {
    forall e: (UserId, int) | e.0 in users && e.1 == users[e.0].totalLookups ensures e in r {
      var id := e.0;
      assert (id, users[id]) in s;
      var i :| 0 <= i < |s| && s[i] == (id, users[id]);
      assert r[i] == e;
    }
    forall e: (UserId, int) | e in r ensures e.0 in users && e.1 == users[e.0].totalLookups {
      var i :| 0 <= i < |r| && r[i] == e;
      assert s[i].0 in users && s[i].1 == users[s[i].0];
    }
  }

  /**
   `get_leaderboard`: (user id, `total_lookups`) ordered by `total_lookups`
   descending, at most `limit` rows, one per user, and no user left out has
   more lookups than a user listed.
   */
  ghost function GetLeaderboard(t: Tables, limit: int): (r: seq<(UserId, int)>)
    ensures |r| == if 0 <= limit < |t.users| then limit else |t.users|
    ensures forall i, j :: 0 <= i < j < |r| ==> r[i].1 >= r[j].1
    ensures forall i :: 0 <= i < |r| ==> r[i].0 in t.users && r[i].1 == t.users[r[i].0].totalLookups
    ensures DistinctKeys(r)
    ensures forall id, i :: id in t.users && (id, t.users[id].totalLookups as int) !in r && 0 <= i < |r| ==>
      r[i].1 >= t.users[id].totalLookups
  {
    TopByScore(TotalsOf(t.users), limit)
  }

  /** The distinct commands of `lookups`, in order of first use. */
  function Commands(ls: seq<LookupRow>): (r: seq<string>)
    ensures forall c :: c in r <==> CountCommand(ls, c) > 0
    ensures Distinct(r)
  {
    if ls == [] then []
    else
      var prefix := Commands(ls[..|ls| - 1]);
      var c := ls[|ls| - 1].command;
      if c in prefix then prefix else prefix + [c]
  }

  /** `SELECT command, COUNT(*) FROM lookups GROUP BY command`, one row per group. */
  function CommandCounts(ls: seq<LookupRow>): (r: seq<(string, int)>)
    ensures |r| == |Commands(ls)|
    ensures DistinctKeys(r)
    ensures forall e :: e in r <==> CountCommand(ls, e.0) > 0 && e.1 == CountCommand(ls, e.0)
  {
    var cs := Commands(ls);
    var r := seq(|cs|, i requires 0 <= i < |cs| => (cs[i], CountCommand(ls, cs[i]) as int));
    assert forall e: (string, int) :: CountCommand(ls, e.0) > 0 && e.1 == CountCommand(ls, e.0) ==> e in r by {
      forall e: (string, int) | CountCommand(ls, e.0) > 0 && e.1 == CountCommand(ls, e.0) ensures e in r {
        var i :| 0 <= i < |cs| && cs[i] == e.0;
        assert r[i] == e;
      }
    }
    r
  }

  /**
   `get_lookup_stats`: (command, number of lookups with it) ordered by the
   count descending, at most `limit` groups, one per command used, and no
   command left out was used more often than a command listed.
   */
  function GetLookupStats(t: Tables, limit: int): (r: seq<(string, int)>)
    ensures var n := |Commands(t.lookups)|; |r| == if 0 <= limit < n then limit else n
    ensures forall i, j :: 0 <= i < j < |r| ==> r[i].1 >= r[j].1
    ensures forall i :: 0 <= i < |r| ==> r[i].1 == CountCommand(t.lookups, r[i].0) > 0
    ensures DistinctKeys(r)
    ensures forall c, i :: CountCommand(t.lookups, c) > 0 && (c, CountCommand(t.lookups, c) as int) !in r && 0 <= i < |r| ==>
      r[i].1 >= CountCommand(t.lookups, c)
  {
    TopByScore(CommandCounts(t.lookups), limit)
  }

  /** The sum of `total_lookups` over the users, taken in any order. */
  ghost function SumTotals(users: map<UserId, UserRow>): nat
    decreases |users|
  {
    if |users| == 0 then 0
    else
      var k := SomeKey(users);
      assert |users - {k}| < |users| by {
        assert (users - {k}).Keys == users.Keys - {k};
      }
      users[k].totalLookups + SumTotals(users - {k})
  }

  /** Some user of a non-empty table, the one the sum takes first. */
  ghost function SomeKey(users: map<UserId, UserRow>): (k: UserId)
    requires |users| > 0
    ensures k in users
  {
    HasSomeKey(users);
    var k :| k in users; k
  }

  lemma HasSomeKey(users: map<UserId, UserRow>)
    requires |users| > 0
    ensures exists k :: k in users
  {
    if forall k :: k !in users {
      assert false;
    }
  }

  /** `SELECT SUM(total_lookups) FROM users`: NULL over no rows. */
  ghost function SqlSum(users: map<UserId, UserRow>): Option<nat>
  {
    if users == map[] then None else Some(SumTotals(users))
  }

  datatype Stats = Stats(totalUsers: nat, totalLookups: nat, totalAdmins: nat, totalBanned: nat)

  /** `get_stats`: three `COUNT(*)` and one `SUM(...) or 0`. */
  ghost function GetStats(t: Tables): (r: Stats)
    ensures r.totalUsers == |t.users| && r.totalAdmins == |t.admins| && r.totalBanned == |t.banned|
    ensures r.totalLookups == SumTotals(t.users)
    ensures t.users == map[] ==> r.totalLookups == 0
  {
    var total := match SqlSum(t.users) case None => 0 case Some(s) => s;
    Stats(|t.users|, total, |t.admins|, |t.banned|)
  }
}
