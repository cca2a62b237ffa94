/**
 The write operations of `database.py`, one total function per operation
 from the tables before the statement to the tables after it. A failing
 statement returns `Err` and, as its connection never commits, leaves the
 tables as they were.
 */
module Writes {
  import opened Schema

  /** The storage engine's error for a second row with the same primary key. */
  datatype DbError = UniqueViolation(table: string, column: string)

  datatype Result<+T> = Ok(value: T) | Err(error: DbError)

  /**
   `update_user`: `INSERT ... ON CONFLICT(user_id) DO UPDATE` setting
   `last_seen` and the three name columns to the new values (NULL included).
   */
  function UpdateUser(t: Tables, userId: UserId, username: Option<string>,
                      firstName: Option<string>, lastName: Option<string>, now: string): (r: Tables)
    ensures r == t.(users := r.users)
    ensures r.users.Keys == t.users.Keys + {userId}
    ensures userId !in t.users ==> r.users[userId] == UserRow(now, now, 0, username, firstName, lastName)
    ensures userId in t.users ==>
      && r.users[userId].firstSeen == t.users[userId].firstSeen
      && r.users[userId].totalLookups == t.users[userId].totalLookups
      && r.users[userId].lastSeen == now
      && r.users[userId].username == username
      && r.users[userId].firstName == firstName
      && r.users[userId].lastName == lastName
    ensures forall id :: id in t.users && id != userId ==> r.users[id] == t.users[id]
  {
    var row :=
      if userId in t.users
      then t.users[userId].(lastSeen := now, username := username, firstName := firstName, lastName := lastName)
      else UserRow(now, now, 0, username, firstName, lastName);
    t.(users := t.users[userId := row])
  }

  /** `add_admin`: `INSERT OR IGNORE`, so an existing admin row, `added_by` included, stays as it is. */
  function AddAdmin(t: Tables, userId: UserId, addedBy: UserId, now: string): (r: Tables)
    ensures r == t.(admins := r.admins)
    ensures r.admins.Keys == t.admins.Keys + {userId}
    ensures userId in t.admins ==> r.admins == t.admins
    ensures userId !in t.admins ==> r.admins[userId] == AdminRow(addedBy, now)
    ensures forall id :: id in t.admins ==> r.admins[id] == t.admins[id]
  {
    if userId in t.admins then t
    else t.(admins := t.admins[userId := AdminRow(addedBy, now)])
  }

  /** `remove_admin`: `DELETE ... WHERE user_id = ?`, a no-op when there is no such row. */
  function RemoveAdmin(t: Tables, userId: UserId): (r: Tables)
    ensures r == t.(admins := r.admins)
    ensures r.admins.Keys == t.admins.Keys - {userId}
    ensures forall id :: id in r.admins ==> r.admins[id] == t.admins[id]
    ensures userId !in t.admins ==> r == t
  {
    t.(admins := t.admins - {userId})
  }

  /**
   `ban_user`: a plain `INSERT`, which fails on the primary key when the user
   is already banned and otherwise adds the ban row.
   */
  function BanUser(t: Tables, userId: UserId, reason: string, bannedBy: UserId, now: string): (r: Result<Tables>)
    ensures r.Err? <==> userId in t.banned
    ensures r.Err? ==> r.error == UniqueViolation("banned", "user_id")
    ensures r.Ok? ==>
      && r.value == t.(banned := r.value.banned)
      && r.value.banned.Keys == t.banned.Keys + {userId}
      && r.value.banned[userId] == BanRow(reason, bannedBy, now)
      && (forall id :: id in t.banned ==> r.value.banned[id] == t.banned[id])
  {
    if userId in t.banned then Err(UniqueViolation("banned", "user_id"))
    else Ok(t.(banned := t.banned[userId := BanRow(reason, bannedBy, now)]))
  }

  /** `unban_user`: `DELETE ... WHERE user_id = ?`, a no-op when there is no such row. */
  function UnbanUser(t: Tables, userId: UserId): (r: Tables)
    ensures r == t.(banned := r.banned)
    ensures r.banned.Keys == t.banned.Keys - {userId}
    ensures forall id :: id in r.banned ==> r.banned[id] == t.banned[id]
    ensures userId !in t.banned ==> r == t
  {
    t.(banned := t.banned - {userId})
  }

  /** The count stored for a `daily_stats` key; a missing row counts as 0. */
  function DailyCount(t: Tables, key: DayCommand): nat
  {
    if key in t.daily then t.daily[key] else 0
  }

  /**
   `save_lookup`: append a lookup row under the next AUTOINCREMENT id, add
   one to the user's `total_lookups` (an UPDATE that matches no row when the
   user has none), and upsert the `(date, command)` counter.
   */
  function SaveLookup(t: Tables, userId: UserId, command: string, query: string, result: string,
                      date: string, timestamp: string): (r: Tables)
    ensures r.admins == t.admins && r.banned == t.banned
    ensures r.lookups == t.lookups + [LookupRow(t.nextLookupId, userId, command, query, result, timestamp)]
    ensures r.nextLookupId == t.nextLookupId + 1
    ensures WellFormed(t) ==> forall i :: 0 <= i < |t.lookups| ==> t.lookups[i].id < r.lookups[|t.lookups|].id
    ensures WellFormed(t) ==> WellFormed(r)
    ensures r.users.Keys == t.users.Keys
    ensures userId in t.users ==> r.users[userId].totalLookups == t.users[userId].totalLookups + 1
    ensures userId in t.users ==> r.users[userId] == t.users[userId].(totalLookups := r.users[userId].totalLookups)
    ensures forall id :: id in t.users && id != userId ==> r.users[id] == t.users[id]
    ensures r.daily.Keys == t.daily.Keys + {(date, command)}
    ensures DailyCount(r, (date, command)) == DailyCount(t, (date, command)) + 1
    ensures forall k :: k in t.daily && k != (date, command) ==> r.daily[k] == t.daily[k]
  {
    var row := LookupRow(t.nextLookupId, userId, command, query, result, timestamp);
    var users :=
      if userId in t.users
      then t.users[userId := t.users[userId].(totalLookups := t.users[userId].totalLookups + 1)]
      else t.users;
    var key := (date, command);
    var r := Tables(users, t.admins, t.banned, t.lookups + [row], t.nextLookupId + 1,
                    t.daily[key := DailyCount(t, key) + 1]);
    AppendKeepsWellFormed(t, row, r);
    r
  }

  lemma AppendKeepsWellFormed(t: Tables, row: LookupRow, r: Tables)
    requires row.id == t.nextLookupId
    requires r.lookups == t.lookups + [row] && r.nextLookupId == t.nextLookupId + 1
    ensures WellFormed(t) ==> forall i :: 0 <= i < |t.lookups| ==> t.lookups[i].id < r.lookups[|t.lookups|].id
    ensures WellFormed(t) ==> WellFormed(r)
  {
    if WellFormed(t) {
      var ls := r.lookups;
      forall i, j | 0 <= i < j < |ls| ensures ls[i].id < ls[j].id {
        if j == |t.lookups| {
          assert ls[i] == t.lookups[i];
        } else {
          assert ls[i] == t.lookups[i] && ls[j] == t.lookups[j];
        }
      }
      forall i | 0 <= i < |ls| ensures 1 <= ls[i].id < r.nextLookupId {
        if i < |t.lookups| {
          assert ls[i] == t.lookups[i];
        }
      }
    }
  }

  /** Every write other than `save_lookup` keeps the lookup ids well formed, whatever its arguments. */
  lemma WritesKeepWellFormed(t: Tables, userId: UserId, username: Option<string>, firstName: Option<string>,
                             lastName: Option<string>, reason: string, grantor: UserId, now: string)
    requires WellFormed(t)
    ensures WellFormed(UpdateUser(t, userId, username, firstName, lastName, now))
    ensures WellFormed(AddAdmin(t, userId, grantor, now)) && WellFormed(RemoveAdmin(t, userId))
    ensures BanUser(t, userId, reason, grantor, now).Ok? ==> WellFormed(BanUser(t, userId, reason, grantor, now).value)
    ensures WellFormed(UnbanUser(t, userId))
  {
    SameLogKeepsWellFormed(t, UpdateUser(t, userId, username, firstName, lastName, now));
    SameLogKeepsWellFormed(t, AddAdmin(t, userId, grantor, now));
    SameLogKeepsWellFormed(t, RemoveAdmin(t, userId));
    var ban := BanUser(t, userId, reason, grantor, now);
    if ban.Ok? {
      SameLogKeepsWellFormed(t, ban.value);
    }
    SameLogKeepsWellFormed(t, UnbanUser(t, userId));
  }

  /** A write that leaves the log and its counter alone keeps the ids well formed. */
  lemma SameLogKeepsWellFormed(t: Tables, r: Tables)
    requires WellFormed(t) && r.lookups == t.lookups && r.nextLookupId == t.nextLookupId
    ensures WellFormed(r)
  {
  }

  /** Upserting the same values twice is the same as upserting them once. */
  lemma UpdateUserIdempotent(t: Tables, userId: UserId, username: Option<string>,
                             firstName: Option<string>, lastName: Option<string>, now: string)
    ensures var once := UpdateUser(t, userId, username, firstName, lastName, now);
            UpdateUser(once, userId, username, firstName, lastName, now) == once
  {
  }

  /**
   Two upserts of one user: the names and `last_seen` are the second call's,
   `first_seen` and `total_lookups` are those the first call left.
   */
  lemma UpdateUserTwice(t: Tables, userId: UserId,
                        u1: Option<string>, f1: Option<string>, l1: Option<string>, now1: string,
                        u2: Option<string>, f2: Option<string>, l2: Option<string>, now2: string)
    ensures var r := UpdateUser(UpdateUser(t, userId, u1, f1, l1, now1), userId, u2, f2, l2, now2);
            && r.users[userId].firstSeen == (if userId in t.users then t.users[userId].firstSeen else now1)
            && r.users[userId].totalLookups == (if userId in t.users then t.users[userId].totalLookups else 0)
            && r.users[userId].lastSeen == now2
            && r.users[userId].username == u2 && r.users[userId].firstName == f2 && r.users[userId].lastName == l2
  {
  }

  /** A second `add_admin` for the same user changes nothing, whoever grants it. */
  lemma AddAdminIdempotent(t: Tables, userId: UserId, by1: UserId, now1: string, by2: UserId, now2: string)
    ensures var once := AddAdmin(t, userId, by1, now1);
            AddAdmin(once, userId, by2, now2) == once
  {
  }

  /** A second `ban_user` for the same user fails on the primary key. */
  lemma BanUserTwiceFails(t: Tables, userId: UserId, reason1: string, by1: UserId, now1: string,
                          reason2: string, by2: UserId, now2: string)
    requires BanUser(t, userId, reason1, by1, now1).Ok?
    ensures BanUser(BanUser(t, userId, reason1, by1, now1).value, userId, reason2, by2, now2)
            == Err(UniqueViolation("banned", "user_id"))
  {
  }

  /** `remove_admin` undoes an `add_admin` that inserted a row. */
  lemma RemoveAdminUndoesAdd(t: Tables, userId: UserId, grantor: UserId, now: string)
    requires userId !in t.admins
    ensures RemoveAdmin(AddAdmin(t, userId, grantor, now), userId) == t
  {
  }

  /** `unban_user` undoes a `ban_user` of a user who was not banned. */
  lemma UnbanUndoesBan(t: Tables, userId: UserId, reason: string, grantor: UserId, now: string)
    requires userId !in t.banned
    ensures BanUser(t, userId, reason, grantor, now).Ok?
    ensures UnbanUser(BanUser(t, userId, reason, grantor, now).value, userId) == t
  {
  }
}
