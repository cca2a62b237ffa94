/**
 The database file as mutable state: one field per table, updated in place
 by the write operations. Each method is proved to leave exactly the tables
 the matching transition of `Writes` describes, and to keep the lookup ids
 well formed.
 */
module DataStore {
  import opened Schema
  import Writes
  import Reads

  /** What a write reports to its caller: success, or the storage engine's error. */
  datatype Outcome = Done | Failed(error: Writes.DbError)

  class Store {
    var users: map<UserId, UserRow>
    var admins: map<UserId, AdminRow>
    var banned: map<UserId, BanRow>
    var lookups: seq<LookupRow>
    var nextLookupId: nat
    var daily: map<DayCommand, nat>

    /** The tables as one value. */
    function Snapshot(): Tables
      reads this
    {
      Tables(users, admins, banned, lookups, nextLookupId, daily)
    }

    ghost predicate Valid()
      reads this
    {
      WellFormed(Snapshot())
    }

    /** `init_db` on a new database file: five empty tables. */
    constructor ()
      ensures Valid()
      ensures Snapshot() == Empty()
    {
      users := map[];
      admins := map[];
      banned := map[];
      lookups := [];
      nextLookupId := 1;
      daily := map[];
    }

    /** `update_user`. */
    method UpdateUser(userId: UserId, username: Option<string>, firstName: Option<string>,
                      lastName: Option<string>, now: string)
      requires Valid()
      modifies this
      ensures Valid()
      ensures Snapshot() == Writes.UpdateUser(old(Snapshot()), userId, username, firstName, lastName, now)
    {
      if userId in users {
        var row := users[userId];
        users := users[userId := row.(lastSeen := now, username := username,
                                      firstName := firstName, lastName := lastName)];
      } else {
        users := users[userId := UserRow(now, now, 0, username, firstName, lastName)];
      }
    }

    /** `add_admin`. */
    method AddAdmin(userId: UserId, addedBy: UserId, now: string)
      requires Valid()
      modifies this
      ensures Valid()
      ensures Snapshot() == Writes.AddAdmin(old(Snapshot()), userId, addedBy, now)
    {
      if userId !in admins {
        admins := admins[userId := AdminRow(addedBy, now)];
      }
    }

    /** `remove_admin`. */
    method RemoveAdmin(userId: UserId)
      requires Valid()
      modifies this
      ensures Valid()
      ensures Snapshot() == Writes.RemoveAdmin(old(Snapshot()), userId)
    {
      admins := admins - {userId};
    }

    /** `ban_user`: on the primary-key error nothing is written and the error reaches the caller. */
    method BanUser(userId: UserId, reason: string, bannedBy: UserId, now: string) returns (outcome: Outcome)
      requires Valid()
      modifies this
      ensures Valid()
      ensures outcome.Failed? <==> userId in old(banned)
      ensures match Writes.BanUser(old(Snapshot()), userId, reason, bannedBy, now)
        case Ok(t) => outcome == Done && Snapshot() == t
        case Err(e) => outcome == Failed(e) && Snapshot() == old(Snapshot())
    {
      if userId in banned {
        outcome := Failed(Writes.UniqueViolation("banned", "user_id"));
      } else {
        banned := banned[userId := BanRow(reason, bannedBy, now)];
        outcome := Done;
      }
    }

    /** `unban_user`. */
    method UnbanUser(userId: UserId)
      requires Valid()
      modifies this
      ensures Valid()
      ensures Snapshot() == Writes.UnbanUser(old(Snapshot()), userId)
    {
      banned := banned - {userId};
    }

    /** `save_lookup`: the three statements in the order the source runs them. */
    method SaveLookup(userId: UserId, command: string, query: string, result: string,
                      date: string, timestamp: string)
      requires Valid()
      modifies this
      ensures Valid()
      ensures Snapshot() == Writes.SaveLookup(old(Snapshot()), userId, command, query, result, date, timestamp)
    {
      ghost var target := Writes.SaveLookup(Snapshot(), userId, command, query, result, date, timestamp);
      lookups := lookups + [LookupRow(nextLookupId, userId, command, query, result, timestamp)];
      nextLookupId := nextLookupId + 1;
      if userId in users {
        var row := users[userId];
        users := users[userId := row.(totalLookups := row.totalLookups + 1)];
      }
      var key := (date, command);
      if key in daily {
        daily := daily[key := daily[key] + 1];
      } else {
        daily := daily[key := 1];
      }
      assert users == target.users && daily == target.daily;
    }

    /** `get_user`. */
    method GetUser(userId: UserId) returns (r: Option<UserRow>)
      ensures r == Reads.GetUser(Snapshot(), userId)
      ensures r.Some? <==> userId in users
    {
      if userId in users {
        r := Some(users[userId]);
      } else {
        r := None;
      }
    }

    /** `is_admin`. */
    method IsAdmin(userId: UserId) returns (b: bool)
      ensures b == Reads.IsAdmin(Snapshot(), userId)
    {
      b := userId in admins;
    }

    /** `is_banned`. */
    method IsBanned(userId: UserId) returns (b: bool)
      ensures b == Reads.IsBanned(Snapshot(), userId)
    {
      b := userId in banned;
    }
  }
}
