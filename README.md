# osint-bot database layer, modelled in Dafny

The bot keeps everything it knows in one SQLite file with five tables:
- `users`: one row per bot user, with first and last activity, a lookup counter and the names;
- `admins`: who granted admin rights to whom;
- `banned`: ban reasons and who banned whom;
- `lookups`: an append-only audit log of every lookup command;
- `daily_stats`: per-day, per-command counters.

`database.py` runs short SQL statements over these tables. This project models that layer as a state machine:

- `schema.dfy` (module `Schema`). The row types, the whole database as one `Tables` value, and its state after `init_db`. `lookups` is a sequence in insertion order with its AUTOINCREMENT counter. The file also defines SQLite's BINARY text order, because timestamps are ISO-8601 text compared as text.
- `sorting.dfy` (module `Sorting`). The SQL shapes the queries use:
  - `ORDER BY` as a sort over a total preorder, with the order of equal keys left open;
  - `LIMIT`/`OFFSET` with SQLite's rules (a negative LIMIT means no limit, a negative OFFSET acts as 0);
  - "the first `n` by score".
- `writes.dfy` (module `Writes`). One transition function per write statement, giving the tables after it. SQLite's conflict rules are followed:
  - `ON CONFLICT DO UPDATE` for `update_user`;
  - `INSERT OR IGNORE` for `add_admin`;
  - a plain `INSERT` for `ban_user`, which fails with a unique-key error;
  - `DELETE` of one key;
  - the three-statement `save_lookup`.
- `reads.dfy` (module `Reads`). The queries as functions of the tables. Where SQL leaves the order of rows open (no `ORDER BY`, or ties), the model still fixes one order: the map-backed reads (`users`, `admins`) list rows in an order chosen by a ghost choice, and `get_user_lookups` and `get_lookup_stats` break ties through the insertion sort, by log order and by first use of a command. The contracts promise only what SQL promises.
- `properties.dfy` (module `Properties`). What the reads report after the writes:
  - admin and ban status after grants and revocations;
  - `total_lookups` against the audit log;
  - `daily_stats` after a run of lookups;
  - `get_stats` after each write;
  - the newest lookup first in `get_user_lookups`;
  - a worked `get_lookup_stats` example.
- `datastore.dfy` (module `DataStore`). The file as mutable state: a class `Store` with one field per table. Its methods update the fields in place, and each is proved to produce exactly the `Writes` transition of its old state while keeping the lookup ids well formed.

The clock, the date, the `get_recent_users`/`get_inactive_users` cutoff and the lookup's `CURRENT_TIMESTAMP` are parameters. The lookup result is an opaque string, standing for what `json.dumps` produced.

Two points where one might expect more than the code does are modelled as the code behaves:

- **`total_lookups` can disagree with the audit log.** `save_lookup` is meant to "update user stats", so one might expect `total_lookups` to count the user's lookup rows. The code does not enforce a user row before a lookup:
  - `save_lookup` for a user without a row changes no counter;
  - that user's later first `update_user` creates the row with `total_lookups = 0`.

  `Properties.UpdateUserKeepsTotals` states exactly when agreement survives, and `Properties.LookupBeforeFirstUpsert` shows a concrete case where it breaks.
- **`daily_stats` counts calls, not matching lookup rows.** One might expect `daily_stats[(d, c)]` to equal the lookups with command `c` whose `date(timestamp)` is `d`. In the code the key's date comes from the caller's local clock and the row's `timestamp` from the database's UTC `CURRENT_TIMESTAMP`, and nothing ties the two together. The model takes both as independent parameters and proves the counter equals the number of `save_lookup` calls with that date and command.

## Model

| member | source | states |
|---|---|---|
| Schema.Empty | database.py:9-51 | after `init_db` on a new file all five tables are empty and the AUTOINCREMENT counter starts at 1 |
| Schema.TextLtIsNotGe | database.py:84-102 | on text, `x < y` holds exactly when `x >= y` fails, so the two cutoff filters are complementary |
| Sorting.Sort | database.py:79 | `ORDER BY`: the result is sorted by the key and is a permutation of the rows |
| Sorting.Window | database.py:79 | `LIMIT n OFFSET k`: the result is the contiguous slice starting after the skipped rows, of the size SQLite's rules give |
| Sorting.WindowsConcatenate | database.py:75-82 | the window of `a` rows at offset `k` followed by the window of `b` rows at `k + a` is the window of `a + b` rows at `k` |
| Sorting.TopByScore | database.py:176-183 | `ORDER BY score DESC LIMIT n` over rows with distinct keys: length min(n, rows), non-increasing scores, every row from the input, no omitted row scores higher than a listed one, keys still distinct |
| Writes.UpdateUser | database.py:54-67 | an absent id gets a row with `first_seen = last_seen = now` and `total_lookups = 0`; a present id gets the new `last_seen` and names (NULL included) and keeps `first_seen` and `total_lookups`; other users and other tables are unchanged |
| Writes.AddAdmin | database.py:111-115 | the id is an admin afterwards; an existing admin row, `added_by` included, is left as it is; other tables unchanged |
| Writes.RemoveAdmin | database.py:117-121 | exactly that key is removed from `admins`; an absent key changes nothing; other rows and tables unchanged |
| Writes.BanUser | database.py:137-142 | fails with the `banned.user_id` unique-key error exactly when the user is already banned; otherwise adds the ban row and changes nothing else |
| Writes.UnbanUser | database.py:144-148 | exactly that key is removed from `banned`; an absent key changes nothing; other rows and tables unchanged |
| Writes.SaveLookup | database.py:151-165 | appends one lookup row whose id is the counter and exceeds every earlier id; bumps `total_lookups` only when the user row exists; raises `daily_stats[(date, command)]` by one (to 1 when absent); admins, bans, other users and other days unchanged |
| Writes.WritesKeepWellFormed | database.py:9-51 | for any arguments, no write other than `save_lookup` disturbs the lookup ids, so each keeps them positive, increasing and below the counter |
| Writes.UpdateUserIdempotent | database.py:54-67 | repeating an upsert with the same values changes nothing more |
| Writes.UpdateUserTwice | database.py:54-67 | after two upserts the names and `last_seen` come from the second call; `first_seen` and `total_lookups` are the ones in place before the second call |
| Writes.AddAdminIdempotent | database.py:111-115 | a second `add_admin` for the same id, whoever grants it, leaves the tables unchanged |
| Writes.BanUserTwiceFails | database.py:137-142 | a second `ban_user` of the same id fails with the unique-key error |
| Writes.RemoveAdminUndoesAdd | database.py:111-121 | `remove_admin` after an `add_admin` that inserted a row restores the tables exactly |
| Writes.UnbanUndoesBan | database.py:137-148 | banning a user who was not banned succeeds, and unbanning afterwards restores the tables exactly |
| Reads.GetUser | database.py:69-73 | some row exactly when the user exists, and then that user's row |
| Reads.GetAllAdmins | database.py:123-128 | every admin id once and nothing else; its length is the number of admins |
| Reads.GetAllUsers | database.py:75-82 | as many rows as SQLite's LIMIT/OFFSET leaves; `last_seen` non-increasing; each row is the listed columns of one user; no user twice |
| Reads.AllUsersListsEveryone | database.py:75-82 | with no offset and a limit that is negative or at least the number of users (the default `limit=100` on a small table), every user appears |
| Reads.PagesConcatenate | database.py:75-82 | consecutive pages join into the larger page with no user lost or repeated |
| Reads.GetRecentUsers | database.py:84-92 | exactly the users with `last_seen >= cutoff`, each with its columns and each once |
| Reads.GetInactiveUsers | database.py:94-102 | exactly the users with `last_seen < cutoff`, each with its columns and each once |
| Reads.RecentAndInactivePartition | database.py:84-102 | for one cutoff every user is in exactly one of the two lists |
| Reads.LookupsOf | database.py:167-174 | the user's lookup rows: as many as the log holds for that user, and only theirs |
| Reads.GetUserLookups | database.py:167-174 | min(limit, n) rows for the user's n lookups, or all n when `limit` is negative; newest `timestamp` first, each the listed columns of one of the user's lookups; a lookup whose columns are listed fewer times than the user's log holds them is no newer than any listed row, and no lookup is listed more often than the log holds it |
| Reads.GetLeaderboard | database.py:176-183 | min(limit, n) rows for the n users, or all n when `limit` is negative, with non-increasing `total_lookups`, each a real user with its counter, no user twice, and no omitted user has more lookups than a listed one |
| Reads.Commands | database.py:217-224 | the `GROUP BY command` groups: exactly the commands used at least once, each once |
| Reads.CommandCounts | database.py:217-224 | one `(command, COUNT(*))` pair per group, each count the number of lookup rows with that command |
| Reads.GetLookupStats | database.py:217-224 | min(limit, n) pairs for the n command groups, or all n when `limit` is negative, with non-increasing counts; each count is the number of rows with that command; no command twice; no omitted command was used more often than a listed one |
| Reads.GetStats | database.py:186-206 | `total_users`, `total_admins` and `total_banned` are the table sizes; `total_lookups` is the sum of `total_lookups` over users, and 0 on an empty table (the `or 0` over SQL's NULL sum) |
| Properties.AddAdminGrants | database.py:105-115 | after `add_admin` the id is an admin, nobody else's status changes, and no ban changes |
| Properties.RemoveAdminRevokes | database.py:105-121 | after `remove_admin` the id is not an admin and nobody else's status changes |
| Properties.BanUserBans | database.py:131-142 | `ban_user` fails exactly for a banned id; on success the id is banned and admin status is untouched |
| Properties.UnbanUserLifts | database.py:131-148 | after `unban_user` the id is not banned and nobody else's status changes |
| Properties.SaveLookupKeepsTotals | database.py:151-165 | if every user's `total_lookups` equals their number of lookup rows, that still holds after `save_lookup` |
| Properties.UpdateUserKeepsTotals | database.py:54-67 | from agreeing counters, `update_user` keeps them agreeing exactly when the id already had a row or has no lookup rows |
| Properties.LookupBeforeFirstUpsert | database.py:151-165 | a lookup for a user without a row, then that user's first upsert, leaves the counter at 0 against one log row |
| Properties.ReplayCountsDaily | database.py:159-164 | after a run of `save_lookup` calls each `daily_stats` counter has grown by the number of calls with its date and command |
| Properties.DailyCountsCalls | database.py:159-164 | from a new database each `daily_stats` counter is exactly the number of calls with its date and command |
| Properties.ReplayCountsUser | database.py:158 | a user with a row gains one on `total_lookups` per call made for them |
| Properties.ReplayAppendsLookups | database.py:154-157 | a run of calls adds exactly one log row per call after the existing rows, and creates no user |
| Properties.SumRemove | database.py:193-194 | the sum of `total_lookups` splits off any one user, whatever order it is taken in |
| Properties.StatsAfterSaveLookup | database.py:151-206 | `save_lookup` raises `get_stats`' lookup total by one exactly when the user has a row and leaves the three counts alone |
| Properties.StatsAfterUpdateUser | database.py:54-67 | an upsert raises `total_users` by one exactly for a new id and leaves the lookup total alone |
| Properties.StatsCountAdmins | database.py:123-128 | `get_stats`' admin count is the length of `get_all_admins` |
| Properties.StatsCountLookupRows | database.py:186-206 | when the counters agree with the log and every lookup has a user row, `get_stats` reports as many lookups as the log holds |
| Properties.LookupCountsAfterSave | database.py:151-157 | `save_lookup` adds one row to its command's group and to its user's lookups, and none to other commands |
| Properties.NewestLookupFirst | database.py:167-174 | a lookup stamped later than all the user's earlier lookups is the first row of `get_user_lookups` for any limit but 0 |
| Properties.TwinLookupsBothListed | database.py:167-174 | two lookups with the same command, query and second plus an older one: `LIMIT 2` lists both twins, not the older row in place of one |
| Properties.LookupStatsExample | database.py:217-224 | three `cmd_a` lookups and one `cmd_b` give exactly `[("cmd_a", 3), ("cmd_b", 1)]` |
| DataStore.Store.constructor | database.py:9-51 | a new store holds the empty tables |
| DataStore.Store.UpdateUser | database.py:54-67 | updates `users` in place to exactly the `Writes.UpdateUser` transition |
| DataStore.Store.AddAdmin | database.py:111-115 | updates `admins` in place to exactly the `Writes.AddAdmin` transition |
| DataStore.Store.RemoveAdmin | database.py:117-121 | updates `admins` in place to exactly the `Writes.RemoveAdmin` transition |
| DataStore.Store.BanUser | database.py:137-142 | reports failure exactly for an already banned id and then changes nothing; otherwise stores the `Writes.BanUser` result |
| DataStore.Store.UnbanUser | database.py:144-148 | updates `banned` in place to exactly the `Writes.UnbanUser` transition |
| DataStore.Store.SaveLookup | database.py:151-165 | runs the insert, the counter update and the daily upsert in the source's order, ending in exactly the `Writes.SaveLookup` tables with ids still well formed |
| DataStore.Store.GetUser | database.py:69-73 | answers `Reads.GetUser` on the current tables |
| DataStore.Store.IsAdmin | database.py:105-109 | answers `Reads.IsAdmin` on the current tables |
| DataStore.Store.IsBanned | database.py:131-135 | answers `Reads.IsBanned` on the current tables |

## Left out

- aiosqlite connections, `async`/`await` and `commit`. Each operation is one atomic step on the tables; interleavings and concurrency control belong to SQLite. A failed `ban_user` is modelled as leaving the tables unchanged, since its connection never commits.
- `datetime.now()`, `timedelta` and `strftime`. These read the clock, so `now`, `date`, `timestamp` and `cutoff` are parameters. The model does not capture that `last_seen` is local ISO-8601 with microseconds while `timestamp`, `added_on` and `banned_on` are UTC `CURRENT_TIMESTAMP` text.
- `json.dumps` of the lookup result is a foreign serialiser; the stored result is an opaque string.
- `get_daily_stats` (database.py:208-215). Its `?` sits inside the quoted `"-? days"`, so the statement has no placeholder while the call binds one value. Under Python's `sqlite3` rules every call would then raise "Incorrect number of bindings supplied" (not executed). It is not part of this model.
- The order of rows SQL leaves open (ties under `ORDER BY`, scan order without it). The read contracts promise only sortedness, membership and counts, never a tie order.
- Reads.PagesConcatenate: assumes every page of `get_all_users` is cut from one fixed order of tied rows. SQL does not promise that across two separate statements, so with ties in `last_seen` two real pages may overlap or skip a user.
- The one-second granularity of `CURRENT_TIMESTAMP`: lookups in the same second tie in `get_user_lookups`. `Properties.NewestLookupFirst` therefore requires a strictly later timestamp.
- `DB_PATH`, `CREATE TABLE IF NOT EXISTS` on an existing file, and the rest of the file handling. The initial state is the empty tables.
- Python's default arguments (`limit=100`, `limit=10`, `days=7`, `days=30`). Every argument is explicit.
- NULL in columns that callers always fill (`reason`, `added_by`, `banned_by`, a NULL `user_id`, which SQLite would turn into a fresh rowid) and 64-bit limits on INTEGER columns and on the AUTOINCREMENT counter. Ids and counters are unbounded integers.
- The shape of `get_user`'s `SELECT *` tuple. It starts with `user_id`, which the model keeps as the map key rather than as a `UserRow` field; the remaining columns are the fields of `UserRow`, and tuple positions are not modelled.
- Reads.GetAllUsers: states the page's size, order, rows and distinctness, not which users the page skips. `Reads.PagesConcatenate` and `Reads.AllUsersListsEveryone` relate pages to each other and to the full list.
