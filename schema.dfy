/**
 The five tables of the bot's database as values: one row type per table,
 the whole database as one `Tables` value, and the text order SQLite uses
 to compare TEXT columns (timestamps are ISO-8601 strings compared as text).
 */
module Schema {

  datatype Option<+T> = None | Some(value: T)

  /** Telegram user ids are SQLite INTEGER keys. */
  type UserId = int

  /** A row of `users`; the user id is the map key. NULL names are `None`. */
  datatype UserRow = UserRow(
    firstSeen: string,
    lastSeen: string,
    totalLookups: nat,
    username: Option<string>,
    firstName: Option<string>,
    lastName: Option<string>)

  /** A row of `admins`; `addedOn` is the CURRENT_TIMESTAMP default. */
  datatype AdminRow = AdminRow(addedBy: UserId, addedOn: string)

  /** A row of `banned`; `bannedOn` is the CURRENT_TIMESTAMP default. */
  datatype BanRow = BanRow(reason: string, bannedBy: UserId, bannedOn: string)

  /** A row of the append-only `lookups` audit log; `result` is the already serialised payload. */
  datatype LookupRow = LookupRow(
    id: nat,
    userId: UserId,
    command: string,
    query: string,
    result: string,
    timestamp: string)

  /** The primary key of `daily_stats`: (date as YYYY-MM-DD, command). */
  type DayCommand = (string, string)

  /**
   The whole database. `nextLookupId` is the AUTOINCREMENT counter of `lookups`
   (one more than the largest id ever handed out).
   */
  datatype Tables = Tables(
    users: map<UserId, UserRow>,
    admins: map<UserId, AdminRow>,
    banned: map<UserId, BanRow>,
    lookups: seq<LookupRow>,
    nextLookupId: nat,
    daily: map<DayCommand, nat>)

  /** The state right after the schema has been created on a new database file. */
  function Empty(): (t: Tables)
    ensures t.users == map[] && t.admins == map[] && t.banned == map[]
    ensures t.lookups == [] && t.daily == map[] && t.nextLookupId == 1
  {
    Tables(map[], map[], map[], [], 1, map[])
  }

  /** Lookup ids are positive, strictly increasing in insertion order, and below the AUTOINCREMENT counter. */
  ghost predicate WellFormed(t: Tables)
  {
    && 1 <= t.nextLookupId
    && (forall i :: 0 <= i < |t.lookups| ==> 1 <= t.lookups[i].id < t.nextLookupId)
    && (forall i, j :: 0 <= i < j < |t.lookups| ==> t.lookups[i].id < t.lookups[j].id)
  }

  /** `SELECT COUNT(*) FROM lookups WHERE user_id = u`. */
  function CountUser(ls: seq<LookupRow>, u: UserId): (n: nat)
    ensures n <= |ls|
  {
    if ls == [] then 0
    else CountUser(ls[..|ls| - 1], u) + (if ls[|ls| - 1].userId == u then 1 else 0)
  }

  /** `SELECT COUNT(*) FROM lookups WHERE command = c`. */
  function CountCommand(ls: seq<LookupRow>, c: string): (n: nat)
    ensures n <= |ls|
  {
    if ls == [] then 0
    else CountCommand(ls[..|ls| - 1], c) + (if ls[|ls| - 1].command == c then 1 else 0)
  }

  /**
   `a <= b` on TEXT under SQLite's default BINARY collation: compare code
   points from the left; a proper prefix sorts first.
   */
  predicate TextLe(a: string, b: string)
  {
    if a == [] then true
    else if b == [] then false
    else if a[0] != b[0] then a[0] < b[0]
    else TextLe(a[1..], b[1..])
  }

  /** `a < b` on TEXT. */
  predicate TextLt(a: string, b: string)
  {
    TextLe(a, b) && a != b
  }

  lemma {:induction false} TextLeTotal(a: string, b: string)
    ensures TextLe(a, b) || TextLe(b, a)
  {
    if a != [] && b != [] && a[0] == b[0] {
      TextLeTotal(a[1..], b[1..]);
    }
  }

  lemma {:induction false} TextLeAntisymmetric(a: string, b: string)
    requires TextLe(a, b) && TextLe(b, a)
    ensures a == b
  {
    if a != [] && b != [] {
      TextLeAntisymmetric(a[1..], b[1..]);
      assert a == [a[0]] + a[1..] && b == [b[0]] + b[1..];
    }
  }

  lemma {:induction false} TextLeTransitive(a: string, b: string, c: string)
    requires TextLe(a, b) && TextLe(b, c)
    ensures TextLe(a, c)
  {
    if a != [] && b != [] && c != [] && a[0] == b[0] && b[0] == c[0] {
      TextLeTransitive(a[1..], b[1..], c[1..]);
    }
  }

  /** SQL's `x < y` is exactly the negation of `x >= y` on non-NULL text. */
  lemma TextLtIsNotGe(x: string, y: string)
    ensures TextLt(x, y) <==> !TextLe(y, x)
  {
    TextLeTotal(x, y);
    if TextLe(x, y) && TextLe(y, x) {
      TextLeAntisymmetric(x, y);
    }
  }
}
