/** The user table of the giveaway bot: one row per Telegram user, keyed by
    telegram_id, together with the statements the rest of the bot runs on it.
    The SQLite table becomes a map from telegram_id to a record plus the
    sequence of ids in rowid (insertion) order; timestamps are integer
    seconds supplied by the caller in place of CURRENT_TIMESTAMP. */
module Users {

  type UserId = int

  datatype Option<T> = None | Some(value: T)

  /** What the /start handler passes to upsertUser; any field may be missing. */
  datatype Profile = Profile(
    username: Option<string>,
    firstName: Option<string>,
    lastName: Option<string>,
    source: Option<string>)

  /** One row of the `users` table. */
  datatype UserRecord = UserRecord(
    telegramId: UserId,
    username: Option<string>,
    firstName: Option<string>,
    lastName: Option<string>,
    registeredAt: int,
    hasParticipated: bool,
    warmupStage: int,
    lastWarmupAt: Option<int>,
    isBlocked: bool,
    source: Option<string>)

  /** The table: rows by telegram_id, and the ids in rowid order. */
  datatype Table = Table(users: map<UserId, UserRecord>, rows: seq<UserId>)

  const EmptyTable := Table(map[], [])

  ghost predicate Distinct(ids: seq<UserId>)
  {
    forall i, j :: 0 <= i < j < |ids| ==> ids[i] != ids[j]
  }

  /** telegram_id is UNIQUE: every key has exactly one row, and a row's
      telegram_id is its key. */
  ghost predicate TableValid(t: Table)
  {
    && Distinct(t.rows)
    && (forall id :: id in t.users <==> id in t.rows)
    && (forall id :: id in t.users ==> t.users[id].telegramId == id)
  }

  /** The JavaScript `value || null`: a missing value and the empty string both become NULL. */
  function OrNull(s: Option<string>): (r: Option<string>)
    ensures r.None? <==> (s.None? || s.value == "")
    ensures r.Some? ==> r == s
  {
    if s.Some? && s.value == "" then None else s
  }

  /** Everything except the three profile columns that an upsert may overwrite. */
  ghost predicate SameLifecycle(a: UserRecord, b: UserRecord)
  {
    && a.telegramId == b.telegramId
    && a.registeredAt == b.registeredAt
    && a.hasParticipated == b.hasParticipated
    && a.warmupStage == b.warmupStage
    && a.lastWarmupAt == b.lastWarmupAt
    && a.isBlocked == b.isBlocked
    && a.source == b.source
  }

  /** The row an INSERT creates: the column defaults, registered now. */
  function NewUser(id: UserId, data: Profile, now: int): (u: UserRecord)
    ensures u.telegramId == id && u.registeredAt == now
    ensures !u.hasParticipated && u.warmupStage == 0 && u.lastWarmupAt == None && !u.isBlocked
    ensures u.username == OrNull(data.username) && u.firstName == OrNull(data.firstName)
    ensures u.lastName == OrNull(data.lastName) && u.source == OrNull(data.source)
  {
    UserRecord(id, OrNull(data.username), OrNull(data.firstName), OrNull(data.lastName),
               now, false, 0, None, false, OrNull(data.source))
  }

  // ----- the write statements, as functions of the table -----

  /** INSERT ... ON CONFLICT(telegram_id) DO UPDATE SET username, first_name, last_name. */
  function Upserted(t: Table, id: UserId, data: Profile, now: int): (r: Table)
    ensures TableValid(t) ==> TableValid(r)
    ensures r.users.Keys == t.users.Keys + {id}
    ensures forall other :: other in t.users && other != id ==> r.users[other] == t.users[other]
    ensures id !in t.users ==>
      var u := r.users[id];
      && r.rows == t.rows + [id]
      && u.telegramId == id && u.registeredAt == now && u.source == OrNull(data.source)
      && !u.hasParticipated && u.warmupStage == 0 && u.lastWarmupAt == None && !u.isBlocked
    ensures id in t.users ==> r.rows == t.rows && SameLifecycle(r.users[id], t.users[id])
    ensures r.users[id].username == OrNull(data.username)
    ensures r.users[id].firstName == OrNull(data.firstName)
    ensures r.users[id].lastName == OrNull(data.lastName)
  {
    if id in t.users then
      var u := t.users[id];
      Table(t.users[id := u.(username := OrNull(data.username),
                             firstName := OrNull(data.firstName),
                             lastName := OrNull(data.lastName))],
            t.rows)
    else
      Table(t.users[id := NewUser(id, data, now)], t.rows + [id])
  }

  /** UPDATE users SET has_participated = 1 WHERE telegram_id = ? */
  function WithParticipation(t: Table, id: UserId): (r: Table)
    ensures TableValid(t) ==> TableValid(r)
    ensures r.rows == t.rows && r.users.Keys == t.users.Keys
    ensures forall other :: other in t.users && other != id ==> r.users[other] == t.users[other]
    ensures id in t.users ==>
      r.users[id].hasParticipated && r.users[id].(hasParticipated := t.users[id].hasParticipated) == t.users[id]
    ensures id !in t.users ==> r == t
  {
    if id in t.users then Table(t.users[id := t.users[id].(hasParticipated := true)], t.rows) else t
  }

  /** UPDATE users SET is_blocked = 1 WHERE telegram_id = ? */
  function WithBlock(t: Table, id: UserId): (r: Table)
    ensures TableValid(t) ==> TableValid(r)
    ensures r.rows == t.rows && r.users.Keys == t.users.Keys
    ensures forall other :: other in t.users && other != id ==> r.users[other] == t.users[other]
    ensures id in t.users ==>
      r.users[id].isBlocked && r.users[id].(isBlocked := t.users[id].isBlocked) == t.users[id]
    ensures id !in t.users ==> r == t
  {
    if id in t.users then Table(t.users[id := t.users[id].(isBlocked := true)], t.rows) else t
  }

  /** UPDATE users SET warmup_stage = ?, last_warmup_at = CURRENT_TIMESTAMP WHERE telegram_id = ?
      There is no guard on has_participated or is_blocked. */
  function WithStage(t: Table, id: UserId, stage: int, now: int): (r: Table)
    ensures TableValid(t) ==> TableValid(r)
    ensures r.rows == t.rows && r.users.Keys == t.users.Keys
    ensures forall other :: other in t.users && other != id ==> r.users[other] == t.users[other]
    ensures id in t.users ==>
      && r.users[id].warmupStage == stage
      && r.users[id].lastWarmupAt == Some(now)
      && r.users[id].(warmupStage := t.users[id].warmupStage,
                      lastWarmupAt := t.users[id].lastWarmupAt) == t.users[id]
    ensures id !in t.users ==> r == t
  {
    if id in t.users then
      Table(t.users[id := t.users[id].(warmupStage := stage, lastWarmupAt := Some(now))], t.rows)
    else t
  }

  lemma MarkAsParticipatedIdempotent(t: Table, id: UserId)
    ensures WithParticipation(WithParticipation(t, id), id) == WithParticipation(t, id)
  {
  }

  lemma MarkAsBlockedIdempotent(t: Table, id: UserId)
    ensures WithBlock(WithBlock(t, id), id) == WithBlock(t, id)
  {
  }

  lemma UpdateWarmupStageIdempotent(t: Table, id: UserId, stage: int, now: int)
    ensures WithStage(WithStage(t, id, stage, now), id, stage, now) == WithStage(t, id, stage, now)
  {
  }

  // ----- the read statements -----

  /** SELECT * FROM users WHERE telegram_id = ? */
  function GetUser(t: Table, id: UserId): (r: Option<UserRecord>)
    ensures r.Some? <==> id in t.users
    ensures r.Some? ==> r.value == t.users[id]
    ensures TableValid(t) && r.Some? ==> r.value.telegramId == id
  {
    if id in t.users then Some(t.users[id]) else None
  }

  /** After an upsert the row can be read back: bot.js's /start handler relies on
      this when it reads has_participated right after upsertUser. */
  lemma UpsertThenGetUser(t: Table, id: UserId, data: Profile, now: int)
    ensures var r := GetUser(Upserted(t, id, data, now), id);
      && r.Some?
      && r.value.telegramId == (if id in t.users then t.users[id].telegramId else id)
      && r.value.username == OrNull(data.username)
      && r.value.hasParticipated == (id in t.users && t.users[id].hasParticipated)
  {
  }

  /** The rows, in rowid order, that `keep` accepts (a SELECT with a WHERE clause). */
  function SelectRows(users: map<UserId, UserRecord>, ids: seq<UserId>, keep: UserRecord -> bool)
    : (r: seq<UserRecord>)
    requires forall id :: id in ids ==> id in users && users[id].telegramId == id
    ensures |r| <= |ids|
    ensures forall u :: u in r <==> u.telegramId in ids && users[u.telegramId] == u && keep(u)
    ensures Distinct(ids) ==> forall i, j :: 0 <= i < j < |r| ==> r[i].telegramId != r[j].telegramId
  {
    if ids == [] then []
    else
      var first := ids[0];
      assert first in ids;
      var head := if keep(users[first]) then [users[first]] else [];
      var tail := SelectRows(users, ids[1..], keep);
      assert forall id :: id in ids <==> id == first || id in ids[1..];
      assert Distinct(ids) ==> first !in ids[1..];
      head + tail
  }

  /** The warmup eligibility predicate of getUsersForWarmup: not participated, not
      blocked, at `stage`, and `hoursAgo` hours elapsed since REGISTRATION, the
      boundary included. */
  predicate IsDue(u: UserRecord, stage: int, hoursAgo: nat, now: int)
  {
    && !u.hasParticipated
    && !u.isBlocked
    && u.warmupStage == stage
    && u.registeredAt + hoursAgo * 3600 <= now
  }

  /** getUsersForWarmup(stage, hoursAgo) */
  function UsersForWarmup(t: Table, stage: int, hoursAgo: nat, now: int): (r: seq<UserRecord>)
    requires TableValid(t)
    ensures forall u :: u in r <==>
      && u.telegramId in t.users && t.users[u.telegramId] == u
      && !u.hasParticipated && !u.isBlocked && u.warmupStage == stage
      && u.registeredAt + hoursAgo * 3600 <= now
    ensures forall i, j :: 0 <= i < j < |r| ==> r[i].telegramId != r[j].telegramId
  {
    SelectRows(t.users, t.rows, u => IsDue(u, stage, hoursAgo, now))
  }

  /** getAllActiveUsers() */
  function AllActiveUsers(t: Table): (r: seq<UserRecord>)
    requires TableValid(t)
    ensures forall u :: u in r <==> u.telegramId in t.users && t.users[u.telegramId] == u && !u.isBlocked
    ensures forall i, j :: 0 <= i < j < |r| ==> r[i].telegramId != r[j].telegramId
  {
    SelectRows(t.users, t.rows, (u: UserRecord) => !u.isBlocked)
  }

  // ----- counts -----

  /** SELECT COUNT(*) FROM users WHERE p over the rows `ids`. */
  function CountWhere(users: map<UserId, UserRecord>, ids: seq<UserId>, p: UserRecord -> bool): (n: int)
    requires forall id :: id in ids ==> id in users
    ensures 0 <= n <= |ids|
    ensures n == |ids| <==> forall id :: id in ids ==> p(users[id])
  {
    if ids == [] then 0
    else
      var first := ids[0];
      assert first in ids;
      assert forall id :: id in ids[1..] ==> id in ids;
      assert forall id :: id in ids ==> id == first || id in ids[1..];
      (if p(users[first]) then 1 else 0) + CountWhere(users, ids[1..], p)
  }

  /** Over distinct ids, the COUNT is the number of users the condition accepts. */
  lemma {:induction false} CountWhereIsSetSize(users: map<UserId, UserRecord>, ids: seq<UserId>, p: UserRecord -> bool)
    requires Distinct(ids)
    requires forall id :: id in ids ==> id in users
    ensures CountWhere(users, ids, p) == |set id | id in ids && p(users[id])|
  {
    if ids != [] {
      var first := ids[0];
      var rest := ids[1..];
      assert first in ids;
      assert forall id :: id in rest ==> id in ids;
      assert Distinct(rest);
      CountWhereIsSetSize(users, rest, p);
      var later := set id | id in rest && p(users[id]);
      var all := set id | id in ids && p(users[id]);
      assert first !in later by {
        forall k | 0 <= k < |rest| ensures rest[k] != first { assert ids[k + 1] != ids[0]; }
      }
      forall id ensures id in all <==> id in later || (id == first && p(users[first])) {
        assert id in ids <==> id == first || id in rest;
      }
      if p(users[first]) {
        assert all == later + {first};
      } else {
        assert all == later;
      }
    }
  }

  /** The COUNT over the whole table is the number of users the condition accepts. */
  lemma CountOverTable(t: Table, p: UserRecord -> bool)
    requires TableValid(t)
    ensures CountWhere(t.users, t.rows, p) == |set id | id in t.users && p(t.users[id])|
  {
    CountWhereIsSetSize(t.users, t.rows, p);
    var byRows := set id | id in t.rows && p(t.users[id]);
    var byKeys := set id | id in t.users && p(t.users[id]);
    forall id ensures id in byRows <==> id in byKeys {
      assert id in t.rows <==> id in t.users;
    }
    assert byRows == byKeys;
  }

  predicate IsParticipant(u: UserRecord) { u.hasParticipated }
  predicate IsBlockedUser(u: UserRecord) { u.isBlocked }
  predicate IsPending(u: UserRecord) { !u.hasParticipated && !u.isBlocked }
  predicate IsParticipantAndBlocked(u: UserRecord) { u.hasParticipated && u.isBlocked }

  datatype Stats = Stats(total: int, participated: int, blocked: int, pending: int)

  /** A sequence without repeats has as many elements as the set it enumerates. */
  lemma {:induction false} DistinctCardinality(ids: seq<UserId>, keys: set<UserId>)
    requires Distinct(ids)
    requires forall id :: id in keys <==> id in ids
    ensures |keys| == |ids|
  {
    if ids != [] {
      var last := ids[|ids| - 1];
      var prefix := ids[..|ids| - 1];
      assert forall id :: id in prefix ==> id in ids;
      assert last !in prefix by {
        forall k | 0 <= k < |prefix| ensures prefix[k] != last { assert ids[k] != ids[|ids| - 1]; }
      }
      assert forall id :: id in ids ==> id in prefix || id == last;
      assert last in keys;
      assert forall id :: id in keys - {last} <==> id in prefix;
      DistinctCardinality(prefix, keys - {last});
      assert |keys - {last}| == |keys| - 1;
    } else {
      assert forall id :: id !in keys;
      assert keys == {};
    }
  }

  /** The COUNT queries of getStats, as numbers of users. */
  lemma ParticipatedCount(t: Table)
    requires TableValid(t)
    ensures CountWhere(t.users, t.rows, IsParticipant) == |set id | id in t.users && t.users[id].hasParticipated|
  {
    var p := IsParticipant;
    CountOverTable(t, p);
    assert (set id | id in t.users && p(t.users[id])) == set id | id in t.users && t.users[id].hasParticipated;
  }

  lemma BlockedCount(t: Table)
    requires TableValid(t)
    ensures CountWhere(t.users, t.rows, IsBlockedUser) == |set id | id in t.users && t.users[id].isBlocked|
  {
    var p := IsBlockedUser;
    CountOverTable(t, p);
    assert (set id | id in t.users && p(t.users[id])) == set id | id in t.users && t.users[id].isBlocked;
  }

  lemma PendingCount(t: Table)
    requires TableValid(t)
    ensures CountWhere(t.users, t.rows, IsPending)
            == |set id | id in t.users && !t.users[id].hasParticipated && !t.users[id].isBlocked|
  {
    var p := IsPending;
    CountOverTable(t, p);
    assert (set id | id in t.users && p(t.users[id]))
        == set id | id in t.users && !t.users[id].hasParticipated && !t.users[id].isBlocked;
  }

  /** getStats() as written: pending is total minus participated minus blocked. */
  function GetStats(t: Table): (s: Stats)
    requires TableValid(t)
    ensures s.total == |t.users|
    ensures 0 <= s.participated <= s.total && 0 <= s.blocked <= s.total
    ensures s.participated == |set id | id in t.users && t.users[id].hasParticipated|
    ensures s.blocked == |set id | id in t.users && t.users[id].isBlocked|
    ensures s.participated == s.total <==> forall id :: id in t.users ==> t.users[id].hasParticipated
    ensures s.pending == s.total - s.participated - s.blocked
  {
    DistinctCardinality(t.rows, t.users.Keys);
    ParticipatedCount(t);
    BlockedCount(t);
    var total := |t.rows|;
    var participated := CountWhere(t.users, t.rows, IsParticipant);
    var blocked := CountWhere(t.users, t.rows, IsBlockedUser);
    Stats(total, participated, blocked, total - participated - blocked)
  }

  /** getStats() with pending counted directly as the rows with neither flag. */
  function GetStatsCorrected(t: Table): (s: Stats)
    requires TableValid(t)
    ensures s.total == |t.users|
    ensures 0 <= s.participated <= s.total && 0 <= s.blocked <= s.total
    ensures 0 <= s.pending <= s.total
    ensures s.participated == |set id | id in t.users && t.users[id].hasParticipated|
    ensures s.blocked == |set id | id in t.users && t.users[id].isBlocked|
    ensures s.pending == |set id | id in t.users && !t.users[id].hasParticipated && !t.users[id].isBlocked|
    ensures s.total == s.participated + s.blocked + s.pending - CountWhere(t.users, t.rows, IsParticipantAndBlocked)
  {
    DistinctCardinality(t.rows, t.users.Keys);
    ParticipatedCount(t);
    BlockedCount(t);
    PendingCount(t);
    CategoriesAddUp(t.users, t.rows);
    Stats(|t.rows|,
          CountWhere(t.users, t.rows, IsParticipant),
          CountWhere(t.users, t.rows, IsBlockedUser),
          CountWhere(t.users, t.rows, IsPending))
  }

  /** Every row is pending, participated or blocked, and a row that is both
      participated and blocked is counted twice among the latter two. */
  lemma {:induction false} CategoriesAddUp(users: map<UserId, UserRecord>, ids: seq<UserId>)
    requires forall id :: id in ids ==> id in users
    ensures CountWhere(users, ids, IsPending) + CountWhere(users, ids, IsParticipant)
            + CountWhere(users, ids, IsBlockedUser)
            == |ids| + CountWhere(users, ids, IsParticipantAndBlocked)
  {
    if ids != [] {
      assert forall id :: id in ids[1..] ==> id in ids;
      CategoriesAddUp(users, ids[1..]);
    }
  }

  /** The two readings of pending agree exactly when no row carries both flags. */
  lemma PendingAsWrittenMatchesIffDisjoint(t: Table)
    requires TableValid(t)
    ensures GetStats(t).pending == GetStatsCorrected(t).pending
            <==> forall id :: id in t.users ==> !(t.users[id].hasParticipated && t.users[id].isBlocked)
  {
    var both := CountWhere(t.users, t.rows, IsParticipantAndBlocked);
    assert GetStats(t).pending == GetStatsCorrected(t).pending - both;
    assert both == 0 <==> forall id :: id in t.rows ==> !IsParticipantAndBlocked(t.users[id]) by {
      
      ComplementCount(t.users, t.rows, IsParticipantAndBlocked);
    }
  }

  lemma {:induction false} ComplementCount(users: map<UserId, UserRecord>, ids: seq<UserId>, p: UserRecord -> bool)
    requires forall id :: id in ids ==> id in users
    ensures CountWhere(users, ids, p) + CountWhere(users, ids, (u: UserRecord) => !p(u)) == |ids|
  {
    if ids != [] {
      assert forall id :: id in ids[1..] ==> id in ids;
      ComplementCount(users, ids[1..], p);
    }
  }

  /** A history that the bot can produce: a user registers, blocks the bot
      during warmup, and later completes the giveaway. getStats then reports a
      negative pending count, while the corrected count is zero. */
  lemma PendingAsWrittenGoesNegative(data: Profile)
    ensures var t := WithParticipation(WithBlock(Upserted(EmptyTable, 7, data, 0), 7), 7);
      && TableValid(t)
      && GetStats(t).pending == -1
      && GetStatsCorrected(t).pending == 0
  {
    var t := WithParticipation(WithBlock(Upserted(EmptyTable, 7, data, 0), 7), 7);
    assert t.rows == [7];
    assert t.users[7].hasParticipated && t.users[7].isBlocked;
    assert CountWhere(t.users, t.rows, IsParticipant) == 1;
    assert CountWhere(t.users, t.rows, IsBlockedUser) == 1;
    assert CountWhere(t.users, t.rows, IsPending) == 0;
  }

  // ----- any history of writes -----

  /** The write statements the bot issues against the table. */
  datatype Write =
    | Register(id: UserId, data: Profile, now: int)   // upsertUser
    | Participate(id: UserId)                         // markAsParticipated
    | Block(id: UserId)                               // markAsBlocked
    | Advance(id: UserId, stage: int, now: int)       // updateWarmupStage

  function Apply(t: Table, w: Write): Table
  {
    match w
    case Register(id, data, now) => Upserted(t, id, data, now)
    case Participate(id) => WithParticipation(t, id)
    case Block(id) => WithBlock(t, id)
    case Advance(id, stage, now) => WithStage(t, id, stage, now)
  }

  function ApplyAll(t: Table, ws: seq<Write>): Table
    decreases |ws|
  {
    if ws == [] then t else ApplyAll(Apply(t, ws[0]), ws[1..])
  }

  /** What a row keeps from an earlier state: registered_at and source are write-once,
      and the participated and blocked flags never go back to 0. */
  ghost predicate Persists(u: UserRecord, v: UserRecord)
  {
    && v.telegramId == u.telegramId
    && v.registeredAt == u.registeredAt
    && v.source == u.source
    && (u.hasParticipated ==> v.hasParticipated)
    && (u.isBlocked ==> v.isBlocked)
  }

  /** No write deletes or reorders a row or duplicates an id, and every row persists. */
  lemma {:induction false} HistoryPersists(t: Table, ws: seq<Write>)
    requires TableValid(t)
    decreases |ws|
    ensures var r := ApplyAll(t, ws);
      && TableValid(r)
      && t.rows <= r.rows
      && t.users.Keys <= r.users.Keys
      && forall id :: id in t.users ==> Persists(t.users[id], r.users[id])
  {
    if ws != [] {
      var t' := Apply(t, ws[0]);
      assert TableValid(t') && t.rows <= t'.rows && t.users.Keys <= t'.users.Keys;
      assert forall id :: id in t.users ==> Persists(t.users[id], t'.users[id]);
      HistoryPersists(t', ws[1..]);
    }
  }

  /** Once a user has participated or blocked the bot, no later warmup query
      returns them, whatever is written in between. */
  lemma TerminalNeverDue(t: Table, ws: seq<Write>, id: UserId, stage: int, hoursAgo: nat, now: int)
    requires TableValid(t)
    requires id in t.users && (t.users[id].hasParticipated || t.users[id].isBlocked)
    ensures var r := ApplyAll(t, ws);
      TableValid(r) && forall u :: u in UsersForWarmup(r, stage, hoursAgo, now) ==> u.telegramId != id
  {
    HistoryPersists(t, ws);
  }

  /** The table as a mutable object: the write statements update it in place. */
  class UserStore {
    var users: map<UserId, UserRecord>
    var rows: seq<UserId>

    function Snapshot(): Table
      reads this
    {
      Table(users, rows)
    }

    ghost predicate Valid()
      reads this
    {
      TableValid(Snapshot())
    }

    constructor ()
      ensures Valid() && Snapshot() == EmptyTable
    {
      users := map[];
      rows := [];
    }

    /** upsertUser(telegramId, userData) */
    method UpsertUser(id: UserId, data: Profile, now: int)
      requires Valid()
      modifies this
      ensures Valid()
      ensures Snapshot() == Upserted(old(Snapshot()), id, data, now)
    {
      if id in users {
        var u := users[id];
        users := users[id := u.(username := OrNull(data.username),
                                firstName := OrNull(data.firstName),
                                lastName := OrNull(data.lastName))];
      } else {
        users := users[id := NewUser(id, data, now)];
        rows := rows + [id];
      }
    }

    /** markAsParticipated(telegramId); `changes` is the statement's row count. */
    method MarkAsParticipated(id: UserId) returns (changes: nat)
      requires Valid()
      modifies this
      ensures Valid()
      ensures Snapshot() == WithParticipation(old(Snapshot()), id)
      ensures changes == if id in old(users) then 1 else 0
    {
      changes := 0;
      if id in users {
        users := users[id := users[id].(hasParticipated := true)];
        changes := 1;
      }
    }

    /** updateWarmupStage(telegramId, stage), with `now` for CURRENT_TIMESTAMP. */
    method UpdateWarmupStage(id: UserId, stage: int, now: int) returns (changes: nat)
      requires Valid()
      modifies this
      ensures Valid()
      ensures Snapshot() == WithStage(old(Snapshot()), id, stage, now)
      ensures changes == if id in old(users) then 1 else 0
    {
      changes := 0;
      if id in users {
        users := users[id := users[id].(warmupStage := stage, lastWarmupAt := Some(now))];
        changes := 1;
      }
    }

    /** markAsBlocked(telegramId) */
    method MarkAsBlocked(id: UserId) returns (changes: nat)
      requires Valid()
      modifies this
      ensures Valid()
      ensures Snapshot() == WithBlock(old(Snapshot()), id)
      ensures changes == if id in old(users) then 1 else 0
    {
      changes := 0;
      if id in users {
        users := users[id := users[id].(isBlocked := true)];
        changes := 1;
      }
    }
  }
}
