/**
 * The `users` and `user_sessions` tables of models/User.php, kept as
 * in-memory sequences of rows. SQL statements become functions from the old
 * table to the new one; `NOW()` is a parameter and password hashing is
 * abstract (the stored hash is given, verification is a parameter).
 */
module Users {
  import opened Wrappers
  import opened Lists

  /** A row of `users`; `password` holds the stored hash. */
  datatype UserRow = UserRow(id: int, nim: string, name: string, password: string)

  /** What `authenticate` and `register` hand back: the user without the hash. */
  datatype AuthUser = AuthUser(id: int, nim: string, name: string)

  /** The outcome of `register`. */
  datatype RegisterResult = Registered(user: AuthUser) | RegisterFailed(message: string)

  /** A row of `user_sessions`; times are in seconds. */
  datatype SessionRow = SessionRow(id: int, userId: int, nim: string, name: string, sessionId: string,
                                   ipAddress: string, userAgent: string, loginTime: int, lastActivity: int, isActive: bool)

  /** A row of `getActiveUsers`' result. */
  datatype ActiveUser = ActiveUser(nim: string, name: string, loginTime: int, lastActivity: int, idleSeconds: int)

  /** The UNIQUE constraint on `users.nim`. */
  predicate DistinctNims(users: seq<UserRow>) {
    forall i, j :: 0 <= i < j < |users| ==> users[i].nim != users[j].nim
  }

  /** The UNIQUE constraint on `user_sessions.session_id`. */
  predicate DistinctSessionIds(sessions: seq<SessionRow>) {
    forall i, j :: 0 <= i < j < |sessions| ==> sessions[i].sessionId != sessions[j].sessionId
  }

  function HasNim(nim: string): UserRow -> bool {
    (u: UserRow) => u.nim == nim
  }

  /** Whether some row has this nim (`SELECT id FROM users WHERE nim = ?` returns a row). */
  predicate NimTaken(users: seq<UserRow>, nim: string) {
    exists i :: 0 <= i < |users| && users[i].nim == nim
  }

  /**
   * `authenticate`: the first row with the nim, when the password verifies
   * against its hash; its id, nim and name only.
   */
  function Authenticate(users: seq<UserRow>, nim: string, password: string, verify: (string, string) -> bool): (r: Option<AuthUser>)
    ensures r.Some? ==> (exists i :: 0 <= i < |users| && users[i].nim == nim && verify(password, users[i].password) &&
                                    r.value == AuthUser(users[i].id, users[i].nim, users[i].name))
    ensures DistinctNims(users) ==> (r.Some? <==> exists i :: 0 <= i < |users| && users[i].nim == nim && verify(password, users[i].password))
  {
    match FindFirst(users, HasNim(nim))
    case None => None
    case Some(i) =>
      if verify(password, users[i].password) then Some(AuthUser(users[i].id, users[i].nim, users[i].name)) else None
  }

  /** A freshly registered user can log in with the password whose hash was stored. */
  lemma RegisterThenAuthenticate(users: seq<UserRow>, id: int, nim: string, name: string, password: string, hashed: string,
                                 verify: (string, string) -> bool)
    requires !NimTaken(users, nim) && verify(password, hashed)
    ensures Authenticate(users + [UserRow(id, nim, name, hashed)], nim, password, verify) == Some(AuthUser(id, nim, name))
  {
    var all := users + [UserRow(id, nim, name, hashed)];
    assert HasNim(nim)(all[|users|]);
  }

  /** One of the demo accounts `createDemoUsers` ensures. */
  datatype DemoAccount = DemoAccount(nim: string, name: string, password: string)

  const DemoAccounts: seq<DemoAccount> := [
    DemoAccount("123456789", "Demo User 1", "password123"),
    DemoAccount("987654321", "Demo User 2", "password123"),
    DemoAccount("111222333", "Admin User", "admin123")
  ]

  /** The users table and its AUTO_INCREMENT counter. */
  datatype UsersTable = UsersTable(rows: seq<UserRow>, nextId: int)

  /** Inserts an account unless its nim is taken. */
  function InsertIfAbsent(table: UsersTable, account: DemoAccount, hash: string -> string): (r: UsersTable)
    ensures NimTaken(table.rows, account.nim) ==> r == table
    ensures !NimTaken(table.rows, account.nim) ==>
      r == UsersTable(table.rows + [UserRow(table.nextId, account.nim, account.name, hash(account.password))], table.nextId + 1)
  {
    if NimTaken(table.rows, account.nim) then table
    else UsersTable(table.rows + [UserRow(table.nextId, account.nim, account.name, hash(account.password))], table.nextId + 1)
  }

  /** The table after inserting the absent accounts in order. */
  function WithAccounts(table: UsersTable, accounts: seq<DemoAccount>, hash: string -> string): UsersTable
    decreases |accounts|
  {
    if accounts == [] then table
    else InsertIfAbsent(WithAccounts(table, accounts[..|accounts| - 1], hash), accounts[|accounts| - 1], hash)
  }

  /** Inserting accounts keeps the old rows in front, and afterwards every account's nim is taken. */
  lemma {:induction false} WithAccountsTakesAll(table: UsersTable, accounts: seq<DemoAccount>, hash: string -> string)
    ensures |table.rows| <= |WithAccounts(table, accounts, hash).rows|
    ensures WithAccounts(table, accounts, hash).rows[..|table.rows|] == table.rows
    ensures forall k :: 0 <= k < |accounts| ==> NimTaken(WithAccounts(table, accounts, hash).rows, accounts[k].nim)
    decreases |accounts|
  {
    if accounts != [] {
      var init := accounts[..|accounts| - 1];
      WithAccountsTakesAll(table, init, hash);
      var before := WithAccounts(table, init, hash);
      var after := WithAccounts(table, accounts, hash);
      assert after.rows[..|before.rows|] == before.rows;
      forall k | 0 <= k < |accounts|
        ensures NimTaken(after.rows, accounts[k].nim)
      {
        if k < |init| {
          assert accounts[k] == init[k];
          var i :| 0 <= i < |before.rows| && before.rows[i].nim == accounts[k].nim;
          assert after.rows[i] == before.rows[i];
        } else if !NimTaken(before.rows, accounts[k].nim) {
          assert after.rows[|before.rows|].nim == accounts[k].nim;
        }
      }
    }
  }

  /** Once every account's nim is taken, inserting them again changes nothing. */
  lemma {:induction false} WithAccountsNoop(table: UsersTable, accounts: seq<DemoAccount>, hash: string -> string)
    requires forall k :: 0 <= k < |accounts| ==> NimTaken(table.rows, accounts[k].nim)
    ensures WithAccounts(table, accounts, hash) == table
    decreases |accounts|
  {
    if accounts != [] {
      WithAccountsNoop(table, accounts[..|accounts| - 1], hash);
    }
  }

  /** `createDemoUsers` is idempotent: a second run inserts nothing. */
  lemma DemoUsersIdempotent(table: UsersTable, hash: string -> string)
    ensures WithAccounts(WithAccounts(table, DemoAccounts, hash), DemoAccounts, hash) == WithAccounts(table, DemoAccounts, hash)
  {
    WithAccountsTakesAll(table, DemoAccounts, hash);
    WithAccountsNoop(WithAccounts(table, DemoAccounts, hash), DemoAccounts, hash);
  }

  /** Inserting absent accounts keeps nims unique and ids below the counter. */
  lemma {:induction false} WithAccountsValid(table: UsersTable, accounts: seq<DemoAccount>, hash: string -> string)
    requires DistinctNims(table.rows) && forall i :: 0 <= i < |table.rows| ==> table.rows[i].id < table.nextId
    ensures DistinctNims(WithAccounts(table, accounts, hash).rows)
    ensures forall i :: 0 <= i < |WithAccounts(table, accounts, hash).rows| ==>
      WithAccounts(table, accounts, hash).rows[i].id < WithAccounts(table, accounts, hash).nextId
    decreases |accounts|
  {
    if accounts != [] {
      WithAccountsValid(table, accounts[..|accounts| - 1], hash);
    }
  }

  /** `TIMESTAMPDIFF(MINUTE, from, to)`: whole minutes, truncated toward zero. */
  function MinutesBetween(from: int, to: int): (m: int)
    ensures to >= from ==> m * 60 <= to - from < m * 60 + 60
    ensures to < from ==> m <= 0
  {
    var d := to - from;
    if d >= 0 then d / 60 else -((-d) / 60)
  }

  /** `getActiveUsers`' WHERE clause: active and idle fewer than 30 whole minutes. */
  function Listed(now: int): SessionRow -> bool {
    (s: SessionRow) => s.isActive && MinutesBetween(s.lastActivity, now) < 30
  }

  /** `cleanupExpiredSessions`' WHERE clause: active and idle more than 30 whole minutes. */
  predicate Expired(s: SessionRow, now: int) {
    s.isActive && MinutesBetween(s.lastActivity, now) > 30
  }

  /** Most recent activity first. */
  predicate ByRecent(rows: seq<SessionRow>) {
    forall i, j :: 0 <= i < j < |rows| ==> rows[i].lastActivity >= rows[j].lastActivity
  }

  function InsertByRecent(x: SessionRow, rows: seq<SessionRow>): (r: seq<SessionRow>)
    ensures multiset(r) == multiset(rows) + multiset{x}
    decreases |rows|
  {
    if rows == [] || x.lastActivity >= rows[0].lastActivity then [x] + rows
    else
      assert rows == [rows[0]] + rows[1..];
      [rows[0]] + InsertByRecent(x, rows[1..])
  }

  lemma {:induction false} InsertByRecentSorted(x: SessionRow, rows: seq<SessionRow>)
    requires ByRecent(rows)
    ensures ByRecent(InsertByRecent(x, rows))
    decreases |rows|
  {
    if rows != [] && x.lastActivity < rows[0].lastActivity {
      InsertByRecentSorted(x, rows[1..]);
      var tail := InsertByRecent(x, rows[1..]);
      forall k | 0 <= k < |tail|
        ensures rows[0].lastActivity >= tail[k].lastActivity
      {
        assert tail[k] in multiset(rows[1..]) + multiset{x};
        if tail[k] in multiset(rows[1..]) {
          var q :| 0 <= q < |rows[1..]| && rows[1..][q] == tail[k];
          assert rows[q + 1] == tail[k];
        }
      }
    }
  }

  /** `ORDER BY last_activity DESC`: a permutation of the rows, most recent first. */
  function SortByRecent(rows: seq<SessionRow>): (r: seq<SessionRow>)
    ensures multiset(r) == multiset(rows) && ByRecent(r)
    decreases |rows|
  {
    if rows == [] then []
    else
      assert rows == [rows[0]] + rows[1..];
      InsertByRecentSorted(rows[0], SortByRecent(rows[1..]));
      InsertByRecent(rows[0], SortByRecent(rows[1..]))
  }

  /** The columns `getActiveUsers` selects. */
  function Project(s: SessionRow, now: int): ActiveUser {
    ActiveUser(s.nim, s.name, s.loginTime, s.lastActivity, now - s.lastActivity)
  }

  /** The projection of each row, in order. */
  function ProjectAll(rows: seq<SessionRow>, now: int): (r: seq<ActiveUser>)
    ensures |r| == |rows| && forall i :: 0 <= i < |rows| ==> r[i] == Project(rows[i], now)
  {
    seq(|rows|, i requires 0 <= i < |rows| => Project(rows[i], now))
  }

  /** `getActiveUsers`: the listed rows, most recent first. */
  function ActiveUsers(sessions: seq<SessionRow>, now: int): seq<ActiveUser> {
    ProjectAll(SortByRecent(Filter(sessions, Listed(now))), now)
  }

  /** The active-users list is most recent first, and holds exactly the listed rows. */
  lemma ActiveUsersExactly(sessions: seq<SessionRow>, now: int)
    ensures var r := ActiveUsers(sessions, now);
      forall i, j :: 0 <= i < j < |r| ==> r[i].lastActivity >= r[j].lastActivity
    ensures forall u :: u in ActiveUsers(sessions, now) ==> exists s :: s in sessions && Listed(now)(s) && u == Project(s, now)
    ensures forall s :: s in sessions && Listed(now)(s) ==> Project(s, now) in ActiveUsers(sessions, now)
  {
    var kept := Filter(sessions, Listed(now));
    var sorted := SortByRecent(kept);
    var r := ActiveUsers(sessions, now);
    forall u | u in r
      ensures exists s :: s in sessions && Listed(now)(s) && u == Project(s, now)
    {
      var i :| 0 <= i < |r| && r[i] == u;
      assert sorted[i] in multiset(kept);
      assert sorted[i] in kept;
    }
    forall s | s in sessions && Listed(now)(s)
      ensures Project(s, now) in r
    {
      var q :| 0 <= q < |sessions| && sessions[q] == s;
      assert s in kept;
      assert s in multiset(sorted);
      var i :| 0 <= i < |sorted| && sorted[i] == s;
      assert r[i] == Project(s, now);
    }
  }

  /**
   * `SET is_active = 0` on one row. `last_activity` is declared `ON UPDATE
   * CURRENT_TIMESTAMP`, so a row that was active also gets `last_activity =
   * now`; a row that was already inactive does not change at all.
   */
  function Deactivated(row: SessionRow, now: int): (r: SessionRow)
    ensures !r.isActive
    ensures row.isActive ==> r.lastActivity == now
    ensures !row.isActive ==> r == row
    ensures r.(isActive := row.isActive, lastActivity := row.lastActivity) == row
  {
    if row.isActive then row.(isActive := false, lastActivity := now) else row
  }

  /**
   * `cleanupExpiredSessions`: only expired rows are deactivated, and they
   * take `now` as their last activity.
   */
  function CleanupRows(sessions: seq<SessionRow>, now: int): (r: seq<SessionRow>)
    ensures |r| == |sessions|
    ensures forall i :: 0 <= i < |sessions| && Expired(sessions[i], now) ==>
      r[i] == sessions[i].(isActive := false, lastActivity := now)
    ensures forall i :: 0 <= i < |sessions| && !Expired(sessions[i], now) ==> r[i] == sessions[i]
  {
    seq(|sessions|, i requires 0 <= i < |sessions| =>
      if Expired(sessions[i], now) then Deactivated(sessions[i], now) else sessions[i])
  }

  /** A session idle exactly 30 whole minutes is neither listed nor cleaned up. */
  lemma ThirtyMinutesIsNeither(s: SessionRow, now: int)
    requires s.isActive && MinutesBetween(s.lastActivity, now) == 30
    ensures !Listed(now)(s)
    ensures CleanupRows([s], now) == [s]
  {
  }

  /** Cleaning up never removes a listed user: the list is the same before and after. */
  lemma {:induction false} CleanupKeepsListed(sessions: seq<SessionRow>, now: int)
    ensures Filter(CleanupRows(sessions, now), Listed(now)) == Filter(sessions, Listed(now))
    decreases |sessions|
  {
    if sessions != [] {
      var n := |sessions| - 1;
      assert CleanupRows(sessions, now)[..n] == CleanupRows(sessions[..n], now);
      CleanupKeepsListed(sessions[..n], now);
      assert Listed(now)(CleanupRows(sessions, now)[n]) == Listed(now)(sessions[n]);
    }
  }

  /**
   * `destroySession`: rows with the session id become inactive, those that
   * were active taking `now` as their last activity; other rows do not change.
   */
  function DestroySessionRows(sessions: seq<SessionRow>, sessionId: string, now: int): (r: seq<SessionRow>)
    ensures |r| == |sessions|
    ensures forall i :: 0 <= i < |sessions| && sessions[i].sessionId == sessionId && sessions[i].isActive ==>
      r[i] == sessions[i].(isActive := false, lastActivity := now)
    ensures forall i :: 0 <= i < |sessions| && !(sessions[i].sessionId == sessionId && sessions[i].isActive) ==> r[i] == sessions[i]
  {
    seq(|sessions|, i requires 0 <= i < |sessions| =>
      if sessions[i].sessionId == sessionId then Deactivated(sessions[i], now) else sessions[i])
  }

  /** `updateSessionActivity`: active rows with the session id get `last_activity = now`, nothing else changes. */
  function TouchSessionRows(sessions: seq<SessionRow>, sessionId: string, now: int): (r: seq<SessionRow>)
    ensures |r| == |sessions|
    ensures forall i :: 0 <= i < |sessions| && sessions[i].sessionId == sessionId && sessions[i].isActive ==>
      r[i] == sessions[i].(lastActivity := now)
    ensures forall i :: 0 <= i < |sessions| && !(sessions[i].sessionId == sessionId && sessions[i].isActive) ==> r[i] == sessions[i]
  {
    seq(|sessions|, i requires 0 <= i < |sessions| =>
      if sessions[i].sessionId == sessionId && sessions[i].isActive then sessions[i].(lastActivity := now) else sessions[i])
  }

  /**
   * The first step of `createSession`: every row of the user becomes
   * inactive, those that were active taking `now` as their last activity;
   * other rows do not change.
   */
  function DeactivateUser(sessions: seq<SessionRow>, userId: int, now: int): (r: seq<SessionRow>)
    ensures |r| == |sessions|
    ensures forall i :: 0 <= i < |sessions| && sessions[i].userId == userId && sessions[i].isActive ==>
      r[i] == sessions[i].(isActive := false, lastActivity := now)
    ensures forall i :: 0 <= i < |sessions| && !(sessions[i].userId == userId && sessions[i].isActive) ==> r[i] == sessions[i]
  {
    seq(|sessions|, i requires 0 <= i < |sessions| =>
      if sessions[i].userId == userId then Deactivated(sessions[i], now) else sessions[i])
  }

  function HasSessionId(sessionId: string): SessionRow -> bool {
    (s: SessionRow) => s.sessionId == sessionId
  }

  /** The details of a login that `createSession` records. */
  datatype Login = Login(userId: int, nim: string, name: string, sessionId: string, ipAddress: string, userAgent: string)

  /** The row `createSession` inserts when the session id is new. */
  function NewSessionRow(rowId: int, login: Login, now: int): SessionRow {
    SessionRow(rowId, login.userId, login.nim, login.name, login.sessionId, login.ipAddress, login.userAgent, now, now, true)
  }

  /**
   * `createSession` as written: after deactivating the user's rows, a new
   * session id inserts a row, and an existing one only refreshes its times
   * and reactivates it, keeping the user it was recorded for.
   */
  function CreateSessionAsWritten(sessions: seq<SessionRow>, rowId: int, login: Login, now: int): (r: seq<SessionRow>)
    ensures |sessions| <= |r| <= |sessions| + 1
    ensures forall j :: 0 <= j < |sessions| ==> r[j].userId == sessions[j].userId && r[j].sessionId == sessions[j].sessionId
  {
    var s := DeactivateUser(sessions, login.userId, now);
    match FindFirst(s, HasSessionId(login.sessionId))
    case None => s + [NewSessionRow(rowId, login, now)]
    case Some(k) => s[k := s[k].(loginTime := now, lastActivity := now, isActive := true)]
  }

  /**
   * `createSession` with the duplicate-key update also recording who logged
   * in: the session id's row belongs to the user afterwards.
   */
  function CreateSessionRows(sessions: seq<SessionRow>, rowId: int, login: Login, now: int): (r: seq<SessionRow>)
    ensures |sessions| <= |r| <= |sessions| + 1
    ensures forall j :: 0 <= j < |sessions| ==> r[j].sessionId == sessions[j].sessionId
    ensures |r| == |sessions| + 1 <==> forall j :: 0 <= j < |sessions| ==> sessions[j].sessionId != login.sessionId
  {
    var s := DeactivateUser(sessions, login.userId, now);
    match FindFirst(s, HasSessionId(login.sessionId))
    case None => s + [NewSessionRow(rowId, login, now)]
    case Some(k) => s[k := s[k].(userId := login.userId, nim := login.nim, name := login.name,
                                 loginTime := now, lastActivity := now, isActive := true)]
  }

  /** What a login promises the tracking table: the session's one row is active and current, the user's other rows are not active, session ids stay unique. */
  predicate LoginRecorded(r: seq<SessionRow>, login: Login, now: int) {
    DistinctSessionIds(r) &&
    (exists k :: 0 <= k < |r| && r[k].sessionId == login.sessionId && r[k].isActive && r[k].loginTime == now && r[k].lastActivity == now) &&
    (forall j :: 0 <= j < |r| && r[j].userId == login.userId && r[j].sessionId != login.sessionId ==> !r[j].isActive)
  }

  /** Deactivating keeps session ids. */
  lemma DeactivateKeepsIds(sessions: seq<SessionRow>, userId: int, now: int)
    requires DistinctSessionIds(sessions)
    ensures DistinctSessionIds(DeactivateUser(sessions, userId, now))
    ensures forall j :: 0 <= j < |sessions| ==> DeactivateUser(sessions, userId, now)[j].sessionId == sessions[j].sessionId
  {
  }

  /** As written, a login still deactivates the user's other rows and activates the session's row. */
  lemma CreateSessionAsWrittenRecords(sessions: seq<SessionRow>, rowId: int, login: Login, now: int)
    requires DistinctSessionIds(sessions)
    ensures LoginRecorded(CreateSessionAsWritten(sessions, rowId, login, now), login, now)
  {
    DeactivateKeepsIds(sessions, login.userId, now);
    var s := DeactivateUser(sessions, login.userId, now);
    var r := CreateSessionAsWritten(sessions, rowId, login, now);
    match FindFirst(s, HasSessionId(login.sessionId))
    case None =>
      assert r[|s|].sessionId == login.sessionId;
    case Some(k) =>
      assert r[k].sessionId == login.sessionId;
  }

  /** The login of user 2 on a session id last used by user 1. */
  function StaleSessionLogin(): Login {
    Login(2, "222", "B", "s", "ip", "ua")
  }

  /** As written, that login leaves user 1's name on the active row and no active row for user 2. */
  lemma CreateSessionKeepsStaleOwner()
    ensures CreateSessionAsWritten([SessionRow(1, 1, "111", "A", "s", "ip", "ua", 0, 0, false)], 2, StaleSessionLogin(), 100) ==
      [SessionRow(1, 1, "111", "A", "s", "ip", "ua", 100, 100, true)]
  {
    var sessions := [SessionRow(1, 1, "111", "A", "s", "ip", "ua", 0, 0, false)];
    assert HasSessionId("s")(DeactivateUser(sessions, 2, 100)[0]);
  }

  /** A row of another session, or the session's row recorded for the user who logged in. */
  predicate OwnedBy(row: SessionRow, login: Login) {
    row.sessionId == login.sessionId ==> row.userId == login.userId && row.nim == login.nim && row.name == login.name
  }

  /** A login records the session's row as the user's, active and current, and no other row of the user stays active. */
  lemma CreateSessionRecords(sessions: seq<SessionRow>, rowId: int, login: Login, now: int)
    requires DistinctSessionIds(sessions)
    ensures LoginRecorded(CreateSessionRows(sessions, rowId, login, now), login, now)
    ensures forall k :: 0 <= k < |CreateSessionRows(sessions, rowId, login, now)| ==> OwnedBy(CreateSessionRows(sessions, rowId, login, now)[k], login)
  {
    DeactivateKeepsIds(sessions, login.userId, now);
    var s := DeactivateUser(sessions, login.userId, now);
    var r := CreateSessionRows(sessions, rowId, login, now);
    match FindFirst(s, HasSessionId(login.sessionId))
    case None =>
      assert r[|s|].sessionId == login.sessionId;
    case Some(k) =>
      assert r[k].sessionId == login.sessionId;
  }

  /** The two tables of models/User.php. */
  class UserStore {
    var users: UsersTable
    var sessions: seq<SessionRow>
    var nextSessionRowId: int

    /** Unique nims, ids below the counter, unique session ids. */
    ghost predicate Valid()
      reads this
    {
      DistinctNims(users.rows) && (forall i :: 0 <= i < |users.rows| ==> users.rows[i].id < users.nextId) &&
      DistinctSessionIds(sessions)
    }

    /** The constructor creates the tables and the demo users. */
    constructor (hash: string -> string)
      ensures users == WithAccounts(UsersTable([], 1), DemoAccounts, hash) && sessions == []
      ensures Valid()
    {
      users := UsersTable([], 1);
      sessions := [];
      nextSessionRowId := 1;
      new;
      CreateDemoUsers(hash);
    }

    /** `createDemoUsers`: each demo account is inserted unless its nim is taken. */
    method CreateDemoUsers(hash: string -> string)
      requires Valid()
      modifies this
      ensures users == WithAccounts(old(users), DemoAccounts, hash)
      ensures sessions == old(sessions) && nextSessionRowId == old(nextSessionRowId)
      ensures Valid()
    {
      WithAccountsValid(users, DemoAccounts, hash);
      ghost var start := users;
      for k := 0 to |DemoAccounts|
        invariant users == WithAccounts(start, DemoAccounts[..k], hash)
        invariant sessions == old(sessions) && nextSessionRowId == old(nextSessionRowId)
      {
        assert DemoAccounts[..k + 1][..k] == DemoAccounts[..k];
        var account := DemoAccounts[k];
        if !NimTaken(users.rows, account.nim) {
          users := UsersTable(users.rows + [UserRow(users.nextId, account.nim, account.name, hash(account.password))], users.nextId + 1);
        }
      }
      assert DemoAccounts[..|DemoAccounts|] == DemoAccounts;
    }

    /**
     * `register`: a taken nim is refused and nothing is inserted; otherwise
     * one row with the hashed password, unless the insert fails.
     */
    method Register(nim: string, name: string, hashed: string, insertSucceeds: bool) returns (result: RegisterResult)
      requires Valid()
      modifies this
      ensures Valid() && sessions == old(sessions) && nextSessionRowId == old(nextSessionRowId)
      ensures NimTaken(old(users.rows), nim) ==> result == RegisterFailed("NIM already registered") && users == old(users)
      ensures !NimTaken(old(users.rows), nim) && !insertSucceeds ==> result == RegisterFailed("Failed to register user") && users == old(users)
      ensures !NimTaken(old(users.rows), nim) && insertSucceeds ==>
        result == Registered(AuthUser(old(users.nextId), nim, name)) &&
        users == UsersTable(old(users.rows) + [UserRow(old(users.nextId), nim, name, hashed)], old(users.nextId) + 1)
    {
      if NimTaken(users.rows, nim) {
        return RegisterFailed("NIM already registered");
      }
      if !insertSucceeds {
        return RegisterFailed("Failed to register user");
      }
      var id := users.nextId;
      users := UsersTable(users.rows + [UserRow(id, nim, name, hashed)], id + 1);
      result := Registered(AuthUser(id, nim, name));
    }

    /**
     * `createSession` as written: a reused session id keeps the user it was
     * first recorded for. The auto-increment counter advances either way.
     */
    method CreateSession(login: Login, now: int)
      requires Valid()
      modifies this
      ensures sessions == CreateSessionAsWritten(old(sessions), old(nextSessionRowId), login, now)
      ensures users == old(users) && nextSessionRowId == old(nextSessionRowId) + 1
      ensures Valid() && LoginRecorded(sessions, login, now)
    {
      CreateSessionAsWrittenRecords(sessions, nextSessionRowId, login, now);
      sessions := CreateSessionAsWritten(sessions, nextSessionRowId, login, now);
      nextSessionRowId := nextSessionRowId + 1;
    }

    /**
     * `createSession` corrected so that the duplicate-key update also
     * records who logged in: the session's row is then the user's.
     */
    method CreateSessionRecordingOwner(login: Login, now: int)
      requires Valid()
      modifies this
      ensures sessions == CreateSessionRows(old(sessions), old(nextSessionRowId), login, now)
      ensures users == old(users) && nextSessionRowId == old(nextSessionRowId) + 1
      ensures Valid() && LoginRecorded(sessions, login, now)
      ensures forall k :: 0 <= k < |sessions| ==> OwnedBy(sessions[k], login)
    {
      CreateSessionRecords(sessions, nextSessionRowId, login, now);
      sessions := CreateSessionRows(sessions, nextSessionRowId, login, now);
      nextSessionRowId := nextSessionRowId + 1;
    }

    /** `destroySession`. */
    method DestroySession(sessionId: string, now: int)
      requires Valid()
      modifies this
      ensures sessions == DestroySessionRows(old(sessions), sessionId, now)
      ensures users == old(users) && nextSessionRowId == old(nextSessionRowId)
      ensures Valid()
    {
      sessions := DestroySessionRows(sessions, sessionId, now);
    }

    /** `updateSessionActivity`. */
    method UpdateSessionActivity(sessionId: string, now: int)
      requires Valid()
      modifies this
      ensures sessions == TouchSessionRows(old(sessions), sessionId, now)
      ensures users == old(users) && nextSessionRowId == old(nextSessionRowId)
      ensures Valid()
    {
      sessions := TouchSessionRows(sessions, sessionId, now);
    }

    /**
     * `getActiveUsers`: the `fetch_assoc` loop over the query's rows, which
     * collects every listed row, most recent first.
     */
    method GetActiveUsers(now: int) returns (list: seq<ActiveUser>)
      ensures list == ActiveUsers(sessions, now)
      ensures forall i, j :: 0 <= i < j < |list| ==> list[i].lastActivity >= list[j].lastActivity
      ensures forall s :: s in sessions && Listed(now)(s) ==> Project(s, now) in list
    {
      ActiveUsersExactly(sessions, now);
      var fetched := SortByRecent(Filter(sessions, Listed(now)));
      list := [];
      var k := 0;
      while k < |fetched|
        invariant 0 <= k <= |fetched|
        invariant list == ProjectAll(fetched[..k], now)
      {
        list := list + [Project(fetched[k], now)];
        k := k + 1;
      }
      assert fetched[..k] == fetched;
    }

    /** `cleanupExpiredSessions`. */
    method CleanupExpiredSessions(now: int)
      requires Valid()
      modifies this
      ensures sessions == CleanupRows(old(sessions), now)
      ensures ActiveUsers(sessions, now) == ActiveUsers(old(sessions), now)
      ensures users == old(users) && nextSessionRowId == old(nextSessionRowId)
      ensures Valid()
    {
      CleanupKeepsListed(sessions, now);
      sessions := CleanupRows(sessions, now);
    }
  }
}
