/**
 * The single-file backend `server.js`: the same routes as the controllers,
 * but with accounts that carry `is_active`, a failed-login counter and a
 * lock, and with refresh tokens and one-time codes kept in tables
 * (`refresh_tokens`, `otp_codes`) instead of process memory.
 */
module Server {
  import opened Wrappers
  import opened Text
  import opened Crypto
  import opened EmailFormat
  import opened Store
  import AuthMemory

  /** A `users` row of this schema. */
  datatype Account = Account(username: string, fullName: string, email: string, password: PasswordHash, role: string,
                             isActive: bool, failed: nat, lockedUntil: Option<nat>)

  /** A `refresh_tokens` row. */
  datatype RefreshRow = RefreshRow(userId: UserId, token: Token, expiresAt: nat)

  /** An `otp_codes` row; the table holds at most one per e-mail (`onConflict: 'email'`). */
  datatype OtpRow = OtpRow(code: PasswordHash, expiresAt: nat, used: bool)

  const MAX_ATTEMPTS: nat := 5
  const LOCK_MS: nat := 15 * 60 * 1000
  const REFRESH_ROW_MS: nat := 7 * 24 * 60 * 60 * 1000
  const OTP_MS: nat := 10 * 60 * 1000

  function AccountsNamed(accounts: map<UserId, Account>, name: string): set<UserId> {
    set id | id in accounts && accounts[id].username == name
  }

  function AccountsWithEmail(accounts: map<UserId, Account>, email: string): set<UserId> {
    set id | id in accounts && accounts[id].email == email
  }

  /** The unique constraints on `username` and `email` that the model assumes of the `users` table. */
  ghost predicate UniqueLogins(accounts: map<UserId, Account>) {
    forall a, b | a in accounts && b in accounts && a != b ::
      accounts[a].username != accounts[b].username && accounts[a].email != accounts[b].email
  }

  lemma NamedIsOne(accounts: map<UserId, Account>, id: UserId)
    requires UniqueLogins(accounts) && id in accounts
    ensures AccountsNamed(accounts, accounts[id].username) == {id}
  {
  }

  // ---------------------------------------------------------------- login and lockout

  /** `user.locked_until && new Date(user.locked_until) > new Date()` */
  predicate IsLocked(a: Account, nowMs: nat) {
    a.lockedUntil.Some? && a.lockedUntil.value > nowMs
  }

  datatype Verdict = Disabled | Locked | WrongPassword | Accepted

  /**
   * The checks `login` makes on a found account, in order: disabled, then
   * locked, and only then the password, so a locked account is refused
   * before its password is compared.
   */
  function Judge(a: Account, password: string, nowMs: nat): (v: Verdict)
    ensures v == Disabled <==> !a.isActive
    ensures v == Locked <==> a.isActive && IsLocked(a, nowMs)
    ensures v == WrongPassword <==> a.isActive && !IsLocked(a, nowMs) && !Compare(password, a.password)
    ensures v == Accepted <==> a.isActive && !IsLocked(a, nowMs) && Compare(password, a.password)
  {
    if !a.isActive then Disabled
    else if IsLocked(a, nowMs) then Locked
    else if !Compare(password, a.password) then WrongPassword
    else Accepted
  }

  /**
   * The row after one attempt: a wrong password counts one more failure and
   * locks for 15 minutes from the fifth on (clearing the lock below that); a
   * success clears both; a refused attempt changes nothing.
   */
  function AfterAttempt(a: Account, password: string, nowMs: nat): (b: Account)
    ensures Judge(a, password, nowMs) == WrongPassword ==>
              && b == a.(failed := a.failed + 1, lockedUntil := b.lockedUntil)
              && (b.lockedUntil.Some? <==> a.failed + 1 >= MAX_ATTEMPTS)
              && (b.lockedUntil.Some? ==> b.lockedUntil.value == nowMs + LOCK_MS)
    ensures Judge(a, password, nowMs) == Accepted ==> b == a.(failed := 0, lockedUntil := None)
    ensures Judge(a, password, nowMs) in {Disabled, Locked} ==> b == a
  {
    match Judge(a, password, nowMs)
    case WrongPassword =>
      var attempts := a.failed + 1;
      a.(failed := attempts, lockedUntil := if attempts >= MAX_ATTEMPTS then Some(nowMs + LOCK_MS) else None)
    case Accepted => a.(failed := 0, lockedUntil := None)
    case _ => a
  }

  /** The counter never goes down except on a successful login. */
  lemma CounterOnlyResetBySuccess(a: Account, password: string, nowMs: nat)
    ensures AfterAttempt(a, password, nowMs).failed < a.failed ==> Judge(a, password, nowMs) == Accepted
  {
  }

  /** The same password tried at each of the given times, in order. */
  function Attempts(a: Account, password: string, times: seq<nat>): Account
    decreases |times|
  {
    if times == [] then a else Attempts(AfterAttempt(a, password, times[0]), password, times[1..])
  }

  /**
   * Wrong passwords on an enabled, unlocked account count up one by one; the
   * account stays unlocked below five failures, and the attempt that makes
   * the fifth locks it for 15 minutes from that attempt.
   */
  lemma {:induction false} FailuresCount(a: Account, wrong: string, times: seq<nat>)
    requires a.isActive && a.lockedUntil.None? && !Compare(wrong, a.password)
    requires 1 <= |times| && a.failed + |times| <= MAX_ATTEMPTS
    ensures Attempts(a, wrong, times).failed == a.failed + |times|
    ensures Attempts(a, wrong, times).lockedUntil ==
              if a.failed + |times| == MAX_ATTEMPTS then Some(times[|times| - 1] + LOCK_MS) else None
    ensures Attempts(a, wrong, times).password == a.password && Attempts(a, wrong, times).isActive
    decreases |times|
  {
    var b := AfterAttempt(a, wrong, times[0]);
    assert Judge(a, wrong, times[0]) == WrongPassword;
    if |times| > 1 {
      FailuresCount(b, wrong, times[1..]);
      assert times[1..][|times[1..]| - 1] == times[|times| - 1];
    } else {
      assert Attempts(b, wrong, times[1..]) == b;
    }
  }

  /**
   * Five wrong passwords in a row lock an enabled account: for 15 minutes
   * after the fifth, even the right password is refused as locked.
   */
  lemma FiveFailuresLock(a: Account, wrong: string, right: string, times: seq<nat>, nowMs: nat)
    requires a.isActive && a.failed == 0 && a.lockedUntil.None? && !Compare(wrong, a.password)
    requires |times| == MAX_ATTEMPTS && times[4] <= nowMs < times[4] + LOCK_MS
    ensures Judge(Attempts(a, wrong, times), right, nowMs) == Locked
  {
    FailuresCount(a, wrong, times);
  }

  /**
   * Once the counter has reached five it stays there until a success, a
   * reset or an unlock, so after the lock runs out the next wrong password
   * locks the account again at once.
   */
  lemma ReLockAfterExpiry(a: Account, wrong: string, nowMs: nat)
    requires a.isActive && a.failed >= MAX_ATTEMPTS && !IsLocked(a, nowMs) && !Compare(wrong, a.password)
    ensures AfterAttempt(a, wrong, nowMs).lockedUntil == Some(nowMs + LOCK_MS)
    ensures IsLocked(AfterAttempt(a, wrong, nowMs), nowMs)
  {
  }

  /** Once the lock has run out, the right password is accepted and clears the counter. */
  lemma LockExpires(a: Account, right: string, nowMs: nat)
    requires a.isActive && a.lockedUntil.Some? && a.lockedUntil.value <= nowMs && Compare(right, a.password)
    ensures Judge(a, right, nowMs) == Accepted
    ensures AfterAttempt(a, right, nowMs).failed == 0 && AfterAttempt(a, right, nowMs).lockedUntil.None?
  {
  }

  /** `login`'s reply: 400, 401 for an unknown name, then the account's verdict. */
  function LoginCheck(accounts: map<UserId, Account>, username: string, password: string, nowMs: nat): (r: Result<UserId>)
    ensures r.Ok? ==> r.value in accounts && accounts[r.value].username == username
                      && Judge(accounts[r.value], password, nowMs) == Accepted
    ensures r == Fail(400, "Username and password required") <==> username == "" || password == ""
    ensures username != "" && password != "" && TheOne(AccountsNamed(accounts, username)).Some? ==>
              var id := TheOne(AccountsNamed(accounts, username)).value;
              (r.Ok? <==> Judge(accounts[id], password, nowMs) == Accepted)
              && (r.Fail? && r.status == 403 <==> Judge(accounts[id], password, nowMs) in {Disabled, Locked})
  {
    if username == "" || password == "" then Fail(400, "Username and password required")
    else match TheOne(AccountsNamed(accounts, username))
      case None => Fail(401, "Invalid username or password")
      case Some(id) =>
        match Judge(accounts[id], password, nowMs)
        case Disabled => Fail(403, "Account is disabled. Contact an admin.")
        case Locked => Fail(403, "Account locked")
        case WrongPassword => Fail(401, "Invalid username or password")
        case Accepted => Ok(id)
  }

  /** The reply of a successful login or refresh: the token pair and the row without its hash. */
  function Issue(id: UserId, a: Account, nowMs: nat): AuthMemory.Session {
    var claims := UserClaims(id, a.username, a.role);
    AuthMemory.Session(SignAccess(claims, nowMs), SignRefresh(claims, nowMs),
                       AuthMemory.Summary(id, a.username, a.fullName, a.email, a.role))
  }

  // ---------------------------------------------------------------- refresh tokens

  /** The rows `.eq('token', t).eq('user_id', id)` selects; an absent id matches nothing. */
  function MatchingRows(rows: seq<RefreshRow>, t: Token, id: Option<nat>): set<nat> {
    set i | 0 <= i < |rows| && rows[i].token == t && id == Some(rows[i].userId)
  }

  /**
   * `refresh`'s checks, every refusal a 401: the token must verify with the
   * refresh secret, exactly one row must hold it for the token's user (the
   * row's own `expires_at` is never read), and that account must be active.
   */
  function RefreshCheck(rows: seq<RefreshRow>, accounts: map<UserId, Account>, token: Option<Token>, nowMs: nat): (r: Result<UserId>)
    ensures r.Fail? ==> r.status == 401
    ensures r.Ok? ==> token.Some? && Verify(token.value, RefreshSecret, nowMs).Some?
                      && Verify(token.value, RefreshSecret, nowMs).value.id == Some(r.value)
                      && |MatchingRows(rows, token.value, Some(r.value))| == 1
                      && r.value in accounts && accounts[r.value].isActive
    ensures (token.Some? && Verify(token.value, RefreshSecret, nowMs).Some?
             && var id := Verify(token.value, RefreshSecret, nowMs).value.id;
                id.Some? && |MatchingRows(rows, token.value, id)| == 1
                && id.value in accounts && accounts[id.value].isActive) ==> r.Ok?
  {
    match token
    case None => Fail(401, "Refresh token required")
    case Some(t) =>
      match Verify(t, RefreshSecret, nowMs)
      case None => Fail(401, "Invalid refresh token")
      case Some(claims) =>
        if TheOne(MatchingRows(rows, t, claims.id)).None? then Fail(401, "Refresh token revoked")
        else if claims.id.None? || claims.id.value !in accounts || !accounts[claims.id.value].isActive
        then Fail(401, "User not found or disabled")
        else Ok(claims.id.value)
  }

  /** `.delete().eq('token', t)`: every row holding the token goes, whoever it belongs to. */
  function WithoutToken(rows: seq<RefreshRow>, t: Token): (r: seq<RefreshRow>)
    ensures forall i | 0 <= i < |r| :: r[i].token != t && r[i] in rows
    ensures forall i | 0 <= i < |rows| && rows[i].token != t :: rows[i] in r
  {
    if rows == [] then []
    else (if rows[0].token == t then [] else [rows[0]]) + WithoutToken(rows[1..], t)
  }

  /** Each surviving row keeps its multiplicity; only the rows holding the token go. */
  lemma {:induction false} WithoutTokenCounts(rows: seq<RefreshRow>, t: Token)
    ensures forall x :: multiset(WithoutToken(rows, t))[x] == if x.token == t then 0 else multiset(rows)[x]
  {
    if rows != [] {
      assert rows == [rows[0]] + rows[1..];
      WithoutTokenCounts(rows[1..], t);
    }
  }

  /** The delete keeps the surviving rows in table order: it distributes over concatenation. */
  lemma {:induction false} WithoutTokenConcat(a: seq<RefreshRow>, b: seq<RefreshRow>, t: Token)
    ensures WithoutToken(a + b, t) == WithoutToken(a, t) + WithoutToken(b, t)
  {
    if a == [] {
      assert a + b == b;
    } else {
      assert (a + b)[0] == a[0] && (a + b)[1..] == a[1..] + b;
      WithoutTokenConcat(a[1..], b, t);
    }
  }

  /** After a logout or a rotation the token matches no row, so it is refused as revoked. */
  lemma DeletedTokenRevoked(rows: seq<RefreshRow>, accounts: map<UserId, Account>, t: Token, nowMs: nat)
    requires Verify(t, RefreshSecret, nowMs).Some?
    ensures RefreshCheck(WithoutToken(rows, t), accounts, Some(t), nowMs) == Fail(401, "Refresh token revoked")
  {
    assert MatchingRows(WithoutToken(rows, t), t, Verify(t, RefreshSecret, nowMs).value.id) == {};
  }

  /**
   * A refresh token a login has just stored is accepted for a week less a
   * second, provided the table held no copy of it before.
   */
  lemma StoredTokenRefreshes(rows: seq<RefreshRow>, accounts: map<UserId, Account>, id: UserId, loginMs: nat, nowMs: nat)
    requires id in accounts && accounts[id].isActive
    requires var t := Issue(id, accounts[id], loginMs).refreshToken;
             forall i | 0 <= i < |rows| :: rows[i].token != t
    requires loginMs <= nowMs < loginMs + (REFRESH_TTL_S - 1) * 1000
    ensures var t := Issue(id, accounts[id], loginMs).refreshToken;
            RefreshCheck(rows + [RefreshRow(id, t, loginMs + REFRESH_ROW_MS)], accounts, Some(t), nowMs) == Ok(id)
  {
    var a := accounts[id];
    var claims := UserClaims(id, a.username, a.role);
    var t := Issue(id, a, loginMs).refreshToken;
    VerifySigned(RefreshSecret, claims, loginMs, REFRESH_TTL_S, nowMs);
    var rows' := rows + [RefreshRow(id, t, loginMs + REFRESH_ROW_MS)];
    assert MatchingRows(rows', t, Some(id)) == {|rows|};
  }

  /**
   * Two logins of one user within the same second store the same refresh
   * token twice; `maybeSingle` then sees two rows, and refresh refuses that
   * token as revoked.
   */
  lemma SameSecondLoginsRevoke(rows: seq<RefreshRow>, accounts: map<UserId, Account>, id: UserId,
                               firstMs: nat, secondMs: nat, nowMs: nat)
    requires id in accounts && firstMs / 1000 == secondMs / 1000
    ensures var t := Issue(id, accounts[id], firstMs).refreshToken;
            && Issue(id, accounts[id], secondMs).refreshToken == t
            && (Verify(t, RefreshSecret, nowMs).Some? ==>
                  RefreshCheck(rows + [RefreshRow(id, t, firstMs + REFRESH_ROW_MS), RefreshRow(id, t, secondMs + REFRESH_ROW_MS)],
                               accounts, Some(t), nowMs) == Fail(401, "Refresh token revoked"))
  {
    var t := Issue(id, accounts[id], firstMs).refreshToken;
    var rows' := rows + [RefreshRow(id, t, firstMs + REFRESH_ROW_MS), RefreshRow(id, t, secondMs + REFRESH_ROW_MS)];
    if Verify(t, RefreshSecret, nowMs).Some? {
      var m := MatchingRows(rows', t, Some(id));
      assert |rows| in m && |rows| + 1 in m;
      assert {|rows|, |rows| + 1} <= m;
      assert |{|rows|, |rows| + 1}| == 2;
      SubsetCardinality({|rows|, |rows| + 1}, m);
    }
  }

  // ---------------------------------------------------------------- registration

  /**
   * `register` as the checks are meant: 400 for a missing field or a
   * malformed address, 409 when any account has the username or the e-mail.
   */
  function RegisterCheck(accounts: map<UserId, Account>, username: string, password: string, fullName: string, email: string): (r: Result<()>)
    ensures r == Fail(400, "All fields are required") <==> username == "" || password == "" || fullName == "" || email == ""
    ensures r.Ok? <==> username != "" && password != "" && fullName != "" && email != "" && ValidEmail(email)
                       && AccountsNamed(accounts, username) == {} && AccountsWithEmail(accounts, email) == {}
    ensures r.Fail? ==> r.status in {400, 409}
  {
    if username == "" || password == "" || fullName == "" || email == "" then Fail(400, "All fields are required")
    else if !ValidEmail(email) then Fail(400, "Invalid email format")
    else if AccountsNamed(accounts, username) + AccountsWithEmail(accounts, email) != {}
    then Fail(409, "Username or email already taken")
    else Ok(())
  }

  /**
   * `register` as written: `.or(username, email).maybeSingle()` yields a row
   * only when exactly one account matches. When the username is one
   * account's and the e-mail another's, nothing is found, and the insert
   * then breaks the assumed unique constraint: a 500 instead of a 409.
   */
  function RegisterAsWritten(accounts: map<UserId, Account>, username: string, password: string, fullName: string, email: string): Result<()> {
    if username == "" || password == "" || fullName == "" || email == "" then Fail(400, "All fields are required")
    else if !ValidEmail(email) then Fail(400, "Invalid email format")
    else if TheOne(AccountsNamed(accounts, username) + AccountsWithEmail(accounts, email)).Some?
    then Fail(409, "Username or email already taken")
    else if AccountsNamed(accounts, username) + AccountsWithEmail(accounts, email) != {}
    then Fail(500, "duplicate key value violates unique constraint")
    else Ok(())
  }

  /** The two agree except when the username and the e-mail belong to two different accounts. */
  lemma RegisterVersionsAgree(accounts: map<UserId, Account>, username: string, password: string, fullName: string, email: string)
    requires UniqueLogins(accounts)
    requires !(exists a, b | a in AccountsNamed(accounts, username) && b in AccountsWithEmail(accounts, email) :: a != b)
    ensures RegisterAsWritten(accounts, username, password, fullName, email) == RegisterCheck(accounts, username, password, fullName, email)
  {
    var m := AccountsNamed(accounts, username) + AccountsWithEmail(accounts, email);
    if m != {} {
      var x :| x in m;
      assert m == {x};
    }
  }

  /** With the username on one account and the e-mail on another, the written code skips the 409 and (under the assumed constraint) answers 500. */
  lemma RegisterSplitMatch(accounts: map<UserId, Account>, a: UserId, b: UserId, password: string, fullName: string)
    requires a in accounts && b in accounts && a != b && UniqueLogins(accounts)
    requires accounts[a].username != "" && password != "" && fullName != "" && ValidEmail(accounts[b].email)
    ensures RegisterAsWritten(accounts, accounts[a].username, password, fullName, accounts[b].email)
              == Fail(500, "duplicate key value violates unique constraint")
    ensures RegisterCheck(accounts, accounts[a].username, password, fullName, accounts[b].email) == Fail(409, "Username or email already taken")
  {
    var m := AccountsNamed(accounts, accounts[a].username) + AccountsWithEmail(accounts, accounts[b].email);
    assert a in m && b in m;
    assert {a, b} <= m;
    assert |{a, b}| == 2;
    SubsetCardinality({a, b}, m);
  }

  /** Two accounts, alice and bob, with distinct names and addresses. */
  function Pair(): map<UserId, Account> {
    map[1 := Account("alice", "Alice", "alice@ex.io", Hash("pw1", PASSWORD_COST), "user", true, 0, None),
        2 := Account("bob", "Bob", "bob@ex.io", Hash("pw2", PASSWORD_COST), "user", true, 0, None)]
  }

  lemma BobEmailValid()
    ensures ValidEmail("bob@ex.io")
  {
    assert "bob@ex.io" == "bob" + "@" + "ex" + "." + "io";
    ValidEmailOfParts("bob", "ex", "io");
  }

  lemma PairFacts()
    ensures 1 in Pair() && 2 in Pair() && UniqueLogins(Pair())
    ensures Pair()[1].username == "alice" && Pair()[2].email == "bob@ex.io" && ValidEmail("bob@ex.io")
  {
    var accounts := Pair();
    BobEmailValid();
    assert |accounts[1].username| != |accounts[2].username| && |accounts[1].email| != |accounts[2].email|;
    forall a, b | a in accounts && b in accounts && a != b
      ensures accounts[a].username != accounts[b].username && accounts[a].email != accounts[b].email
    {
      assert {a, b} == {1, 2};
    }
  }

  /** Registering "alice" with bob's address: the written check answers 500 where 409 is meant. */
  lemma RegisterSplitMatchExample()
    ensures RegisterAsWritten(Pair(), "alice", "pw3", "Eve", "bob@ex.io") == Fail(500, "duplicate key value violates unique constraint")
    ensures RegisterCheck(Pair(), "alice", "pw3", "Eve", "bob@ex.io") == Fail(409, "Username or email already taken")
  {
    PairFacts();
    RegisterSplitMatch(Pair(), 1, 2, "pw3", "Eve");
  }

  // ---------------------------------------------------------------- one-time codes and reset

  /** `verify-otp`'s checks: a missing, used or expired row is "invalid or expired"; then the code is compared. */
  function OtpCheck(otps: map<string, OtpRow>, email: string, otp: string, nowMs: nat): (r: Result<()>)
    ensures r.Fail? ==> r.status == 400
    ensures r == Fail(400, "OTP is invalid or expired") <==>
              email != "" && otp != "" && (email !in otps || otps[email].used || otps[email].expiresAt < nowMs)
    ensures r.Ok? <==> email != "" && otp != "" && email in otps && !otps[email].used
                       && otps[email].expiresAt >= nowMs && Compare(otp, otps[email].code)
  {
    if email == "" || otp == "" then Fail(400, "Email and OTP required")
    else if email !in otps || otps[email].used || otps[email].expiresAt < nowMs then Fail(400, "OTP is invalid or expired")
    else if !Compare(otp, otps[email].code) then Fail(400, "Incorrect OTP")
    else Ok(())
  }

  /**
   * A freshly issued code verifies within its ten minutes; a wrong guess
   * first does not spend it; once it has verified it is used and refused.
   */
  lemma OtpRowLifecycle(otps: map<string, OtpRow>, email: string, draw: nat, wrong: string, issuedMs: nat, nowMs: nat, laterMs: nat)
    requires email != "" && draw < 900000 && wrong != "" && wrong != AuthMemory.OtpCode(draw)
    requires issuedMs <= nowMs <= issuedMs + OTP_MS
    ensures var code := AuthMemory.OtpCode(draw);
            var issued := otps[email := OtpRow(Hash(code, OTP_COST), issuedMs + OTP_MS, false)];
            && OtpCheck(issued, email, wrong, nowMs) == Fail(400, "Incorrect OTP")
            && OtpCheck(issued, email, code, nowMs).Ok?
            && OtpCheck(issued[email := issued[email].(used := true)], email, code, laterMs) == Fail(400, "OTP is invalid or expired")
  {
  }

  /** `reset-password`: the new hash, with the counter and the lock cleared, on every account with the e-mail. */
  function WithNewPassword(accounts: map<UserId, Account>, email: string, h: PasswordHash): (r: map<UserId, Account>)
    ensures r.Keys == accounts.Keys
    ensures forall id | id in accounts && accounts[id].email == email ::
              r[id] == accounts[id].(password := h, failed := 0, lockedUntil := None)
    ensures forall id | id in accounts && accounts[id].email != email :: r[id] == accounts[id]
  {
    map id | id in accounts :: if accounts[id].email == email then accounts[id].(password := h, failed := 0, lockedUntil := None) else accounts[id]
  }

  /** A reset lifts a lock at once: the new password is accepted even inside the 15 minutes. */
  lemma ResetLiftsLock(accounts: map<UserId, Account>, id: UserId, pw: string, nowMs: nat)
    requires id in accounts && accounts[id].isActive
    ensures var after := WithNewPassword(accounts, accounts[id].email, Hash(pw, PASSWORD_COST));
            Judge(after[id], pw, nowMs) == Accepted
  {
  }

  // ---------------------------------------------------------------- guards and file checks

  /** `requireAuth` of this file: the same chain as the middleware, but it reads `is_active`. */
  function RequireAuth(header: Option<string>, decode: string -> Token, accounts: map<UserId, Account>, nowMs: nat): (r: Result<UserId>)
    ensures r.Fail? ==> r.status == 401
    ensures r == Fail(401, "Authentication required") <==> header.None? || !StartsWith(header.value, "Bearer ")
    ensures r.Ok? <==>
      && header.Some? && StartsWith(header.value, "Bearer ")
      && var claims := Verify(decode(header.value[7..]), AccessSecret, nowMs);
         claims.Some? && claims.value.id.Some? && claims.value.id.value in accounts && accounts[claims.value.id.value].isActive
    ensures r.Ok? ==> r.value in accounts
  {
    if header.None? || !StartsWith(header.value, "Bearer ") then Fail(401, "Authentication required")
    else match Verify(decode(header.value[7..]), AccessSecret, nowMs)
      case None => Fail(401, "Invalid or expired token")
      case Some(claims) =>
        if claims.id.None? || claims.id.value !in accounts || !accounts[claims.id.value].isActive
        then Fail(401, "Invalid or expired token")
        else Ok(claims.id.value)
  }

  /** A lock does not end a session: an access token of a locked but active account still passes the guard. */
  lemma LockedAccountKeepsSession(raw: string, decode: string -> Token, accounts: map<UserId, Account>, id: UserId,
                                  claims: Claims, signedMs: nat, nowMs: nat)
    requires decode(raw) == SignAccess(claims, signedMs) && claims.id == Some(id)
    requires signedMs <= nowMs < signedMs + (ACCESS_TTL_S - 1) * 1000
    requires id in accounts && accounts[id].isActive && IsLocked(accounts[id], nowMs)
    ensures RequireAuth(Some("Bearer " + raw), decode, accounts, nowMs) == Ok(id)
  {
    assert ("Bearer " + raw)[..7] == "Bearer ";
    assert ("Bearer " + raw)[7..] == raw;
    VerifySigned(AccessSecret, claims, signedMs, ACCESS_TTL_S, nowMs);
  }

  /**
   * Download, preview and delete of a user file: 404 unless an active row
   * has the id, then 403 unless the caller owns it or is an admin. There
   * are no shares on these routes, and an ownerless file is the admins' only.
   */
  function FileCheck(files: map<FileId, File>, id: FileId, caller: UserId, role: string): (r: Result<File>)
    ensures r == Fail(404, "File not found") <==> id !in files || files[id].status != ACTIVE
    ensures r == Fail(403, "Access denied") <==>
              id in files && files[id].status == ACTIVE && files[id].owner != Some(caller) && role != ADMIN
    ensures r.Ok? ==> id in files && r.value == files[id]
  {
    if id !in files || files[id].status != ACTIVE then Fail(404, "File not found")
    else if files[id].owner != Some(caller) && role != ADMIN then Fail(403, "Access denied")
    else Ok(files[id])
  }

  /** `.update({ status: 'deleted' }).eq('user_id', id)` */
  function FilesOfDeleted(files: map<FileId, File>, owner: UserId): (r: map<FileId, File>)
    ensures r.Keys == files.Keys
    ensures forall f | f in files :: r[f] == if files[f].owner == Some(owner) then files[f].(status := DELETED) else files[f]
  {
    map f | f in files :: if files[f].owner == Some(owner) then files[f].(status := DELETED) else files[f]
  }

  // ---------------------------------------------------------------- the tables

  class ServerState {
    var accounts: map<UserId, Account>
    /** `refresh_tokens`, in insertion order; nothing makes `token` unique. */
    var refreshRows: seq<RefreshRow>
    /** `otp_codes`, keyed by e-mail. */
    var otpRows: map<string, OtpRow>
    var files: map<FileId, File>

    ghost predicate Valid()
      reads this
    {
      UniqueLogins(accounts)
    }

    constructor ()
      ensures Valid() && accounts == map[] && refreshRows == [] && otpRows == map[] && files == map[]
    {
      accounts, refreshRows, otpRows, files := map[], [], map[], map[];
    }

    /** `register`, as corrected: an active 'user' account with a cost-12 hash. */
    method Register(username: string, password: string, fullName: string, email: string, newId: UserId) returns (r: Result<()>)
      requires Valid() && newId !in accounts
      modifies this`accounts
      ensures Valid()
      ensures r == RegisterCheck(old(accounts), username, password, fullName, email)
      ensures r.Ok? ==> accounts == old(accounts)[newId := Account(username, fullName, email, Hash(password, PASSWORD_COST), "user", true, 0, None)]
      ensures r.Fail? ==> accounts == old(accounts)
    {
      r := RegisterCheck(accounts, username, password, fullName, email);
      if r.Ok? {
        assert forall id | id in accounts :: accounts[id].username != username && accounts[id].email != email by {
          assert forall id | id in accounts :: id !in AccountsNamed(accounts, username) && id !in AccountsWithEmail(accounts, email);
        }
        accounts := accounts[newId := Account(username, fullName, email, Hash(password, PASSWORD_COST), "user", true, 0, None)];
      }
    }

    /**
     * `login`: the found account's row is updated by the attempt; on success
     * a refresh-token row valid for 7 days is stored and the pair returned.
     */
    method Login(username: string, password: string, nowMs: nat) returns (r: Result<AuthMemory.Session>)
      requires Valid()
      modifies this`accounts, this`refreshRows
      ensures Valid()
      ensures var check := LoginCheck(old(accounts), username, password, nowMs);
              var found := TheOne(AccountsNamed(old(accounts), username));
              && (check.Fail? ==> r == Fail(check.status, check.message) && refreshRows == old(refreshRows))
              && (check.Fail? && (username == "" || password == "" || found.None?) ==> accounts == old(accounts))
              && (username != "" && password != "" && found.Some? ==>
                    accounts == old(accounts)[found.value := AfterAttempt(old(accounts)[found.value], password, nowMs)])
              && (check.Ok? ==> r == Ok(Issue(check.value, old(accounts)[check.value], nowMs))
                                && refreshRows == old(refreshRows) + [RefreshRow(check.value, r.value.refreshToken, nowMs + REFRESH_ROW_MS)])
    {
      var check := LoginCheck(accounts, username, password, nowMs);
      if username == "" || password == "" {
        return Fail(check.status, check.message);
      }
      var found := TheOne(AccountsNamed(accounts, username));
      if found.None? {
        return Fail(check.status, check.message);
      }
      var a := accounts[found.value];
      accounts := accounts[found.value := AfterAttempt(a, password, nowMs)];
      if check.Fail? {
        return Fail(check.status, check.message);
      }
      var s := Issue(found.value, a, nowMs);
      refreshRows := refreshRows + [RefreshRow(found.value, s.refreshToken, nowMs + REFRESH_ROW_MS)];
      r := Ok(s);
    }

    /**
     * `refresh`: delete every row holding the presented token, then insert
     * the new one. The insert's outcome (`insertFails`) is not looked at: the
     * reply is the same either way.
     */
    method Refresh(token: Option<Token>, nowMs: nat, insertFails: bool) returns (r: Result<AuthMemory.Session>)
      modifies this`refreshRows
      ensures var check := RefreshCheck(old(refreshRows), accounts, token, nowMs);
              && (check.Fail? ==> r == Fail(check.status, check.message) && refreshRows == old(refreshRows))
              && (check.Ok? ==> r == Ok(Issue(check.value, accounts[check.value], nowMs))
                                && refreshRows == WithoutToken(old(refreshRows), token.value)
                                                  + (if insertFails then [] else [RefreshRow(check.value, r.value.refreshToken, nowMs + REFRESH_ROW_MS)]))
    {
      var check := RefreshCheck(refreshRows, accounts, token, nowMs);
      if check.Fail? {
        return Fail(check.status, check.message);
      }
      refreshRows := WithoutToken(refreshRows, token.value);
      var s := Issue(check.value, accounts[check.value], nowMs);
      if !insertFails {
        refreshRows := refreshRows + [RefreshRow(check.value, s.refreshToken, nowMs + REFRESH_ROW_MS)];
      }
      r := Ok(s);
    }

    /** `logout`: always succeeds; deletes every row holding the token, if one was given. */
    method Logout(token: Option<Token>)
      modifies this`refreshRows
      ensures token.Some? ==> refreshRows == WithoutToken(old(refreshRows), token.value)
      ensures token.None? ==> refreshRows == old(refreshRows)
    {
      if token.Some? {
        refreshRows := WithoutToken(refreshRows, token.value);
      }
    }

    /** `check-username`: upsert one unused, cost-8 hashed code per e-mail, valid 10 minutes; reply with the masked address. */
    method CheckUsername(email: string, draw: nat, nowMs: nat) returns (r: Result<string>)
      requires draw < 900000
      modifies this`otpRows
      ensures email == "" ==> r == Fail(400, "Email required") && otpRows == old(otpRows)
      ensures email != "" && TheOne(AccountsWithEmail(accounts, email)).None? ==>
                r == Fail(404, "No account found with that email") && otpRows == old(otpRows)
      ensures email != "" && TheOne(AccountsWithEmail(accounts, email)).Some? ==>
                && r == Ok(Mask(email))
                && otpRows == old(otpRows)[email := OtpRow(Hash(AuthMemory.OtpCode(draw), OTP_COST), nowMs + OTP_MS, false)]
    {
      if email == "" {
        return Fail(400, "Email required");
      }
      if TheOne(AccountsWithEmail(accounts, email)).None? {
        return Fail(404, "No account found with that email");
      }
      otpRows := otpRows[email := OtpRow(Hash(AuthMemory.OtpCode(draw), OTP_COST), nowMs + OTP_MS, false)];
      r := Ok(Mask(email));
    }

    /** `verify-otp`: a matching code marks its row used and is exchanged for a 10-minute reset token. */
    method VerifyOtp(email: string, otp: string, nowMs: nat) returns (r: Result<Token>)
      modifies this`otpRows
      ensures var check := OtpCheck(old(otpRows), email, otp, nowMs);
              && (check.Fail? ==> r == Fail(check.status, check.message) && otpRows == old(otpRows))
              && (check.Ok? ==> r == Ok(Sign(AccessSecret, EmailClaims(email), nowMs, RESET_TTL_S))
                                && otpRows == old(otpRows)[email := old(otpRows)[email].(used := true)])
    {
      var check := OtpCheck(otpRows, email, otp, nowMs);
      if check.Fail? {
        return Fail(check.status, check.message);
      }
      otpRows := otpRows[email := otpRows[email].(used := true)];
      r := Ok(Sign(AccessSecret, EmailClaims(email), nowMs, RESET_TTL_S));
    }

    /** `reset-password`: new hash, counter and lock cleared on the token's e-mail ("undefined" when it has none). */
    method ResetPassword(token: Option<Token>, newPassword: string, nowMs: nat) returns (r: Result<()>)
      requires Valid()
      modifies this`accounts
      ensures Valid()
      ensures var check := AuthMemory.ResetCheck(token, newPassword, nowMs);
              && (check.Fail? ==> r == Fail(check.status, check.message) && accounts == old(accounts))
              && (check.Ok? ==> r == Ok(()) && accounts == WithNewPassword(old(accounts), check.value, Hash(newPassword, PASSWORD_COST)))
    {
      var check := AuthMemory.ResetCheck(token, newPassword, nowMs);
      if check.Fail? {
        return Fail(check.status, check.message);
      }
      accounts := WithNewPassword(accounts, check.value, Hash(newPassword, PASSWORD_COST));
      r := Ok(());
    }

    /** `DELETE /api/user/files/:id`: owner or admin marks an active file deleted. */
    method DeleteFile(id: FileId, caller: UserId, role: string) returns (r: Result<()>)
      modifies this`files
      ensures FileCheck(old(files), id, caller, role).Fail? ==>
                r == Fail(FileCheck(old(files), id, caller, role).status, FileCheck(old(files), id, caller, role).message)
                && files == old(files)
      ensures FileCheck(old(files), id, caller, role).Ok? ==>
                r == Ok(()) && files == old(files)[id := old(files)[id].(status := DELETED)]
    {
      var check := FileCheck(files, id, caller, role);
      if check.Fail? {
        return Fail(check.status, check.message);
      }
      files := files[id := files[id].(status := DELETED)];
      r := Ok(());
    }

    /** Admin toggle: 404 for a missing user, otherwise flip `is_active`. */
    method ToggleActive(id: UserId) returns (r: Result<string>)
      requires Valid()
      modifies this`accounts
      ensures Valid()
      ensures id !in old(accounts) ==> r == Fail(404, "User not found") && accounts == old(accounts)
      ensures id in old(accounts) ==>
                && accounts == old(accounts)[id := old(accounts)[id].(isActive := !old(accounts)[id].isActive)]
                && r == Ok(if accounts[id].isActive then "User enabled" else "User disabled")
    {
      if id !in accounts {
        return Fail(404, "User not found");
      }
      var a := accounts[id];
      accounts := accounts[id := a.(isActive := !a.isActive)];
      r := Ok(if !a.isActive then "User enabled" else "User disabled");
    }

    /** Admin unlock: clear the lock and the counter on the row if there is one; always succeeds. */
    method Unlock(id: UserId) returns (r: Result<string>)
      requires Valid()
      modifies this`accounts
      ensures Valid()
      ensures r == Ok("User unlocked")
      ensures id in old(accounts) ==> accounts == old(accounts)[id := old(accounts)[id].(lockedUntil := None, failed := 0)]
      ensures id !in old(accounts) ==> accounts == old(accounts)
    {
      if id in accounts {
        accounts := accounts[id := accounts[id].(lockedUntil := None, failed := 0)];
      }
      r := Ok("User unlocked");
    }

    /**
     * Admin delete-user: soft-delete the user's files (its outcome is not
     * looked at), then delete the row; `userDeleteFails` is the datastore's
     * refusal, which leaves the files deleted.
     */
    method DeleteUser(id: UserId, userDeleteFails: bool) returns (r: Result<string>)
      requires Valid()
      modifies this`files, this`accounts
      ensures Valid()
      ensures files == FilesOfDeleted(old(files), id)
      ensures userDeleteFails ==> r.Fail? && r.status == 500 && accounts == old(accounts)
      ensures !userDeleteFails ==> r == Ok("User deleted") && accounts == old(accounts) - {id}
    {
      files := FilesOfDeleted(files, id);
      if userDeleteFails {
        return Fail(500, "user delete failed");
      }
      accounts := accounts - {id};
      r := Ok("User deleted");
    }
  }

  /** An unlock lets the right password in at once, and a toggle twice restores `is_active`. */
  lemma UnlockThenLogin(a: Account, right: string, nowMs: nat)
    requires a.isActive && Compare(right, a.password)
    ensures Judge(a.(lockedUntil := None, failed := 0), right, nowMs) == Accepted
  {
  }
}
