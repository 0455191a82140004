/**
 * The session and identity handlers of `authController.js`: accounts live
 * in the `users` table, while the refresh-token ledger and the one-time
 * codes live in two process-wide maps. There is no failed-login counter.
 */
module AuthMemory {
  import opened Wrappers
  import opened Text
  import opened Crypto
  import opened EmailFormat
  import opened Store

  /** `REFRESH_TTL` (7 days) and the 10-minute code lifetime, in milliseconds. */
  const REFRESH_TTL_MS: nat := 7 * 24 * 60 * 60 * 1000
  const OTP_TTL_MS: nat := 10 * 60 * 1000

  /** A ledger value `{ userId, expires }`. */
  datatype LedgerEntry = LedgerEntry(userId: UserId, expires: nat)

  /** A code-store value `{ code, expires }`. */
  datatype OtpEntry = OtpEntry(code: string, expires: nat)

  /** The `user` object of a login or refresh reply; `full_name` repeats the username. */
  datatype Summary = Summary(id: UserId, username: string, fullName: string, email: string, role: string)

  datatype Session = Session(accessToken: Token, refreshToken: Token, user: Summary)

  /** The token pair and summary issued to user `id` at `nowMs`. */
  function Issue(id: UserId, u: User, nowMs: nat): Session {
    var claims := UserClaims(id, u.username, u.role);
    Session(SignAccess(claims, nowMs), SignRefresh(claims, nowMs), Summary(id, u.username, u.username, u.email, u.role))
  }

  // ---------------------------------------------------------------- register

  /** The checks of `register`, in order; the username is checked before the e-mail. */
  function RegisterCheck(users: map<UserId, User>, username: string, password: string, email: string): Result<()> {
    if username == "" || password == "" || email == "" then Fail(400, "All fields are required")
    else if !ValidEmail(email) then Fail(400, "Invalid email format")
    else if TheOne(UsersNamed(users, username)).Some? then Fail(409, "Username already taken")
    else if TheOne(UsersWithEmail(users, email)).Some? then Fail(409, "Email already registered")
    else Ok(())
  }

  /**
   * With unique accounts, registration is refused with 400 for a missing
   * field or a malformed address, with 409 when the username is taken and
   * with a different 409 when only the e-mail is taken; it goes ahead
   * otherwise.
   */
  lemma {:induction false} RegisterOutcome(users: map<UserId, User>, username: string, password: string, email: string)
    requires UniqueAccounts(users)
    ensures var r := RegisterCheck(users, username, password, email);
            && (r == Fail(400, "All fields are required") <==> username == "" || password == "" || email == "")
            && (r == Fail(409, "Username already taken") <==>
                 username != "" && password != "" && email != "" && ValidEmail(email) && UsersNamed(users, username) != {})
            && (r == Fail(409, "Email already registered") <==>
                 username != "" && password != "" && email != "" && ValidEmail(email)
                 && UsersNamed(users, username) == {} && UsersWithEmail(users, email) != {})
            && (r.Ok? <==>
                 username != "" && password != "" && email != "" && ValidEmail(email)
                 && UsersNamed(users, username) == {} && UsersWithEmail(users, email) == {})
  {
    LookupByName(users, username);
    LookupByEmail(users, email);
  }

  /** `register`: insert an active 'user' account with a cost-12 hash. `newId` is the id the table assigns. */
  method Register(db: Database, username: string, password: string, email: string, newId: UserId) returns (r: Result<()>)
    requires db.Valid() && newId !in db.users
    modifies db`users
    ensures db.Valid()
    ensures r == RegisterCheck(old(db.users), username, password, email)
    ensures r.Ok? ==> db.users == old(db.users)[newId := User(username, email, Hash(password, PASSWORD_COST), "user", ACTIVE)]
    ensures r.Fail? ==> db.users == old(db.users)
  {
    r := RegisterCheck(db.users, username, password, email);
    if r.Ok? {
      RegisterOutcome(db.users, username, password, email);
      assert forall id | id in db.users :: id !in UsersNamed(db.users, username) && id !in UsersWithEmail(db.users, email);
      db.users := db.users[newId := User(username, email, Hash(password, PASSWORD_COST), "user", ACTIVE)];
    }
  }

  // ---------------------------------------------------------------- login

  /** The checks of `login`, in order: missing field, unknown user, disabled account, wrong password. */
  function LoginCheck(users: map<UserId, User>, username: string, password: string): (r: Result<UserId>)
    ensures r.Ok? ==> r.value in users && users[r.value].username == username
                      && users[r.value].status != DISABLED && Compare(password, users[r.value].password)
    ensures r.Fail? ==> r.status == 400 || r.status == 401 || r.status == 403
    ensures r.Fail? && r.status == 403 ==>
              exists id | id in users :: users[id].username == username && users[id].status == DISABLED
    ensures (r.Fail? && r.status == 400) <==> username == "" || password == ""
    ensures r == Fail(403, "Account is disabled. Contact an admin.") <==>
              && username != "" && password != ""
              && TheOne(UsersNamed(users, username)).Some?
              && users[TheOne(UsersNamed(users, username)).value].status == DISABLED
    ensures r.Fail? && r.status != 400 && r.status != 403 ==> r == Fail(401, "Invalid username or password")
    ensures username != "" && password != "" && TheOne(UsersNamed(users, username)).None? ==>
              r == Fail(401, "Invalid username or password")
  {
    if username == "" || password == "" then Fail(400, "Username and password required")
    else match TheOne(UsersNamed(users, username))
      case None => Fail(401, "Invalid username or password")
      case Some(id) =>
        if users[id].status == DISABLED then Fail(403, "Account is disabled. Contact an admin.")
        else if !Compare(password, users[id].password) then Fail(401, "Invalid username or password")
        else Ok(id)
  }

  /** Every enabled account logs in with its password. */
  lemma LoginSucceeds(users: map<UserId, User>, id: UserId, password: string)
    requires UniqueAccounts(users) && id in users
    requires users[id].username != "" && password != ""
    requires users[id].status != DISABLED && users[id].password == Hash(password, PASSWORD_COST)
    ensures LoginCheck(users, users[id].username, password) == Ok(id)
  {
    LookupByName(users, users[id].username);
  }

  // ---------------------------------------------------------------- refresh

  /** The checks of `refresh`, in order; every refusal is a 401. */
  function RefreshCheck(ledger: map<Token, LedgerEntry>, users: map<UserId, User>, token: Option<Token>, nowMs: nat): (r: Result<UserId>)
    ensures r.Fail? ==> r.status == 401
    ensures r.Ok? ==>
      && token.Some? && Verify(token.value, RefreshSecret, nowMs).Some?
      && token.value in ledger && ledger[token.value].expires >= nowMs
      && Verify(token.value, RefreshSecret, nowMs).value.id == Some(r.value)
      && r.value in users && users[r.value].status != DISABLED
    ensures (&& token.Some? && Verify(token.value, RefreshSecret, nowMs).Some?
             && token.value in ledger && ledger[token.value].expires >= nowMs
             && Verify(token.value, RefreshSecret, nowMs).value.id.Some?
             && Verify(token.value, RefreshSecret, nowMs).value.id.value in users
             && users[Verify(token.value, RefreshSecret, nowMs).value.id.value].status != DISABLED)
            ==> r.Ok?
  {
    match token
    case None => Fail(401, "Refresh token required")
    case Some(t) =>
      match Verify(t, RefreshSecret, nowMs)
      case None => Fail(401, "Invalid refresh token")
      case Some(claims) =>
        if t !in ledger || ledger[t].expires < nowMs then Fail(401, "Refresh token revoked or expired")
        else if claims.id.None? || claims.id.value !in users || users[claims.id.value].status == DISABLED
        then Fail(401, "User not found or disabled")
        else Ok(claims.id.value)
  }

  /** The ledger after rotation: the presented token is gone, the new one is present, nothing else changes. */
  function Rotate(ledger: map<Token, LedgerEntry>, presented: Token, issued: Token, entry: LedgerEntry): (r: map<Token, LedgerEntry>)
    ensures issued in r && r[issued] == entry
    ensures presented != issued ==> presented !in r
    ensures forall t | t in ledger && t != presented && t != issued :: t in r && r[t] == ledger[t]
    ensures forall t | t in r :: t == issued || (t in ledger && t != presented)
  {
    (ledger - {presented})[issued := entry]
  }

  /** A rotated-out refresh token is refused afterwards, unless the rotation re-issued the very same token. */
  lemma RotatedTokenRefused(ledger: map<Token, LedgerEntry>, users: map<UserId, User>,
                            presented: Token, issued: Token, entry: LedgerEntry, laterMs: nat)
    requires presented != issued
    ensures RefreshCheck(Rotate(ledger, presented, issued, entry), users, Some(presented), laterMs).Fail?
  {
  }

  /**
   * Tokens carry whole seconds, so a refresh in the same second as the
   * login re-issues the identical token, which stays in the ledger.
   */
  lemma SameSecondRefreshReissues(id: UserId, u: User, loginMs: nat, refreshMs: nat)
    requires loginMs / 1000 == refreshMs / 1000
    ensures Issue(id, u, refreshMs).refreshToken == Issue(id, u, loginMs).refreshToken
  {
  }

  /** The ledger's stored owner plays no part in the decision. */
  lemma LedgerOwnerIgnored(ledger: map<Token, LedgerEntry>, users: map<UserId, User>, t: Token,
                           a: UserId, b: UserId, expires: nat, nowMs: nat)
    ensures RefreshCheck(ledger[t := LedgerEntry(a, expires)], users, Some(t), nowMs)
         == RefreshCheck(ledger[t := LedgerEntry(b, expires)], users, Some(t), nowMs)
  {
  }

  /** A ledger entry is still good at the very millisecond it expires. */
  lemma LedgerValidAtExpiry(ledger: map<Token, LedgerEntry>, users: map<UserId, User>, t: Token, id: UserId, nowMs: nat)
    requires Verify(t, RefreshSecret, nowMs).Some? && Verify(t, RefreshSecret, nowMs).value.id == Some(id)
    requires id in users && users[id].status != DISABLED
    requires t in ledger && ledger[t].expires == nowMs
    ensures RefreshCheck(ledger, users, Some(t), nowMs) == Ok(id)
  {
  }

  // ---------------------------------------------------------------- one-time codes

  /** `Math.floor(100000 + Math.random() * 900000).toString()`, where `draw` is the integer part of `Math.random() * 900000`. */
  function OtpCode(draw: nat): (code: string)
    requires draw < 900000
    ensures |code| == 6 && AllDigits(code)
    ensures DecimalValue(code) == 100000 + draw
  {
    assert Pow10(5) == 100000 by {
      assert Pow10(1) == 10 && Pow10(2) == 100 && Pow10(3) == 1000 && Pow10(4) == 10000;
    }
    assert Pow10(6) == 1000000;
    NatToStringLength(100000 + draw, 6);
    NatToString(100000 + draw)
  }

  /** The checks of `verifyOtp`, in order. */
  function OtpCheck(otps: map<string, OtpEntry>, email: string, otp: string, nowMs: nat): (r: Result<()>)
    ensures r.Fail? ==> r.status == 400
    ensures r.Ok? <==> email != "" && otp != "" && email in otps && otps[email].expires >= nowMs && otps[email].code == otp
    ensures r == Fail(400, "Incorrect OTP") <==>
              email != "" && otp != "" && email in otps && otps[email].expires >= nowMs && otps[email].code != otp
  {
    if email == "" || otp == "" then Fail(400, "Email and OTP required")
    else if email !in otps || otps[email].expires < nowMs then Fail(400, "OTP is invalid or expired")
    else if otps[email].code != otp then Fail(400, "Incorrect OTP")
    else Ok(())
  }

  /** The code just issued verifies within its ten minutes, and a code verifies at most once. */
  lemma OtpLifecycle(otps: map<string, OtpEntry>, email: string, draw: nat, issuedMs: nat, nowMs: nat, laterMs: nat)
    requires email != "" && draw < 900000 && issuedMs <= nowMs <= issuedMs + OTP_TTL_MS
    ensures var issued := otps[email := OtpEntry(OtpCode(draw), issuedMs + OTP_TTL_MS)];
            && OtpCheck(issued, email, OtpCode(draw), nowMs).Ok?
            && OtpCheck(issued - {email}, email, OtpCode(draw), laterMs) == Fail(400, "OTP is invalid or expired")
  {
  }

  // ---------------------------------------------------------------- password reset

  /** The checks of `resetPassword`: the e-mail the update targets, read from the token (`undefined` when absent). */
  function ResetCheck(token: Option<Token>, newPassword: string, nowMs: nat): (r: Result<string>)
    ensures r.Ok? <==> token.Some? && newPassword != "" && Verify(token.value, AccessSecret, nowMs).Some?
    ensures r.Ok? ==> r.value == Verify(token.value, AccessSecret, nowMs).value.email.GetOr("undefined")
    ensures r.Fail? ==> (r.status == 400 <==> token.None? || newPassword == "")
  {
    if token.None? || newPassword == "" then Fail(400, "All fields required")
    else match Verify(token.value, AccessSecret, nowMs)
      case None => Fail(401, "Reset token expired or invalid")
      case Some(claims) => Ok(claims.email.GetOr("undefined"))
  }

  /** `update({ password }).eq('email', email)`. */
  function WithPassword(users: map<UserId, User>, email: string, h: PasswordHash): (r: map<UserId, User>)
    ensures r.Keys == users.Keys
    ensures forall id | id in users :: r[id] == if users[id].email == email then users[id].(password := h) else users[id]
  {
    map id | id in users :: if users[id].email == email then users[id].(password := h) else users[id]
  }

  /**
   * An access token also passes the reset check, since both are signed with
   * the access secret; it carries no e-mail, so the update targets the
   * address "undefined", which no valid account has.
   */
  lemma AccessTokenResetsNothing(users: map<UserId, User>, claims: Claims, signedMs: nat, nowMs: nat, pw: string)
    requires claims.email.None? && pw != ""
    requires signedMs <= nowMs < signedMs + (ACCESS_TTL_S - 1) * 1000
    requires forall id | id in users :: ValidEmail(users[id].email)
    ensures ResetCheck(Some(SignAccess(claims, signedMs)), pw, nowMs) == Ok("undefined")
    ensures WithPassword(users, "undefined", Hash(pw, PASSWORD_COST)) == users
  {
    VerifySigned(AccessSecret, claims, signedMs, ACCESS_TTL_S, nowMs);
    forall id | id in users ensures users[id].email != "undefined" {
      if users[id].email == "undefined" {
        var at := ValidEmailShape(users[id].email);
        assert false;
      }
    }
  }

  /** After a reset through a code, logging in with the new password works for an enabled account. */
  lemma ResetThenLogin(users: map<UserId, User>, id: UserId, pw: string)
    requires UniqueAccounts(users) && id in users
    requires users[id].username != "" && pw != "" && users[id].status != DISABLED
    ensures var after := WithPassword(users, users[id].email, Hash(pw, PASSWORD_COST));
            UniqueAccounts(after) && LoginCheck(after, users[id].username, pw) == Ok(id)
  {
    var after := WithPassword(users, users[id].email, Hash(pw, PASSWORD_COST));
    LoginSucceeds(after, id, pw);
  }

  // ---------------------------------------------------------------- the two maps

  class AuthController {
    /** `activeRefreshTokens` */
    var ledger: map<Token, LedgerEntry>
    /** `activeOtps` */
    var otps: map<string, OtpEntry>

    constructor ()
      ensures ledger == map[] && otps == map[]
    {
      ledger, otps := map[], map[];
    }

    /** `login`: on success, exactly one ledger entry for the new refresh token, expiring in 7 days. */
    method Login(db: Database, username: string, password: string, nowMs: nat) returns (r: Result<Session>)
      modifies this`ledger
      ensures var check := LoginCheck(db.users, username, password);
              && (check.Fail? ==> r == Fail(check.status, check.message) && ledger == old(ledger))
              && (check.Ok? ==> r == Ok(Issue(check.value, db.users[check.value], nowMs))
                                && ledger == old(ledger)[r.value.refreshToken := LedgerEntry(check.value, nowMs + REFRESH_TTL_MS)])
    {
      var check := LoginCheck(db.users, username, password);
      if check.Fail? {
        return Fail(check.status, check.message);
      }
      var s := Issue(check.value, db.users[check.value], nowMs);
      ledger := ledger[s.refreshToken := LedgerEntry(check.value, nowMs + REFRESH_TTL_MS)];
      r := Ok(s);
    }

    /** `refresh`: delete the presented token and record the newly issued one. */
    method Refresh(db: Database, token: Option<Token>, nowMs: nat) returns (r: Result<Session>)
      modifies this`ledger
      ensures var check := RefreshCheck(old(ledger), db.users, token, nowMs);
              && (check.Fail? ==> r == Fail(check.status, check.message) && ledger == old(ledger))
              && (check.Ok? ==> r == Ok(Issue(check.value, db.users[check.value], nowMs))
                                && ledger == Rotate(old(ledger), token.value, r.value.refreshToken,
                                                    LedgerEntry(check.value, nowMs + REFRESH_TTL_MS)))
    {
      var check := RefreshCheck(ledger, db.users, token, nowMs);
      if check.Fail? {
        return Fail(check.status, check.message);
      }
      var s := Issue(check.value, db.users[check.value], nowMs);
      ledger := Rotate(ledger, token.value, s.refreshToken, LedgerEntry(check.value, nowMs + REFRESH_TTL_MS));
      r := Ok(s);
    }

    /** `logout`: always succeeds; forgets the token if one was given. */
    method Logout(token: Option<Token>)
      modifies this`ledger
      ensures token.Some? ==> ledger == old(ledger) - {token.value}
      ensures token.None? ==> ledger == old(ledger)
    {
      if token.Some? {
        ledger := ledger - {token.value};
      }
    }

    /**
     * `checkUsername`: for a known address, store a fresh six-digit code
     * valid for ten minutes, replacing any earlier one, and answer with the
     * masked address.
     */
    method CheckUsername(db: Database, email: string, draw: nat, nowMs: nat) returns (r: Result<string>)
      requires draw < 900000
      modifies this`otps
      ensures email == "" ==> r == Fail(400, "Email required") && otps == old(otps)
      ensures email != "" && TheOne(UsersWithEmail(db.users, email)).None? ==>
                r == Fail(404, "No account found with that email") && otps == old(otps)
      ensures email != "" && TheOne(UsersWithEmail(db.users, email)).Some? ==>
                r == Ok(Mask(email)) && otps == old(otps)[email := OtpEntry(OtpCode(draw), nowMs + OTP_TTL_MS)]
    {
      if email == "" {
        return Fail(400, "Email required");
      }
      if TheOne(UsersWithEmail(db.users, email)).None? {
        return Fail(404, "No account found with that email");
      }
      otps := otps[email := OtpEntry(OtpCode(draw), nowMs + OTP_TTL_MS)];
      r := Ok(Mask(email));
    }

    /** `verifyOtp`: a matching, unexpired code is consumed and exchanged for a 10-minute reset token. */
    method VerifyOtp(email: string, otp: string, nowMs: nat) returns (r: Result<Token>)
      modifies this`otps
      ensures var check := OtpCheck(old(otps), email, otp, nowMs);
              && (check.Fail? ==> r == Fail(check.status, check.message) && otps == old(otps))
              && (check.Ok? ==> r == Ok(Sign(AccessSecret, EmailClaims(email), nowMs, RESET_TTL_S))
                                && otps == old(otps) - {email})
    {
      var check := OtpCheck(otps, email, otp, nowMs);
      if check.Fail? {
        return Fail(check.status, check.message);
      }
      otps := otps - {email};
      r := Ok(Sign(AccessSecret, EmailClaims(email), nowMs, RESET_TTL_S));
    }

    /** `resetPassword`: store a cost-12 hash of the new password on every account with the token's e-mail. */
    method ResetPassword(db: Database, token: Option<Token>, newPassword: string, nowMs: nat) returns (r: Result<()>)
      requires db.Valid()
      modifies db`users
      ensures db.Valid()
      ensures var check := ResetCheck(token, newPassword, nowMs);
              && (check.Fail? ==> r == Fail(check.status, check.message) && db.users == old(db.users))
              && (check.Ok? ==> r == Ok(()) && db.users == WithPassword(old(db.users), check.value, Hash(newPassword, PASSWORD_COST)))
    {
      var check := ResetCheck(token, newPassword, nowMs);
      if check.Fail? {
        return Fail(check.status, check.message);
      }
      db.users := WithPassword(db.users, check.value, Hash(newPassword, PASSWORD_COST));
      r := Ok(());
    }
  }
}
