/**
 * The route guards of `middleware/auth.js`: `requireAuth` admits a request
 * whose `Authorization` header carries a valid access token of an enabled
 * account, and `requireAdmin` admits only admins.
 */
module Middleware {
  import opened Wrappers
  import opened Text
  import opened Crypto
  import opened Store

  const BEARER := "Bearer "

  /**
   * The decision of `requireAuth`. `decode` reads the JWT text that follows
   * `Bearer `. Every refusal is a 401; only a missing or malformed header
   * gets "Authentication required". On success the fetched row becomes
   * `req.user` and `next` runs once.
   */
  function RequireAuth(header: Option<string>, decode: string -> Token, users: map<UserId, User>, nowMs: nat): (r: Result<(UserId, User)>)
    ensures r.Fail? ==> r.status == 401
    ensures r == Fail(401, "Authentication required") <==> header.None? || !StartsWith(header.value, BEARER)
    ensures r.Ok? <==>
      && header.Some? && StartsWith(header.value, BEARER)
      && var claims := Verify(decode(header.value[7..]), AccessSecret, nowMs);
         claims.Some? && claims.value.id.Some? && claims.value.id.value in users
         && users[claims.value.id.value].status != DISABLED
    ensures r.Ok? ==> r.value.0 in users && r.value.1 == users[r.value.0]
  {
    if header.None? || !StartsWith(header.value, BEARER) then Fail(401, "Authentication required")
    else match Verify(decode(header.value[7..]), AccessSecret, nowMs)
      case None => Fail(401, "Invalid or expired token")
      case Some(claims) =>
        if claims.id.None? || claims.id.value !in users || users[claims.id.value].status == DISABLED
        then Fail(401, "Invalid or expired token")
        else Ok((claims.id.value, users[claims.id.value]))
  }

  /** `requireAdmin`: 403 unless the request's user has the role 'admin'. */
  function RequireAdmin(user: Option<User>): (r: Result<User>)
    ensures r.Ok? <==> user.Some? && user.value.role == ADMIN
    ensures r.Fail? ==> r == Fail(403, "Admin access required")
  {
    if user.Some? && user.value.role == ADMIN then Ok(user.value) else Fail(403, "Admin access required")
  }

  /** The token is what follows the seven characters `Bearer `. */
  lemma BearerToken(raw: string, decode: string -> Token, users: map<UserId, User>, nowMs: nat, id: UserId, claims: Claims)
    requires decode(raw) == SignAccess(claims, nowMs) && claims.id == Some(id)
    requires id in users && users[id].status != DISABLED
    ensures RequireAuth(Some(BEARER + raw), decode, users, nowMs) == Ok((id, users[id]))
  {
    assert (BEARER + raw)[..7] == BEARER;
    assert (BEARER + raw)[7..] == raw;
    VerifySigned(AccessSecret, claims, nowMs, ACCESS_TTL_S, nowMs);
  }

  /**
   * A password-reset token passes the signature check, since it is signed
   * with the access secret, but carries no id and so is refused with the
   * same 401 as an invalid token.
   */
  lemma ResetTokenRefused(raw: string, decode: string -> Token, users: map<UserId, User>, email: string, signedMs: nat, nowMs: nat)
    requires decode(raw) == Sign(AccessSecret, EmailClaims(email), signedMs, RESET_TTL_S)
    requires signedMs <= nowMs < signedMs + (RESET_TTL_S - 1) * 1000
    ensures Verify(decode(raw), AccessSecret, nowMs).Some?
    ensures RequireAuth(Some(BEARER + raw), decode, users, nowMs) == Fail(401, "Invalid or expired token")
  {
    assert (BEARER + raw)[..7] == BEARER;
    assert (BEARER + raw)[7..] == raw;
    VerifySigned(AccessSecret, EmailClaims(email), signedMs, RESET_TTL_S, nowMs);
  }
}
