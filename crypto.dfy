/**
 * Abstract JSON Web Tokens (RFC 7519) and password hashes.
 *
 * A token remembers the secret that signed it, its claims and its times, so
 * two tokens are equal exactly when they were signed with the same secret,
 * claims and second. Verification is keyed on the secret: whatever was
 * signed with the access secret passes every check made with that secret.
 */
module Crypto {
  import opened Wrappers

  /** `JWT_SECRET` and `JWT_REFRESH_SECRET`. */
  datatype Secret = AccessSecret | RefreshSecret

  /** The JSON payload of a token; absent fields read as `undefined`. */
  datatype Claims = Claims(id: Option<nat>, username: Option<string>, role: Option<string>, email: Option<string>)

  /** `{ id, username, role }`, the payload of access and refresh tokens. */
  function UserClaims(id: nat, username: string, role: string): Claims {
    Claims(Some(id), Some(username), Some(role), None)
  }

  /** `{ email }`, the payload of a password-reset token. */
  function EmailClaims(email: string): Claims {
    Claims(None, None, None, Some(email))
  }

  /** `expiresIn` of access tokens ('15m'), refresh tokens ('7d') and reset tokens ('10m'), in seconds. */
  const ACCESS_TTL_S: nat := 15 * 60
  const REFRESH_TTL_S: nat := 7 * 24 * 60 * 60
  const RESET_TTL_S: nat := 10 * 60

  /** A token string: either one this server signed, or any other text. */
  datatype Token =
    | Signed(secret: Secret, claims: Claims, issuedAt: nat, expiresAt: nat)
    | Unsigned(text: string)

  /** `jwt.sign(claims, secret, { expiresIn })` at clock `nowMs`: `iat` is the clock in whole seconds. */
  function Sign(secret: Secret, claims: Claims, nowMs: nat, ttlS: nat): (t: Token)
    ensures t.Signed? && t.secret == secret && t.claims == claims
    ensures t.expiresAt * 1000 <= nowMs + ttlS * 1000 < t.expiresAt * 1000 + 1000
  {
    assert nowMs == nowMs / 1000 * 1000 + nowMs % 1000;
    Signed(secret, claims, nowMs / 1000, nowMs / 1000 + ttlS)
  }

  function SignAccess(claims: Claims, nowMs: nat): Token { Sign(AccessSecret, claims, nowMs, ACCESS_TTL_S) }
  function SignRefresh(claims: Claims, nowMs: nat): Token { Sign(RefreshSecret, claims, nowMs, REFRESH_TTL_S) }

  /**
   * `jwt.verify(t, secret)` at clock `nowMs`: the claims when the signature
   * is by `secret` and the clock, in whole seconds, is before `exp`.
   */
  function Verify(t: Token, secret: Secret, nowMs: nat): Option<Claims> {
    if t.Signed? && t.secret == secret && nowMs / 1000 < t.expiresAt then Some(t.claims) else None
  }

  /** A token verifies with the secret that signed it for at least `ttlS - 1` seconds after signing. */
  lemma {:induction false} VerifySigned(secret: Secret, claims: Claims, nowMs: nat, ttlS: nat, laterMs: nat)
    requires ttlS >= 1 && nowMs <= laterMs < nowMs + (ttlS - 1) * 1000
    ensures Verify(Sign(secret, claims, nowMs, ttlS), secret, laterMs) == Some(claims)
  {
    var t := Sign(secret, claims, nowMs, ttlS);
    assert laterMs / 1000 < t.expiresAt by {
      DivBound(laterMs, nowMs, ttlS - 1);
    }
  }

  lemma DivBound(a: nat, b: nat, k: nat)
    requires a < b + k * 1000
    ensures a / 1000 < b / 1000 + k + 1
  {
  }

  /** From `ttlS` seconds after signing on, a token never verifies. */
  lemma VerifyExpired(secret: Secret, claims: Claims, nowMs: nat, ttlS: nat, laterMs: nat)
    requires laterMs >= nowMs + ttlS * 1000
    ensures Verify(Sign(secret, claims, nowMs, ttlS), secret, laterMs) == None
  {
  }

  /** A token never verifies under a secret other than its own. */
  lemma VerifyOtherSecret(secret: Secret, other: Secret, claims: Claims, nowMs: nat, ttlS: nat, laterMs: nat)
    requires other != secret
    ensures Verify(Sign(secret, claims, nowMs, ttlS), other, laterMs) == None
  {
  }

  /** Text this server never signed never verifies. */
  lemma VerifyUnsigned(text: string, secret: Secret, nowMs: nat)
    ensures Verify(Unsigned(text), secret, nowMs) == None
  {
  }

  // ---------------------------------------------------------------- bcrypt

  /** `bcrypt.hash(preimage, cost)`, idealised: the hash keeps what it was made from. */
  datatype PasswordHash = Bcrypt(preimage: string, cost: nat)

  const PASSWORD_COST: nat := 12
  const OTP_COST: nat := 8

  function Hash(password: string, cost: nat): PasswordHash { Bcrypt(password, cost) }

  /** `bcrypt.compare(candidate, hash)`. */
  predicate Compare(candidate: string, h: PasswordHash) { h.preimage == candidate }

  lemma CompareHash(password: string, candidate: string, cost: nat)
    ensures Compare(candidate, Hash(password, cost)) <==> candidate == password
  {
  }
}
