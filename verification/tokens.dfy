/**
 * Access and refresh tokens, as an abstract stand-in for the signed JWTs of
 * src/services/token.service.js. The two kinds are signed with different secrets, which
 * the model records as the token's `kind`; expiry is a time in milliseconds.
 */
module Tokens {
  import opened Wrappers
  import opened Config
  import opened UserModel

  datatype Kind = Access | Refresh

  /** A token as the server signed it. */
  datatype Token = Token(sub: Id, kind: Kind, exp: int)

  /** How long a token of each kind stays valid, in milliseconds. */
  function Ttl(kind: Kind): (ms: nat)
    ensures ms > 0
  {
    match kind
    case Access => AccessExpirationMinutes * MillisPerMinute
    case Refresh => RefreshExpirationDays * 24 * 60 * MillisPerMinute
  }

  /** `generateAccessToken`/`generateRefreshToken`: a token for `sub` signed at time `now`. */
  function Issue(sub: Id, kind: Kind, now: int): (t: Token)
    ensures t.sub == sub && t.kind == kind
    ensures t.exp - now == Ttl(kind)
  {
    Token(sub, kind, now + Ttl(kind))
  }

  const Malformed: string := "invalid token"
  const BadSignature: string := "invalid signature"
  const Expired: string := "jwt expired"

  /**
   * `verifyAccessToken`/`verifyRefreshToken` at time `now`. `presented` is None when the string
   * does not decode to a token this server signed. A token signed with the other kind's secret
   * fails, and so does one whose expiry has been reached; otherwise the payload's subject is returned.
   */
  function Verify(presented: Option<Token>, kind: Kind, now: int): (r: Result<Id, string>)
    ensures r.Success? <==> presented.Some? && presented.value.kind == kind && now < presented.value.exp
    ensures r.Success? ==> r.value == presented.value.sub
  {
    match presented
    case None => Failure(Malformed)
    case Some(t) =>
      if t.kind != kind then Failure(BadSignature)
      else if now >= t.exp then Failure(Expired)
      else Success(t.sub)
  }

  /** A freshly issued token verifies, with its own subject, exactly until its lifetime has elapsed. */
  lemma IssueVerifyRoundTrip(sub: Id, kind: Kind, issuedAt: int, now: int)
    ensures Verify(Some(Issue(sub, kind, issuedAt)), kind, now).Success? <==> now < issuedAt + Ttl(kind)
    ensures now < issuedAt + Ttl(kind) ==> Verify(Some(Issue(sub, kind, issuedAt)), kind, now) == Success(sub)
  {
  }

  /** An access token is never accepted as a refresh token, nor the other way round. */
  lemma KindsNotInterchangeable(t: Token, now: int)
    ensures Verify(Some(t), Access, now).Success? ==> Verify(Some(t), Refresh, now).Failure?
    ensures Verify(Some(t), Refresh, now).Success? ==> Verify(Some(t), Access, now).Failure?
  {
  }

  /** Once a token has failed for being expired it fails at every later time. */
  lemma ExpiryIsFinal(t: Token, kind: Kind, now: int, later: int)
    requires now <= later
    requires t.exp <= now
    ensures Verify(Some(t), kind, later).Failure?
  {
  }
}
