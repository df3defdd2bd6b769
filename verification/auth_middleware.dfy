/**
 * `authenticate` of src/middlewares/auth.middleware.js: read the bearer token from the
 * Authorization header and verify it as an access token. Decoding a token string is a parameter
 * (`decode`), standing in for the JWT library: it yields the token the string carries, or None
 * when the string is not a token this server signed.
 */
module AuthMiddleware {
  import opened Wrappers
  import opened Text
  import opened Errors
  import opened Tokens
  import opened UserModel

  const BearerPrefix: string := "Bearer "
  const TokenMissing: string := "Authorization token missing"
  const TokenRejected: string := "Invalid or expired token"

  /** In a string that starts with the bearer prefix, the first space is the prefix's own. */
  lemma FirstSpaceOfBearer(header: string)
    requires StartsWith(header, BearerPrefix)
    ensures IndexOf(header, ' ') == |BearerPrefix| - 1
  {
    assert header[..7] == BearerPrefix;
    assert forall i | 0 <= i < 6 :: header[i] == BearerPrefix[i] && header[i] != ' ';
    assert header[6] == ' ';
  }

  /**
   * The second piece of the header split at spaces: the characters after the prefix up to the
   * next space, or up to the end when there is none.
   */
  function BearerToken(header: string): (token: string)
    requires StartsWith(header, BearerPrefix)
    ensures var rest := header[|BearerPrefix|..];
      token == rest[..IndexOf(rest, ' ')]
  {
    FirstSpaceOfBearer(header);
    var parts := Split(header, ' ');
    assert header[IndexOf(header, ' ') + 1..] == header[|BearerPrefix|..];
    parts[1]
  }

  /** "Bearer a b" yields "a", and "Bearer " yields the empty token. */
  lemma BearerTokenExamples()
    ensures BearerToken("Bearer a b") == "a"
    ensures BearerToken("Bearer ") == ""
  {
    assert "Bearer a b" == BearerPrefix + "a b";
    BearerPrefixPlus("a b");
    assert IndexOf("a b", ' ') == 1;
    assert "Bearer " == BearerPrefix + "";
    BearerPrefixPlus("");
  }

  /** The prefix followed by anything starts with the prefix, and what follows it is the rest. */
  lemma BearerPrefixPlus(rest: string)
    ensures StartsWith(BearerPrefix + rest, BearerPrefix)
    ensures (BearerPrefix + rest)[|BearerPrefix|..] == rest
  {
    assert (BearerPrefix + rest)[..|BearerPrefix|] == BearerPrefix;
  }

  /** A token string without spaces placed after the prefix is read back whole. */
  lemma BearerTokenRoundTrip(token: string)
    requires forall i | 0 <= i < |token| :: token[i] != ' '
    ensures StartsWith(BearerPrefix + token, BearerPrefix)
    ensures BearerToken(BearerPrefix + token) == token
  {
    var header := BearerPrefix + token;
    assert header[|BearerPrefix|..] == token;
    assert header[..|BearerPrefix|] == BearerPrefix;
  }

  /**
   * `authenticate`: no header, or one without the exact "Bearer " prefix, gives 401 "token
   * missing"; a bearer token that fails access verification gives 401 with the reason; otherwise
   * the request proceeds as the token's subject.
   */
  function Authenticate(header: Option<string>, decode: string -> Option<Token>, now: int): (r: Result<Id, ApiError>)
    ensures header.None? || !StartsWith(header.value, BearerPrefix) ==>
      r == Failure(ApiError(401, TokenMissing, true, None))
    ensures header.Some? && StartsWith(header.value, BearerPrefix) ==>
      var presented := decode(BearerToken(header.value));
      && (r.Success? <==> Verify(presented, Access, now).Success?)
      && (r.Success? ==> r.value == presented.value.sub)
      && (r.Failure? ==> r.error == ApiError(401, TokenRejected, true, Some(Reason(Verify(presented, Access, now).error))))
  {
    if header.None? || !StartsWith(header.value, BearerPrefix) then
      Failure(ApiError(401, TokenMissing, true, None))
    else
      match Verify(decode(BearerToken(header.value)), Access, now)
      case Success(sub) => Success(sub)
      case Failure(reason) => Failure(ApiError(401, TokenRejected, true, Some(Reason(reason))))
  }

  /** Without a bearer header the outcome depends on neither the decoder nor the clock: nothing is verified. */
  lemma NoVerificationWithoutBearer(header: Option<string>, d1: string -> Option<Token>, d2: string -> Option<Token>, t1: int, t2: int)
    requires header.None? || !StartsWith(header.value, BearerPrefix)
    ensures Authenticate(header, d1, t1) == Authenticate(header, d2, t2)
  {
  }

  /** A refresh token presented as a bearer credential is always turned away. */
  lemma RefreshTokenNotAccepted(token: string, decode: string -> Option<Token>, now: int)
    requires forall i | 0 <= i < |token| :: token[i] != ' '
    requires decode(token).Some? && decode(token).value.kind == Kind.Refresh
    ensures Authenticate(Some(BearerPrefix + token), decode, now).Failure?
  {
    BearerTokenRoundTrip(token);
  }
}
