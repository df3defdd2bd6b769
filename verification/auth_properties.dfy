/**
 * Properties that relate several account operations: registering then logging in, the
 * single use and supersession of reset codes, the reset flow end to end, token renewal, and
 * the profile update's effect on the store.
 */
module AuthProperties {
  import opened Wrappers
  import opened Text
  import opened Config
  import opened Errors
  import opened Credentials
  import opened Tokens
  import opened UserModel
  import opened UserService
  import opened OtpService
  import opened AuthService
  import AuthMiddleware
  import ErrorMiddleware

  /** After a successful registration the store is valid and the same email and password log in as that account. */
  lemma RegisterThenLogin(s: Store, h: Hasher, input: NewUser, now: int, later: int)
    requires Valid(s)
    requires Register(s, h, input, now).Success?
    ensures var (s', session) := Register(s, h, input, now).value;
      && Valid(s')
      && session.user.id !in s.users
      && Login(s', h, input.email, input.password, later).Success?
      && Login(s', h, input.email, input.password, later).value.user == session.user
  {
    CreateUserInValidStore(s, h, input);
  }

  /** Registering the same email a second time is refused with 409, so no second account appears. */
  lemma RegisterTwiceConflicts(s: Store, h: Hasher, input: NewUser, again: NewUser, now: int, later: int)
    requires Valid(s)
    requires Register(s, h, input, now).Success?
    requires again.email == input.email
    ensures Register(Register(s, h, input, now).value.0, h, again, later) == Failure(Raise(409, EmailTaken))
  {
    CreateUserInValidStore(s, h, input);
  }

  /**
   * In a valid store registration never reaches the unique index's error: the only raw error
   * it can throw is the validator's rejection of an empty required field.
   */
  lemma RegisterNeverHitsDuplicateKey(s: Store, h: Hasher, input: NewUser, now: int)
    requires Valid(s)
    ensures var r := Register(s, h, input, now);
      r.Failure? && r.error.Raw? ==>
        && !HasRequired(NewRecord(s.nextId, h, input))
        && r.error == Raw(None, ValidationMessage(DocumentValidationLead, MissingPaths(NewRecord(s.nextId, h, input))))
    ensures var r := Register(s, h, input, now);
      r.Success? ==> Valid(r.value.0) && r.value.1.user.id !in s.users
  {
    CreateUserInValidStore(s, h, input);
  }

  /** A reset code works at most once: after a successful reset the same code is refused, whatever the new password and time. */
  lemma ResetCodeSingleUse(s: Store, h: Hasher, email: string, otp: string, password: string, now: int,
                           password2: string, later: int)
    requires Valid(s)
    requires FindByEmail(s, email).Some? && OtpAccepted(FindByEmail(s, email).value, otp, now)
    ensures ResetPassword(ResetPassword(s, h, email, otp, password, now).value, h, email, otp, password2, later)
      == Failure(Raise(400, InvalidOtp))
  {
    var s' := ResetPassword(s, h, email, otp, password, now).value;
    ResetPasswordEffect(s, h, email, otp, password, now);
    var u := FindByEmail(s, email).value;
    assert s'.users[u.id].email == NormalizeEmail(email);
  }

  /** Issuing a new code supersedes the old one: any other code is refused afterwards, even before the old one would have expired. */
  lemma NewCodeSupersedesOld(s: Store, email: string, now: int, draw: Draws, delivery: Delivery,
                             h: Hasher, oldCode: string, password: string, later: int)
    requires Valid(s)
    requires oldCode != OtpOf(OtpLength, draw)
    ensures ResetPassword(RequestPasswordReset(s, email, now, draw, delivery).store, h, email, oldCode, password, later).Failure?
  {
    if FindByEmail(s, email).Some? {
      ResetRequested(s, email, now, draw, delivery);
    }
  }

  /**
   * After a reset request for a known email, the store is valid, the account is still found by
   * that email, its reset code and expiry are the generated code and the request time plus ten
   * minutes, and its password hash is unchanged.
   */
  lemma ResetRequested(s: Store, email: string, now: int, draw: Draws, delivery: Delivery)
    requires Valid(s)
    requires FindByEmail(s, email).Some?
    ensures var u := FindByEmail(s, email).value;
      var s' := RequestPasswordReset(s, email, now, draw, delivery).store;
      && Valid(s')
      && u.id in s'.users
      && FindByEmail(s', email) == Some(s'.users[u.id])
      && s'.users[u.id].resetOtp == Some(OtpOf(OtpLength, draw))
      && s'.users[u.id].resetOtpExpires == Some(OtpExpiry(now))
      && s'.users[u.id].passwordHash == u.passwordHash
  {
    var u := FindByEmail(s, email).value;
    SetResetOtpPreservesValid(s, u.id, OtpOf(OtpLength, draw), OtpExpiry(now));
    var s' := RequestPasswordReset(s, email, now, draw, delivery).store;
    assert s'.users[u.id].email == NormalizeEmail(email);
  }

  /** In a valid store, a record is what a lookup by any email that normalizes to its own returns. */
  lemma FoundByOwnEmail(s: Store, email: string, id: Id)
    requires Valid(s)
    requires id in s.users && s.users[id].email == NormalizeEmail(email)
    ensures FindByEmail(s, email) == Some(s.users[id])
  {
  }

  /** After a successful reset the store is valid and the new password logs in by the same email, at any time. */
  lemma ResetThenLogin(s: Store, h: Hasher, email: string, otp: string, password: string, now: int, loginAt: int)
    requires Valid(s)
    requires FindByEmail(s, email).Some? && OtpAccepted(FindByEmail(s, email).value, otp, now)
    ensures var s' := ResetPassword(s, h, email, otp, password, now).value;
      && Valid(s')
      && Login(s', h, email, password, loginAt).Success?
      && Login(s', h, email, password, loginAt).value.user == ToJson(FindByEmail(s, email).value)
  {
    var u := FindByEmail(s, email).value;
    var s' := ResetPassword(s, h, email, otp, password, now).value;
    assert Valid(s') && u.id in s'.users && ComparePassword(h, password, s'.users[u.id].passwordHash)
        && ToJson(s'.users[u.id]) == ToJson(u) by {
      ResetPasswordEffect(s, h, email, otp, password, now);
    }
    assert s'.users[u.id].email == NormalizeEmail(email) by {
      assert ToJson(s'.users[u.id]).email == ToJson(u).email;
    }
    FoundByOwnEmail(s', email, u.id);
  }

  /** A stored, non-empty code resets the password exactly up to and including its expiry instant. */
  lemma StoredCodeWindow(s: Store, h: Hasher, email: string, code: string, expiresAt: int, password: string, at: int)
    requires FindByEmail(s, email).Some?
    requires FindByEmail(s, email).value.resetOtp == Some(code) && code != ""
    requires FindByEmail(s, email).value.resetOtpExpires == Some(expiresAt)
    ensures ResetPassword(s, h, email, code, password, at).Success? <==> at <= expiresAt
  {
  }

  /**
   * The reset flow end to end: after a delivered reset mail, the code read from the mail resets
   * the password at any time up to and including the expiry, and the new password then logs in.
   */
  lemma MailedCodeResetsPassword(s: Store, email: string, now: int, draw: Draws, h: Hasher,
                                 password: string, later: int, loginAt: int)
    requires Valid(s)
    requires FindByEmail(s, email).Some?
    requires later <= OtpExpiry(now)
    ensures var d := RequestPasswordReset(s, email, now, draw, Delivered);
      && |d.sent| == 1
      && d.sent[0].to == FindByEmail(s, email).value.email
      && var r := ResetPassword(d.store, h, email, CodeInText(d.sent[0].text), password, later);
      && r.Success?
      && Login(r.value, h, email, password, loginAt).Success?
  {
    var d := RequestPasswordReset(s, email, now, draw, Delivered);
    var code := OtpOf(OtpLength, draw);
    ResetRequested(s, email, now, draw, Delivered);
    assert d.sent[0] in d.sent;
    assert CodeInText(d.sent[0].text) == code;
    StoredCodeWindow(d.store, h, email, code, OtpExpiry(now), password, later);
    ResetThenLogin(d.store, h, email, code, password, later, loginAt);
  }

  /** A failed delivery is reported, yet the stored code still resets the password: the write happened before the send. */
  lemma FailedDeliveryKeepsCode(s: Store, email: string, now: int, draw: Draws, reason: string, h: Hasher, password: string)
    requires Valid(s)
    requires FindByEmail(s, email).Some?
    ensures var d := RequestPasswordReset(s, email, now, draw, Undeliverable(reason));
      && d.sent == []
      && d.outcome == Failure(Raw(None, reason))
      && ResetPassword(d.store, h, email, OtpOf(OtpLength, draw), password, now).Success?
  {
    var s' := RequestPasswordReset(s, email, now, draw, Undeliverable(reason)).store;
    ResetRequested(s, email, now, draw, Undeliverable(reason));
    StoredCodeWindow(s', h, email, OtpOf(OtpLength, draw), OtpExpiry(now), password, now);
  }

  /** The expiry comparison is strict: a code is still accepted at its expiry instant and refused one millisecond later. */
  lemma ExpiryBoundary(s: Store, email: string, now: int, draw: Draws, delivery: Delivery, h: Hasher, password: string)
    requires Valid(s)
    requires FindByEmail(s, email).Some?
    ensures var s' := RequestPasswordReset(s, email, now, draw, delivery).store;
      && ResetPassword(s', h, email, OtpOf(OtpLength, draw), password, OtpExpiry(now)).Success?
      && ResetPassword(s', h, email, OtpOf(OtpLength, draw), password, OtpExpiry(now) + 1).Failure?
  {
    var s' := RequestPasswordReset(s, email, now, draw, delivery).store;
    var code := OtpOf(OtpLength, draw);
    ResetRequested(s, email, now, draw, delivery);
    StoredCodeWindow(s', h, email, code, OtpExpiry(now), password, OtpExpiry(now));
    StoredCodeWindow(s', h, email, code, OtpExpiry(now), password, OtpExpiry(now) + 1);
  }

  /**
   * Renewal: the refresh token of a pair renews exactly while it is unexpired, and the new
   * access token is for the same account; an access token never renews.
   */
  lemma RefreshRoundTrip(id: Id, issuedAt: int, now: int)
    ensures var pair := GenerateAuthTokens(id, issuedAt);
      && (AuthService.Refresh(Some(pair.refreshToken), now).Success? <==> now < issuedAt + Ttl(Kind.Refresh))
      && (now < issuedAt + Ttl(Kind.Refresh) ==>
            Verify(Some(AuthService.Refresh(Some(pair.refreshToken), now).value.accessToken), Access, now) == Success(id))
      && AuthService.Refresh(Some(pair.accessToken), now).Failure?
      && Logout(Some(pair.accessToken), now).Failure?
  {
  }

  /**
   * A logged-in client is authenticated: the access token from login, sent as a bearer header
   * before it expires, authenticates as the account, and the current-user lookup returns the
   * projection login returned.
   */
  lemma LoginTokenAuthenticates(s: Store, h: Hasher, email: string, password: string, now: int,
                                tokenText: string, decode: string -> Option<Token>, later: int)
    requires Valid(s)
    requires Login(s, h, email, password, now).Success?
    requires forall i | 0 <= i < |tokenText| :: tokenText[i] != ' '
    requires decode(tokenText) == Some(Login(s, h, email, password, now).value.tokens.accessToken)
    requires now <= later < now + Ttl(Access)
    ensures var session := Login(s, h, email, password, now).value;
      && AuthMiddleware.Authenticate(Some(AuthMiddleware.BearerPrefix + tokenText), decode, later) == Success(session.user.id)
      && GetCurrentUser(s, session.user.id) == Success(session.user)
  {
    AuthMiddleware.BearerTokenRoundTrip(tokenText);
  }

  /**
   * In a valid store a profile update keeps the store valid, never reaches the unique index's
   * error, and the current-user lookup afterwards returns the projection it answered.
   */
  lemma UpdateProfileInValidStore(s: Store, id: Id, payload: map<string, string>)
    requires Valid(s)
    ensures var r := AuthService.UpdateProfile(s, id, payload);
      && (r.Success? ==> Valid(r.value.0) && GetCurrentUser(r.value.0, id) == Success(r.value.1))
      && (r.Failure? && r.error.Raw? ==>
            r.error == Raw(None, ValidationMessage(UpdateValidationLead, MissingUpdatePaths(AllowedUpdates(payload)))))
  {
    var upd := AllowedUpdates(payload);
    UserService.UpdateProfilePreservesValid(s, id, upd);
    if upd != NoUpdate && id in s.users && !EmailConflict(s, id, upd) && !PhoneConflict(s, id, upd) {
      NoConflictNoCollision(s, id, upd);
    }
  }

  /** In a valid store, an update that passes both conflict checks cannot trip the unique index. */
  lemma NoConflictNoCollision(s: Store, id: Id, upd: ProfileUpdate)
    requires Valid(s) && id in s.users
    requires !EmailConflict(s, id, upd) && !PhoneConflict(s, id, upd)
    ensures !Collides(s, Merge(s.users[id], upd))
  {
    var u := Merge(s.users[id], upd);
    forall other | other in s.users && other != id
      ensures s.users[other].email != u.email && s.users[other].phone != u.phone
    {
      if upd.email.Some? {
        var found := FindByEmail(s, upd.email.value);
      }
      if upd.phone.Some? {
        var found := FindByPhone(s, upd.phone.value);
      }
    }
  }

  /** Updating an account with its own current email and phone is not a conflict and changes nothing. */
  lemma UpdateWithOwnValues(s: Store, id: Id)
    requires Valid(s)
    requires id in s.users
    ensures var u := s.users[id];
      AuthService.UpdateProfile(s, id, map["email" := u.email, "phone" := u.phone]) == Success((s, ToJson(u)))
  {
    var u := s.users[id];
    var payload := map["email" := u.email, "phone" := u.phone];
    var upd := AllowedUpdates(payload);
    assert upd == ProfileUpdate(None, Some(u.email), Some(u.phone), None);
    assert Merge(u, upd) == u;
    OwnValuesDoNotCollide(s, id, u);
    assert s.users[id := u] == s.users;
  }

  /**
   * An empty email is "defined" but falsy: it skips the conflict check and is handed to the
   * store, whose required-field validator rejects it, whatever the store and the account.
   */
  lemma EmptyEmailSkipsConflictCheck(s: Store, id: Id)
    ensures AuthService.UpdateProfile(s, id, map["email" := ""]) ==
      Failure(Raw(None, ValidationMessage(UpdateValidationLead, ["email"])))
  {
    var upd := AllowedUpdates(map["email" := ""]);
    assert upd == ProfileUpdate(None, Some(""), None, None);
    assert Lower("") == "";
    assert NormalizeEmail("") == "";
  }

  /** Since the validator's error carries no status, the empty-email update reaches the client as a 500 with the validator's message. */
  lemma EmptyEmailAnsweredWith500(s: Store, id: Id, stack: Option<string>, nodeEnv: Option<string>)
    ensures var r := AuthService.UpdateProfile(s, id, map["email" := ""]);
      && r.Failure?
      && ErrorMiddleware.Respond(r.error, stack, nodeEnv).status == 500
      && ErrorMiddleware.Respond(r.error, stack, nodeEnv).message == "Validation failed: email: Path `email` is required."
  {
    EmptyEmailSkipsConflictCheck(s, id);
    UserService.EmptyEmailMessage();
  }

  /** A payload that names none of the allowed keys fails with 400 before the account is looked up. */
  lemma NoAllowedKeyFailsFirst(s: Store, id: Id, payload: map<string, string>)
    requires forall k | k in payload :: k !in AllowedFields
    ensures AuthService.UpdateProfile(s, id, payload) == Failure(Raise(400, NothingToUpdate))
  {
  }
}
