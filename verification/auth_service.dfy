/**
 * src/services/auth.service.js: the account operations over the record store. Each takes the
 * store (and whatever the clock, the hashing primitive or the random source would supply) and
 * returns its result or the error it throws; an operation that writes returns the new store.
 */
module AuthService {
  import opened Wrappers
  import opened Text
  import opened Config
  import opened Errors
  import opened Credentials
  import opened Tokens
  import opened UserModel
  import opened UserService
  import opened OtpService

  const EmailTaken: string := "Email is already registered."
  const PhoneTaken: string := "Phone number is already registered."
  const InvalidCredentials: string := "Invalid credentials."
  const InvalidRefreshToken: string := "Invalid refresh token."
  const UserNotFound: string := "User not found."
  const InvalidOtp: string := "OTP is invalid or expired."
  const NothingToUpdate: string := "At least one field must be provided for update."

  /** The token pair handed to a client; `expiresIn` is the access token's lifetime in seconds. */
  datatype AuthTokens = AuthTokens(accessToken: Token, refreshToken: Token, expiresIn: int)

  /** What register and login answer: the public projection of the account and its tokens. */
  datatype Session = Session(user: PublicUser, tokens: AuthTokens)

  /**
   * `generateAuthTokens`: both tokens carry the user's id and verify as their own kind when
   * issued; `expiresIn` is exactly the access token's remaining lifetime, in seconds.
   */
  function GenerateAuthTokens(id: Id, now: int): (t: AuthTokens)
    ensures Verify(Some(t.accessToken), Access, now) == Success(id)
    ensures Verify(Some(t.refreshToken), Kind.Refresh, now) == Success(id)
    ensures t.accessToken.exp == now + t.expiresIn * 1000
    ensures t.accessToken.exp == now + Ttl(Access) && t.refreshToken.exp == now + Ttl(Kind.Refresh)
    ensures t.expiresIn == 900
  {
    AuthTokens(Issue(id, Access, now), Issue(id, Kind.Refresh, now), AccessExpirationMinutes * 60)
  }

  /**
   * `register`: a taken email is reported before a taken phone; otherwise the record is created
   * and the new account's projection and tokens are returned. In a valid store a free email and
   * phone with every required field present always register; the only other errors are the
   * store's own.
   */
  function Register(s: Store, h: Hasher, input: NewUser, now: int): (r: Result<(Store, Session), Thrown>)
    ensures FindByEmail(s, input.email).Some? ==> r == Failure(Raise(409, EmailTaken))
    ensures FindByEmail(s, input.email).None? && FindByPhone(s, input.phone).Some? ==>
      r == Failure(Raise(409, PhoneTaken))
    ensures (&& Valid(s)
             && FindByEmail(s, input.email).None? && FindByPhone(s, input.phone).None?
             && HasRequired(NewRecord(s.nextId, h, input))) ==> r.Success?
    ensures r.Failure? ==> var u := NewRecord(s.nextId, h, input);
      || r.error == Raise(409, EmailTaken)
      || r.error == Raise(409, PhoneTaken)
      || r.error == Raw(None, ValidationMessage(DocumentValidationLead, MissingPaths(u)))
      || r.error == Raw(None, CollisionMessage(s, u))
    ensures (&& FindByEmail(s, input.email).None? && FindByPhone(s, input.phone).None?
             && !HasRequired(NewRecord(s.nextId, h, input))) ==>
      r == Failure(Raw(None, ValidationMessage(DocumentValidationLead, MissingPaths(NewRecord(s.nextId, h, input)))))
    ensures r.Success? ==> var (s', session) := r.value;
      && FindByEmail(s, input.email).None? && FindByPhone(s, input.phone).None?
      && HasRequired(NewRecord(s.nextId, h, input))
      && session.user.id == s.nextId
      && session.user.id in s'.users
      && s'.users[session.user.id] == NewRecord(s.nextId, h, input)
      && s'.users.Keys == s.users.Keys + {session.user.id}
      && (forall id | id in s.users && id != session.user.id :: s'.users[id] == s.users[id])
      && session.user == ToJson(s'.users[session.user.id])
      && ComparePassword(h, input.password, s'.users[session.user.id].passwordHash)
      && Verify(Some(session.tokens.accessToken), Access, now) == Success(session.user.id)
      && Verify(Some(session.tokens.refreshToken), Kind.Refresh, now) == Success(session.user.id)
  {
    if FindByEmail(s, input.email).Some? then Failure(Raise(409, EmailTaken))
    else if FindByPhone(s, input.phone).Some? then Failure(Raise(409, PhoneTaken))
    else
      assert Valid(s) && HasRequired(NewRecord(s.nextId, h, input)) ==> CreateUser(s, h, input).Success? by {
        if Valid(s) { CreateUserInValidStore(s, h, input); }
      }
      match CreateUser(s, h, input)
      case Failure(e) => Failure(e)
      case Success((s', u)) => Success((s', Session(ToJson(u), GenerateAuthTokens(u.id, now))))
  }

  /**
   * `login`: an unknown email and a wrong password give the same 401; otherwise the account's
   * projection and tokens for its id are returned.
   */
  function Login(s: Store, h: Hasher, email: string, password: string, now: int): (r: Result<Session, Thrown>)
    ensures r.Failure? ==> r.error == Raise(401, InvalidCredentials)
    ensures r.Success? <==>
      FindByEmail(s, email).Some? && ComparePassword(h, password, FindByEmail(s, email).value.passwordHash)
    ensures r.Success? ==>
      && r.value.user == ToJson(FindByEmail(s, email).value)
      && Verify(Some(r.value.tokens.accessToken), Access, now) == Success(FindByEmail(s, email).value.id)
      && Verify(Some(r.value.tokens.refreshToken), Kind.Refresh, now) == Success(FindByEmail(s, email).value.id)
  {
    match FindByEmail(s, email)
    case None => Failure(Raise(401, InvalidCredentials))
    case Some(user) =>
      if !ComparePassword(h, password, user.passwordHash) then Failure(Raise(401, InvalidCredentials))
      else Success(Session(ToJson(user), GenerateAuthTokens(user.id, now)))
  }

  /**
   * `refresh`: a presented token that fails refresh verification gives 401 with the reason;
   * otherwise a fresh pair is issued for the token's subject.
   */
  function Refresh(presented: Option<Token>, now: int): (r: Result<AuthTokens, Thrown>)
    ensures r.Success? <==> Verify(presented, Kind.Refresh, now).Success?
    ensures r.Success? ==> r.value == GenerateAuthTokens(presented.value.sub, now)
    ensures r.Failure? ==>
      r.error == Api(ApiError(401, InvalidRefreshToken, true, Some(Reason(Verify(presented, Kind.Refresh, now).error))))
  {
    match Verify(presented, Kind.Refresh, now)
    case Success(sub) => Success(GenerateAuthTokens(sub, now))
    case Failure(reason) => Failure(Api(ApiError(401, InvalidRefreshToken, true, Some(Reason(reason)))))
  }

  /**
   * `logout`: true exactly when the refresh token verifies, 401 otherwise. It takes no store,
   * so it changes nothing: no token is revoked.
   */
  function Logout(presented: Option<Token>, now: int): (r: Result<bool, Thrown>)
    ensures r == Success(true) <==> Verify(presented, Kind.Refresh, now).Success?
    ensures r.Failure? <==> Verify(presented, Kind.Refresh, now).Failure?
    ensures r.Failure? ==> r.error == Raise(401, InvalidRefreshToken)
  {
    if Verify(presented, Kind.Refresh, now).Success? then Success(true) else Failure(Raise(401, InvalidRefreshToken))
  }

  /**
   * `requestPasswordReset`: an unknown email gives 404 and changes nothing; otherwise a fresh
   * code is stored on the account (replacing any earlier one) and mailed to it.
   */
  function RequestPasswordReset(s: Store, email: string, now: int, draw: Draws, delivery: Delivery): (d: Dispatch)
    ensures FindByEmail(s, email).None? ==> d == Dispatch(s, [], Failure(Raise(404, UserNotFound)))
    ensures FindByEmail(s, email).Some? ==> var user := FindByEmail(s, email).value;
      && d.store == SetResetOtp(s, user.id, OtpOf(OtpLength, draw), OtpExpiry(now))
      && (forall m | m in d.sent :: m.to == user.email && CodeInText(m.text) == OtpOf(OtpLength, draw))
      && (delivery.Delivered? <==> d.outcome.Success?)
      && (delivery.Delivered? ==>
            d.sent == [ResetOtpEmail(user.email, OtpOf(OtpLength, draw), OtpExpirationMinutes, AppClientName)])
  {
    match FindByEmail(s, email)
    case None => Dispatch(s, [], Failure(Raise(404, UserNotFound)))
    case Some(user) => AssignAndSendOtp(s, user, now, draw, delivery)
  }

  /** The record's reset code is present, non-empty (JavaScript truthiness), equal to `otp` and not past its expiry at `now`. */
  predicate OtpAccepted(u: User, otp: string, now: int) {
    && u.resetOtp.Some? && u.resetOtp.value != ""
    && u.resetOtpExpires.Some?
    && u.resetOtp.value == otp
    && now <= u.resetOtpExpires.value
  }

  /**
   * `resetPassword`: every way the code can be wrong gives the same 400 (no account, no code,
   * no expiry, a different code, a passed expiry) and writes nothing. Otherwise the password hash
   * is replaced and both reset fields are cleared.
   */
  function ResetPassword(s: Store, h: Hasher, email: string, otp: string, password: string, now: int): (r: Result<Store, Thrown>)
    ensures r.Failure? ==> r.error == Raise(400, InvalidOtp)
    ensures FindByEmail(s, email).None? ==> r.Failure?
    ensures FindByEmail(s, email).Some? ==> var u := FindByEmail(s, email).value;
      && (u.resetOtp.None? ==> r.Failure?)
      && (u.resetOtpExpires.None? ==> r.Failure?)
      && (u.resetOtp.Some? && u.resetOtp.value != otp ==> r.Failure?)
      && (u.resetOtpExpires.Some? && now > u.resetOtpExpires.value ==> r.Failure?)
      && (r.Success? <==> OtpAccepted(u, otp, now))
    ensures r.Success? ==> var u := FindByEmail(s, email).value;
      r.value == ClearResetOtp(UpdatePassword(s, h, u.id, password), u.id)
  {
    match FindByEmail(s, email)
    case None => Failure(Raise(400, InvalidOtp))
    case Some(user) =>
      if user.resetOtp.None? || user.resetOtp.value == "" || user.resetOtpExpires.None? then
        Failure(Raise(400, InvalidOtp))
      else if user.resetOtp.value != otp || now > user.resetOtpExpires.value then
        Failure(Raise(400, InvalidOtp))
      else
        Success(ClearResetOtp(UpdatePassword(s, h, user.id, password), user.id))
  }

  /**
   * In a valid store a successful reset changes exactly the account's password hash, which then
   * accepts the new password, and clears both reset fields; every other record is unchanged and
   * the store stays valid.
   */
  lemma ResetPasswordEffect(s: Store, h: Hasher, email: string, otp: string, password: string, now: int)
    requires Valid(s)
    ensures var r := ResetPassword(s, h, email, otp, password, now);
      r.Success? ==> var u := FindByEmail(s, email).value;
        && Valid(r.value)
        && r.value.users.Keys == s.users.Keys
        && u.id in s.users
        && ComparePassword(h, password, r.value.users[u.id].passwordHash)
        && r.value.users[u.id].resetOtp.None? && r.value.users[u.id].resetOtpExpires.None?
        && ToJson(r.value.users[u.id]) == ToJson(u)
        && (forall id | id in s.users && id != u.id :: r.value.users[id] == s.users[id])
  {
    var r := ResetPassword(s, h, email, otp, password, now);
    if r.Success? {
      var u := FindByEmail(s, email).value;
      UpdatePasswordPreservesValid(s, h, u.id, password);
      ClearResetOtpPreservesValid(UpdatePassword(s, h, u.id, password), u.id);
    }
  }

  /** `getCurrentUser`: the projection of the account with that id, or 404. */
  function GetCurrentUser(s: Store, id: Id): (r: Result<PublicUser, Thrown>)
    ensures r.Success? <==> id in s.users
    ensures r.Success? ==> r.value == ToJson(s.users[id])
    ensures r.Failure? ==> r.error == Raise(404, UserNotFound)
  {
    match FindById(s, id)
    case None => Failure(Raise(404, UserNotFound))
    case Some(user) => Success(ToJson(user))
  }

  /** The keys `updateProfile` copies from its payload. */
  const AllowedFields: set<string> := {"name", "email", "phone", "profilePhoto"}

  function Lookup(payload: map<string, string>, key: string): Option<string> {
    if key in payload then Some(payload[key]) else None
  }

  /** The update built from the payload: each allowed key that is defined, and nothing else. */
  function AllowedUpdates(payload: map<string, string>): (upd: ProfileUpdate)
    ensures upd == NoUpdate <==> forall k | k in AllowedFields :: k !in payload
  {
    ProfileUpdate(Lookup(payload, "name"), Lookup(payload, "email"), Lookup(payload, "phone"), Lookup(payload, "profilePhoto"))
  }

  const NoUpdate: ProfileUpdate := ProfileUpdate(None, None, None, None)

  /** Only the allowed keys of a payload matter: other keys (a password hash, a reset code) are ignored. */
  lemma OnlyAllowedFieldsMatter(p: map<string, string>, q: map<string, string>)
    requires forall k | k in AllowedFields :: (k in p <==> k in q) && (k in p ==> p[k] == q[k])
    ensures AllowedUpdates(p) == AllowedUpdates(q)
  {
    assert "name" in AllowedFields && "email" in AllowedFields;
    assert "phone" in AllowedFields && "profilePhoto" in AllowedFields;
  }

  /** A lookup that found an account other than `id`. */
  predicate TakenByOther(found: Option<User>, id: Id) {
    found.Some? && found.value.id != id
  }

  /** The email check of `updateProfile`: a given, non-empty email that another account owns. */
  predicate EmailConflict(s: Store, id: Id, upd: ProfileUpdate) {
    upd.email.Some? && upd.email.value != "" && TakenByOther(FindByEmail(s, upd.email.value), id)
  }

  /** The phone check of `updateProfile`: a given, non-empty phone that another account owns. */
  predicate PhoneConflict(s: Store, id: Id, upd: ProfileUpdate) {
    upd.phone.Some? && upd.phone.value != "" && TakenByOther(FindByPhone(s, upd.phone.value), id)
  }

  /**
   * `updateProfile`: with no allowed key given it fails with 400 before any lookup; a given,
   * non-empty email or phone that belongs to another account gives 409 (email first); then the
   * store's validators and a missing account (404) are reported. When all of those pass and the
   * store accepts the merged record, exactly the given fields are merged into the account and
   * its projection is returned.
   */
  function UpdateProfile(s: Store, id: Id, payload: map<string, string>): (r: Result<(Store, PublicUser), Thrown>)
    ensures AllowedUpdates(payload) == NoUpdate ==> r == Failure(Raise(400, NothingToUpdate))
    ensures var upd := AllowedUpdates(payload);
      upd != NoUpdate && EmailConflict(s, id, upd) ==> r == Failure(Raise(409, EmailTaken))
    ensures var upd := AllowedUpdates(payload);
      upd != NoUpdate && !EmailConflict(s, id, upd) && PhoneConflict(s, id, upd) ==>
        r == Failure(Raise(409, PhoneTaken))
    ensures var upd := AllowedUpdates(payload);
      upd != NoUpdate && !EmailConflict(s, id, upd) && !PhoneConflict(s, id, upd) && !UpdateHasRequired(upd) ==>
        r == Failure(Raw(None, ValidationMessage(UpdateValidationLead, MissingUpdatePaths(upd))))
    ensures var upd := AllowedUpdates(payload);
      upd != NoUpdate && !EmailConflict(s, id, upd) && !PhoneConflict(s, id, upd) && UpdateHasRequired(upd)
      && id !in s.users ==>
        r == Failure(Raise(404, UserNotFound))
    ensures var upd := AllowedUpdates(payload);
      upd != NoUpdate && !EmailConflict(s, id, upd) && !PhoneConflict(s, id, upd) && UpdateHasRequired(upd)
      && id in s.users && !Collides(s, Merge(s.users[id], upd)) ==>
        r.Success?
    ensures r.Success? ==> var upd := AllowedUpdates(payload);
      && id in s.users
      && !Collides(s, Merge(s.users[id], upd))
      && r.value.0 == s.(users := s.users[id := Merge(s.users[id], upd)])
      && r.value.1 == ToJson(Merge(s.users[id], upd))
    ensures r.Failure? ==> var upd := AllowedUpdates(payload);
      || r.error == Raise(400, NothingToUpdate)
      || r.error == Raise(409, EmailTaken)
      || r.error == Raise(409, PhoneTaken)
      || r.error == Raise(404, UserNotFound)
      || r.error == Raw(None, ValidationMessage(UpdateValidationLead, MissingUpdatePaths(upd)))
      || (id in s.users && r.error == Raw(None, CollisionMessage(s, Merge(s.users[id], upd))))
  {
    var upd := AllowedUpdates(payload);
    if upd == NoUpdate then Failure(Raise(400, NothingToUpdate))
    else if EmailConflict(s, id, upd) then Failure(Raise(409, EmailTaken))
    else if PhoneConflict(s, id, upd) then Failure(Raise(409, PhoneTaken))
    else
      match UserService.UpdateProfile(s, id, upd)
      case Failure(e) => Failure(e)
      case Success((s', None)) => Failure(Raise(404, UserNotFound))
      case Success((s', Some(u))) => Success((s', ToJson(u)))
  }
}
