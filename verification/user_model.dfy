/** The account record of src/models/user.model.js, its setters and its public projection. */
module UserModel {
  import opened Wrappers
  import opened Text
  import opened Credentials

  /** A record identifier; the store hands them out in increasing order. */
  type Id = nat

  /** One account. `resetOtp`/`resetOtpExpires` (milliseconds) hold the pending password-reset code. */
  datatype User = User(
    id: Id,
    name: string,
    email: string,
    phone: string,
    profilePhoto: Option<string>,
    passwordHash: PasswordHash,
    resetOtp: Option<string>,
    resetOtpExpires: Option<int>)

  /** What `toJSON` leaves of a record: no password hash and no reset code. */
  datatype PublicUser = PublicUser(
    id: Id,
    name: string,
    email: string,
    phone: string,
    profilePhoto: Option<string>)

  /** The `toJSON` projection of a record. */
  function ToJson(u: User): PublicUser {
    PublicUser(u.id, u.name, u.email, u.phone, u.profilePhoto)
  }

  /** The email setters: `lowercase: true, trim: true`. */
  function NormalizeEmail(email: string): (r: string)
    ensures NoUpper(r)
  {
    TrimKeepsNoUpper(Lower(email));
    Trim(Lower(email))
  }

  lemma TrimKeepsNoUpper(s: string)
    requires NoUpper(s)
    ensures NoUpper(Trim(s))
  {
    TrimIsInfix(s);
    var r, i := Trim(s), |s| - |TrimStart(s)|;
    forall k | 0 <= k < |r|
      ensures !IsUpper(r[k])
    {
      assert r[k] == s[i + k];
    }
  }

  /** Normalizing an already normalized email changes nothing. */
  lemma NormalizeEmailIdempotent(email: string)
    ensures NormalizeEmail(NormalizeEmail(email)) == NormalizeEmail(email)
  {
    var n := NormalizeEmail(email);
    LowerOfNoUpper(n);
    TrimIdempotent(Lower(email));
  }

  /** The setter of `profilePhoto` (`trim: true`), applied only when a value is given. */
  function TrimPhoto(photo: Option<string>): Option<string> {
    match photo
    case Some(p) => Some(Trim(p))
    case None => None
  }

  /** The reset code and its expiry are set and cleared together. */
  predicate ResetPaired(u: User) {
    u.resetOtp.Some? <==> u.resetOtpExpires.Some?
  }

  /**
   * What the schema guarantees of a stored record: the required strings are non-empty after
   * their setters ran, and every string field is in its setters' normal form.
   */
  predicate WellFormed(u: User) {
    && u.name != "" && u.name == Trim(u.name)
    && u.email != "" && u.email == NormalizeEmail(u.email)
    && u.phone != "" && u.phone == Trim(u.phone)
    && TrimPhoto(u.profilePhoto) == u.profilePhoto
    && ResetPaired(u)
  }

  /**
   * The projection depends on the public fields only: two records that agree on them have the
   * same projection whatever their secrets, and records with the same projection agree on them.
   */
  lemma {:induction false} ToJsonHidesSecrets(u: User, v: User)
    ensures ToJson(u) == ToJson(v) <==>
      (u.id, u.name, u.email, u.phone, u.profilePhoto) == (v.id, v.name, v.email, v.phone, v.profilePhoto)
  {
  }

  /** Changing only a record's password hash or reset code leaves its projection unchanged. */
  lemma SecretsInvisible(u: User, hash: PasswordHash, otp: Option<string>, expires: Option<int>)
    ensures ToJson(u.(passwordHash := hash, resetOtp := otp, resetOtpExpires := expires)) == ToJson(u)
  {
  }
}
