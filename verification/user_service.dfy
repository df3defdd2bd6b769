/**
 * The record store behind src/services/user.service.js: a map from id to record with an id
 * counter. Its queries apply the schema's setters to the filter value, its writes apply them
 * to the written values, and it enforces the `required` and `unique` constraints itself.
 */
module UserService {
  import opened Wrappers
  import opened Text
  import opened Errors
  import opened Credentials
  import opened UserModel

  datatype Store = Store(users: map<Id, User>, nextId: Id)

  const EmptyStore: Store := Store(map[], 0)

  predicate UniqueEmails(users: map<Id, User>) {
    forall a, b | a in users && b in users && users[a].email == users[b].email :: a == b
  }

  predicate UniquePhones(users: map<Id, User>) {
    forall a, b | a in users && b in users && users[a].phone == users[b].phone :: a == b
  }

  predicate RecordsWellFormed(s: Store) {
    forall id | id in s.users :: id < s.nextId && s.users[id].id == id && WellFormed(s.users[id])
  }

  /**
   * The store invariant: every record sits under its own id, below the counter, is well formed,
   * and no two records share an email or a phone (the schema's unique indexes).
   */
  predicate Valid(s: Store) {
    && RecordsWellFormed(s)
    && UniqueEmails(s.users)
    && UniquePhones(s.users)
  }

  lemma EmptyStoreValid()
    ensures Valid(EmptyStore)
  {
  }

  /** A `findOne` filter, already passed through the field's setters. */
  datatype Query = ByEmail(email: string) | ByPhone(phone: string)

  predicate Matches(u: User, q: Query) {
    match q
    case ByEmail(e) => u.email == e
    case ByPhone(p) => u.phone == p
  }

  /** The first id at or after `from`, in allocation order, whose record matches `q`. */
  function FindIdFrom(s: Store, q: Query, from: nat): (r: Option<Id>)
    ensures r.Some? ==> from <= r.value && r.value in s.users && Matches(s.users[r.value], q)
    ensures r.None? ==> forall id | id in s.users && from <= id < s.nextId :: !Matches(s.users[id], q)
    decreases s.nextId - from
  {
    if from >= s.nextId then None
    else if from in s.users && Matches(s.users[from], q) then Some(from)
    else FindIdFrom(s, q, from + 1)
  }

  /**
   * `User.findOne(filter)`. In a valid store it returns the one record that matches, and
   * nothing exactly when no record matches.
   */
  function FindOne(s: Store, q: Query): (r: Option<User>)
    ensures r.Some? ==> Matches(r.value, q)
    ensures Valid(s) && r.Some? ==> r.value.id in s.users && s.users[r.value.id] == r.value
    ensures Valid(s) ==> forall id | id in s.users && Matches(s.users[id], q) :: r == Some(s.users[id])
    ensures Valid(s) && r.None? ==> forall id | id in s.users :: !Matches(s.users[id], q)
  {
    match FindIdFrom(s, q, 0)
    case Some(id) => Some(s.users[id])
    case None => None
  }

  /** `findByEmail`: the filter value goes through the email setters first. */
  function FindByEmail(s: Store, email: string): (r: Option<User>)
    ensures r.Some? ==> r.value.email == NormalizeEmail(email)
    ensures Valid(s) ==> forall id | id in s.users && s.users[id].email == NormalizeEmail(email) :: r == Some(s.users[id])
    ensures Valid(s) && r.None? ==> forall id | id in s.users :: s.users[id].email != NormalizeEmail(email)
    ensures Valid(s) && r.Some? ==> r.value.id in s.users && s.users[r.value.id] == r.value
  {
    FindOne(s, ByEmail(NormalizeEmail(email)))
  }

  /** `findByPhone`: the filter value is trimmed first. */
  function FindByPhone(s: Store, phone: string): (r: Option<User>)
    ensures r.Some? ==> r.value.phone == Trim(phone)
    ensures Valid(s) ==> forall id | id in s.users && s.users[id].phone == Trim(phone) :: r == Some(s.users[id])
    ensures Valid(s) && r.None? ==> forall id | id in s.users :: s.users[id].phone != Trim(phone)
    ensures Valid(s) && r.Some? ==> r.value.id in s.users && s.users[r.value.id] == r.value
  {
    FindOne(s, ByPhone(Trim(phone)))
  }

  /** `findById`: the record stored under that id, if any. */
  function FindById(s: Store, id: Id): (r: Option<User>)
    ensures r.Some? <==> id in s.users
    ensures r.Some? ==> r.value == s.users[id]
  {
    if id in s.users then Some(s.users[id]) else None
  }

  /** How the schema validator's error on a new document begins: the model's name. */
  const DocumentValidationLead: string := "User validation failed"
  /** How the update validators' error begins: it names no model. */
  const UpdateValidationLead: string := "Validation failed"
  /** How the unique index's error begins. */
  const DuplicateKeyLead: string := "E11000 duplicate key error"
  /** The collection holding the records, in the default database of the connection string. */
  const Collection: string := "auth_service.users"

  /** The required validator's entry for one path in a validation error's message. */
  function RequiredEntry(path: string): string {
    path + ": Path `" + path + "` is required."
  }

  /** The entries of the failing paths, in order, separated by ", ". */
  function JoinEntries(paths: seq<string>): string
    decreases |paths|
  {
    if |paths| == 0 then ""
    else if |paths| == 1 then RequiredEntry(paths[0])
    else RequiredEntry(paths[0]) + ", " + JoinEntries(paths[1..])
  }

  /** A validation error's message: its lead, then one entry per failing path. */
  function ValidationMessage(lead: string, paths: seq<string>): (m: string)
    ensures StartsWith(m, lead)
  {
    assert (lead + ": " + JoinEntries(paths))[..|lead|] == lead;
    lead + ": " + JoinEntries(paths)
  }

  /** The `required` validator's entry for the email path, spelled out. */
  lemma EmailEntry()
    ensures RequiredEntry("email") == "email: Path `email` is required."
  {
    assert "email" + ": Path `" == "email: Path `";
    assert "email: Path `" + "email" == "email: Path `email";
  }

  /** The update validator's message for an emptied email, spelled out. */
  lemma EmptyEmailMessage()
    ensures ValidationMessage(UpdateValidationLead, ["email"]) == "Validation failed: email: Path `email` is required."
  {
    EmailEntry();
    EmailMessageLiteral();
    assert JoinEntries(["email"]) == RequiredEntry("email");
    assert UpdateValidationLead + ": " == "Validation failed: ";
  }

  /** The lead joined to the email entry, as one literal. */
  lemma EmailMessageLiteral()
    ensures "Validation failed: " + "email: Path `email` is required." == "Validation failed: email: Path `email` is required."
  {
  }

  /** Every required path holds a non-empty string: the `required` validator rejects the empty string. */
  predicate HasRequired(u: User) {
    u.name != "" && u.email != "" && u.phone != "" && u.passwordHash.digest != ""
  }

  /** The required paths of `u` that are empty, in schema order: name, email, phone, passwordHash. */
  function MissingPaths(u: User): (paths: seq<string>)
    ensures paths == [] <==> HasRequired(u)
    ensures "email" in paths <==> u.email == ""
    ensures "passwordHash" in paths <==> u.passwordHash.digest == ""
  {
    (if u.name == "" then ["name"] else [])
    + (if u.email == "" then ["email"] else [])
    + (if u.phone == "" then ["phone"] else [])
    + (if u.passwordHash.digest == "" then ["passwordHash"] else [])
  }

  /** The unique index's error for a value already owned by another record. */
  function DuplicateKeyMessage(field: string, value: string): (m: string)
    ensures StartsWith(m, DuplicateKeyLead)
  {
    var m := DuplicateKeyLead + " collection: " + Collection + " index: " + field + "_1 dup key: { "
      + field + ": \"" + value + "\" }";
    assert m[..|DuplicateKeyLead|] == DuplicateKeyLead;
    m
  }

  /** Would storing `u` give some other record's email a second owner? */
  predicate EmailCollides(s: Store, u: User) {
    exists id | id in s.users && id != u.id :: s.users[id].email == u.email
  }

  /** Would storing `u` give some other record's email or phone a second owner? */
  predicate Collides(s: Store, u: User) {
    exists id | id in s.users && id != u.id :: s.users[id].email == u.email || s.users[id].phone == u.phone
  }

  /** The unique index's error for storing `u`: the email index is consulted before the phone index. */
  function CollisionMessage(s: Store, u: User): (m: string)
    ensures StartsWith(m, DuplicateKeyLead)
  {
    if EmailCollides(s, u) then DuplicateKeyMessage("email", u.email) else DuplicateKeyMessage("phone", u.phone)
  }

  /** Writing a well-formed record that collides with no other record keeps the store valid. */
  lemma PutPreservesValid(s: Store, u: User)
    requires Valid(s)
    requires u.id < s.nextId
    requires WellFormed(u)
    requires !Collides(s, u)
    ensures Valid(s.(users := s.users[u.id := u]))
  {
    var m := s.users[u.id := u];
    var s' := s.(users := m);
    assert RecordsWellFormed(s') by {
      forall id | id in m
        ensures id < s.nextId && m[id].id == id && WellFormed(m[id])
      {
        if id != u.id {
          assert m[id] == s.users[id];
        }
      }
    }
    forall a, b | a in m && b in m && a != b
      ensures m[a].email != m[b].email && m[a].phone != m[b].phone
    {
      if a == u.id {
        NoCollisionWith(s, u, b);
      } else if b == u.id {
        NoCollisionWith(s, u, a);
      } else {
        assert m[a] == s.users[a] && m[b] == s.users[b];
      }
    }
  }

  lemma NoCollisionWith(s: Store, u: User, id: Id)
    requires !Collides(s, u)
    requires id in s.users && id != u.id
    ensures s.users[id].email != u.email && s.users[id].phone != u.phone
  {
  }

  /** In a valid store a record's own email and phone collide with nobody. */
  lemma OwnValuesDoNotCollide(s: Store, id: Id, u: User)
    requires Valid(s)
    requires id in s.users && u.id == id
    requires u.email == s.users[id].email && u.phone == s.users[id].phone
    ensures !Collides(s, u)
  {
  }

  /** The fields of `createUser`'s argument. */
  datatype NewUser = NewUser(name: string, email: string, phone: string, profilePhoto: Option<string>, password: string)

  /** The record `User.create` builds for `f`: setters applied, the password hashed, no reset code. */
  function NewRecord(id: Id, h: Hasher, f: NewUser): User {
    User(id, Trim(f.name), NormalizeEmail(f.email), Trim(f.phone), TrimPhoto(f.profilePhoto),
      HashPassword(h, f.password), None, None)
  }

  lemma NewRecordWellFormed(id: Id, h: Hasher, f: NewUser)
    requires HasRequired(NewRecord(id, h, f))
    ensures WellFormed(NewRecord(id, h, f))
  {
    TrimIdempotent(f.name);
    TrimIdempotent(f.phone);
    NormalizeEmailIdempotent(f.email);
    if f.profilePhoto.Some? {
      TrimIdempotent(f.profilePhoto.value);
    }
  }

  /**
   * `createUser`: hash the password and insert a new record under the next id. The schema's
   * validator rejects an empty required field and the unique indexes reject a taken email or
   * phone; otherwise the store gains exactly the new record, with the setters applied and a
   * hash that accepts the given password.
   */
  function CreateUser(s: Store, h: Hasher, f: NewUser): (r: Result<(Store, User), Thrown>)
    ensures r.Success? <==> HasRequired(NewRecord(s.nextId, h, f)) && !Collides(s, NewRecord(s.nextId, h, f))
    ensures !HasRequired(NewRecord(s.nextId, h, f)) ==>
      r == Failure(Raw(None, ValidationMessage(DocumentValidationLead, MissingPaths(NewRecord(s.nextId, h, f)))))
    ensures HasRequired(NewRecord(s.nextId, h, f)) && Collides(s, NewRecord(s.nextId, h, f)) ==>
      r == Failure(Raw(None, CollisionMessage(s, NewRecord(s.nextId, h, f))))
    ensures r.Success? ==> var (s', u) := r.value;
      && s'.users.Keys == s.users.Keys + {u.id}
      && (forall id | id in s.users && id != u.id :: s'.users[id] == s.users[id])
      && s'.users[u.id] == u
      && u.id == s.nextId && s'.nextId > u.id
      && u.passwordHash == HashPassword(h, f.password)
      && ComparePassword(h, f.password, u.passwordHash)
      && u.resetOtp.None? && u.resetOtpExpires.None?
      && u.name == Trim(f.name) && u.email == NormalizeEmail(f.email)
      && u.phone == Trim(f.phone) && u.profilePhoto == TrimPhoto(f.profilePhoto)
  {
    var u := NewRecord(s.nextId, h, f);
    if !HasRequired(u) then Failure(Raw(None, ValidationMessage(DocumentValidationLead, MissingPaths(u))))
    else if Collides(s, u) then Failure(Raw(None, CollisionMessage(s, u)))
    else Success((Store(s.users[u.id := u], s.nextId + 1), u))
  }

  /**
   * In a valid store, creating succeeds exactly when the required fields are present and
   * neither lookup finds the email or phone; the new id is fresh, the store stays valid, and
   * both lookups then find the new record.
   */
  lemma CreateUserInValidStore(s: Store, h: Hasher, f: NewUser)
    requires Valid(s)
    ensures var r := CreateUser(s, h, f);
      && (HasRequired(NewRecord(s.nextId, h, f)) ==>
           (r.Success? <==> FindByEmail(s, f.email).None? && FindByPhone(s, f.phone).None?))
      && (r.Success? ==> var (s', u) := r.value;
           && u.id !in s.users
           && Valid(s')
           && FindByEmail(s', f.email) == Some(u)
           && FindByPhone(s', f.phone) == Some(u))
  {
    var u := NewRecord(s.nextId, h, f);
    if HasRequired(u) {
      if Collides(s, u) {
        var id :| id in s.users && id != u.id && (s.users[id].email == u.email || s.users[id].phone == u.phone);
        assert FindByEmail(s, f.email).Some? || FindByPhone(s, f.phone).Some?;
      } else {
        if FindByEmail(s, f.email).Some? {
          NoCollisionWith(s, u, FindByEmail(s, f.email).value.id);
        }
        if FindByPhone(s, f.phone).Some? {
          NoCollisionWith(s, u, FindByPhone(s, f.phone).value.id);
        }
        NewRecordWellFormed(s.nextId, h, f);
        PutPreservesValid(s.(nextId := s.nextId + 1), u);
        var s' := Store(s.users[u.id := u], s.nextId + 1);
        assert Valid(s');
        assert s'.users[u.id] == u;
      }
    }
  }

  /** The allowed fields of a profile update; an absent field is left alone. */
  datatype ProfileUpdate = ProfileUpdate(
    name: Option<string>, email: Option<string>, phone: Option<string>, profilePhoto: Option<string>)

  /**
   * The given fields, passed through their setters, merged into `u`: a given field takes the
   * normalized new value, an absent one keeps its value, and the id, password hash and reset
   * code are never touched.
   */
  function Merge(u: User, upd: ProfileUpdate): (v: User)
    ensures v.id == u.id && v.passwordHash == u.passwordHash
    ensures v.resetOtp == u.resetOtp && v.resetOtpExpires == u.resetOtpExpires
    ensures v.name == (if upd.name.Some? then Trim(upd.name.value) else u.name)
    ensures v.email == (if upd.email.Some? then NormalizeEmail(upd.email.value) else u.email)
    ensures v.phone == (if upd.phone.Some? then Trim(upd.phone.value) else u.phone)
    ensures v.profilePhoto == (if upd.profilePhoto.Some? then Some(Trim(upd.profilePhoto.value)) else u.profilePhoto)
  {
    User(u.id,
      if upd.name.Some? then Trim(upd.name.value) else u.name,
      if upd.email.Some? then NormalizeEmail(upd.email.value) else u.email,
      if upd.phone.Some? then Trim(upd.phone.value) else u.phone,
      if upd.profilePhoto.Some? then Some(Trim(upd.profilePhoto.value)) else u.profilePhoto,
      u.passwordHash, u.resetOtp, u.resetOtpExpires)
  }

  /** The update validators (`runValidators: true`): each given required field is non-empty after its setter. */
  predicate UpdateHasRequired(upd: ProfileUpdate) {
    && (upd.name.Some? ==> Trim(upd.name.value) != "")
    && (upd.email.Some? ==> NormalizeEmail(upd.email.value) != "")
    && (upd.phone.Some? ==> Trim(upd.phone.value) != "")
  }

  /** The given required paths that are empty after their setters, in the order the update lists them. */
  function MissingUpdatePaths(upd: ProfileUpdate): (paths: seq<string>)
    ensures paths == [] <==> UpdateHasRequired(upd)
    ensures "email" in paths <==> upd.email.Some? && NormalizeEmail(upd.email.value) == ""
  {
    (if upd.name.Some? && Trim(upd.name.value) == "" then ["name"] else [])
    + (if upd.email.Some? && NormalizeEmail(upd.email.value) == "" then ["email"] else [])
    + (if upd.phone.Some? && Trim(upd.phone.value) == "" then ["phone"] else [])
  }

  lemma MergeWellFormed(u: User, upd: ProfileUpdate)
    requires WellFormed(u)
    requires UpdateHasRequired(upd)
    ensures WellFormed(Merge(u, upd))
  {
    if upd.name.Some? { TrimIdempotent(upd.name.value); }
    if upd.email.Some? { NormalizeEmailIdempotent(upd.email.value); }
    if upd.phone.Some? { TrimIdempotent(upd.phone.value); }
    if upd.profilePhoto.Some? { TrimIdempotent(upd.profilePhoto.value); }
  }

  /**
   * `updateProfile` (`findByIdAndUpdate` with `new: true, runValidators: true`): reject an
   * update that empties a required field, answer nothing when the id is absent, reject an update
   * that would take another record's email or phone, and otherwise merge exactly the given
   * fields into the record and return it. Nothing but that one record's given fields changes.
   */
  function UpdateProfile(s: Store, id: Id, upd: ProfileUpdate): (r: Result<(Store, Option<User>), Thrown>)
    ensures r.Failure? ==> r.error.Raw?
    ensures !UpdateHasRequired(upd) ==> r == Failure(Raw(None, ValidationMessage(UpdateValidationLead, MissingUpdatePaths(upd))))
    ensures UpdateHasRequired(upd) && id !in s.users ==> r == Success((s, None))
    ensures UpdateHasRequired(upd) && id in s.users && !Collides(s, Merge(s.users[id], upd)) ==>
      r.Success? && r.value.1 == Some(Merge(s.users[id], upd))
    ensures UpdateHasRequired(upd) && id in s.users && Collides(s, Merge(s.users[id], upd)) ==>
      r == Failure(Raw(None, CollisionMessage(s, Merge(s.users[id], upd))))
    ensures r.Success? && r.value.1.None? ==> r.value.0 == s
    ensures r.Success? && r.value.1.Some? ==>
      && id in s.users
      && r.value.1.value == Merge(s.users[id], upd)
      && r.value.0 == s.(users := s.users[id := r.value.1.value])
  {
    if !UpdateHasRequired(upd) then Failure(Raw(None, ValidationMessage(UpdateValidationLead, MissingUpdatePaths(upd))))
    else if id !in s.users then Success((s, None))
    else
      var u := Merge(s.users[id], upd);
      if Collides(s, u) then Failure(Raw(None, CollisionMessage(s, u)))
      else Success((s.(users := s.users[id := u]), Some(u)))
  }

  /** A successful profile update keeps a valid store valid. */
  lemma UpdateProfilePreservesValid(s: Store, id: Id, upd: ProfileUpdate)
    requires Valid(s)
    ensures UpdateProfile(s, id, upd).Success? ==> Valid(UpdateProfile(s, id, upd).value.0)
  {
    if UpdateHasRequired(upd) && id in s.users {
      var u := Merge(s.users[id], upd);
      if !Collides(s, u) {
        MergeWellFormed(s.users[id], upd);
        PutPreservesValid(s, u);
      }
    }
  }

  /**
   * `setResetOtp`: store a code and its expiry on the record, overwriting any earlier pair.
   * Nothing else changes; an absent id changes nothing.
   */
  function SetResetOtp(s: Store, id: Id, otp: string, expiresAt: int): (s': Store)
    ensures s'.nextId == s.nextId && s'.users.Keys == s.users.Keys
    ensures id in s.users ==> s'.users[id] == s.users[id].(resetOtp := Some(otp), resetOtpExpires := Some(expiresAt))
    ensures forall other | other in s.users && other != id :: s'.users[other] == s.users[other]
  {
    if id !in s.users then s
    else
      var u := s.users[id].(resetOtp := Some(otp), resetOtpExpires := Some(expiresAt));
      s.(users := s.users[id := u])
  }

  /** `clearResetOtp`: remove the code and its expiry together. Nothing else changes. */
  function ClearResetOtp(s: Store, id: Id): (s': Store)
    ensures s'.nextId == s.nextId && s'.users.Keys == s.users.Keys
    ensures id in s.users ==> s'.users[id] == s.users[id].(resetOtp := None, resetOtpExpires := None)
    ensures forall other | other in s.users && other != id :: s'.users[other] == s.users[other]
  {
    if id !in s.users then s
    else
      var u := s.users[id].(resetOtp := None, resetOtpExpires := None);
      s.(users := s.users[id := u])
  }

  /**
   * `updatePassword`: replace the record's password hash by the hash of `password`, which then
   * accepts that password. No other field and no other record changes.
   */
  function UpdatePassword(s: Store, h: Hasher, id: Id, password: string): (s': Store)
    ensures s'.nextId == s.nextId && s'.users.Keys == s.users.Keys
    ensures id in s.users ==> ComparePassword(h, password, s'.users[id].passwordHash)
    ensures id in s.users ==> s'.users[id].(passwordHash := s.users[id].passwordHash) == s.users[id]
    ensures forall other | other in s.users && other != id :: s'.users[other] == s.users[other]
  {
    if id !in s.users then s
    else
      var u := s.users[id].(passwordHash := HashPassword(h, password));
      s.(users := s.users[id := u])
  }

  /** Storing a reset code keeps a valid store valid: both reset fields become present together. */
  lemma SetResetOtpPreservesValid(s: Store, id: Id, otp: string, expiresAt: int)
    requires Valid(s)
    ensures Valid(SetResetOtp(s, id, otp, expiresAt))
  {
    if id in s.users {
      var u := s.users[id].(resetOtp := Some(otp), resetOtpExpires := Some(expiresAt));
      OwnValuesDoNotCollide(s, id, u);
      PutPreservesValid(s, u);
    }
  }

  /** Clearing a reset code keeps a valid store valid: both reset fields become absent together. */
  lemma ClearResetOtpPreservesValid(s: Store, id: Id)
    requires Valid(s)
    ensures Valid(ClearResetOtp(s, id))
  {
    if id in s.users {
      var u := s.users[id].(resetOtp := None, resetOtpExpires := None);
      OwnValuesDoNotCollide(s, id, u);
      PutPreservesValid(s, u);
    }
  }

  /** Replacing a password hash keeps a valid store valid. */
  lemma UpdatePasswordPreservesValid(s: Store, h: Hasher, id: Id, password: string)
    requires Valid(s)
    ensures Valid(UpdatePassword(s, h, id, password))
  {
    if id in s.users {
      var u := s.users[id].(passwordHash := HashPassword(h, password));
      OwnValuesDoNotCollide(s, id, u);
      PutPreservesValid(s, u);
    }
  }
}
