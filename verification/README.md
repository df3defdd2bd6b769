# Account and credential lifecycle of an Express/Mongoose auth service

This project is a Dafny model of the account core of a small Node.js authentication service. It covers:

- the account operations of `src/services/auth.service.js`: register, login, token refresh, logout, password-reset request and reset, current user, and profile update;
- the record-store primitives of `src/services/user.service.js`;
- the reset-code generator and issuer of `src/services/otp.service.js`;
- the account record, its setters and its `toJSON` projection (`src/models/user.model.js`);
- the bearer-header check of `src/middlewares/auth.middleware.js`;
- the error conversion and response of `src/middlewares/error.middleware.js`.

Every operation is a pure function over an immutable store, `Store(users: map<Id, User>, nextId)`. An operation returns its result or the error it throws (`Result<_, Thrown>`). An operation that writes also returns the new store.

Several things the service gets from its environment are parameters instead:

- the clock (`now`, in milliseconds);
- the hashing primitive (`Hasher`);
- the random digit source (`Draws`, the i-th `randomInt(0, 10)`);
- the mail transport's answer (`Delivery`);
- the JWT decoder (`decode`).

Tokens are the abstract `Token(sub, kind, exp)`. The two token kinds stand for the two signing secrets.

The store does what the Mongoose schema does:

- the email filter and the stored email are lowercased and trimmed;
- names, phones and photos are trimmed;
- an empty required field (name, email, phone, password hash) is rejected with Mongoose's validation error, whose message names each failing path;
- a second owner of an email or phone is rejected with the unique index's E11000 duplicate-key error, which names the index and the value.

Neither store error carries a status, so both reach the client as a 500 with the store's message.

The invariant `UserService.Valid` says that ids are keys, records are in their setters' normal form, the reset fields are paired, and emails and phones are unique. Every store primitive preserves it.

Modules, one per source component: `Wrappers`, `Config`, `Text` (JavaScript string helpers), `Errors`, `Credentials`, `Tokens`, `UserModel`, `UserService`, `OtpService`, `AuthService`, `AuthMiddleware`, `ErrorMiddleware`. The module `AuthProperties` holds the lemmas that relate several operations.

Behaviour of the code worth knowing:

- Raw store and mail errors are not hidden behind a generic internal error. `errorConverter` keeps their own message and turns only a missing status into 500. See `ErrorMiddleware.ErrorConverter`.
- A reset request is not all-or-nothing. The code is stored before the mail is sent, so a failed delivery reports an error yet leaves the new code usable. See `AuthProperties.FailedDeliveryKeepsCode`.
- The stored values are not copied verbatim. They pass through the schema's setters, so `" A@B.COM "` is stored as `"a@b.com"`.
- A stored reset code must be truthy in the JavaScript sense, so an empty stored code is never accepted. See `AuthService.OtpAccepted`.
- Logout validates the refresh token and revokes nothing.

## Model

| member | source | states |
|---|---|---|
| Errors.Raise | src/utils/apiError.js:1-9 | `new ApiError(status, message)` is operational, has no details, and carries exactly that status and message |
| Credentials.HashPassword | src/services/user.service.js:6-9 | the stored hash of a password is accepted by `comparePassword` for that same password (the correctness axiom of the hash) |
| Text.TrimIsInfix | src/models/user.model.js:8 | the `trim` setter removes exactly the leading and trailing whitespace: the result is a contiguous slice of the input, everything cut is whitespace, and the result neither starts nor ends with whitespace |
| Text.TrimIdempotent | src/models/user.model.js:8 | trimming a trimmed string changes nothing |
| Text.TrimStartSpec | src/models/user.model.js:8 | the left half of `trim`: what is dropped is whitespace and what is kept does not start with whitespace |
| Text.TrimEndSpec | src/models/user.model.js:8 | the right half of `trim`: what is dropped is whitespace and what is kept does not end with whitespace |
| Text.LowerChar | src/models/user.model.js:14 | an ASCII capital moves 32 code points to its small letter; every other character, whitespace included, is left alone; no capital remains |
| Text.Lower | src/models/user.model.js:14 | the `lowercase` setter keeps the length and lowercases each character in place |
| Text.LowerOfNoUpper | src/models/user.model.js:14 | lowercasing a string without capitals changes nothing |
| Text.Split | src/middlewares/auth.middleware.js:10 | `split(' ')` yields at least one part; the first part is the text before the first space; when there is a space, a second part exists and is the text between it and the next space (or the end) |
| Text.SplitJoin | src/middlewares/auth.middleware.js:10 | joining the parts of a split with the same separator gives back the string, so no character is lost or added |
| Text.SplitPartsFree | src/middlewares/auth.middleware.js:10 | no part of a split contains the separator |
| Text.SplitOfJoin | src/middlewares/auth.middleware.js:10 | splitting the join of one or more separator-free parts gives back exactly those parts, so split and join are inverse |
| Text.DecimalRoundTrip | src/services/otp.service.js:17 | the decimal text of a minute count in the mail body reads back as that count |
| Text.LeadingDigitsOf | src/services/otp.service.js:17 | reading the digits at the front of "digits followed by a non-digit" gives back exactly those digits |
| UserModel.NormalizeEmail | src/models/user.model.js:10-16 | the email setters leave no capital letter |
| UserModel.NormalizeEmailIdempotent | src/models/user.model.js:10-16 | applying the email setters to a stored email changes nothing, so a stored email always finds itself |
| UserModel.ToJsonHidesSecrets | src/models/user.model.js:39-45 | two records have the same projection exactly when they agree on id, name, email, phone and photo, whatever their secrets |
| UserModel.SecretsInvisible | src/models/user.model.js:39-45 | changing the password hash or reset code of a record leaves its projection unchanged |
| UserService.FindById | src/services/user.service.js:27 | the lookup by id finds a record exactly when the id is a key, and then it is the record stored under it |
| UserService.MissingPaths | src/models/user.model.js:5-30 | the required paths of a new record that are empty: none exactly when every required field is present; the email and password-hash paths are named exactly when those fields are empty |
| UserService.EmailEntry | src/models/user.model.js:10-12 | the required validator's entry for an empty email is "email: Path `email` is required." |
| UserService.EmptyEmailMessage | src/services/user.service.js:29-33 | an update whose only failing path is the email is rejected with "Validation failed: email: Path `email` is required." |
| UserService.EmptyStoreValid | src/models/user.model.js:10-22 | the empty store satisfies the uniqueness and well-formedness invariant |
| UserService.FindIdFrom | src/services/user.service.js:23-25 | the scan behind `findOne` returns a matching id at or after its start, or there is no match in that range |
| UserService.FindOne | src/services/user.service.js:23-25 | `findOne` returns a matching record; in a valid store it is the only match, and no result means no record matches |
| UserService.FindByEmail | src/services/user.service.js:23 | the lookup filter goes through the email setters: the result's email is the normalized filter, and in a valid store it is the unique such record or none exists |
| UserService.FindByPhone | src/services/user.service.js:25 | the same for the trimmed phone filter |
| UserService.PutPreservesValid | src/models/user.model.js:10-22 | writing a well-formed record whose email and phone belong to no other record keeps the store valid |
| UserService.NoCollisionWith | src/models/user.model.js:13-20 | a record that collides with nobody differs in email and phone from every other record |
| UserService.OwnValuesDoNotCollide | src/models/user.model.js:13-20 | in a valid store a record's own email and phone are not a collision with itself |
| UserService.NewRecordWellFormed | src/models/user.model.js:5-32 | a new record whose required fields survive their setters is in its setters' normal form with its reset fields paired |
| UserService.CreateUser | src/services/user.service.js:11-21 | creation succeeds exactly when every required field (name, email, phone, password hash) is non-empty after its setter and neither the email nor the phone belongs to another record; a missing field gives "User validation failed: …" naming the missing paths in schema order, checked before uniqueness; a collision gives the E11000 message of the email index, or of the phone index when the email is free; on success exactly one record is added under the next id, with normalized fields, the hash of the given password (which accepts it), and no reset code |
| UserService.CreateUserInValidStore | src/services/user.service.js:11-21 | in a valid store, with the required fields present, creation succeeds exactly when neither the email nor the phone is taken; on success the store stays valid and both lookups find the new record |
| UserService.Merge | src/services/user.service.js:29-33 | each given field is replaced by its setter-normalized value, each absent field is kept, and the id, hash and reset fields are untouched |
| UserService.MergeWellFormed | src/services/user.service.js:29-33 | merging an update whose given required fields are non-empty keeps a record well-formed |
| UserService.MissingUpdatePaths | src/services/user.service.js:29-33 | the given required fields of an update that are empty after their setters: none exactly when the update passes the validators; the email path is named exactly when a given email normalizes to "" |
| UserService.UpdateProfile | src/services/user.service.js:29-33 | every error is a store error without status; with validators on, an empty given required field gives "Validation failed: …" naming those paths; otherwise an absent id gives no record and no change; otherwise the merged record is stored and returned exactly when it takes no other record's email or phone, and a collision gives the E11000 message of the email index, or of the phone index when the email is free |
| UserService.UpdateProfilePreservesValid | src/services/user.service.js:29-33 | a successful profile update keeps a valid store valid |
| UserService.SetResetOtp | src/services/user.service.js:35-40 | both reset fields of the target are overwritten together; no key and no other record changes |
| UserService.ClearResetOtp | src/services/user.service.js:42-47 | both reset fields of the target are cleared together; no key and no other record changes |
| UserService.UpdatePassword | src/services/user.service.js:49-52 | only the target's password hash changes, and the new hash accepts the new password; no other record changes |
| UserService.SetResetOtpPreservesValid | src/services/user.service.js:35-40 | storing a reset code keeps a valid store valid |
| UserService.ClearResetOtpPreservesValid | src/services/user.service.js:42-47 | clearing a reset code keeps a valid store valid |
| UserService.UpdatePasswordPreservesValid | src/services/user.service.js:49-52 | replacing a password hash keeps a valid store valid |
| Tokens.Ttl | src/services/token.service.js:4-14 | every token kind has a positive lifetime |
| Tokens.Issue | src/services/token.service.js:4-14 | a signed token carries the subject and kind and expires exactly one lifetime after signing |
| Tokens.Verify | src/services/token.service.js:16-19 | verification succeeds exactly for a decodable token of the expected kind that has not reached its expiry, and yields its subject |
| Tokens.IssueVerifyRoundTrip | src/services/token.service.js:4-19 | a freshly signed token verifies, with its own subject, exactly until its lifetime has elapsed |
| Tokens.KindsNotInterchangeable | src/services/token.service.js:16-19 | no token verifies both as an access token and as a refresh token |
| Tokens.ExpiryIsFinal | src/services/token.service.js:16-19 | a token that has expired stays rejected at every later time |
| OtpService.OtpOf | src/services/otp.service.js:5-13 | the code has exactly the requested length, only decimal digits, and its i-th character is the digit of the i-th draw |
| OtpService.GenerateOtp | src/services/otp.service.js:5-13 | the loop builds exactly the code of the first `length` draws (so length 0 gives "") |
| OtpService.ResetOtpEmail | src/services/otp.service.js:15-21 | the mail goes to the given address and its subject starts with the application name |
| OtpService.ResetMailCarriesCode | src/services/otp.service.js:17 | a reader of the text body recovers exactly the code that was put in |
| OtpService.ResetMailCarriesMinutes | src/services/otp.service.js:17 | a reader of the text body recovers exactly the expiry minutes that were put in |
| OtpService.ResetMailSubject | src/services/otp.service.js:16 | the subject is the application name followed by " password reset code" |
| OtpService.OtpExpiry | src/services/otp.service.js:25-27 | a code expires exactly ten minutes (600000 ms) after it is issued |
| OtpService.AssignAndSendOtp | src/services/otp.service.js:23-35 | the new code and its expiry are stored first, whatever the delivery; a delivered mail is the one reset mail, sent to the user's address with the stored code and the ten-minute expiry; a failed delivery sends nothing and reports the transport's error |
| AuthService.GenerateAuthTokens | src/services/auth.service.js:9-13 | both tokens verify as their own kind to the user's id; the access token expires 15 minutes and the refresh token 7 days after issue; `expiresIn` is 900, the access token's lifetime in seconds |
| AuthService.Register | src/services/auth.service.js:15-30 | a taken email gives 409 "Email is already registered." even when the phone is also taken; otherwise a taken phone gives 409 "Phone number is already registered."; in a valid store with both free and every required field present, registration succeeds; with both free and a required field empty, it fails with the store's validation message naming the missing paths; every other failure is the store's duplicate-key message; on success the record stored under the next id is exactly the one built from the input by the setters and the hash, nothing else changes, and the answer is its projection with tokens for its id |
| AuthService.Login | src/services/auth.service.js:32-48 | every failure is the same 401 "Invalid credentials."; login succeeds exactly when the email is found and the password matches its hash, and then both tokens are for that account |
| AuthService.Refresh | src/services/auth.service.js:50-60 | renewal succeeds exactly when the token verifies as a refresh token, issuing a fresh pair for its subject; otherwise 401 "Invalid refresh token." with the verifier's reason |
| AuthService.Logout | src/services/auth.service.js:62-72 | logout answers true exactly when the refresh token verifies and 401 otherwise; it has no store to change |
| AuthService.RequestPasswordReset | src/services/auth.service.js:74-81 | an unknown email gives 404 and changes nothing; otherwise the generated code is stored on that account; a delivered mail is exactly the one reset mail carrying it to the account's address, and every mail sent carries it |
| AuthService.ResetPassword | src/services/auth.service.js:83-96 | the single 400 "OTP is invalid or expired." for no user, no stored code, no stored expiry, a different code, or a time after the expiry; success exactly when the stored code matches and has not expired; on success the password is replaced and the code cleared |
| AuthService.ResetPasswordEffect | src/services/auth.service.js:94-95 | in a valid store a successful reset keeps the store valid, makes the new password match, clears both reset fields, and changes neither the projection nor any other record |
| AuthService.GetCurrentUser | src/services/auth.service.js:98-105 | the projection of the account with that id, or 404 "User not found." exactly when there is none |
| AuthService.AllowedUpdates | src/services/auth.service.js:108-118 | the update is empty exactly when the payload defines none of name, email, phone and profilePhoto |
| AuthService.OnlyAllowedFieldsMatter | src/services/auth.service.js:108-114 | payloads that agree on the four allowed keys give the same update, so any other key is ignored |
| AuthService.UpdateProfile | src/services/auth.service.js:107-141 | no allowed key gives 400 first; a non-empty email of another account gives 409, checked before the phone; a non-empty phone of another account gives 409; then an empty given required field gives the store's validation message; then an unknown id gives 404 "User not found."; otherwise the update succeeds exactly when the merged record takes no other account's email or phone, merging exactly the given fields and returning the projection; there is no other error than these and the store's duplicate-key message |
| AuthMiddleware.FirstSpaceOfBearer | src/middlewares/auth.middleware.js:6-10 | in a header with the "Bearer " prefix the first space is the prefix's own |
| AuthMiddleware.BearerToken | src/middlewares/auth.middleware.js:10 | the token is what follows "Bearer " up to the next space, or up to the end |
| AuthMiddleware.BearerTokenExamples | src/middlewares/auth.middleware.js:10 | "Bearer a b" yields "a" and "Bearer " yields "" |
| AuthMiddleware.BearerTokenRoundTrip | src/middlewares/auth.middleware.js:10 | a token without spaces placed after the prefix is read back whole |
| AuthMiddleware.Authenticate | src/middlewares/auth.middleware.js:4-23 | no header, or one without the exact "Bearer " prefix, gives 401 "Authorization token missing"; otherwise the request proceeds as the token's subject exactly when access verification succeeds, and fails with 401 "Invalid or expired token" and the reason otherwise |
| AuthMiddleware.NoVerificationWithoutBearer | src/middlewares/auth.middleware.js:6-8 | without a bearer header the outcome depends on neither the decoder nor the clock |
| AuthMiddleware.RefreshTokenNotAccepted | src/middlewares/auth.middleware.js:12-21 | a refresh token sent as the bearer credential is always rejected |
| ErrorMiddleware.NotFoundHandler | src/middlewares/error.middleware.js:3-5 | every unmatched route becomes an operational 404 "Resource not found" without details |
| ErrorMiddleware.ErrorConverter | src/middlewares/error.middleware.js:7-16 | an ApiError passes through unchanged; anything else becomes a non-operational ApiError with its status (500 when falsy) and message ("Internal server error" when empty) |
| ErrorMiddleware.ConverterIdempotent | src/middlewares/error.middleware.js:7-16 | converting an already converted error changes nothing |
| ErrorMiddleware.RawErrorsGetStatusAndMessage | src/middlewares/error.middleware.js:12-15 | a converted raw error never has a 0 status or an empty message |
| ErrorMiddleware.ErrorHandler | src/middlewares/error.middleware.js:18-44 | the HTTP status and the body's code are both the status (500 when falsy); the message is copied; details appear exactly when the error has them; a stack appears exactly when stacks are included and one exists |
| ErrorMiddleware.ApiErrorResponse | src/middlewares/error.middleware.js:27-43 | an ApiError with a status reaches the client with that status and message |
| ErrorMiddleware.NotFoundResponse | src/middlewares/error.middleware.js:3-5 | an unmatched route is answered 404 "Resource not found" without details |
| ErrorMiddleware.ProductionHidesStack | src/app.js:30 | with NODE_ENV "production" no response carries a stack |
| AuthProperties.RegisterThenLogin | src/services/auth.service.js:15-48 | after a successful registration the store is valid, the id is new, and the same email and password log in as that account |
| AuthProperties.RegisterTwiceConflicts | src/services/auth.service.js:16-19 | registering the same email again is refused with 409 "Email is already registered." |
| AuthProperties.RegisterNeverHitsDuplicateKey | src/services/auth.service.js:15-30 | in a valid store registration never reaches the duplicate-key error; its only raw error is the validation message naming the empty required paths, raised only when one is empty, and success keeps the store valid |
| AuthProperties.ResetCodeSingleUse | src/services/auth.service.js:83-96 | after a successful reset the same code is refused, whatever the new password and time |
| AuthProperties.NewCodeSupersedesOld | src/services/otp.service.js:23-28 | after a new code is issued every other code is refused |
| AuthProperties.ResetRequested | src/services/auth.service.js:74-81 | after a reset request for a known email the store is valid, the account is still found, it holds the generated code expiring ten minutes on, and its hash is unchanged |
| AuthProperties.FoundByOwnEmail | src/services/user.service.js:23 | in a valid store a lookup by an email that normalizes to a record's email returns that record |
| AuthProperties.ResetThenLogin | src/services/auth.service.js:83-96 | after a successful reset the store is valid and the new password logs in by the same email |
| AuthProperties.StoredCodeWindow | src/services/auth.service.js:90 | a stored non-empty code is accepted exactly up to and including its expiry instant |
| AuthProperties.MailedCodeResetsPassword | src/services/auth.service.js:74-96 | the reset flow end to end: the code read from the delivered mail resets the password at any time up to the expiry, and the new password then logs in |
| AuthProperties.FailedDeliveryKeepsCode | src/services/otp.service.js:28-34 | a failed delivery is reported and sends nothing, yet the stored code still resets the password |
| AuthProperties.ExpiryBoundary | src/services/auth.service.js:90 | a code is accepted at its expiry instant and refused one millisecond later |
| AuthProperties.RefreshRoundTrip | src/services/auth.service.js:50-72 | a refresh token renews exactly while unexpired, into an access token for the same account; an access token neither renews nor logs out |
| AuthProperties.LoginTokenAuthenticates | src/middlewares/auth.middleware.js:4-23 | the access token from login, sent as a bearer header before it expires, authenticates as the account, whose current-user lookup is the projection login returned |
| AuthProperties.UpdateProfileInValidStore | src/services/auth.service.js:107-141 | in a valid store a profile update keeps the store valid, never reaches the duplicate-key error (its only raw error is the validation message for the update's empty paths), and the current-user lookup afterwards is the projection it answered |
| AuthProperties.NoConflictNoCollision | src/services/auth.service.js:120-132 | in a valid store, an update that passes both conflict checks cannot give another account's email or phone a second owner |
| AuthProperties.UpdateWithOwnValues | src/services/auth.service.js:120-132 | sending an account's own email and phone is not a conflict and changes nothing |
| AuthProperties.EmptyEmailSkipsConflictCheck | src/services/auth.service.js:120 | an empty email skips the conflict check and is rejected by the update validator with the message for the email path, whatever the store and the id |
| AuthProperties.EmptyEmailAnsweredWith500 | src/middlewares/error.middleware.js:12-15 | that validator error has no status, so it reaches the client as 500 with the message "Validation failed: email: Path `email` is required." |
| AuthProperties.NoAllowedKeyFailsFirst | src/services/auth.service.js:116-118 | a payload without any allowed key fails with 400 before any lookup, whatever the store and the id |

## Left out

- JSON Web Token encoding, signing secrets and the library's error messages: a token is the abstract `Token(sub, kind, exp)`, the two secrets become the two kinds, and the three failure reasons are fixed strings standing in for the library's. The signed payload carries only `sub`, so the kinds are distinct only while the two configured secrets differ; the defaults in src/config/index.js:15-16 do.
- Tokens.KindsNotInterchangeable, AuthMiddleware.RefreshTokenNotAccepted and AuthProperties.RefreshRoundTrip: these hold only while the access and refresh secrets differ. With equal secrets an access token would refresh and log out, and a refresh token would authenticate.
- Tokens.Issue: expiry is in milliseconds, whereas the library rounds `iat` and `exp` to whole seconds.
- Credentials.HashPassword: bcrypt's salt and work factor (10 rounds) are not modelled. The hash is a deterministic function parameter that only has to accept the password it was made from.
- OtpService.GenerateOtp: `crypto.randomInt` becomes a given sequence of draws, so the uniformity of the digits is not stated.
- The mail transport, its lazy global state and the `from` address are left out. Delivery is an outcome parameter, and a delivered mail is recorded in `Dispatch.sent`.
- OtpService.ResetOtpEmail: the HTML body is built but no property of it is stated.
- Mongoose itself is replaced by the map store: connection handling, ObjectId values (ids are naturals in allocation order), `createdAt`/`updatedAt` timestamps and the version key.
- UserModel.NormalizeEmail: `lowercase` is modelled for ASCII capitals only, not the full Unicode mapping of `toLowerCase`.
- Text.LowerChar and Text.Lower: the same ASCII-only lower-casing; a non-ASCII capital is left unchanged.
- Null values in an update payload and absent fields at registration are not modelled. The request validators exclude them, and a payload is a map of defined string values.
- Concurrency: each operation is atomic. In particular, no interleaving between the lookup and the write of `register` or `updateProfile` is modelled.
- Express routing, controllers, CORS and the server wiring are left out. They only forward to these operations.
- The express-validator chains are left out; they are declarative library rules. The operations are modelled for every input. For example, the route's validator rejects an empty email before `updateProfile` runs, but `AuthProperties.EmptyEmailSkipsConflictCheck` states what the service itself does with one.
- The `toNumber` parsing of environment variables is left out. The configured defaults are constants.
- The logger call in `errorHandler` and the stack trace itself are left out. The stack is an input to `ErrorMiddleware.ErrorHandler`.
- How Express treats a status outside the valid HTTP range is left out.
- AuthService.ResetPassword: the two store writes (new hash, then cleared code) are assumed to succeed. If the second write failed after the first, the code would stay stored and usable a second time; no failure between them is modelled.
- UserService.CreateUser: the validation message lists paths in schema order (name, email, phone, passwordHash), and the duplicate-key message uses the collection `auth_service.users` of the default connection string, the E11000 layout of current MongoDB servers, and the value without escaping. Another database name or server version changes the text, not the status.
- UserService.UpdateProfile: the validation message lists the given paths in the update's key order (name, email, phone); Mongoose may order them otherwise for a payload with another key order.
