/**
 * `hashPassword`/`comparePassword` of src/services/user.service.js. The one-way transform is a
 * parameter (`Hasher`), so nothing here depends on what bcrypt computes.
 */
module Credentials {

  /** The hashing primitive: a digest of a plaintext password. */
  datatype Hasher = Hasher(digest: string -> string)

  /** A stored password hash; it holds a digest, never the plaintext. */
  datatype PasswordHash = PasswordHash(digest: string)

  /** `comparePassword`: does the password produce the stored digest? */
  predicate ComparePassword(h: Hasher, password: string, stored: PasswordHash) {
    h.digest(password) == stored.digest
  }

  /** `hashPassword`: the stored hash accepts the password it was made from. */
  function HashPassword(h: Hasher, password: string): (r: PasswordHash)
    ensures ComparePassword(h, password, r)
  {
    PasswordHash(h.digest(password))
  }
}
