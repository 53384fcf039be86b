/**
 * The password credential kept on a user row.
 *
 * The application stores only a salted one-way digest of the password and
 * verifies a login attempt by recomputing the digest from the stored salt.
 * The digest function itself belongs to the hashing library and is not part
 * of this model: it is injected as a `Hasher` value, so every property below
 * holds for whichever hash function the deployment uses.
 */
module Credentials {

  /** A one-way hash of (salt, password); supplied by the deployment. */
  type Hasher = (string, string) -> string

  /** What the user table stores instead of the plaintext password. */
  datatype Credential = Credential(salt: string, digest: string)

  /** `check_password`: recompute the digest of `given` with the stored salt. */
  predicate Matches(hash: Hasher, stored: Credential, given: string)
  {
    hash(stored.salt, given) == stored.digest
  }

  /** `set_password`: salt and hash a fresh password. The salt is random in the
      running system, so it is a parameter here. */
  function SetPassword(hash: Hasher, salt: string, password: string): (c: Credential)
    ensures c.salt == salt
    ensures Matches(hash, c, password)
  {
    Credential(salt, hash(salt, password))
  }

  /** The hash separates passwords under a fixed salt (no collisions). */
  ghost predicate CollisionFree(hash: Hasher)
  {
    forall salt, p, q :: hash(salt, p) == hash(salt, q) ==> p == q
  }

  /** A credential made from `password` accepts exactly `password`: any other
      string, even one differing in a single character, is refused, provided
      the hash has no collisions. */
  lemma AcceptsExactlyItsPassword(hash: Hasher, salt: string, password: string, attempt: string)
    requires CollisionFree(hash)
    ensures Matches(hash, SetPassword(hash, salt, password), attempt) <==> attempt == password
  {
  }
}
