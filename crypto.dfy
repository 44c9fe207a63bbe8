/** The password-hashing primitive (bcrypt through passlib), idealised.
    A digest remembers its salt and the password it was computed from, so that
    verification is exact: no two passwords share a digest. */
module Crypto {

  datatype Digest = Digest(salt: nat, preimage: string)

  /** hash_password: a fresh salt is a parameter, since bcrypt draws it at random. */
  function HashPassword(password: string, salt: nat): (d: Digest)
    ensures VerifyPassword(password, d)
  {
    Digest(salt, password)
  }

  /** verify_password */
  predicate VerifyPassword(password: string, d: Digest) {
    d.preimage == password
  }

  /** A digest verifies exactly the password it was made from, whatever the salt. */
  lemma VerifyHashed(p: string, q: string, salt: nat)
    ensures VerifyPassword(q, HashPassword(p, salt)) <==> p == q
  {
  }
}
