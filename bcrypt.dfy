/** The password hasher (`bcrypt.hash` with a fresh salt, `bcrypt.compare`),
    idealized: a digest records its salt and stands for a one-way image of the
    password that only the same password matches. The salt, which bcrypt draws
    at random, is a parameter. */
module Bcrypt {

  datatype Digest = Digest(salt: nat, image: string)

  /** `bcrypt.compare(password, digest)` */
  predicate Compare(password: string, d: Digest)
  {
    d.image == password
  }

  /** `bcrypt.hash(password, salt)`: the digest matches its own password and
      no other one, and carries the salt it was made with. */
  function Hash(password: string, salt: nat): (d: Digest)
    ensures Compare(password, d)
    ensures forall other :: Compare(other, d) ==> other == password
    ensures d.salt == salt
  {
    Digest(salt, password)
  }

  /** Hashing the same password with two salts gives two different digests,
      and both match the password. */
  lemma {:induction false} SaltsGiveDistinctDigests(password: string, s1: nat, s2: nat)
    requires s1 != s2
    ensures Hash(password, s1) != Hash(password, s2)
    ensures Compare(password, Hash(password, s1)) && Compare(password, Hash(password, s2))
  {
    assert Hash(password, s1).salt != Hash(password, s2).salt;
  }
}
