/**
 * Stand-in for the `bcrypt` library. The real hash is salted and one-way;
 * here it is a fixed injective transform, and the model relies only on the
 * two facts proved below: a password matches its own hash, and a hash
 * matches no other password.
 */
module Bcrypt {

  /** Cost factor passed by the update handler (`bcrypt.hash(password, 10)`). */
  const SaltRounds := 10

  const Prefix := "$2b$10$"

  function Hash(plain: string): (h: string)
    ensures |h| > |plain| && h != plain
  {
    Prefix + plain
  }

  /** `bcrypt.compare(plain, hash)`: never throws on a wrong password, answers false. */
  predicate Compare(plain: string, hash: string)
  {
    hash == Hash(plain)
  }

  lemma CompareOwnHash(p: string)
    ensures Compare(p, Hash(p))
  {
  }

  /** A stored hash is matched by exactly one password. */
  lemma CompareOnlyOwnHash(p: string, q: string)
    ensures Compare(q, Hash(p)) <==> q == p
  {
    if Compare(q, Hash(p)) {
      assert q == Hash(q)[|Prefix|..];
      assert p == Hash(p)[|Prefix|..];
    }
  }
}
