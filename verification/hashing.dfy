/**
 The password hasher, kept uninterpreted. The application only ever calls
 `generate_password_hash(p)` and `check_password_hash(d, p)`; their internals
 (PBKDF2, salting, constant-time comparison) belong to a foreign library. A
 hasher is therefore any pair of functions, and the properties the
 application relies on are stated as predicates that lemmas may require.
 */
module Hashing {

  /** The stored form of a password: an opaque string produced by `hash`. */
  type Digest = string

  datatype Hasher = Hasher(hash: string -> Digest, verify: (Digest, string) -> bool)

  /** The library's one promise the model uses: a digest verifies its own password. */
  ghost predicate RoundTrips(h: Hasher)
  {
    forall p :: h.verify(h.hash(p), p)
  }

  /** The library's "wrong password fails" promise. It cannot be proved here, so
      every lemma that needs it takes it as an explicit assumption. */
  ghost predicate Discriminating(h: Hasher)
  {
    forall p, q :: h.verify(h.hash(p), q) ==> p == q
  }

  /** A hasher that stores the password itself; it only witnesses that the two
      assumptions above can hold together. */
  function PlainHasher(): Hasher
  {
    Hasher(p => p, (d, p) => d == p)
  }

  /** The assumptions are consistent, so lemmas that require them are not vacuous. */
  lemma AssumptionsSatisfiable()
    ensures exists h :: RoundTrips(h) && Discriminating(h)
  {
    var h := PlainHasher();
    assert RoundTrips(h);
    assert Discriminating(h);
  }
}
