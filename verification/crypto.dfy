/**
 * bcrypt and jsonwebtoken, kept abstract. The model never assumes a law
 * about them; the two round-trip laws below are named predicates that a
 * lemma must take as a precondition when it relies on them.
 */
module Crypto {
  import opened Optional
  import opened Users

  /** bcrypt cost factor the controller passes to `bcrypt.hash`. */
  const SaltRounds: nat := 10

  /** The claims signed into a session token: `{id}` or `{id, username}`. */
  datatype Claims = Claims(id: Id, username: Option<string>)

  /**
   * The library calls: `hash(password, rounds, salt)` (the salt is bcrypt's
   * random input, made explicit), `compare(password, hash)`, `sign(claims)`
   * (the secret is fixed inside) and `verify(token)`, which yields the
   * decoded claims or nothing when the token is malformed or tampered
   * with. There is no clock: token expiry is not modelled.
   */
  datatype Library = Library(
    hash: (string, nat, string) -> string,
    compare: (string, string) -> bool,
    sign: Claims -> string,
    verify: string -> Option<Claims>)

  /** The bcrypt law: a password matches every hash made from it. */
  ghost predicate HashSound(lib: Library) {
    forall p, salt :: lib.compare(p, lib.hash(p, SaltRounds, salt))
  }

  /**
   * The JWT law: a signed token is a non-empty string that verifies to its
   * own claims. With no clock, it describes a token used before it expires.
   */
  ghost predicate TokenSound(lib: Library) {
    forall c :: lib.sign(c) != "" && lib.verify(lib.sign(c)) == Some(c)
  }
}
