/** The foreign libraries the handlers call — bcrypt and jsonwebtoken — and
    the secrets module, as values handed to the handlers. Their internals are
    not modelled: each is an uninterpreted function, and the handlers record
    every call they make so that contracts can speak about those calls. */
module Oracles {
  import opened Common

  /** The cost factor the signup handler passes to `bcrypt.hash`. */
  const SaltRounds: nat := 10

  /** `bcrypt.hash(plaintext, rounds)` and `bcrypt.compare(plaintext, digest)`.
      The random salt is part of the chosen `hash` function. */
  datatype Bcrypt = Bcrypt(hash: (string, nat) -> string, compare: (string, string) -> bool)

  /** What `jwt.verify` hands back on success: the decoded claims object, or
      the string itself when a string was signed. */
  datatype Payload = Claims(id: Option<string>) | Literal(text: string)

  /** `jwt.verify` either returns a payload or throws (bad signature, malformed
      or missing token, expired token); the reason is opaque. */
  datatype Verdict = Decoded(payload: Payload) | Raised(reason: string)

  /** `jwt.sign({ id }, secret)` and `jwt.verify(token, secret)`; the token
      argument of `verify` is `None` when the header was absent. */
  datatype Jwt = Jwt(sign: (string, string) -> string, verify: (Option<string>, string) -> Verdict)

  /** `JWT_ADMIN_PASSWORD` and `JWT_USER_PASSWORD` of the secrets module. */
  datatype Config = Config(adminSecret: string, userSecret: string)

  /** One call into a foreign library, with its arguments. */
  datatype Call =
    | HashCall(plaintext: string, rounds: nat)
    | CompareCall(plaintext: string, digest: string)
    | SignCall(id: string, secret: string)
    | VerifyCall(token: Option<string>, secret: string)

  /** JavaScript truthiness of a decoded payload: an object is always truthy,
      a string only when it is not empty. */
  predicate Truthy(p: Payload)
  {
    match p
    case Claims(_) => true
    case Literal(t) => t != ""
  }

  /** `decoded.id`: the claim of an object, `undefined` on a string. */
  function IdOf(p: Payload): Option<string>
  {
    match p
    case Claims(id) => id
    case Literal(_) => None
  }

  /** The property bcrypt is relied upon for: a password matches its own hash. */
  ghost predicate HashMatches(b: Bcrypt)
  {
    forall pw :: b.compare(pw, b.hash(pw, SaltRounds))
  }

  /** The property jsonwebtoken is relied upon for: a token signed with one
      secret is refused (thrown) under any other secret. */
  ghost predicate SecretsSeparate(j: Jwt)
  {
    forall id, k1, k2 :: k1 != k2 ==> j.verify(Some(j.sign(id, k1)), k2).Raised?
  }
}
