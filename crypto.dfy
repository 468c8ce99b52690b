/** bcrypt and JSON Web Tokens, taken as given operations. The model never
    looks inside a hash or a token: it only uses what the two libraries
    promise, collected in `Primitives.Sound`. */
module Crypto {
  import opened Common

  /** The payload a token carries (the first argument of `jwt.sign`). */
  datatype Claims = Claims(id: int, username: string, rol: Option<string>)

  /** What `jwt.verify` gives: the payload, a `TokenExpiredError`, or any
      other failure (bad signature, malformed or empty token). */
  datatype Verified = Valid(claims: Claims) | Expired | Invalid

  /** The four operations, all under the one process-wide secret:
      `hash(pw)` is `bcrypt.hash`, `matches(pw, h)` is `bcrypt.compare`,
      `sign(claims, iat, ttl)` is `jwt.sign` at second `iat` with
      `expiresIn` = `ttl` seconds, `verify(token, now)` is `jwt.verify`
      at second `now`. */
  datatype Primitives = Primitives(
    hash: string -> string,
    matches: (string, string) -> bool,
    sign: (Claims, int, int) -> string,
    verify: (string, int) -> Verified)
  {
    /** What the libraries guarantee: a password matches its own hash; a
        signed token is a non-empty string without spaces (the compact
        serialisation is base64url segments joined by dots); a token verifies to its payload
        until `iat + ttl` and is expired from that second on. */
    ghost predicate Sound() {
      && (forall pw :: matches(pw, hash(pw)))
      && (forall cl, iat, ttl :: sign(cl, iat, ttl) != "" && ' ' !in sign(cl, iat, ttl))
      && (forall cl, iat, ttl, now ::
            verify(sign(cl, iat, ttl), now) == if now < iat + ttl then Valid(cl) else Expired)
    }
  }
}
