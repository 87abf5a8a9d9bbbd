/** The libraries the handlers call, as parameters: bcrypt, jsonwebtoken, xss,
    slugify and the express-validator checks. Each is a record of functions
    whose only known behaviour is stated by a soundness predicate. */
module Libs {
  import opened Js

  /** What a session token carries: `{ id, role }`. */
  datatype Claims = Claims(id: int, role: string)

  /** The salt bcrypt.hash draws: the cost factor and the random part. */
  datatype Salt = Salt(rounds: nat, nonce: nat)

  /** `bcrypt.hash(password, 10)` */
  const SaltRounds: nat := 10

  /** bcrypt.hash and bcrypt.compare. */
  datatype PasswordHasher = PasswordHasher(hash: (string, Salt) -> string, compare: (string, string) -> bool)

  /** A digest verifies against the password it was made from, and is never
      that password itself. */
  ghost predicate SoundHasher(h: PasswordHasher) {
    forall password, salt :: h.compare(password, h.hash(password, salt)) && h.hash(password, salt) != password
  }

  /** jwt.sign with the process-wide secret, and jwt.verify, which answers None
      for a malformed, forged or expired token. */
  datatype TokenCodec = TokenCodec(sign: Claims -> string, verify: string -> Option<Claims>)

  /** A freshly signed token is a non-empty string that verifies to its claims. */
  ghost predicate SoundCodec(jwt: TokenCodec) {
    forall c :: jwt.verify(jwt.sign(c)) == Some(c) && jwt.sign(c) != ""
  }

  /** xss, slugify and the express-validator checks and sanitizers
      isEmail, normalizeEmail, isISO8601 and toDate (a timestamp, or None for a
      string the date parser rejects). normalizeEmail answers "" where
      validator.js answers `false`: for an address whose local part it empties,
      such as "+tag@gmail.com" with the default removal of sub-addresses. Both
      are falsy to the handlers. */
  datatype Sanitizers = Sanitizers(
    xss: string -> string,
    slugify: string -> string,
    isEmail: string -> bool,
    normalizeEmail: string -> string,
    isIso8601: string -> bool,
    toDate: string -> Option<int>)

}
