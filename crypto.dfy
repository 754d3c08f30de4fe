/**
 * bcrypt and the JWT signer, seen from the services that call them. Their internals are
 * not part of this model: each is a pair of functions handed to the services, the way the
 * JwtService is injected. The random salt bcrypt draws on every call is an explicit argument.
 */
module Crypto {

  /** The random salt of one bcrypt.hash call. */
  type Salt = nat

  /** The cost factor every call site passes to bcrypt.hash. */
  const SaltRounds: nat := 10

  /** `hash(plaintext, rounds, salt)` and `compare(plaintext, storedHash)`. */
  datatype Bcrypt = Bcrypt(hash: (string, nat, Salt) -> string, compare: (string, string) -> bool)

  /** What bcrypt promises: a plaintext always matches a hash made from it, whatever the salt. */
  ghost predicate Sound(b: Bcrypt) {
    forall p, salt :: b.compare(p, b.hash(p, SaltRounds, salt))
  }

  /** The claims of a session token. */
  datatype Payload = Payload(username: string, sub: int, roleId: int)

  /** `sign` closes over the signing secret and the configured expiry. */
  datatype JwtService = JwtService(sign: Payload -> string)
}
