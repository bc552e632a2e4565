/**
 * The claim sets that the token endpoints sign and the checks decode.
 * Signing and decoding themselves (JWS in the HS256 form of section 3.2 of
 * RFC 7518) are not modelled: every operation takes the codec as a function
 * parameter, so a token is an opaque string.
 */
module Jwt {
  import opened Wrappers

  type Token = string

  /** A claim value: a string, or a NumericDate (seconds since the epoch). */
  datatype ClaimValue = Text(text: string) | NumericDate(seconds: int)

  /** A JSON claim set, as the Python dict handed to `jwt.encode`. */
  type Claims = map<string, ClaimValue>

  /**
   * What a call of `jwt.decode` comes to: a payload, `None`, or a raised
   * `JWTError` (bad format, bad signature, expired, ill-typed claim, ...).
   */
  datatype Decoded = Payload(claims: Claims) | NullPayload | JWTError

  /** The subject claim, section 4.1.2 of RFC 7519. */
  const SUB := "sub"

  /** The expiration-time claim, section 4.1.4 of RFC 7519. */
  const EXP := "exp"

  const SECONDS_PER_MINUTE := 60

  /**
   * Python truthiness of a `timedelta | None`: `None` and a zero-length
   * delta are falsy, every other delta (negative ones included) is truthy.
   */
  predicate IsTruthy(expiresDelta: Option<int>) {
    expiresDelta.Some? && expiresDelta.value != 0
  }

  /**
   * `utcnow() + expires_delta` when the delta is truthy, else
   * `utcnow() + fallback`; all quantities in whole seconds.
   */
  function ExpiryTime(now: int, expiresDelta: Option<int>, fallback: int): int {
    if IsTruthy(expiresDelta) then now + expiresDelta.value else now + fallback
  }
}
