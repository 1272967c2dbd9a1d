/** The signing key and the two `jsonwebtoken` calls the admin login and the auth middleware make.
    The library's code is not modelled: signing and verifying are parameters of the handlers. */
module Jwt {
  import opened Wrappers
  import opened Json

  /** The key used when the environment sets none. */
  const DefaultSecret: string := "supersecretkey"

  /** `process.env.JWT_SECRET || "supersecretkey"`: an unset or empty variable falls back to the
      default key, any other value is the key. */
  function Secret(env: Option<string>): (key: string)
    ensures key != ""
    ensures env.Some? && env.value != "" <==> key != DefaultSecret || env == Some(DefaultSecret)
    ensures env.Some? && env.value != "" ==> key == env.value
  {
    if env.Some? && env.value != "" then env.value else DefaultSecret
  }

  /** `jwt.sign(payload, secret, { expiresIn })`. */
  type Signer = (Body, string, string) -> string

  /** `jwt.verify(token, secret)`: the payload, or `None` when it throws (bad signature, expired
      token, malformed token). */
  type Verifier = (string, string) -> Option<Body>
}
