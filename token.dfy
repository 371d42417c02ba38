/**
 * The claims of the Firebase custom token (src/helpers/token.rs). The clock
 * reading and the service-account name, which the source takes from the
 * system clock and the environment, are parameters here; the signing is not
 * part of this model.
 */
module Token {

  /** Rust's `u64`. */
  newtype u64 = x: int | 0 <= x < 0x1_0000_0000_0000_0000

  const U64Max: int := 0xFFFF_FFFF_FFFF_FFFF

  /** How long, in seconds, a minted Firebase token is valid. */
  const TokenLifetime: int := 3600

  const SigningAlgorithm: string := "RS256"

  /** The audience Firebase requires of custom tokens. */
  const IdentityToolkitAudience: string :=
    "https://identitytoolkit.googleapis.com/google.identity.identitytoolkit.v1.IdentityToolkit"

  datatype FirebaseClaims = FirebaseClaims(
    alg: string,
    iss: string,
    sub: string,
    aud: string,
    iat: u64,
    exp: u64,
    uid: string
  )

  /**
   * The claims `make_firebase_token` signs for `userId` at Unix time `now`
   * (seconds), issued by and about `serviceAccount`. `now + 3600` must fit
   * in a u64.
   */
  function MakeFirebaseClaims(userId: string, serviceAccount: string, now: u64): (c: FirebaseClaims)
    requires now as int <= U64Max - TokenLifetime
    ensures c.alg == SigningAlgorithm && c.aud == IdentityToolkitAudience
    ensures c.iss == serviceAccount && c.sub == serviceAccount
    ensures c.uid == userId
    ensures c.iat == now && ValidFor(c) == TokenLifetime
  {
    FirebaseClaims(
      SigningAlgorithm,
      serviceAccount,
      serviceAccount,
      IdentityToolkitAudience,
      now,
      now + TokenLifetime as u64,
      userId)
  }

  /** Seconds between issue and expiry. */
  function ValidFor(c: FirebaseClaims): int
  {
    c.exp as int - c.iat as int
  }
}
