/**
 * The `users` account record and its password helpers (src/models/user.rs).
 *
 * argon2i is not reimplemented: `argon2` is any deterministic function from
 * (password, salt) to a digest, passed in by the caller. The random salt drawn
 * from nanoid is passed in as well; all the model knows of it is its length.
 */
module Models {
  import opened Prelude

  newtype byte = x: int | 0 <= x < 256

  /** A digest, `Vec<u8>` in the source. */
  type Bytes = seq<byte>

  /** `argon2rs::argon2i_simple` followed by `to_vec`, left uninterpreted. */
  type Hasher = (string, string) -> Bytes

  /** Length of the salt `make_password_hash` asks nanoid for. */
  const SaltLength: nat := 32

  /** A string as `nanoid::generate(SaltLength)` returns it. */
  type Salt = s: string | |s| == SaltLength
    witness "00000000000000000000000000000000"

  /** `chrono::NaiveDateTime`, kept only as a point in time. */
  datatype NaiveDateTime = NaiveDateTime(seconds: int, nanos: nat)

  /** One row of the `users` table, with the eleven fields the record declares. */
  datatype User = User(
    id: string,
    username: string,
    passwordHash: Bytes,
    passwordSalt: string,
    email: string,
    accessToken: Option<string>,
    accessTokenValidUntil: Option<NaiveDateTime>,
    isActivated: bool,
    activationToken: Option<string>,
    activationTokenValidUntil: Option<NaiveDateTime>,
    activationRedirectionUrl: Option<string>
  )

  /**
   * Hashes `password` under the freshly generated salt `nanoid` and returns
   * the pair (digest, salt); the salt is returned unchanged so that it can be
   * stored beside the digest.
   */
  function MakePasswordHash(argon2: Hasher, password: string, nanoid: Salt): (r: (Bytes, string))
    ensures r.0 == argon2(password, r.1)
    ensures r.1 == nanoid && |r.1| == SaltLength
  {
    var hash := argon2(password, nanoid);
    (hash, nanoid)
  }

  /** True when the record's credential material was produced from `password` by MakePasswordHash. */
  ghost predicate CredentialFrom(argon2: Hasher, user: User, password: string)
  {
    exists nanoid: Salt {:trigger MakePasswordHash(argon2, password, nanoid)} ::
      (user.passwordHash, user.passwordSalt) == MakePasswordHash(argon2, password, nanoid)
  }

  /**
   * Recomputes the digest of `password` under the stored salt and compares it
   * with the stored digest. Being a function, it cannot change the record.
   */
  function VerifyPassword(argon2: Hasher, user: User, password: string): (ok: bool)
    ensures CredentialFrom(argon2, user, password) ==> ok
  {
    var hash := argon2(password, user.passwordSalt);
    user.passwordHash == hash
  }

  /**
   * A record built from password p accepts exactly the passwords whose digest
   * under its salt is p's digest.
   */
  lemma AcceptsExactly(argon2: Hasher, user: User, p: string, q: string)
    requires CredentialFrom(argon2, user, p)
    ensures VerifyPassword(argon2, user, q) <==> argon2(q, user.passwordSalt) == argon2(p, user.passwordSalt)
  {
  }

  /** Round trip: a record whose hash and salt come from MakePasswordHash(p) accepts p. */
  lemma MadeHashVerifies(argon2: Hasher, user: User, password: string, nanoid: Salt)
    requires (user.passwordHash, user.passwordSalt) == MakePasswordHash(argon2, password, nanoid)
    ensures VerifyPassword(argon2, user, password)
    ensures CredentialFrom(argon2, user, password)
  {
  }

  /**
   * A record built from password p rejects every q whose digest under the same
   * salt differs from p's; with an injective hash this is every q other than p.
   */
  lemma OtherPasswordRejected(argon2: Hasher, user: User, p: string, q: string)
    requires CredentialFrom(argon2, user, p)
    requires argon2(q, user.passwordSalt) != argon2(p, user.passwordSalt)
    ensures !VerifyPassword(argon2, user, q)
  {
  }
}
