# lynlab-auth-rust: registration and credentials, in Dafny

This project models the account-registration core of the LYnLab authentication
server, an actix-web service over a MySQL `users` table:

- the `User` record and its password helpers: `make_password_hash` salts and
  hashes a password with argon2i, `verify_password` recomputes and compares
  (module `Models`, `user.dfy`);
- the `users` table as the registration handler uses it: rows keyed by `id`,
  and one insert that either adds the row or fails with a diesel error
  (module `Store`, `users_table.dfy`, class `UsersTable`);
- the `ping` and `register` handlers: the record built from the request body,
  the insert, and the mapping of its outcome to 200 "Ok", 400 `AU0001` or 500
  (module `Server`, `server.dfy`);
- the error-response helpers `bad_request`, `unauthorized` and
  `internal_server_error`, with the `AU0000` fallback for an empty code
  (module `Api`, `api.dfy`);
- the activation e-mail body, a fixed text around the activation link
  (module `Templates`, `templates.dfy`);
- the claims of the Firebase custom token (module `Token`, `token.dfy`).

argon2i is the function-typed parameter `argon2: Hasher`: any deterministic
function from (password, salt) to a digest. The nanoid salt is a parameter of
type `Salt`, a string of length 32. The UUID of a new record, the clock reading
and the Firebase service-account name are parameters as well. Whether the
database answers is the parameter `backend` (`Healthy`, or `Failing` with the
diesel error it raises).

Where the design document and the code disagree, the model follows the code:

- The code answers every diesel `DatabaseError` with 400 `AU0001`, including
  errors that are not uniqueness conflicts (a lost connection, for one). Only
  the other diesel errors give 500. The design document reserves `AU0001` for
  duplicate identities.
- A registration request carries only `username`, `password` and `email`. No
  activation token is generated, no redirection URL is stored and no e-mail is
  sent. Activation, login and "who am I" do not exist in this code.
- The record in src/models/user.rs:9-21 has eleven fields, but
  src/main.rs:54-62 sets only seven. src/schema.rs:11-12 names the columns
  `activate_token` and `activate_token_valid_until` and has no
  `activation_redirection_url`. This is a gap in the source: as written, the
  handler does not build. The model keeps the eleven fields of the record and
  sets the four that the handler omits to `None`.
- The schema shown declares no unique index on `username`. `UsersTable`
  therefore has the flag `uniqueUsernames`, and every username-uniqueness
  property is stated under that assumption. Without it, an insert conflicts
  only on the primary key `id`.

## Model

| member | source | states |
|---|---|---|
| `Models.MakePasswordHash` | src/models/user.rs:24-31 | the digest is argon2 of the password under the returned salt; the salt is the generated 32-character value, returned unchanged |
| `Models.VerifyPassword` | src/models/user.rs:33-36 | a record whose hash and salt were made from a password accepts that password; `AcceptsExactly` and `OtherPasswordRejected` state which other passwords it accepts |
| `Models.AcceptsExactly` | src/models/user.rs:33-36 | a record built from `p` accepts `q` exactly when `q`'s digest under the stored salt equals `p`'s |
| `Models.MadeHashVerifies` | src/models/user.rs:26-36 | round trip: a record whose hash and salt come from `make_password_hash(p)` accepts `p` |
| `Models.OtherPasswordRejected` | src/models/user.rs:33-36 | a record built from `p` rejects every `q` whose digest under the same salt differs from that of `p` |
| `Api.ErrorCode` | src/helpers/api.rs:10-13 | the error code is never empty: an empty code becomes `AU0000` and any other passes through unchanged |
| `Api.BadRequest` | src/helpers/api.rs:9-15 | status 400, with a JSON error body whose non-empty code is the given one, or `AU0000` when the given code is empty |
| `Api.Unauthorized` | src/helpers/api.rs:17-23 | status 401, with the same fallback for the code as `bad_request` |
| `Api.InternalServerError` | src/helpers/api.rs:25-28 | status 500 with no body |
| `Api.ErrorCodeIdempotent` | src/helpers/api.rs:11-13 | applying the fallback twice gives the same code as applying it once |
| `Api.HelpersAgreeOnCode` | src/helpers/api.rs:10-23 | `bad_request` and `unauthorized` give the same body for the same code and differ only in status |
| `Templates.EmailBodyActivation` | src/templates.rs:1-12 | the body is the fixed head, then the token, then the fixed closing, so it is longer than the token by a constant; `https://accounts.lynlab.co.kr/activate/` appears in it immediately followed by the token |
| `Templates.ActivationTokenOf` | src/templates.rs:1-12 | the inverse of the template: a recovered token is one whose body is exactly the given text, and nothing is recovered from a text that is no token's body |
| `Templates.ActivationTokenRoundTrip` | src/templates.rs:1-12 | stripping the head and closing from the body recovers the token |
| `Templates.EmailBodyInjective` | src/templates.rs:1-12 | distinct tokens give distinct bodies |
| `Token.MakeFirebaseClaims` | src/helpers/token.rs:21-31 | `alg` is RS256, `aud` is the IdentityToolkit URL, `iss` and `sub` are the service account, `uid` is the user id, `iat` is now and the token is valid for 3600 seconds; `now + 3600` must fit in a u64 |
| `Store.InsertOutcome` | src/main.rs:64-66 | an insert succeeds, with one row, exactly when the database works and no row has the id (or, under a unique index, the username); a conflict is a unique-violation database error, and a failing database gives its own error |
| `Store.RowsAfterInsert` | src/main.rs:64-66 | a successful insert adds exactly the new row under its id and changes no other row; a failed insert changes nothing |
| `Store.InsertPreservesInvariant` | src/schema.rs:1-14 | an insert keeps every row under its own id and, under a unique username index, keeps usernames distinct |
| `Store.SameUsernameRejected` | src/main.rs:64-66 | under a unique username index, once a row is stored, an insert with the same username fails and the stored row is unchanged |
| `Store.UsersTable.Insert` | src/main.rs:64-66 | the insert returns the outcome above, leaves the table in the state above, and keeps the table invariant |
| `Server.Ping` | src/main.rs:43-46 | always 200 with body `pong` |
| `Server.NewUser` | src/main.rs:53-62 | the new record has the given id, the request's username and e-mail verbatim, the generated salt, no access token, is not activated, has the other optional fields absent, and accepts the request's password |
| `Server.RegisterResponse` | src/main.rs:68-74 | 200 "Ok" exactly on success, 400 `AU0001` exactly on a diesel database error, 500 with no body exactly on any other error |
| `Server.RegisterResponseUsesHelpers` | src/main.rs:68-74 | the failure answers are what `bad_request("AU0001")` and `internal_server_error()` would give |
| `Server.Register` | src/main.rs:48-77 | the handler inserts the record built from the body and answers according to the outcome; the table changes only by that insert, and its invariant holds |
| `Server.RegisterSucceeds` | src/main.rs:53-69 | with a fresh id, a free username and a working database, the answer is 200 "Ok", and the table gains exactly the new record, which accepts the request's password |
| `Server.FailedRegisterChangesNothing` | src/main.rs:64-73 | any answer other than 200 leaves the table unchanged |
| `Server.SecondRegistrationRejected` | src/main.rs:64-71 | under a unique username index and with a working database, a second registration of a username is answered 400 `AU0001` and the first record stays as it was |
| `Server.RegistrationsOnlyAddPendingAccounts` | src/main.rs:53-74 | over any sequence of registrations, rows already stored stay as they were, every added row is stored under its own id, not activated and without access token, and the table invariant holds |

## Left out

- argon2i itself, nanoid and UUID generation: they are parameters (`argon2`, `nanoid`, `newId`). Their randomness and the uniqueness of UUIDs are not modelled. Where success depends on a fresh id, `Server.RegisterSucceeds` takes it as a hypothesis.
- Token.MakeFirebaseClaims: it requires `now + 3600` to fit in a u64. The source would panic in a debug build and wrap around in a release build; neither happens before the year 584 billion.
- The rest of `make_firebase_token`: reading the clock and the environment variable `FIREBASE_SERVICE_ACCOUNT` (a missing variable panics), the JWT header, and RSA signing with the key read from `./secrets/firebase_key.der`. These are foreign calls and I/O.
- Request-body JSON decoding, the actix futures, and the panic of `pool.get().unwrap()` when no connection is available (src/main.rs:50-52, 76).
- `main`: the environment lookup, the server bind and the routing (src/main.rs:80-95). The connection pool (src/helpers/db.rs) and SMTP delivery (src/email.rs) are not part of this model; both are I/O.
- Concurrency between requests: each insert is one atomic step on the table.
- The contents of a digest, for example its 32-byte length. The model relies only on argon2 being a deterministic function.
