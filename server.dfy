/**
 * The HTTP handlers of src/main.rs: `ping` and `register`. Request decoding
 * and the futures around the handler are left to the framework; `Register`
 * takes the decoded body. The fresh UUID, the nanoid salt and argon2 are
 * parameters.
 */
module Server {
  import opened Prelude
  import opened Models
  import opened Api
  import opened Store

  /** The JSON body of `POST /v1/register`. */
  datatype RegisterReqBody = RegisterReqBody(username: string, password: string, email: string)

  /** Error code of a rejected registration. */
  const RegistrationRejected: string := "AU0001"

  /** `GET /v1/ping`. */
  function Ping(): (r: Response)
    ensures r.status == StatusOk && r.body == Text("pong")
  {
    Response(StatusOk, Text("pong"))
  }

  /**
   * The record `register` builds for a request: a new id, the request's
   * username and e-mail, the credential from MakePasswordHash, no access
   * token, not activated, and every other optional field absent.
   */
  function NewUser(argon2: Hasher, body: RegisterReqBody, id: string, nanoid: Salt): (u: User)
    ensures u.id == id && u.username == body.username && u.email == body.email
    ensures u.accessToken == None && !u.isActivated
    ensures u.accessTokenValidUntil == None && u.activationToken == None
    ensures u.activationTokenValidUntil == None && u.activationRedirectionUrl == None
    ensures u.passwordSalt == nanoid
    ensures VerifyPassword(argon2, u, body.password)
  {
    var (hash, salt) := MakePasswordHash(argon2, body.password, nanoid);
    User(id, body.username, hash, salt, body.email, None, None, false, None, None, None)
  }

  /** The response for the outcome of the insert. */
  function RegisterResponse(insertResult: Result<nat, QueryError>): (r: Response)
    ensures r.status == StatusOk <==> insertResult.Ok?
    ensures insertResult.Ok? ==> r.body == Text("Ok")
    ensures r.status == StatusBadRequest <==> insertResult.Err? && insertResult.error.DatabaseError?
    ensures r.status == StatusBadRequest ==> r.body == ErrorJson(RegistrationRejected)
    ensures r.status == StatusInternalServerError <==> insertResult.Err? && !insertResult.error.DatabaseError?
    ensures r.status == StatusInternalServerError ==> r.body == Empty
  {
    match insertResult
    case Ok(_) => Response(StatusOk, Text("Ok"))
    case Err(e) =>
      match e
      case DatabaseError(_) => Response(StatusBadRequest, ErrorJson(RegistrationRejected))
      case _ => Response(StatusInternalServerError, Empty)
  }

  /** A database error is answered as `bad_request("AU0001")` would, any other failure as `internal_server_error()`. */
  lemma RegisterResponseUsesHelpers(insertResult: Result<nat, QueryError>)
    requires insertResult.Err?
    ensures insertResult.error.DatabaseError? ==> RegisterResponse(insertResult) == BadRequest(RegistrationRejected)
    ensures !insertResult.error.DatabaseError? ==> RegisterResponse(insertResult) == InternalServerError()
  {
  }

  /** `register`: builds the record, inserts it, and answers according to the outcome. */
  method Register(users: UsersTable, argon2: Hasher, body: RegisterReqBody, newId: string, nanoid: Salt, backend: Backend)
    returns (resp: Response)
    requires users.Valid()
    modifies users
    ensures users.Valid()
    ensures var u := NewUser(argon2, body, newId, nanoid);
      && resp == RegisterResponse(InsertOutcome(old(users.rows), users.uniqueUsernames, u, backend))
      && users.rows == RowsAfterInsert(old(users.rows), users.uniqueUsernames, u, backend)
  {
    var user := NewUser(argon2, body, newId, nanoid);
    var insertResult := users.Insert(user, backend);
    resp := RegisterResponse(insertResult);
  }

  /**
   * With a fresh id, a username not yet taken (when usernames are unique) and
   * a working database, registration answers 200 "Ok" and stores exactly the
   * new record, which accepts the request's password; nothing else changes.
   */
  lemma RegisterSucceeds(rows: map<string, User>, uniqueUsernames: bool, argon2: Hasher, body: RegisterReqBody, newId: string, nanoid: Salt)
    requires newId !in rows
    requires uniqueUsernames ==> forall k :: k in rows ==> rows[k].username != body.username
    ensures var u := NewUser(argon2, body, newId, nanoid);
      && RegisterResponse(InsertOutcome(rows, uniqueUsernames, u, Healthy)) == Response(StatusOk, Text("Ok"))
      && RowsAfterInsert(rows, uniqueUsernames, u, Healthy) == rows[newId := u]
      && VerifyPassword(argon2, RowsAfterInsert(rows, uniqueUsernames, u, Healthy)[newId], body.password)
  {
  }

  /** A failed registration leaves the table as it was, whatever the failure. */
  lemma FailedRegisterChangesNothing(rows: map<string, User>, uniqueUsernames: bool, argon2: Hasher, body: RegisterReqBody, newId: string, nanoid: Salt, backend: Backend)
    requires RegisterResponse(InsertOutcome(rows, uniqueUsernames, NewUser(argon2, body, newId, nanoid), backend)).status != StatusOk
    ensures RowsAfterInsert(rows, uniqueUsernames, NewUser(argon2, body, newId, nanoid), backend) == rows
  {
  }

  /**
   * Under a unique username index, registering a username a second time is
   * answered 400 "AU0001" when the database is otherwise working, and the first
   * record stays as it was.
   */
  lemma SecondRegistrationRejected(rows: map<string, User>, argon2: Hasher, first: RegisterReqBody, second: RegisterReqBody,
                                   id1: string, id2: string, salt1: Salt, salt2: Salt)
    requires RegisterResponse(InsertOutcome(rows, true, NewUser(argon2, first, id1, salt1), Healthy)).status == StatusOk
    requires second.username == first.username
    ensures var u1 := NewUser(argon2, first, id1, salt1);
      var rows1 := RowsAfterInsert(rows, true, u1, Healthy);
      var u2 := NewUser(argon2, second, id2, salt2);
      && RegisterResponse(InsertOutcome(rows1, true, u2, Healthy)) == Response(StatusBadRequest, ErrorJson(RegistrationRejected))
      && RowsAfterInsert(rows1, true, u2, Healthy) == rows1
      && rows1[id1] == u1
  {
  }

  /** One call of `register`: the decoded body and what the UUID, nanoid and the database supply to it. */
  datatype Attempt = Attempt(body: RegisterReqBody, newId: string, nanoid: Salt, backend: Backend)

  /** The table after the registrations `attempts`, handled one after the other. */
  ghost function RowsAfterRegistrations(argon2: Hasher, rows: map<string, User>, uniqueUsernames: bool, attempts: seq<Attempt>): map<string, User>
    decreases |attempts|
  {
    if attempts == [] then rows
    else
      var a := attempts[0];
      var rows' := RowsAfterInsert(rows, uniqueUsernames, NewUser(argon2, a.body, a.newId, a.nanoid), a.backend);
      RowsAfterRegistrations(argon2, rows', uniqueUsernames, attempts[1..])
  }

  /**
   * However many registrations are handled, each stored row stays as it was,
   * and each row they add is stored under its own id, is not activated and
   * has no access token; the table invariant holds throughout.
   */
  lemma {:induction false} RegistrationsOnlyAddPendingAccounts(argon2: Hasher, rows: map<string, User>, uniqueUsernames: bool, attempts: seq<Attempt>)
    requires TableInvariant(rows, uniqueUsernames)
    ensures var rows' := RowsAfterRegistrations(argon2, rows, uniqueUsernames, attempts);
      && TableInvariant(rows', uniqueUsernames)
      && (forall k :: k in rows ==> k in rows' && rows'[k] == rows[k])
      && (forall k :: k in rows' && k !in rows ==> rows'[k].id == k && !rows'[k].isActivated && rows'[k].accessToken == None)
    decreases |attempts|
  {
    if attempts != [] {
      var a := attempts[0];
      var u := NewUser(argon2, a.body, a.newId, a.nanoid);
      InsertPreservesInvariant(rows, uniqueUsernames, u, a.backend);
      RegistrationsOnlyAddPendingAccounts(argon2, RowsAfterInsert(rows, uniqueUsernames, u, a.backend), uniqueUsernames, attempts[1..]);
    }
  }
}
