/**
 * The `users` table (src/schema.rs) as the registration handler uses it:
 * rows keyed by `id`, and `diesel::insert_into(users).values(&user).execute`.
 *
 * Whether the database is reachable and accepts statements is not something
 * the source decides; it is the `backend` parameter of an insert. A unique
 * index on `username` is not visible in the schema: the table's
 * `uniqueUsernames` flag says whether the model assumes one.
 */
module Store {
  import opened Prelude
  import opened Models

  /** diesel's `DatabaseErrorKind`. */
  datatype DatabaseErrorKind =
    | UniqueViolation
    | ForeignKeyViolation
    | UnableToSendCommand
    | SerializationFailure
    | Unknown

  /** diesel's `result::Error`: a database error, or one of the errors raised before or after the database. */
  datatype QueryError =
    | InvalidCString
    | DatabaseError(kind: DatabaseErrorKind)
    | NotFound
    | QueryBuilderError
    | DeserializationError
    | SerializationError
    | RollbackTransaction
    | AlreadyInTransaction

  /** The state of the connection when a statement is executed. */
  datatype Backend = Healthy | Failing(error: QueryError)

  /** A row with key `u.id`, or (under a unique username index) with `u.username`, is already stored. */
  predicate Conflicts(rows: map<string, User>, uniqueUsernames: bool, u: User)
  {
    u.id in rows || (uniqueUsernames && exists k :: k in rows && rows[k].username == u.username)
  }

  /** What `execute` returns for inserting `u`: one row inserted, or the error. */
  function InsertOutcome(rows: map<string, User>, uniqueUsernames: bool, u: User, backend: Backend): (r: Result<nat, QueryError>)
    ensures r.Ok? <==> backend.Healthy? && !Conflicts(rows, uniqueUsernames, u)
    ensures r.Ok? ==> r.value == 1
    ensures backend.Failing? ==> r == Err(backend.error)
    ensures backend.Healthy? && Conflicts(rows, uniqueUsernames, u) ==> r == Err(DatabaseError(UniqueViolation))
  {
    match backend
    case Failing(e) => Err(e)
    case Healthy =>
      if Conflicts(rows, uniqueUsernames, u) then Err(DatabaseError(UniqueViolation)) else Ok(1)
  }

  /** The rows after inserting `u`: exactly one row more when the insert succeeds, the same rows otherwise. */
  function RowsAfterInsert(rows: map<string, User>, uniqueUsernames: bool, u: User, backend: Backend): (rows': map<string, User>)
    ensures InsertOutcome(rows, uniqueUsernames, u, backend).Ok? ==>
      rows'.Keys == rows.Keys + {u.id} && u.id !in rows && rows'[u.id] == u
    ensures InsertOutcome(rows, uniqueUsernames, u, backend).Err? ==> rows' == rows
    ensures forall k :: k in rows ==> k in rows' && rows'[k] == rows[k]
  {
    if InsertOutcome(rows, uniqueUsernames, u, backend).Ok? then rows[u.id := u] else rows
  }

  /** Every row is stored under its own id. */
  ghost predicate KeyedById(rows: map<string, User>)
  {
    forall k :: k in rows ==> rows[k].id == k
  }

  /** No two rows share a username. */
  ghost predicate UsernamesDistinct(rows: map<string, User>)
  {
    forall a, b :: a in rows && b in rows && rows[a].username == rows[b].username ==> a == b
  }

  ghost predicate TableInvariant(rows: map<string, User>, uniqueUsernames: bool)
  {
    KeyedById(rows) && (uniqueUsernames ==> UsernamesDistinct(rows))
  }

  /** An insert keeps every row under its own id and, under a unique username index, keeps usernames distinct. */
  lemma InsertPreservesInvariant(rows: map<string, User>, uniqueUsernames: bool, u: User, backend: Backend)
    requires TableInvariant(rows, uniqueUsernames)
    ensures TableInvariant(RowsAfterInsert(rows, uniqueUsernames, u, backend), uniqueUsernames)
  {
  }

  /**
   * Under a unique username index, once `u1` is stored, inserting any `u2`
   * with the same username fails with a database error and leaves `u1` as it was.
   */
  lemma SameUsernameRejected(rows: map<string, User>, u1: User, u2: User, backend: Backend)
    requires InsertOutcome(rows, true, u1, Healthy).Ok?
    requires u2.username == u1.username
    ensures var rows1 := RowsAfterInsert(rows, true, u1, Healthy);
      && InsertOutcome(rows1, true, u2, backend).Err?
      && InsertOutcome(rows1, true, u2, backend).error.DatabaseError?
         == (backend.Healthy? || backend.error.DatabaseError?)
      && RowsAfterInsert(rows1, true, u2, backend) == rows1
      && rows1[u1.id] == u1
  {
  }

  /** The users table: its rows, keyed by id. */
  class UsersTable {
    const uniqueUsernames: bool
    var rows: map<string, User>

    ghost predicate Valid()
      reads this
    {
      TableInvariant(rows, uniqueUsernames)
    }

    constructor (uniqueUsernames: bool)
      ensures Valid()
      ensures this.uniqueUsernames == uniqueUsernames && rows == map[]
    {
      this.uniqueUsernames := uniqueUsernames;
      rows := map[];
    }

    /** `diesel::insert_into(users).values(&u).execute(conn)`. */
    method Insert(u: User, backend: Backend) returns (r: Result<nat, QueryError>)
      requires Valid()
      modifies this
      ensures Valid()
      ensures r == InsertOutcome(old(rows), uniqueUsernames, u, backend)
      ensures rows == RowsAfterInsert(old(rows), uniqueUsernames, u, backend)
    {
      InsertPreservesInvariant(rows, uniqueUsernames, u, backend);
      if backend.Failing? {
        r := Err(backend.error);
      } else if u.id in rows {
        r := Err(DatabaseError(UniqueViolation));
      } else if uniqueUsernames && exists k :: k in rows && rows[k].username == u.username {
        r := Err(DatabaseError(UniqueViolation));
      } else {
        rows := rows[u.id := u];
        r := Ok(1);
      }
    }
  }
}
