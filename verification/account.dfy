/** The records of the account module: the persisted `User`, the registration
    request and response, the two checked failures the service raises, the error
    body the controller returns, and the abstract user store. */
module Account {
  import opened Wrappers

  /** A point in time as epoch milliseconds. */
  type Instant = int

  /** A persisted account (`users` table). */
  datatype User = User(
    id: string,
    username: string,
    email: string,
    password: string,
    createdAt: Instant,
    updatedAt: Instant)

  /** The JSON registration body; any field may be absent (null). */
  datatype RegisterRequest = RegisterRequest(
    email: Option<string>,
    username: Option<string>,
    password: Option<string>)

  datatype RegisterResponse = RegisterResponse(message: string, user: User)

  /** Field name to violation messages. */
  type FieldErrors = map<string, seq<string>>

  datatype ValidationException = ValidationException(error: string, message: string, details: FieldErrors)

  datatype ConflictException = ConflictException(error: string, message: string)

  /** What a service call can throw: the two checked kinds, a null dereference,
      and any other runtime exception, named by its class. */
  datatype Fault =
    | Invalid(validation: ValidationException)
    | Conflict(conflict: ConflictException)
    | NullPointer
    | Unexpected(kind: string)

  /** The error body; `details` is null except for validation failures. */
  datatype ErrorResponse = ErrorResponse(error: string, message: string, details: Option<FieldErrors>)

  /** The public profile returned by the lookup endpoints. */
  datatype UserInfo = UserInfo(id: string, email: string, username: string, createdAt: Instant, updatedAt: Instant)

  /** The login success body. */
  datatype LoginResponse = LoginResponse(
    accessToken: string,
    refreshToken: Option<string>,
    tokenType: string,
    expiresIn: int,
    user: User)

  /** The user repository, keyed by the stored email. */
  type Store = map<string, User>

  /** Every record is filed under its own email; `save` keeps this. */
  ghost predicate Keyed(store: Store) {
    forall e :: e in store ==> store[e].email == e
  }

  /** `existsByEmail`: an exact match on the stored email. In a keyed store the
      key lookup finds exactly the emails some stored record carries. */
  function ExistsByEmail(store: Store, email: string): (r: bool)
    ensures Keyed(store) ==> (r <==> exists e :: e in store && store[e].email == email)
  {
    email in store
  }

  /** `save`: the record becomes the one stored under its email. */
  function Save(store: Store, user: User): (s: Store)
    ensures s.Keys == store.Keys + {user.email}
    ensures s[user.email] == user
    ensures forall e :: e in store && e != user.email ==> s[e] == store[e]
    ensures Keyed(store) ==> Keyed(s)
  {
    store[user.email := user]
  }
}
