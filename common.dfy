/** Vocabulary shared by every handler: optional values, HTTP replies, the
    shapes a JSON request field can take, and the users table. */
module Common {

  datatype Option<+T> = None | Some(value: T)

  /** A route handler's answer: a success status with its payload, or an
      error status with the `error` text the handler sends back. */
  datatype Reply<+T> = Ok(status: int, value: T) | Fail(status: int, error: string)

  /** A field read from a parsed JSON body or a query string: missing
      (`undefined`), explicitly `null`, or present with a value. */
  datatype Json<+T> = Undefined | Null | Val(v: T)

  /** JavaScript truthiness of a text field: present and non-empty. */
  predicate TruthyText(f: Json<string>)
  {
    f.Val? && f.v != ""
  }

  /** JavaScript truthiness of a numeric field: present and non-zero. */
  predicate TruthyNum(f: Json<int>)
  {
    f.Val? && f.v != 0
  }

  /** A query-string parameter is truthy when it is given and non-empty. */
  predicate Given(q: Option<string>)
  {
    q.Some? && q.value != ""
  }

  /** The `body` of a message request: missing or null, a string, or any
      other JSON value (a number, a boolean, an object). */
  datatype MessageBody = Missing | Text(s: string) | NonText

  /** Users are identified by the `sub` of their session token. */
  type UserId = string

  /** Listing and message ids are assigned by the database. */
  type ListingId = nat

  /** A row of the `users` table, as the handlers select it. */
  datatype User = User(id: UserId, username: string, avatarUrl: Option<string>)

  /** The `users` table, keyed by id. */
  type UserTable = map<UserId, User>

  /** `select ... from users where id = ? limit 1`, first row or nothing. */
  function FindUser(users: UserTable, id: UserId): (r: Option<User>)
    ensures r.Some? <==> id in users
    ensures r.Some? ==> r.value == users[id]
  {
    if id in users then Some(users[id]) else None
  }
}
