/** The rows of the store's three tables and the values that arrive in request bodies. */
module Rows {

  datatype Option<+T> = None | Some(value: T)

  /** A row of `products` or of `pending_products`: both tables have exactly these
      columns besides the auto-assigned id. The REAL price column is kept as an exact
      `real` on which no arithmetic is done. */
  datatype Product = Product(name: string, description: string, price: real)

  /** A row of `users`; `passwordHash` is the stored bcrypt hash, never the password. */
  datatype User = User(username: string, passwordHash: string, email: string, createdAt: string)

  /** The claims a session token carries; once verified they become the request's user. */
  datatype Claims = Claims(id: int, username: string, email: string, createdAt: string, isAdmin: bool)

  /** A JSON body member as far as a handler inspects it: missing, a string, or some
      other JSON value (number, boolean, null, object, array) known only by its truthiness. */
  datatype Field = Absent | Text(text: string) | NonText(truthy: bool)

  /** JavaScript's `!v` for a body member. */
  predicate Falsy(f: Field) {
    match f
    case Absent => true
    case Text(s) => s == ""
    case NonText(truthy) => !truthy
  }

  /** JavaScript's `!v` for an optional string: missing or empty. */
  predicate Blank(o: Option<string>) {
    o == None || o == Some("")
  }

  /** JavaScript's `!price` for an optional number: missing or zero. */
  predicate BlankPrice(o: Option<real>) {
    o == None || o == Some(0.0)
  }

  /** The UNIQUE constraint on `users.username`. */
  ghost predicate UniqueUsernames(users: map<int, User>) {
    forall i, j :: i in users && j in users && users[i].username == users[j].username ==> i == j
  }
}
