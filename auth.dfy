/** The session layer: where a token is taken from, what the two auth middlewares
    decide, which claims a freshly signed token carries, and the checks on the
    login and change-password bodies. Signature checking (jwt.verify) and password
    hashing (bcrypt) are parameters. */
module Auth {
  import opened Rows
  import opened Http

  const BearerPrefix: string := "Bearer "
  const TokenCookie: string := "techstore-auth-token"
  const AdminUsername: string := "admin"
  const MinPasswordLength: nat := 8

  const CredentialsRequired: string := "Username and password are required"
  const InvalidCredentials: string := "Invalid username or password"
  const LoginSucceeded: string := "Login successful"
  const PasswordRequired: string := "New password is required"
  const PasswordTooShort: string := "New password must be at least 8 characters"

  predicate HasPrefix(s: string, prefix: string) {
    |prefix| <= |s| && s[..|prefix|] == prefix
  }

  /** The token a request presents: the text after a case-sensitive `Bearer ` in the
      Authorization header, else the non-empty session cookie, else none. A bearer header
      never falls back to the cookie; since header values arrive trimmed, the token it
      yields is never empty (`TrimmedBearerTokenNonEmpty`). */
  function ExtractToken(req: Request): (t: Option<string>)
    ensures req.authorization.Some? && HasPrefix(req.authorization.value, BearerPrefix) ==>
              t.Some? && BearerPrefix + t.value == req.authorization.value
    ensures !(req.authorization.Some? && HasPrefix(req.authorization.value, BearerPrefix)) ==>
              (t.Some? <==> TokenCookie in req.cookies && req.cookies[TokenCookie] != "") &&
              (t.Some? ==> t.value == req.cookies[TokenCookie])
  {
    if req.authorization.Some? && HasPrefix(req.authorization.value, BearerPrefix) then
      var h := req.authorization.value;
      assert h == BearerPrefix + h[|BearerPrefix|..];
      Some(h[|BearerPrefix|..])
    else if TokenCookie in req.cookies && req.cookies[TokenCookie] != "" then
      Some(req.cookies[TokenCookie])
    else
      None
  }

  /** The answer to a request without a usable session: browsers are sent to the login page. */
  function Unauthenticated(acceptsHtml: bool): (d: Denial)
    ensures d.Status() == (if acceptsHtml then 302 else 401)
  {
    if acceptsHtml then RedirectToLogin else AuthenticationRequired
  }

  datatype Gate = Proceed(user: Claims) | Deny(denial: Denial)

  /** The `requireAuth` middleware. */
  function RequireAuth(req: Request, verify: string -> Option<Claims>): (g: Gate)
    ensures g.Proceed? <==>
              ExtractToken(req).Some? && ExtractToken(req).value != "" && verify(ExtractToken(req).value).Some?
    ensures g.Proceed? ==> verify(ExtractToken(req).value) == Some(g.user)
    ensures g.Deny? ==> g.denial == Unauthenticated(req.acceptsHtml)
  {
    match ExtractToken(req)
    case None => Deny(Unauthenticated(req.acceptsHtml))
    case Some(token) =>
      if token == "" then Deny(Unauthenticated(req.acceptsHtml))
      else
        match verify(token)
        case None => Deny(Unauthenticated(req.acceptsHtml))
        case Some(claims) => Proceed(claims)
  }

  /** The `requireAdmin` middleware: `requireAuth`, then the token's admin claim. */
  function RequireAdmin(req: Request, verify: string -> Option<Claims>): (g: Gate)
    ensures g.Proceed? <==> RequireAuth(req, verify).Proceed? && RequireAuth(req, verify).user.isAdmin
    ensures g.Proceed? ==> g == RequireAuth(req, verify)
    ensures RequireAuth(req, verify).Deny? ==> g == RequireAuth(req, verify)
    ensures RequireAuth(req, verify).Proceed? && !g.Proceed? ==> g.denial == AdminRequired(req.acceptsHtml)
  {
    match RequireAuth(req, verify)
    case Deny(d) => Deny(d)
    case Proceed(user) => if user.isAdmin then Proceed(user) else Deny(AdminRequired(req.acceptsHtml))
  }

  /** GET /auth/status: the signed-in user's claims, or the requireAuth denial. */
  function AuthStatus(req: Request, verify: string -> Option<Claims>): (r: Reply)
    ensures r.Identity? <==> RequireAuth(req, verify).Proceed?
    ensures r.Identity? ==> verify(ExtractToken(req).value) == Some(r.user)
    ensures !r.Identity? ==> r == Denied(Unauthenticated(req.acceptsHtml))
  {
    match RequireAuth(req, verify)
    case Deny(d) => Denied(d)
    case Proceed(user) => Identity(user)
  }

  /** The claims signed into a token for user row `id`: the admin flag is decided by the
      username literal alone, not by anything stored with the user. */
  function ClaimsFor(id: int, u: User): (c: Claims)
    ensures c.isAdmin <==> u.username == AdminUsername
    ensures c.id == id && c.username == u.username && c.email == u.email && c.createdAt == u.createdAt
  {
    Claims(id, u.username, u.email, u.createdAt, u.username == AdminUsername)
  }

  /** POST /auth/login against the `users` table. `matches(password, hash)` is bcrypt's compare. */
  function Login(users: map<int, User>, username: Option<string>, password: Option<string>,
                 matches: (string, string) -> bool): (r: Reply)
    requires UniqueUsernames(users)
    ensures Blank(username) || Blank(password) ==> r == Message(400, CredentialsRequired)
    ensures r.Session? <==>
              !Blank(username) && !Blank(password) &&
              exists id :: id in users && users[id].username == username.value &&
                           matches(password.value, users[id].passwordHash)
    ensures r.Session? ==>
              r.text == LoginSucceeded && r.claims.username == username.value &&
              r.claims.id in users && r.claims == ClaimsFor(r.claims.id, users[r.claims.id])
    ensures !Blank(username) && !Blank(password) && !r.Session? ==> r == Message(401, InvalidCredentials)
  {
    if Blank(username) || Blank(password) then Message(400, CredentialsRequired)
    else if !exists id :: id in users && users[id].username == username.value then
      Message(401, InvalidCredentials)
    else
      var id :| id in users && users[id].username == username.value;
      if !matches(password.value, users[id].passwordHash) then Message(401, InvalidCredentials)
      else Session(LoginSucceeded, ClaimsFor(id, users[id]))
  }

  /** The length JavaScript reports for a string: UTF-16 code units, two for a
      character outside the Basic Multilingual Plane. */
  function Utf16Length(s: string): (n: nat)
    ensures |s| <= n <= 2 * |s|
  {
    if s == [] then 0 else (if s[0] as int > 0xFFFF then 2 else 1) + Utf16Length(s[1..])
  }

  datatype PasswordCheck = Accepted(password: string) | Refused(message: string)

  /** The checks on `newPassword` in POST /auth/change-password. */
  function CheckNewPassword(f: Field): (r: PasswordCheck)
    ensures r.Accepted? <==> f.Text? && Utf16Length(f.text) >= MinPasswordLength
    ensures r.Accepted? ==> r.password == f.text
    ensures Falsy(f) ==> r == Refused(PasswordRequired)
    ensures !Falsy(f) && !r.Accepted? ==> r == Refused(PasswordTooShort)
  {
    if Falsy(f) then Refused(PasswordRequired)
    else if !f.Text? || Utf16Length(f.text) < MinPasswordLength then Refused(PasswordTooShort)
    else Accepted(f.text)
  }

  // ---- Properties ----

  /** A `Bearer ` header wins over the session cookie, whatever the cookie holds. */
  lemma BearerWinsOverCookie(token: string, cookies: map<string, string>, html: bool)
    ensures ExtractToken(Request(Some(BearerPrefix + token), cookies, html)) == Some(token)
  {
  }

  /** Without a bearer header the session cookie is the token. */
  lemma CookieWhenNoBearer(req: Request)
    requires req.authorization.None?
    requires TokenCookie in req.cookies && req.cookies[TokenCookie] != ""
    ensures ExtractToken(req) == Some(req.cookies[TokenCookie])
  {
  }

  /** A bearer header as it arrives (trimmed) carries a non-empty token, so the handler's
      empty-token refusal is only reached through the cookie path. */
  lemma TrimmedBearerTokenNonEmpty(req: Request)
    requires req.authorization.Some? && Trimmed(req.authorization.value)
    requires HasPrefix(req.authorization.value, BearerPrefix)
    ensures ExtractToken(req).Some? && ExtractToken(req).value != ""
  {
  }

  /** A client's `Authorization: Bearer ` arrives trimmed as `Bearer`, which is not a
      bearer header: the session cookie decides. */
  lemma BareSchemeFallsBackToCookie(cookies: map<string, string>, html: bool)
    ensures ExtractToken(Request(Some("Bearer"), cookies, html)) ==
            (if TokenCookie in cookies && cookies[TokenCookie] != "" then Some(cookies[TokenCookie]) else None)
  {
  }

  /** A scheme name in another case is not a bearer header: the cookie is used instead. */
  lemma SchemeIsCaseSensitive(token: string, cookies: map<string, string>, html: bool)
    ensures ExtractToken(Request(Some("bearer " + token), cookies, html)) ==
            (if TokenCookie in cookies && cookies[TokenCookie] != "" then Some(cookies[TokenCookie]) else None)
  {
  }

  /** An authenticated user without the admin claim is stopped with 403, never 401 or a redirect. */
  lemma NonAdminGetsForbidden(req: Request, verify: string -> Option<Claims>)
    requires RequireAuth(req, verify).Proceed? && !RequireAuth(req, verify).user.isAdmin
    ensures RequireAdmin(req, verify).Deny? && RequireAdmin(req, verify).denial.Status() == 403
  {
  }

  /** A token signed at login passes the admin gate exactly when the user logged in as "admin":
      a token for "demo" never validates with the admin claim. */
  lemma AdminGateFollowsLoginUsername(users: map<int, User>, username: string, password: string,
                                      matches: (string, string) -> bool, verify: string -> Option<Claims>,
                                      token: string, cookies: map<string, string>, html: bool)
    requires UniqueUsernames(users)
    requires Login(users, Some(username), Some(password), matches).Session?
    requires token != "" && verify(token) == Some(Login(users, Some(username), Some(password), matches).claims)
    ensures RequireAdmin(Request(Some(BearerPrefix + token), cookies, html), verify).Proceed? <==> username == AdminUsername
  {
    BearerWinsOverCookie(token, cookies, html);
  }

  /** Login answers an unknown username and a wrong password identically. */
  lemma LoginFailuresIndistinguishable(users: map<int, User>, unknown: string, known: string,
                                       guess: string, matches: (string, string) -> bool)
    requires UniqueUsernames(users)
    requires unknown != "" && known != "" && guess != ""
    requires forall id :: id in users ==> users[id].username != unknown
    requires exists id :: id in users && users[id].username == known && !matches(guess, users[id].passwordHash)
    ensures Login(users, Some(unknown), Some(guess), matches) == Login(users, Some(known), Some(guess), matches)
    ensures Login(users, Some(known), Some(guess), matches).Status() == 401
  {
  }

  /** Every password of at least eight characters is accepted... */
  lemma LongPasswordsAccepted(s: string)
    requires |s| >= MinPasswordLength
    ensures CheckNewPassword(Text(s)) == Accepted(s)
  {
  }

  /** JavaScript counts every character outside the Basic Multilingual Plane twice. */
  lemma {:induction false} AllAstral(s: string)
    requires forall i :: 0 <= i < |s| ==> s[i] as int > 0xFFFF
    ensures Utf16Length(s) == 2 * |s|
  {
    if s != [] {
      AllAstral(s[1..]);
    }
  }

  /** ...so any four characters outside the Basic Multilingual Plane are accepted too. */
  lemma AstralPasswordsAccepted(s: string)
    requires |s| == 4
    requires forall i :: 0 <= i < |s| ==> s[i] as int > 0xFFFF
    ensures CheckNewPassword(Text(s)).Accepted?
  {
    AllAstral(s);
  }
}
