# TechStore storefront: the review workflow and the session gate

TechStore is a small teaching storefront. Anyone can submit a product. The submission waits
in `pending_products` until a signed-in user approves it into `products` or rejects it.
Published products can be listed, searched and deleted. Sessions are signed tokens, which
arrive in a `Bearer` header or in the `techstore-auth-token` cookie. One username, `admin`,
holds the admin claim.

This project models that core in Dafny:

- `rows.dfy` (module `Rows`): the table rows (`Product`, `User`), the token claims
  (`Claims`), and a request-body member (`Field`). It also holds JavaScript falsiness
  (`Falsy`, `Blank`, `BlankPrice`) and the UNIQUE constraint on usernames.
- `http.dfy` (module `Http`): the parts of a request the middleware reads, the middleware's
  denials (redirect, 401, 403), and the replies with their status codes.
- `auth.dfy` (module `Auth`): pure functions for `requireAuth` and `requireAdmin`,
  token-source selection, the claims a signed token carries, login, the `newPassword`
  check and `/auth/status`.
- `catalog.dfy` (module `Catalog`): SQLite's `LIKE` (`%`, `_`, ASCII case folding) and the
  search route. Lemmas prove that for a term without wildcards the route's pattern is
  case-insensitive substring search.
- `server.dfy` (module `Server`): the class `Store` with the three tables. Each table is a
  map from id to row with its own AUTOINCREMENT counter. The class has one method per writing
  statement and one method per state-changing route. Its object invariant `Valid()` is kept by
  every method. Besides the id bounds and unique usernames, it states where rows come from. A
  ghost set `submitted` records every row ever inserted into `pending_products`. Every pending
  row is in it, and every product is either the seed row under its own id or a member of it.
  So a published product is seed data or an approved submission. The module also has the
  seeded database and three end-to-end scenarios.

Some code the model cannot see becomes parameters. `jwt.verify` becomes
`verify: string -> Option<Claims>`, where `None` means verification threw. bcrypt's
`compare` becomes `matches(password, hash)`, and `hash` stands for `bcrypt.hash`. Signing
is modelled by the `Claims` a reply says it signs. The result of `req.accepts('html')` is
the request field `acceptsHtml`. Express also returns true there when the client sends no
Accept header.

Length is measured as JavaScript measures it: `newPassword.length` counts UTF-16 code units
(`Utf16Length`). So four characters outside the Basic Multilingual Plane pass the
eight-character minimum (`AstralPasswordsAccepted`).

## Model

| member | source | states |
|---|---|---|
| Auth.ExtractToken | server.js:37-44 | a header starting with the case-sensitive `Bearer ` yields exactly the text after the prefix, whatever the cookie holds; otherwise the token is the non-empty session cookie, or there is none |
| Auth.Unauthenticated | server.js:28-34 | a request without a usable session gets a redirect (302 to `/login`) when it accepts HTML, otherwise 401 |
| Auth.RequireAuth | server.js:27-62 | proceeds exactly when a non-empty token was extracted and verifies, with the verified claims as the user; otherwise the unauthenticated outcome |
| Auth.RequireAdmin | server.js:65-75 | proceeds exactly when requireAuth proceeds with the admin claim; keeps requireAuth's denial; an authenticated non-admin gets the 403 denial |
| Auth.AuthStatus | server.js:149-157 | answers the verified claims exactly when requireAuth proceeds, otherwise its denial |
| Auth.ClaimsFor | server.js:104-110 | a signed token's admin claim is true exactly when the username is `admin`; the other claims copy the user row |
| Auth.Login | server.js:78-129 | 400 when username or password is missing or empty; a session exactly when some user with that username has a matching hash, and then the claims are that user's with `isAdmin` = (username == `admin`); 401 with one message otherwise |
| Auth.Utf16Length | server.js:168 | the JavaScript length of a string lies between its character count and twice that |
| Auth.CheckNewPassword | server.js:162-170 | accepted exactly when the value is a string of at least 8 UTF-16 units; a falsy value gets the "required" message; any other refusal gets the "at least 8" message |
| Auth.BearerWinsOverCookie | server.js:39-41 | `Bearer <t>` yields `t` even when the session cookie is present |
| Auth.CookieWhenNoBearer | server.js:42-44 | without an Authorization header, a non-empty session cookie is the token |
| Auth.TrimmedBearerTokenNonEmpty | server.js:39-41 | a bearer header as Node delivers it (no trailing space or tab) yields a non-empty token |
| Auth.BareSchemeFallsBackToCookie | server.js:39-44 | a client's `Bearer ` arrives trimmed as `Bearer`, fails the prefix test, and the cookie decides |
| Auth.SchemeIsCaseSensitive | server.js:40-44 | a lower-case `bearer ` header is ignored and the cookie decides |
| Auth.NonAdminGetsForbidden | server.js:66-72 | an authenticated user without the admin claim gets 403 from requireAdmin |
| Auth.AdminGateFollowsLoginUsername | server.js:104-110 | a token carrying the claims signed at login passes requireAdmin exactly when the login username was `admin` |
| Auth.LoginFailuresIndistinguishable | server.js:94-102 | an unknown username and a wrong password get the identical 401 reply |
| Auth.LongPasswordsAccepted | server.js:168-170 | every string of at least 8 characters is accepted as a new password |
| Auth.AllAstral | server.js:168 | a string made only of characters outside the Basic Multilingual Plane has a JavaScript length of twice its character count |
| Auth.AstralPasswordsAccepted | server.js:168-170 | any four characters outside the Basic Multilingual Plane count as 8 and are accepted |
| Catalog.Search | server.js:263-283 | an absent or empty term finds nothing; otherwise exactly the products whose name or description matches `%term%` under LIKE, with their rows unchanged |
| Catalog.RunMatchesAll | server.js:274 | the pattern `%` matches every string |
| Catalog.PrefixThenRun | server.js:273-274 | for a wildcard-free `t`, `t%` matches exactly the strings that begin with `t` up to ASCII case |
| Catalog.RunThenPattern | server.js:273-274 | `%q` matches exactly the strings that have a suffix matching `q` |
| Catalog.PatternIsSubstringSearch | server.js:273-274 | for a wildcard-free term, `%term%` matches exactly the strings containing the term up to ASCII case |
| Catalog.SearchFindsSubstrings | server.js:265-282 | a non-empty wildcard-free term finds a product exactly when its name or description contains the term up to ASCII case |
| Catalog.SearchFindsByNamePiece | server.js:273-281 | any wildcard-free piece of a product's name finds that product |
| Server.CheckSubmission | server.js:287-290 | a submission is refused exactly when name, description or price is falsy (missing, empty, 0); otherwise it is the row of the given fields |
| Server.SeedUsers | init-db.js:66-94 | the three seeded users have ids 1-3 and distinct usernames, only user 1 is named `admin`, and user i is stamped with the i-th timestamp |
| Server.Store.Seeded | init-db.js:34-94 | the seeded store holds the four sample products under ids 1-4, the three users, no pending rows and no submissions yet |
| Server.Store.InsertPending | server.js:291-292 | adds one pending row under a fresh id and records it as submitted; the other tables are untouched |
| Server.Store.InsertProduct | server.js:338 | adds one product, which must be a submitted row, under a fresh id; the other tables are untouched |
| Server.Store.DeletePending | server.js:357-362 | removes the pending row with the id and reports 1 change if there was one, else 0 |
| Server.Store.DeleteProductRow | server.js:378-386 | removes the product with the id and reports 1 change if there was one, else 0 |
| Server.Store.UpdatePassword | server.js:183 | replaces only that user's password hash |
| Server.Store.SubmitPending | server.js:286-304 | 400 and no change when a field is falsy; otherwise 201 echoing the fields under an id new to `pending_products`, which gains exactly that row |
| Server.Store.SubmitLegacy | server.js:307-325 | the legacy route promises exactly what the pending route does |
| Server.Store.Approve | server.js:328-352 | any authenticated user may approve; 404 and no change when no pending row has the id; otherwise `products` gains exactly a copy of the row under a fresh id, the pending row is gone, and nothing else changes; every product stays seed data or a submitted row |
| Server.Store.Reject | server.js:355-367 | for an authenticated user, 404 exactly when no pending row has the id; otherwise exactly that row is removed; `products` is untouched |
| Server.Store.DeleteProduct | server.js:369-392 | with no auth, 404 exactly when no product has the id; otherwise exactly that row is removed; `pending_products` is untouched |
| Server.Store.ChangePassword | server.js:160-212 | without a current password: the auth denial, or 400 for a bad new password, or 404 for a vanished user, each writing nothing; otherwise only that user's hash changes and a token is signed from the stored row |
| Server.Store.ListProducts | server.js:238-249 | every product row, with status 200 |
| Server.Store.ListPending | server.js:252-261 | the pending rows exactly when requireAuth proceeds, otherwise its denial |
| Server.Store.AdminQueue | server.js:500-511 | the pending rows exactly when the user is authenticated and admin; otherwise requireAdmin's denial: a redirect or 401 without a usable session, 403 for a signed-in non-admin |
| Server.DeleteFirstSeededProduct | server.js:369-392 | deleting product 1 from the seeded store answers 200 and leaves the other three products unchanged |
| Server.SubmitThenApprove | server.js:286-352 | a submission approved by a signed-in user is answered 201 then 200, is published among five products, and is no longer pending |
| Server.NonAdminApproves | server.js:328-352 | a signed-in non-admin is refused the review queue with 403, yet may approve a pending row |

## Left out

- Signing, verification and hashing (jwt, bcrypt) are foreign cryptographic code. They are parameters, and token expiry is not modelled.
- Server.Store.ChangePassword, Server.SeedUsers: `bcrypt.hash` draws a random salt, but the parameter `hash` is a function, so the same password always gets the same stored hash here; the salt is not modelled.
- The SQLite driver, SQL text and callbacks: tables are maps. The DELETE in `/api/products/:id` interpolates its id into SQL, and the model takes the id as an integer, so the injection is not modelled. The `!productId` 400 branch cannot be reached for a matched route parameter.
- Database-error (500) paths are not modelled. Approve's two writes have no transaction, and each request is treated as one atomic step, so a partial approve is not modelled.
- Server.Store.Approve: does not state the `newProductId` in the reply, because it is read from `this.lastID` in the DELETE callback.
- Catalog.Search: returns a map keyed by id, so the storage order of the rows is not modelled.
- Server.Store.ListProducts, Server.Store.ListPending, Server.Store.AdminQueue: return maps keyed by id, so the storage order in which the unordered SELECTs return the rows is not modelled.
- Catalog.Search: `q` is a string or absent. The query parser can also give an array (`?q=a&q=b` searches `%a,b%`) or an object, and those are not modelled.
- Auth.CheckNewPassword: a JavaScript string can hold an unpaired surrogate such as `"\ud800"`, which `.length` counts as one unit. Dafny's `char` has no surrogates, so such a `newPassword` cannot be represented.
- Rendered HTML (`/`, `/home-new.html`, the page of `/admin/queue`) is left out. The model keeps only the rows the queue page shows, and fields are inserted into the page verbatim.
- Cookie attributes, `/auth/logout`, `/login`, `/dashboard`, `/test-session`, static files, `app.listen` and the SIGINT handler are I/O plumbing.
- Express content negotiation is reduced to the boolean `acceptsHtml`.
- Auth.Login: the username and password are strings or absent. Other JSON values are not modelled, because they reach SQLite's type affinity and bcrypt's argument checks.
- Server.Store.SubmitPending: name and description are strings or absent, and price is a number or absent. Other JSON values, NaN and `-0` are not modelled.
- Prices are exact reals with no arithmetic, standing for the REAL column.
- `product-operations.js` is browser code (fetch, confirm, alert, DOM) and is not part of this model.
