/** What a handler sees of a request and what it answers. */
module Http {
  import opened Rows

  /** The parts of a request the auth middleware reads: the `Authorization` header value
      as Node's HTTP parser delivers it (trailing spaces and tabs removed, see `Trimmed`),
      the parsed cookies, and whether content negotiation picks HTML for the client
      (Express's `req.accepts('html')`, which is also true when no Accept header is sent). */
  datatype Request = Request(authorization: Option<string>, cookies: map<string, string>, acceptsHtml: bool)

  /** A header value as Node delivers it: it does not end in a space or a tab. */
  predicate Trimmed(h: string) {
    h == [] || (h[|h| - 1] != ' ' && h[|h| - 1] != '\t')
  }

  /** The ways the auth middleware stops a request before its handler runs. */
  datatype Denial =
    | RedirectToLogin          // a browser without a usable session
    | AuthenticationRequired   // an API client without a usable session
    | AdminRequired(html: bool) // an authenticated user without the admin claim
  {
    function Status(): nat {
      match this
      case RedirectToLogin => 302
      case AuthenticationRequired => 401
      case AdminRequired(_) => 403
    }

    /** The redirect target, or the text of the error body. */
    function Text(): string {
      match this
      case RedirectToLogin => "/login"
      case AuthenticationRequired => "Authentication required"
      case AdminRequired(html) => if html then "Admin access required" else "Admin privileges required"
    }
  }

  /** A handler's answer. `Session` carries the claims of the token it signs and sets as a cookie. */
  datatype Reply =
    | Denied(denial: Denial)
    | Message(status: nat, text: string)
    | Created(id: int, row: Product)
    | Listing(rows: map<int, Product>)
    | Session(text: string, claims: Claims)
    | Identity(user: Claims)
  {
    function Status(): nat {
      match this
      case Denied(d) => d.Status()
      case Message(status, _) => status
      case Created(_, _) => 201
      case Listing(_) => 200
      case Session(_, _) => 200
      case Identity(_) => 200
    }
  }
}
