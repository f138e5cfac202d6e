/**
 * The slice of Express and the browser the controllers touch: request
 * cookies and body, a response with status, JSON body and at most one
 * `Set-Cookie`, and the `next` continuation of a middleware.
 */
module Http {
  import opened Optional
  import opened Users
  import opened Crypto

  /** A request body or form: field name to string value; an absent key is `undefined`. */
  type Form = map<string, string>

  /** One schema violation: the field path and its message. */
  datatype Issue = Issue(path: string, message: string)

  /** A `res.cookie(name, value, options)` call. */
  datatype Cookie = Cookie(
    name: string,
    value: string,
    httpOnly: bool,
    secure: bool,
    sameSite: Option<string>,
    expires: Option<int>)   // seconds since the epoch

  /** The bodies the server sends. */
  datatype Body =
    | Messages(list: seq<string>)   // `{ message: [...] }`
    | Message(text: string)         // `{ message: "..." }`
    | Profile(user: PublicUser)     // `{ id, username, email }`
    | JsonFalse                     // `res.send(false)`
    | StatusText                    // `res.sendStatus(code)`: the code's reason phrase

  datatype Response = Response(status: int, body: Body, cookie: Option<Cookie>)

  /** What a handler sees: parsed cookies, parsed body and the `req.user` slot. */
  datatype Request = Request(cookies: map<string, string>, body: Form, user: Option<Claims>)

  /**
   * The result of running a middleware: the request as it leaves, the
   * response sent (if any), and how many times `next` was called.
   */
  datatype Passage = Passage(request: Request, response: Option<Response>, nextCalls: nat)

  /** The `token` cookie of a cookie jar. */
  function TokenOf(cookies: map<string, string>): Option<string> {
    if "token" in cookies then Some(cookies["token"]) else None
  }

  /** JavaScript's `!token`: true for `undefined` and for the empty string. */
  predicate Falsy(token: Option<string>) {
    token.None? || token.value == ""
  }

  /**
   * An axios call as the client sees it: resolved with status and data
   * (2xx only), or rejected, carrying the server's `message` list when the
   * error response has one.
   */
  datatype Reply<T> = Resolved(status: int, data: T) | Rejected(messages: Option<seq<string>>)
}
