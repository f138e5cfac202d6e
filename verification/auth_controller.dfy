/**
 * The server's auth controller: `register`, `login`, `verifyToken` and
 * `logout`. Each handler is a pure function of the store, the request and
 * the library; `register` also returns the store it leaves behind, the
 * others only read it.
 */
module AuthController {
  import opened Optional
  import opened Users
  import opened Crypto
  import opened Http

  const EmailInUse := "The email is already in use"
  const EmailUnknown := "The email does not exist"
  const PasswordIncorrect := "The password is incorrect"

  /** The awaited calls inside a handler's `try` that can throw. */
  datatype Step = FindUser | HashPassword | SaveUser | SignToken | ComparePassword

  /** A thrown error: where it happened and its `error.message`. */
  datatype Fault = Fault(step: Step, message: string)

  datatype RegisterBody = RegisterBody(username: string, email: string, password: string)
  datatype LoginBody = LoginBody(email: string, password: string)

  /** A handler's effect: the store afterwards and the response sent. */
  datatype Outcome = Outcome(store: Store, response: Response)

  predicate FailsAt(fault: Option<Fault>, step: Step) {
    fault.Some? && fault.value.step == step
  }

  /** The awaited calls `register` makes; it never compares passwords. */
  predicate RegisterStep(step: Step) {
    step != ComparePassword
  }

  /** The awaited calls `login` makes; it never hashes or saves. */
  predicate LoginStep(step: Step) {
    step == FindUser || step == ComparePassword || step == SignToken
  }

  /** The `catch` branch: 500 with the thrown error's message. */
  function ServerError(fault: Option<Fault>): (r: Response)
    requires fault.Some?
    ensures r == Response(500, Message(fault.value.message), None)
  {
    Response(500, Message(fault.value.message), None)
  }

  /** The `token` cookie register and login set; `env` is `NODE_ENV`. */
  function SessionCookie(token: string, env: string): (c: Cookie)
    ensures c.name == "token" && c.value == token
    ensures c.httpOnly <==> env != "development"
    ensures c.secure && c.sameSite == Some("none") && c.expires.None?
  {
    Cookie("token", token, env != "development", true, Some("none"), None)
  }

  /** The cookie `logout` sets: empty, and expired at the epoch. */
  const ClearedCookie: Cookie := Cookie("token", "", true, true, None, Some(0))

  /**
   * `register`: reject a taken email, otherwise store the user with the
   * hashed password, sign `{id}` into the session cookie and answer with
   * the public projection.
   */
  function Register(st: Store, body: RegisterBody, lib: Library, env: string, salt: string,
                    fault: Option<Fault>): (r: Outcome)
    requires fault.Some? ==> RegisterStep(fault.value.step)
    // A taken email: 400 with exactly one message, nothing stored, no cookie.
    ensures !FailsAt(fault, FindUser) && FindByEmail(st.users, body.email).Some? ==>
              r == Outcome(st, Response(400, Messages([EmailInUse]), None))
    // Success happens exactly when the email is free and nothing throws.
    ensures r.response.status == 200 <==>
              fault.None? && FindByEmail(st.users, body.email).None?
    // On success exactly one user is added, holding the hash and not the plaintext.
    ensures r.response.status == 200 ==>
              var u := User(st.nextId, body.username, body.email,
                            lib.hash(body.password, SaltRounds, salt));
              && r.store == Insert(st, body.username, body.email, u.password)
              && r.response.body == Profile(Project(u))
              && r.response.cookie == Some(SessionCookie(lib.sign(Claims(u.id, None)), env))
    // Only a thrown token signing follows a completed save.
    ensures r.response.status != 200 ==>
              r.store == (if FailsAt(fault, SignToken) && FindByEmail(st.users, body.email).None?
                          then Insert(st, body.username, body.email,
                                      lib.hash(body.password, SaltRounds, salt))
                          else st)
    ensures r.response.cookie.Some? <==> r.response.status == 200
    ensures r.response.status in {200, 400, 500}
    // A thrown error that is reached becomes 500 with its message, never a 400.
    ensures fault.Some? && (FailsAt(fault, FindUser) || FindByEmail(st.users, body.email).None?) ==>
              r.response == ServerError(fault)
  {
    if FailsAt(fault, FindUser) then Outcome(st, ServerError(fault))
    else if FindByEmail(st.users, body.email).Some? then
      Outcome(st, Response(400, Messages([EmailInUse]), None))
    else if FailsAt(fault, HashPassword) then Outcome(st, ServerError(fault))
    else
      var hash := lib.hash(body.password, SaltRounds, salt);
      if FailsAt(fault, SaveUser) then Outcome(st, ServerError(fault))
      else
        var saved := Insert(st, body.username, body.email, hash);
        var user := User(st.nextId, body.username, body.email, hash);
        if FailsAt(fault, SignToken) then Outcome(saved, ServerError(fault))
        else
          var token := lib.sign(Claims(user.id, None));
          Outcome(saved, Response(200, Profile(Project(user)), Some(SessionCookie(token, env))))
  }

  /**
   * `login`: find the user by email, compare the password with the stored
   * hash, sign `{id, username}` into the session cookie and answer with the
   * public projection. The store is only read.
   */
  function Login(st: Store, body: LoginBody, lib: Library, env: string,
                 fault: Option<Fault>): (r: Response)
    requires fault.Some? ==> LoginStep(fault.value.step)
    ensures !FailsAt(fault, FindUser) && FindByEmail(st.users, body.email).None? ==>
              r == Response(400, Messages([EmailUnknown]), None)
    ensures !FailsAt(fault, FindUser) && FindByEmail(st.users, body.email).Some?
            && !FailsAt(fault, ComparePassword)
            && !lib.compare(body.password, FindByEmail(st.users, body.email).value.password) ==>
              r == Response(400, Messages([PasswordIncorrect]), None)
    ensures r.status == 200 <==>
              && fault.None?
              && FindByEmail(st.users, body.email).Some?
              && lib.compare(body.password, FindByEmail(st.users, body.email).value.password)
    ensures r.status == 200 ==>
              var u := FindByEmail(st.users, body.email).value;
              && r.body == Profile(Project(u))
              && r.cookie == Some(SessionCookie(lib.sign(Claims(u.id, Some(u.username))), env))
    ensures r.cookie.Some? <==> r.status == 200
    // A thrown error at a step login reaches becomes 500 with its message.
    ensures fault.Some? &&
            (|| FailsAt(fault, FindUser)
             || (FindByEmail(st.users, body.email).Some?
                 && (|| FailsAt(fault, ComparePassword)
                     || lib.compare(body.password, FindByEmail(st.users, body.email).value.password)))) ==>
              r == ServerError(fault)
  {
    if FailsAt(fault, FindUser) then ServerError(fault)
    else match FindByEmail(st.users, body.email)
      case None => Response(400, Messages([EmailUnknown]), None)
      case Some(found) =>
        if FailsAt(fault, ComparePassword) then ServerError(fault)
        else if !lib.compare(body.password, found.password) then
          Response(400, Messages([PasswordIncorrect]), None)
        else if FailsAt(fault, SignToken) then ServerError(fault)
        else
          var token := lib.sign(Claims(found.id, Some(found.username)));
          Response(200, Profile(Project(found)), Some(SessionCookie(token, env)))
  }

  /**
   * `verifyToken`: `false` without a token, 401 for a token that does not
   * verify or names no stored user, otherwise the user's projection as the
   * store holds it now.
   */
  function VerifyToken(st: Store, cookies: map<string, string>, lib: Library): (r: Response)
    ensures Falsy(TokenOf(cookies)) ==> r == Response(200, JsonFalse, None)
    ensures !Falsy(TokenOf(cookies)) && lib.verify(TokenOf(cookies).value).None? ==>
              r == Response(401, StatusText, None)
    // A verified token whose user is gone from the store is refused too.
    ensures !Falsy(TokenOf(cookies)) && lib.verify(TokenOf(cookies).value).Some?
            && FindById(st.users, lib.verify(TokenOf(cookies).value).value.id).None? ==>
              r == Response(401, StatusText, None)
    ensures r.body.Profile? <==>
              && !Falsy(TokenOf(cookies))
              && lib.verify(TokenOf(cookies).value).Some?
              && FindById(st.users, lib.verify(TokenOf(cookies).value).value.id).Some?
    ensures r.body.Profile? ==>
              && r.status == 200
              && r.body.user == Project(FindById(st.users, lib.verify(TokenOf(cookies).value).value.id).value)
    ensures r.status in {200, 401} && r.cookie.None?
  {
    var token := TokenOf(cookies);
    if Falsy(token) then Response(200, JsonFalse, None)
    else match lib.verify(token.value)
      case None => Response(401, StatusText, None)
      case Some(claims) =>
        match FindById(st.users, claims.id)
        case None => Response(401, StatusText, None)
        case Some(found) => Response(200, Profile(Project(found)), None)
  }

  /** `logout`: overwrite the cookie with an empty, expired one and answer 200. */
  function Logout(): (r: Response)
    ensures r.status == 200 && r.body == StatusText
    ensures r.cookie.Some? && r.cookie.value.name == "token" && r.cookie.value.value == ""
    ensures r.cookie.value.expires == Some(0) && r.cookie.value.httpOnly && r.cookie.value.secure
  {
    Response(200, StatusText, Some(ClearedCookie))
  }
}
