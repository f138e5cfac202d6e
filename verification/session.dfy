/**
 * The session lifecycle end to end: the browser's cookie jar between the
 * server's handlers and the client's provider, the way axios turns a
 * response into a reply, and the round trips that follow from the two
 * library laws.
 */
module Session {
  import opened Optional
  import opened Users
  import opened Crypto
  import opened Http
  import opened AuthController
  import AuthMiddleware
  import ValidatorMiddleware
  import TaskSchema
  import Client = AuthContext

  /** The browser's cookies for the site, with the flags each was set with. */
  type Jar = map<string, Cookie>

  /** A `Set-Cookie` at time `now`: an expiry already past deletes the cookie. */
  function ApplyCookie(jar: Jar, c: Cookie, now: int): (r: Jar)
    ensures c.expires.Some? && c.expires.value <= now ==> c.name !in r
    ensures !(c.expires.Some? && c.expires.value <= now) ==> c.name in r && r[c.name] == c
    ensures forall k :: k != c.name ==> (k in r <==> k in jar) && (k in r ==> r[k] == jar[k])
  {
    if c.expires.Some? && c.expires.value <= now then jar - {c.name} else jar[c.name := c]
  }

  /** A response's cookie, if it sets one. */
  function Receive(jar: Jar, resp: Response, now: int): Jar {
    if resp.cookie.Some? then ApplyCookie(jar, resp.cookie.value, now) else jar
  }

  /** The cookies the server receives with a request. */
  function SentCookies(jar: Jar): map<string, string> {
    map k | k in jar :: jar[k].value
  }

  /** The cookies page scripts (js-cookie) can read: `httpOnly` ones are hidden. */
  function ScriptCookies(jar: Jar): map<string, string> {
    map k | k in jar && !jar[k].httpOnly :: jar[k].value
  }

  /**
   * js-cookie's `Cookies.remove(name)` from a page script: the browser
   * ignores a script's write to an `httpOnly` cookie, so only a
   * script-visible cookie goes away.
   */
  function ScriptRemove(jar: Jar, name: string): (r: Jar)
    ensures name in jar && jar[name].httpOnly ==> r == jar
    ensures name !in r || r[name].httpOnly
    ensures forall k :: k != name ==> (k in r <==> k in jar) && (k in r ==> r[k] == jar[k])
  {
    if name in jar && !jar[name].httpOnly then jar - {name} else jar
  }

  /** axios on a register or login response: 2xx resolves, anything else rejects. */
  function DeliverProfile(resp: Response): Reply<PublicUser> {
    if 200 <= resp.status < 300 && resp.body.Profile? then Resolved(resp.status, resp.body.user)
    else if resp.body.Messages? then Rejected(Some(resp.body.list))
    else Rejected(None)
  }

  /** axios on a `/verify` response. */
  function DeliverVerify(resp: Response): Reply<Client.VerifyData> {
    if 200 <= resp.status < 300 && resp.body.Profile? then Resolved(resp.status, Client.UserData(resp.body.user))
    else if 200 <= resp.status < 300 then Resolved(resp.status, Client.NoUser)
    else Rejected(None)
  }

  /** Register keeps the store well formed, whatever happens. */
  lemma RegisterPreservesValid(st: Store, body: RegisterBody, lib: Library, env: string, salt: string,
                               fault: Option<Fault>)
    requires Valid(st)
    requires fault.Some? ==> RegisterStep(fault.value.step)
    ensures Valid(Register(st, body, lib, env, salt, fault).store)
  {
  }

  /** A second registration with the same email is refused and stores nothing. */
  lemma RegisterTwiceRejected(st: Store, first: RegisterBody, second: RegisterBody, lib: Library,
                              env: string, salt1: string, salt2: string)
    requires Register(st, first, lib, env, salt1, None).response.status == 200
    requires second.email == first.email
    ensures var st1 := Register(st, first, lib, env, salt1, None).store;
            Register(st1, second, lib, env, salt2, None) ==
              Outcome(st1, Response(400, Messages([EmailInUse]), None))
  {
    var u := User(st.nextId, first.username, first.email, lib.hash(first.password, SaltRounds, salt1));
    FindByEmailAppend(st.users, u, first.email);
  }

  /** Under the bcrypt law, the password just registered logs in as the same user. */
  lemma RegisterThenLogin(st: Store, body: RegisterBody, lib: Library, env: string, salt: string)
    requires HashSound(lib)
    requires Register(st, body, lib, env, salt, None).response.status == 200
    ensures var r := Register(st, body, lib, env, salt, None);
            var l := Login(r.store, LoginBody(body.email, body.password), lib, env, None);
            l.status == 200 && l.body == r.response.body
  {
    var u := User(st.nextId, body.username, body.email, lib.hash(body.password, SaltRounds, salt));
    FindByEmailAppend(st.users, u, body.email);
    assert lib.compare(body.password, u.password);
  }

  /** Under the JWT law, the cookie register sets verifies to the new user. */
  lemma RegisterThenVerify(st: Store, body: RegisterBody, lib: Library, env: string, salt: string,
                           jar: Jar, now: int)
    requires Valid(st) && TokenSound(lib)
    requires Register(st, body, lib, env, salt, None).response.status == 200
    ensures var r := Register(st, body, lib, env, salt, None);
            VerifyToken(r.store, SentCookies(Receive(jar, r.response, now)), lib) ==
              Response(200, r.response.body, None)
  {
    var u := User(st.nextId, body.username, body.email, lib.hash(body.password, SaltRounds, salt));
    var claims := Claims(u.id, None);
    assert lib.sign(claims) != "" && lib.verify(lib.sign(claims)) == Some(claims);
    assert FindById(st.users, u.id).None?;
    FindByIdAppend(st.users, u, u.id);
  }

  /** Under the JWT law, the cookie login sets verifies to the same user, read from the store. */
  lemma LoginThenVerify(st: Store, body: LoginBody, lib: Library, env: string, jar: Jar, now: int)
    requires Valid(st) && TokenSound(lib)
    requires Login(st, body, lib, env, None).status == 200
    ensures var l := Login(st, body, lib, env, None);
            VerifyToken(st, SentCookies(Receive(jar, l, now)), lib) == Response(200, l.body, None)
  {
    var u := FindByEmail(st.users, body.email).value;
    var claims := Claims(u.id, Some(u.username));
    assert lib.sign(claims) != "" && lib.verify(lib.sign(claims)) == Some(claims);
    FindByIdStored(st, u);
  }

  /** Under the JWT law, the login cookie passes the `auth` gate carrying `{id, username}`. */
  lemma LoginThenAuth(st: Store, body: LoginBody, lib: Library, env: string, jar: Jar, now: int,
                      form: Form)
    requires TokenSound(lib)
    requires Login(st, body, lib, env, None).status == 200
    ensures var l := Login(st, body, lib, env, None);
            var u := FindByEmail(st.users, body.email).value;
            var req := Request(SentCookies(Receive(jar, l, now)), form, None);
            AuthMiddleware.Auth(req, lib) == Passage(req.(user := Some(Claims(u.id, Some(u.username)))), None, 1)
  {
    var u := FindByEmail(st.users, body.email).value;
    var claims := Claims(u.id, Some(u.username));
    assert lib.sign(claims) != "" && lib.verify(lib.sign(claims)) == Some(claims);
  }

  /** After logout the browser holds no usable token: `/verify` answers `false`, the gate 401. */
  lemma LogoutThenVerify(st: Store, jar: Jar, lib: Library, now: int, form: Form)
    ensures var after := Receive(jar, Logout(), now);
            && VerifyToken(st, SentCookies(after), lib) == Response(200, JsonFalse, None)
            && AuthMiddleware.Auth(Request(SentCookies(after), form, None), lib).nextCalls == 0
  {
    var after := Receive(jar, Logout(), now);
    assert Falsy(TokenOf(SentCookies(after)));
  }

  /**
   * Outside development the session cookie is `httpOnly`, so the client's
   * logout only empties the page's view of the cookies: the browser still
   * sends the token, and the `auth` gate still lets requests through.
   */
  lemma ClientLogoutKeepsHttpOnlySession(st: Store, body: LoginBody, lib: Library, env: string,
                                         jar: Jar, now: int, s: Client.AuthState, form: Form)
    requires env != "development" && TokenSound(lib)
    requires Login(st, body, lib, env, None).status == 200
    ensures var after := Receive(jar, Login(st, body, lib, env, None), now);
            var out := ScriptRemove(after, "token");
            && ScriptCookies(out) == Client.Logout(s, ScriptCookies(after)).jar
            && AuthMiddleware.Auth(Request(SentCookies(out), form, None), lib).nextCalls == 1
  {
    var u := FindByEmail(st.users, body.email).value;
    var claims := Claims(u.id, Some(u.username));
    assert lib.sign(claims) != "" && lib.verify(lib.sign(claims)) == Some(claims);
  }

  /** In development the cookie is script-visible, so the client's logout does end the session. */
  lemma ClientLogoutInDevelopment(st: Store, body: LoginBody, lib: Library, jar: Jar, now: int,
                                  s: Client.AuthState, form: Form)
    requires Login(st, body, lib, "development", None).status == 200
    ensures var after := Receive(jar, Login(st, body, lib, "development", None), now);
            var out := ScriptRemove(after, "token");
            && ScriptCookies(out) == Client.Logout(s, ScriptCookies(after)).jar
            && AuthMiddleware.Auth(Request(SentCookies(out), form, None), lib).nextCalls == 0
  {
  }

  /** A successful server register signs the client in with the projection it returned. */
  lemma SignupAfterRegister(s: Client.AuthState, st: Store, body: RegisterBody, lib: Library,
                            env: string, salt: string)
    requires Register(st, body, lib, env, salt, None).response.status == 200
    ensures var r := Register(st, body, lib, env, salt, None);
            var c := Client.Signup(s, DeliverProfile(r.response));
            c.isAuthenticated && c.user == Some(r.response.body.user)
  {
  }

  /** A taken email reaches the register form as exactly one message, and the user stays out. */
  lemma SignupShowsEmailInUse(s: Client.AuthState, st: Store, body: RegisterBody, lib: Library,
                              env: string, salt: string)
    requires FindByEmail(st.users, body.email).Some?
    ensures var c := Client.Signup(s, DeliverProfile(Register(st, body, lib, env, salt, None).response));
            c.errors == [EmailInUse] && c.user == s.user && c.isAuthenticated == s.isAuthenticated
  {
  }

  /**
   * In development the session cookie is readable by scripts, so a reload
   * after registering verifies the token and restores the session.
   */
  lemma ReloadAfterRegisterInDevelopment(st: Store, body: RegisterBody, lib: Library, salt: string,
                                         jar: Jar, now: int)
    requires Valid(st) && TokenSound(lib)
    requires Register(st, body, lib, "development", salt, None).response.status == 200
    ensures var r := Register(st, body, lib, "development", salt, None);
            var after := Receive(jar, r.response, now);
            var started := Client.CheckLogin(Client.Initial, ScriptCookies(after));
            var s := Client.VerifyReplied(started.state, DeliverVerify(VerifyToken(r.store, SentCookies(after), lib)));
            && started.verifyWith.Some?
            && s.isAuthenticated && s.user == Some(r.response.body.user) && !s.loading
  {
    var r := Register(st, body, lib, "development", salt, None);
    var u := User(st.nextId, body.username, body.email, lib.hash(body.password, SaltRounds, salt));
    assert lib.sign(Claims(u.id, None)) != "";
    RegisterThenVerify(st, body, lib, "development", salt, jar, now);
  }

  /**
   * Outside development the session cookie is `httpOnly`, so the page
   * cannot see it: a reload settles unauthenticated without asking `/verify`.
   */
  lemma ReloadAfterRegisterElsewhere(st: Store, body: RegisterBody, lib: Library, env: string,
                                     salt: string, jar: Jar, now: int)
    requires env != "development"
    requires Register(st, body, lib, env, salt, None).response.status == 200
    ensures var r := Register(st, body, lib, env, salt, None);
            var started := Client.CheckLogin(Client.Initial, ScriptCookies(Receive(jar, r.response, now)));
            && started.verifyWith.None?
            && !started.state.isAuthenticated && !started.state.loading
  {
    var r := Register(st, body, lib, env, salt, None);
    assert "token" !in ScriptCookies(Receive(jar, r.response, now));
  }

  /** A body the task schema accepts passes the validation gate, and only such a body. */
  lemma TaskBodyGate(req: Request)
    ensures ValidatorMiddleware.ValidateSchema(TaskSchema.TaskSchema, req).nextCalls == 1 <==>
              "title" in req.body && "description" in req.body
  {
  }
}
