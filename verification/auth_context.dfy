/**
 * The client's `AuthProvider`: the session record the UI reads and the
 * transitions its handlers and effects perform. Each asynchronous call is
 * split into the moment it starts and the moment its reply arrives; the
 * five-second error timer is the event `ErrorsExpired`.
 */
module AuthContext {
  import opened Optional
  import opened Users
  import opened Http

  datatype AuthState = AuthState(
    user: Option<PublicUser>,
    isAuthenticated: bool,
    errors: seq<string>,
    loading: bool)

  /** The data of a `/verify` reply: `false`, or a user projection. */
  datatype VerifyData = NoUser | UserData(user: PublicUser)

  const Initial: AuthState := AuthState(None, false, [], true)

  /** The start of `checkLogin`: the new state, and the token sent to `/verify`, if any. */
  datatype CheckStart = CheckStart(state: AuthState, verifyWith: Option<string>)

  /** `checkLogin` up to its `await`: with no token it settles at once. */
  function CheckLogin(s: AuthState, jar: map<string, string>): (r: CheckStart)
    ensures Falsy(TokenOf(jar)) ==>
              && r.verifyWith.None?
              && !r.state.isAuthenticated && !r.state.loading
              && r.state.user == s.user && r.state.errors == s.errors
    ensures !Falsy(TokenOf(jar)) ==> r == CheckStart(s, TokenOf(jar))
  {
    var token := TokenOf(jar);
    if Falsy(token) then CheckStart(s.(isAuthenticated := false, loading := false), None)
    else CheckStart(s, token)
  }

  /** `checkLogin` after its `await`, as the code has it. */
  function VerifyReplied(s: AuthState, reply: Reply<VerifyData>): (r: AuthState)
    ensures reply.Resolved? && reply.data.UserData? ==>
              r == s.(user := Some(reply.data.user), isAuthenticated := true, loading := false)
    ensures reply.Rejected? ==> r == s.(isAuthenticated := false, loading := false)
    // A `false` reply unauthenticates but does not touch `loading`.
    ensures reply.Resolved? && reply.data.NoUser? ==>
              r == s.(isAuthenticated := false)
    ensures r.user == s.user || r.isAuthenticated
    ensures r.errors == s.errors
  {
    match reply
    case Rejected(_) => s.(isAuthenticated := false, loading := false)
    case Resolved(_, NoUser) => s.(isAuthenticated := false)
    case Resolved(_, UserData(u)) => s.(user := Some(u), isAuthenticated := true, loading := false)
  }

  /** `checkLogin` after its `await` as the session lifecycle intends it: every outcome ends loading. */
  function VerifyRepliedIntended(s: AuthState, reply: Reply<VerifyData>): (r: AuthState)
    ensures !r.loading
    ensures r.isAuthenticated <==> reply.Resolved? && reply.data.UserData?
    ensures r.isAuthenticated ==> r.user == Some(reply.data.user)
    ensures !r.isAuthenticated ==> r.user == s.user
    ensures r.errors == s.errors
  {
    match reply
    case Rejected(_) => s.(isAuthenticated := false, loading := false)
    case Resolved(_, NoUser) => s.(isAuthenticated := false, loading := false)
    case Resolved(_, UserData(u)) => s.(user := Some(u), isAuthenticated := true, loading := false)
  }

  /** `signup` after its `await`: only a 200 signs in; an error response's messages are shown. */
  function Signup(s: AuthState, reply: Reply<PublicUser>): (r: AuthState)
    ensures reply.Resolved? && reply.status == 200 ==>
              r == s.(user := Some(reply.data), isAuthenticated := true)
    ensures reply.Resolved? && reply.status != 200 ==> r == s
    ensures reply.Rejected? && reply.messages.Some? ==> r == s.(errors := reply.messages.value)
    ensures reply.Rejected? ==> r.user == s.user && r.isAuthenticated == s.isAuthenticated
    // A rejection without a message list changes nothing.
    ensures reply.Rejected? && reply.messages.None? ==> r == s
    ensures r.loading == s.loading
  {
    match reply
    case Resolved(status, data) =>
      if status == 200 then s.(user := Some(data), isAuthenticated := true) else s
    case Rejected(messages) =>
      // with no response, reading `error.response.data` throws before `setErrors`
      if messages.Some? then s.(errors := messages.value) else s
  }

  /** `signin` after its `await`: any resolved reply signs in; a failure is only logged. */
  function Signin(s: AuthState, reply: Reply<PublicUser>): (r: AuthState)
    ensures reply.Resolved? ==> r == s.(user := Some(reply.data), isAuthenticated := true)
    ensures reply.Rejected? ==> r == s
  {
    match reply
    case Resolved(_, data) => s.(user := Some(data), isAuthenticated := true)
    case Rejected(_) => s
  }

  datatype LoggedOut = LoggedOut(state: AuthState, jar: map<string, string>)

  /**
   * `logout`: forget the user and drop `token` from the cookies scripts can
   * see (`jar` is that view; an `httpOnly` cookie is not in it and stays).
   */
  function Logout(s: AuthState, jar: map<string, string>): (r: LoggedOut)
    ensures r.state.user.None? && !r.state.isAuthenticated
    ensures r.state.errors == s.errors && r.state.loading == s.loading
    ensures "token" !in r.jar && TokenOf(r.jar).None?
    ensures forall k :: k in jar && k != "token" ==> k in r.jar && r.jar[k] == jar[k]
    ensures forall k :: k in r.jar ==> k in jar
  {
    LoggedOut(s.(user := None, isAuthenticated := false), jar - {"token"})
  }

  /** The error timer firing: it exists only while there are errors, and empties them. */
  function ErrorsExpired(s: AuthState): (r: AuthState)
    ensures r.errors == []
    ensures r.user == s.user && r.isAuthenticated == s.isAuthenticated && r.loading == s.loading
    ensures |s.errors| == 0 ==> r == s
  {
    if |s.errors| > 0 then s.(errors := []) else s
  }

  /** The events the provider reacts to, in the order they happen. */
  datatype Event =
    | Mounted(jar: map<string, string>)
    | VerifyArrived(verify: Reply<VerifyData>)
    | SignupArrived(signup: Reply<PublicUser>)
    | SigninArrived(signin: Reply<PublicUser>)
    | LogoutClicked(cookies: map<string, string>)
    | TimerFired

  function Step(s: AuthState, e: Event): AuthState {
    match e
    case Mounted(jar) => CheckLogin(s, jar).state
    case VerifyArrived(reply) => VerifyReplied(s, reply)
    case SignupArrived(reply) => Signup(s, reply)
    case SigninArrived(reply) => Signin(s, reply)
    case LogoutClicked(jar) => Logout(s, jar).state
    case TimerFired => ErrorsExpired(s)
  }

  function Run(s: AuthState, events: seq<Event>): AuthState
    decreases |events|
  {
    if |events| == 0 then s else Run(Step(s, events[0]), events[1..])
  }

  /** The UI may trust `user` whenever `isAuthenticated` holds. */
  predicate Consistent(s: AuthState) {
    s.isAuthenticated ==> s.user.Some?
  }

  lemma StepKeepsConsistent(s: AuthState, e: Event)
    requires Consistent(s)
    ensures Consistent(Step(s, e))
    ensures !s.loading ==> !Step(s, e).loading
  {
  }

  /** From the initial state, every sequence of events keeps `user` set while authenticated. */
  lemma {:induction false} RunKeepsConsistent(s: AuthState, events: seq<Event>)
    requires Consistent(s)
    ensures Consistent(Run(s, events))
    ensures !s.loading ==> !Run(s, events).loading
    decreases |events|
  {
    if |events| > 0 {
      StepKeepsConsistent(s, events[0]);
      RunKeepsConsistent(Step(s, events[0]), events[1..]);
    }
  }

  lemma InitialIsConsistent()
    ensures Consistent(Initial)
    ensures Initial.user.None? && !Initial.isAuthenticated && Initial.errors == [] && Initial.loading
  {
  }

  /** With a token cookie, a `false` reply from `/verify` leaves the app loading for good. */
  lemma FalsyVerifyLeavesLoading(token: string)
    requires token != ""
    ensures var started := CheckLogin(Initial, map["token" := token]);
            && started.verifyWith == Some(token)
            && var r := VerifyReplied(started.state, Resolved(200, NoUser));
               !r.isAuthenticated && r.loading
  {
  }

  /** The same start under the intended lifecycle finishes loading. */
  lemma IntendedVerifyEndsLoading(token: string)
    requires token != ""
    ensures var started := CheckLogin(Initial, map["token" := token]);
            var r := VerifyRepliedIntended(started.state, Resolved(200, NoUser));
            !r.isAuthenticated && !r.loading
  {
  }

  /** Signin and signup differ on failure: only signup shows the server's messages. */
  lemma SigninHidesErrors(s: AuthState, messages: seq<string>)
    requires messages != [] && s.errors == []
    ensures Signin(s, Rejected(Some(messages))).errors == []
    ensures Signup(s, Rejected(Some(messages))).errors == messages
  {
  }
}
