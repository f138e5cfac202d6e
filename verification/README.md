# mern-crud-auth: the session lifecycle in Dafny

This project models the authentication core of a small task-manager web
application. It covers:

- the Express auth controller (`register`, `login`, `verifyToken`, `logout`);
- its two request gates (`auth`, `validateSchema`);
- the client's zod form schemas;
- the React providers that hold the browser-side session and the task list.

Every handler is a pure function. The user collection is an immutable
`Store`. The library calls (bcrypt `hash`/`compare`, jsonwebtoken
`sign`/`verify`) are function values in `Crypto.Library`. Email syntax is a
`string -> bool` parameter. No law about the libraries is assumed silently.
The bcrypt law (`HashSound`) and the JWT law (`TokenSound`) are named
predicates, and only the lemmas that need them take them as preconditions.

Files, one module each:

| file | module | models |
|---|---|---|
| optional.dfy | Optional | `null`/`undefined` |
| users.dfy | Users | user documents, `findOne`/`findById`/`save` |
| crypto.dfy | Crypto | bcrypt and JWT as abstract functions |
| http.dfy | Http | request, response, cookies, axios replies |
| auth_controller.dfy | AuthController | `src/controllers/auth.controller.js` |
| auth_middleware.dfy | AuthMiddleware | `src/middlewares/auth.middleware.js` |
| validator_middleware.dfy | ValidatorMiddleware | `src/middlewares/validator.middleware.js` |
| auth_schema.dfy | AuthSchema | `client/src/schemas/auth.js` |
| task_schema.dfy | TaskSchema | `client/src/schemas/task.js` |
| auth_context.dfy | AuthContext | `client/src/context/authContext.jsx` |
| tasks_context.dfy | TasksContext | `client/src/context/tasksContext.jsx` |
| session.dfy | Session | browser cookie jar, axios delivery, end-to-end round trips |

Modelling choices:

- **Faults.** A store or library failure inside a handler's `try` is an
  optional `Fault(step, message)` input. It names the awaited call that
  throws, and the handler answers 500 with that message. The step matters:
  when token signing fails after the user was saved, `register` answers 500
  but the new user stays in the store.
- **Falsy tokens.** JavaScript's `!token` holds for a missing cookie and for
  the empty string, and `Http.Falsy` captures both.
- **Refinement order.** In zod a missing field aborts the object, so the
  "Passwords do not match" refinement runs only when all four register
  fields are present strings.
- **No password in responses.** Response bodies carry `Users.PublicUser`,
  which has no password field. So by construction no response can contain
  the password or its hash.
- **Client events.** Each asynchronous client call is split in two: the
  moment it starts (`CheckLogin`) and the moment its reply arrives
  (`VerifyReplied`, `Signup`, `Signin`, ...). The five-second error timer is
  the discrete event `ErrorsExpired`.

Two behaviours of the code are modelled as written:

- `checkLogin`'s falsy-data branch (client/src/context/authContext.jsx:77)
  returns before `setLoading(false)`, unlike its `catch` branch; see
  Findings.
- `/verify` answers 401 for a token that does not verify
  (src/controllers/auth.controller.js:96), not `false`.

## Model

| member | source | states |
|---|---|---|
| Users.FindByEmail | src/controllers/auth.controller.js:11 | `findOne({email})` yields a stored user with that email, and yields nothing exactly when no user has it |
| Users.FindById | src/controllers/auth.controller.js:98 | `findById(id)` yields a stored user with that id, and nothing exactly when no user has it |
| Users.Insert | src/controllers/auth.controller.js:22-29 | saving appends exactly one document and advances the counter. In a well-formed store the new id is held by no stored user, and with a free email the store stays well formed |
| Users.FindByEmailAppend | src/controllers/auth.controller.js:11-29 | after a save, an email lookup finds the earlier match if there was one, else the new user |
| Users.FindByIdAppend | src/controllers/auth.controller.js:98 | after a save, an id lookup finds the earlier match if there was one, else the new user |
| Users.FindByIdStored | src/controllers/auth.controller.js:98-99 | in a well-formed store, looking up a stored user's id returns that same user |
| AuthController.ServerError | src/controllers/auth.controller.js:47-49 | a thrown error becomes status 500 with body `{message: error.message}` and no cookie |
| AuthController.SessionCookie | src/controllers/auth.controller.js:36-40 | the session cookie is named `token`, is `secure`, has sameSite `none` and no expiry, and is `httpOnly` exactly when NODE_ENV is not `development` |
| AuthController.Register | src/controllers/auth.controller.js:7-50 | taken email: 400 `["The email is already in use"]`, store unchanged, no cookie. 200 exactly when the email is free and nothing throws. On 200: one user is added holding `hash(password)`, the body is `{id, username, email}` of that user, and the cookie carries `sign({id})`. A cookie is set only on 200. A thrown error that is reached answers 500 with its message, never a 400. Only a signing failure after the save leaves a changed store |
| AuthController.Login | src/controllers/auth.controller.js:52-89 | unknown email: 400 `["The email does not exist"]`. Failed compare: 400 `["The password is incorrect"]`. 200 exactly when the user exists, the compare succeeds and nothing throws, and then the body is the stored user's projection and the cookie carries `sign({id, username})`. A cookie is set only on 200. A thrown error at a step login reaches answers 500 with its message |
| AuthController.VerifyToken | src/controllers/auth.controller.js:91-107 | missing or empty token: 200 `false`. A token that does not verify: 401. A verified token whose id names no stored user: 401. A profile is returned exactly when the token verifies and its id names a stored user, and it is that user's projection read from the store. No cookie is ever set |
| AuthController.Logout | src/controllers/auth.controller.js:109-117 | 200, with cookie `token` set to `""`, expiring at epoch 0, `httpOnly` and `secure` |
| AuthMiddleware.Auth | src/middlewares/auth.middleware.js:4-23 | a response is sent or `next` is called once, never both. No token: 401 "No token, authorization denied". A token that does not verify: 401 "Token is not valid". `next` runs exactly when a present token verifies, and `req.user` then holds its claims. Cookies and body are untouched |
| ValidatorMiddleware.MessagesOf | src/middlewares/validator.middleware.js:9 | the message list has one entry per issue, in the same order, each entry being that issue's message |
| ValidatorMiddleware.ValidateSchema | src/middlewares/validator.middleware.js:2-11 | `next` is called exactly when the schema reports no issue, and then no response is sent. Otherwise the status is 400 and the body lists the issues' messages in order. The request is never altered |
| AuthSchema.StringField | client/src/schemas/auth.js:6-11 | a missing field gives exactly its required message. A present field gives nothing when its check holds, and otherwise exactly the check's message. Every issue names that field |
| AuthSchema.LoginSchema | client/src/schemas/auth.js:5-12 | accepted exactly when the email passes the email predicate and the password has at least 6 characters. Each message appears exactly in its own case: "Please enter a valid email address" for a bad email, "Password must be at least 6 characters" for a short password, "Required" for a missing field. Exactly one issue per failing field, and issues concern only `email` and `password` |
| AuthSchema.RegisterFields | client/src/schemas/auth.js:16-33 | the four field checks of the register form: each message appears exactly in its own case, and there is one issue per failing field |
| AuthSchema.RegisterSchema | client/src/schemas/auth.js:15-37 | accepted exactly when all four fields are present, the username has at least 3 characters, the email is valid, and the passwords are equal with at least 6 characters. Each message appears exactly in its own case: the two username messages, the email message, "Required" for a missing email or password field, and the length message for a short password or confirmation. "Passwords do not match" on `confirmPassword` appears exactly when all fields are present and the passwords differ. There is one issue per failing field, plus the refinement's |
| TaskSchema.TaskSchema | client/src/schemas/task.js:4-11 | accepted exactly when `title` and `description` are present, with no length bound. Each "... is required" message appears exactly when its field is missing, and there is exactly one issue per missing field |
| TaskSchema.OnlyTitleAndDescriptionMatter | client/src/schemas/task.js:4-11 | two forms that agree on the presence of `title` and `description` get the same verdict, whatever other fields or values they hold |
| AuthContext.CheckLogin | client/src/context/authContext.jsx:65-72 | with no (or an empty) `token` cookie the check settles unauthenticated, stops loading and requests no verify. Otherwise it sends exactly the cookie's token and changes nothing yet |
| AuthContext.VerifyReplied | client/src/context/authContext.jsx:74-84 | a user reply authenticates, stores that user and stops loading. A failure unauthenticates and stops loading. A `false` reply unauthenticates but leaves `loading` as it was. Errors are untouched |
| AuthContext.VerifyRepliedIntended | client/src/context/authContext.jsx:74-84 | corrected transition: every reply ends loading. The user is authenticated exactly on a user reply, and then holds that user |
| AuthContext.Signup | client/src/context/authContext.jsx:34-46 | only a 200 reply sets the user and authenticates. An error response's message list becomes `errors`, and user and authentication stay as they were. A rejection without a message list changes nothing. `loading` is untouched |
| AuthContext.Signin | client/src/context/authContext.jsx:48-57 | any resolved reply sets the user and authenticates. A failure leaves user, authentication and errors unchanged |
| AuthContext.Logout | client/src/context/authContext.jsx:59-63 | always ends with no user and unauthenticated. It removes `token` from the script-visible cookies and keeps every other one |
| AuthContext.ErrorsExpired | client/src/context/authContext.jsx:25-32 | the timer empties `errors` and changes nothing else. With no errors it is a no-op |
| AuthContext.InitialIsConsistent | client/src/context/authContext.jsx:19-22 | the initial state has no user, is unauthenticated, has no errors, and is loading |
| AuthContext.StepKeepsConsistent | client/src/context/authContext.jsx:19-87 | every event keeps "authenticated implies a user is set", and none makes `loading` true again |
| AuthContext.RunKeepsConsistent | client/src/context/authContext.jsx:19-87 | over any sequence of events, "authenticated implies a user is set" holds throughout, and `loading` never returns once cleared |
| AuthContext.FalsyVerifyLeavesLoading | client/src/context/authContext.jsx:77 | with a token cookie, a `false` verify reply leaves the app unauthenticated and still loading |
| AuthContext.IntendedVerifyEndsLoading | client/src/context/authContext.jsx:74-84 | under the corrected transition the same run ends with loading cleared |
| AuthContext.SigninHidesErrors | client/src/context/authContext.jsx:41-56 | the same failure messages reach `errors` on signup and are dropped on signin |
| TasksContext.Without | client/src/context/tasksContext.jsx:34 | the filter keeps exactly the tasks whose id differs from the deleted id, and never grows the list |
| TasksContext.WithoutAppend | client/src/context/tasksContext.jsx:34 | filtering commutes with concatenation, so the kept tasks stay in their original order |
| TasksContext.WithoutAbsent | client/src/context/tasksContext.jsx:34 | deleting an id no task has leaves the list exactly as it was |
| TasksContext.WithoutIdempotent | client/src/context/tasksContext.jsx:34 | deleting the same id twice equals deleting it once |
| TasksContext.GetTasks | client/src/context/tasksContext.jsx:22-29 | a reply replaces the list with the server's data. A failure leaves it unchanged |
| TasksContext.DeleteTask | client/src/context/tasksContext.jsx:31-38 | a 204 reply leaves exactly the filtered list: every task with the id is removed, and the rest keep their order. Any other status or a failure leaves the list unchanged. The list never gains a task |
| TasksContext.CreateTask | client/src/context/tasksContext.jsx:40-47 | creating a task does not refresh the local list |
| TasksContext.GetTask | client/src/context/tasksContext.jsx:49-56 | the fetched task goes to the caller exactly on success, and the list is not changed |
| TasksContext.UpdateTask | client/src/context/tasksContext.jsx:58-64 | updating a task does not refresh the local list |
| TasksContext.RunWithoutReloadOnlyShrinks | client/src/context/tasksContext.jsx:20-64 | between successful reloads, every task in the list was already there: create and update never show locally |
| TasksContext.RunEndingInReload | client/src/context/tasksContext.jsx:22-29 | whatever events came before, a run that ends in a successful reload shows exactly the server's data |
| Session.RegisterPreservesValid | src/controllers/auth.controller.js:11-29 | on every path, including failures, register leaves the store with distinct ids and distinct emails |
| Session.RegisterTwiceRejected | src/controllers/auth.controller.js:11-16 | a second registration with the same email gets 400 `["The email is already in use"]` and stores nothing |
| Session.RegisterThenLogin | src/controllers/auth.controller.js:19-85 | under the bcrypt law, logging in with the just-registered email and password succeeds with the same projection |
| Session.RegisterThenVerify | src/controllers/auth.controller.js:32-105 | under the JWT law, the cookie register sets makes `/verify` return the new user's projection |
| Session.LoginThenVerify | src/controllers/auth.controller.js:70-105 | under the JWT law, the cookie login sets makes `/verify` return the same projection, read from the store |
| Session.LoginThenAuth | src/middlewares/auth.middleware.js:13-18 | under the JWT law, the login cookie passes the gate with `req.user = {id, username}` |
| Session.LogoutThenVerify | src/controllers/auth.controller.js:92-117 | after the logout cookie is applied, `/verify` answers `false` and the gate does not call `next` |
| Session.ScriptRemove | client/src/context/authContext.jsx:60 | `Cookies.remove` from a page script leaves an `httpOnly` cookie in place. Afterwards no script-visible cookie of that name remains, and every other cookie is untouched |
| Session.ClientLogoutKeepsHttpOnlySession | client/src/context/authContext.jsx:59-63 | outside development, after login and a client logout, the browser still sends the token, and under the JWT law the `auth` gate still calls `next` |
| Session.ClientLogoutInDevelopment | client/src/context/authContext.jsx:59-63 | in development the client logout removes the readable token, so the `auth` gate refuses the next request |
| Session.SignupAfterRegister | client/src/context/authContext.jsx:37-40 | a successful register authenticates the client with the projection the server returned |
| Session.SignupShowsEmailInUse | client/src/context/authContext.jsx:41-45 | a taken email reaches the client as errors `["The email is already in use"]`, with user and authentication unchanged |
| Session.ReloadAfterRegisterInDevelopment | client/src/context/authContext.jsx:65-84 | in development, reloading after register verifies the cookie and restores the session with loading cleared |
| Session.ReloadAfterRegisterElsewhere | src/controllers/auth.controller.js:36-37 | outside development the cookie is `httpOnly`, so the page cannot read it: a reload settles unauthenticated without asking `/verify` |
| Session.TaskBodyGate | src/middlewares/validator.middleware.js:2-11 | with the task schema, the validation gate calls `next` exactly when `title` and `description` are present |

## Findings

| source | as written | input that shows it | evidently intended | confidence | as-written member | corrected member |
|---|---|---|---|---|---|---|
| client/src/context/authContext.jsx:77 | a falsy `/verify` reply returns before `setLoading(false)`, so `loading` stays true | a `token` cookie `"abc"` is present, and the verify request reaches the server without it, which answers `false` | every verify outcome clears `loading`, as the failure branch already does | medium, not executed | AuthContext.FalsyVerifyLeavesLoading | AuthContext.VerifyRepliedIntended |

The event fold `AuthContext.Run` replays the transition as shipped, so its
invariants describe the deployed behaviour. Its two invariants hold under
the corrected transition as well: the corrected transition's contract
implies both.

## Left out

- Mongo I/O: the store is reduced to an in-memory sequence and an id counter. ObjectId generation is that counter.
- Concurrency: each request is applied atomically. So the race between the duplicate-email check and the insert is not modelled.
- bcrypt and JWT: no internals, secret or salt randomness. The salt is an explicit input of `Register`.
- Crypto.TokenSound: token expiry is not modelled. `verify` has no clock, so under this law a signed token verifies forever. The Session round trips therefore describe a token used before it expires.
- AuthController.Register: restricts faults to the calls register makes (`requires` on the fault step). A fault elsewhere cannot happen in the code.
- AuthController.Login: returns only the response. The store is passed read-only, which is how "login never modifies the store" is stated.
- AuthController.VerifyToken: a store failure inside the `jwt.verify` callback is an unhandled rejection with no response, and is not modelled.
- AuthMiddleware.Auth: `req.user` holds the decoded claims `{id, username?}`. The `iat` and `exp` fields jsonwebtoken adds are not modelled.
- AuthMiddleware.Auth: the `catch` branch (500) is not modelled. It is reachable only when no cookie parser is installed.
- AuthSchema.LoginSchema: zod's email regular expression is the `isEmail` parameter. Lengths count characters, not UTF-16 code units. Non-string field values ("Expected string") are not modelled.
- AuthContext.Signup: a 500 error carries a string `message`, which `setErrors` would store as a string. Such a rejection is modelled as one without a message list, which leaves the state unchanged.
- React rendering, hook scheduling, the stale `tasks` closure in `deleteTask`, the five-second delay, js-cookie, axios and console logging are out. Replies and the timer are discrete events.
- Session.ApplyCookie: browser cookies are reduced to "an expiry in the past deletes, anything else overwrites". Domain, path and SameSite enforcement are not modelled.
- The server's task routes, their schemas and ownership checks are not part of this model. `Session.TaskBodyGate` uses the client's task schema as the example.
- client/src/pages/RegisterPage.jsx, client/src/pages/HomePage.jsx and client/src/main.jsx hold UI markup, navigation and bootstrap only.
