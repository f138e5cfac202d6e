/**
 * The client's `loginSchema` and `registerSchema` (zod), as functions from
 * a form to the issues they report, in field declaration order. A missing
 * field is a type error that stops the object, so the `refine` step that
 * compares the passwords runs only when every field is a string. Email
 * syntax is the `isEmail` parameter.
 */
module AuthSchema {
  import opened Http

  const Required := "Required"   // zod's message for a missing field without `required_error`
  const InvalidEmail := "Please enter a valid email address"
  const PasswordTooShort := "Password must be at least 6 characters"
  const UsernameRequired := "Username is required"
  const UsernameTooShort := "Username must be at least 3 characters"
  const PasswordsDiffer := "Passwords do not match"

  const MinPassword: nat := 6
  const MinUsername: nat := 3

  /**
   * `z.string({ required_error: missing }).<check>({ message: invalid })`
   * applied to field `key`.
   */
  function StringField(f: Form, key: string, missing: string, check: string -> bool,
                       invalid: string): (r: seq<Issue>)
    ensures key !in f ==> r == [Issue(key, missing)]
    ensures key in f ==> (r == [] <==> check(f[key]))
    ensures key in f && !check(f[key]) ==> r == [Issue(key, invalid)]
    ensures |r| == (if key in f && check(f[key]) then 0 else 1)
    ensures forall i :: 0 <= i < |r| ==> r[i].path == key
  {
    if key !in f then [Issue(key, missing)]
    else if check(f[key]) then []
    else [Issue(key, invalid)]
  }

  function LoginSchema(isEmail: string -> bool, f: Form): (r: seq<Issue>)
    ensures r == [] <==>
              "email" in f && isEmail(f["email"]) && "password" in f && |f["password"]| >= MinPassword
    // Each message appears exactly in its own case, and a passing field reports nothing.
    ensures Issue("email", InvalidEmail) in r <==> "email" in f && !isEmail(f["email"])
    ensures Issue("password", PasswordTooShort) in r <==> "password" in f && |f["password"]| < MinPassword
    ensures Issue("email", Required) in r <==> "email" !in f
    ensures Issue("password", Required) in r <==> "password" !in f
    // One issue per failing field.
    ensures |r| == (if "email" in f && isEmail(f["email"]) then 0 else 1)
                 + (if "password" in f && |f["password"]| >= MinPassword then 0 else 1)
    ensures forall i :: 0 <= i < |r| ==> r[i].path in {"email", "password"}
  {
    StringField(f, "email", Required, isEmail, InvalidEmail)
    + StringField(f, "password", Required, s => |s| >= MinPassword, PasswordTooShort)
  }

  /** The four fields are all present strings, so zod goes on to the refinement. */
  predicate AllPresent(f: Form) {
    "username" in f && "email" in f && "password" in f && "confirmPassword" in f
  }

  /** The four field checks of `registerSchema`, before the refinement. */
  function RegisterFields(isEmail: string -> bool, f: Form): (r: seq<Issue>)
    ensures Issue("username", UsernameRequired) in r <==> "username" !in f
    ensures Issue("username", UsernameTooShort) in r <==> "username" in f && |f["username"]| < MinUsername
    ensures Issue("email", InvalidEmail) in r <==> "email" in f && !isEmail(f["email"])
    ensures Issue("email", Required) in r <==> "email" !in f
    ensures Issue("password", Required) in r <==> "password" !in f
    ensures Issue("confirmPassword", Required) in r <==> "confirmPassword" !in f
    ensures Issue("password", PasswordTooShort) in r <==> "password" in f && |f["password"]| < MinPassword
    ensures Issue("confirmPassword", PasswordTooShort) in r <==>
              "confirmPassword" in f && |f["confirmPassword"]| < MinPassword
    ensures Issue("confirmPassword", PasswordsDiffer) !in r
    ensures |r| == (if "username" in f && |f["username"]| >= MinUsername then 0 else 1)
                 + (if "email" in f && isEmail(f["email"]) then 0 else 1)
                 + (if "password" in f && |f["password"]| >= MinPassword then 0 else 1)
                 + (if "confirmPassword" in f && |f["confirmPassword"]| >= MinPassword then 0 else 1)
  {
    var user := StringField(f, "username", UsernameRequired, s => |s| >= MinUsername, UsernameTooShort);
    var email := StringField(f, "email", Required, isEmail, InvalidEmail);
    var password := StringField(f, "password", Required, s => |s| >= MinPassword, PasswordTooShort);
    var confirm := StringField(f, "confirmPassword", Required, s => |s| >= MinPassword, PasswordTooShort);
    user + email + password + confirm
  }

  function RegisterSchema(isEmail: string -> bool, f: Form): (r: seq<Issue>)
    ensures r == [] <==>
              && AllPresent(f)
              && |f["username"]| >= MinUsername
              && isEmail(f["email"])
              && |f["password"]| >= MinPassword
              && f["password"] == f["confirmPassword"]
    ensures Issue("username", UsernameRequired) in r <==> "username" !in f
    ensures Issue("username", UsernameTooShort) in r <==> "username" in f && |f["username"]| < MinUsername
    ensures Issue("email", InvalidEmail) in r <==> "email" in f && !isEmail(f["email"])
    ensures Issue("email", Required) in r <==> "email" !in f
    ensures Issue("password", Required) in r <==> "password" !in f
    ensures Issue("confirmPassword", Required) in r <==> "confirmPassword" !in f
    ensures Issue("password", PasswordTooShort) in r <==> "password" in f && |f["password"]| < MinPassword
    ensures Issue("confirmPassword", PasswordTooShort) in r <==>
              "confirmPassword" in f && |f["confirmPassword"]| < MinPassword
    ensures Issue("confirmPassword", PasswordsDiffer) in r <==>
              AllPresent(f) && f["password"] != f["confirmPassword"]
    // One issue per failing field, plus the refinement's when it applies.
    ensures |r| == (if "username" in f && |f["username"]| >= MinUsername then 0 else 1)
                 + (if "email" in f && isEmail(f["email"]) then 0 else 1)
                 + (if "password" in f && |f["password"]| >= MinPassword then 0 else 1)
                 + (if "confirmPassword" in f && |f["confirmPassword"]| >= MinPassword then 0 else 1)
                 + (if AllPresent(f) && f["password"] != f["confirmPassword"] then 1 else 0)
  {
    var fields := RegisterFields(isEmail, f);
    if AllPresent(f) && f["password"] != f["confirmPassword"] then
      fields + [Issue("confirmPassword", PasswordsDiffer)]
    else fields
  }
}
