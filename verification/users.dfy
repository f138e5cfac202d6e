/**
 * The user collection the auth controller reads and writes. Mongo is
 * reduced to a sequence of documents plus the counter it draws fresh
 * identifiers from; each request is applied atomically.
 */
module Users {
  import opened Optional

  /** A user identifier (Mongo's `_id`), opaque to the rest of the model. */
  type Id = nat

  /** A stored user document; `password` holds the bcrypt hash. */
  datatype User = User(id: Id, username: string, email: string, password: string)

  /** The public projection `{id, username, email}` that responses carry. */
  datatype PublicUser = PublicUser(id: Id, username: string, email: string)

  datatype Store = Store(users: seq<User>, nextId: Id)

  /** Drops the password hash from a user document. */
  function Project(u: User): PublicUser {
    PublicUser(u.id, u.username, u.email)
  }

  /**
   * A well-formed store: every identifier was drawn from the counter,
   * identifiers are distinct, and no two users share an email.
   */
  ghost predicate Valid(st: Store) {
    && (forall i :: 0 <= i < |st.users| ==> st.users[i].id < st.nextId)
    && (forall i, j :: 0 <= i < j < |st.users| ==>
          st.users[i].id != st.users[j].id && st.users[i].email != st.users[j].email)
  }

  /** `User.findOne({ email })`: the first user with that email, if any. */
  function FindByEmail(users: seq<User>, email: string): (r: Option<User>)
    ensures r.Some? ==> r.value in users && r.value.email == email
    ensures r.None? <==> forall u :: u in users ==> u.email != email
  {
    if |users| == 0 then None
    else if users[0].email == email then Some(users[0])
    else FindByEmail(users[1..], email)
  }

  /** `User.findById(id)`: the user with that identifier, if any. */
  function FindById(users: seq<User>, id: Id): (r: Option<User>)
    ensures r.Some? ==> r.value in users && r.value.id == id
    ensures r.None? <==> forall u :: u in users ==> u.id != id
  {
    if |users| == 0 then None
    else if users[0].id == id then Some(users[0])
    else FindById(users[1..], id)
  }

  /** `new User({...}).save()`: stores a new document under a fresh identifier. */
  function Insert(st: Store, username: string, email: string, hash: string): (r: Store)
    ensures r.users == st.users + [User(st.nextId, username, email, hash)]
    ensures r.nextId == st.nextId + 1
    // The counter hands out an identifier no stored user has.
    ensures Valid(st) ==> forall u :: u in st.users ==> u.id != st.nextId
    // With a free email, the store stays well formed.
    ensures Valid(st) && FindByEmail(st.users, email).None? ==> Valid(r)
  {
    Store(st.users + [User(st.nextId, username, email, hash)], st.nextId + 1)
  }

  /** Looking an email up after appending finds the old match, or else the new user. */
  lemma {:induction false} FindByEmailAppend(users: seq<User>, u: User, email: string)
    ensures FindByEmail(users + [u], email) ==
              if FindByEmail(users, email).Some? then FindByEmail(users, email)
              else if u.email == email then Some(u) else None
  {
    if |users| == 0 {
      assert users + [u] == [u];
    } else {
      assert (users + [u])[1..] == users[1..] + [u];
      FindByEmailAppend(users[1..], u, email);
    }
  }

  /** Looking an identifier up after appending finds the old match, or else the new user. */
  lemma {:induction false} FindByIdAppend(users: seq<User>, u: User, id: Id)
    ensures FindById(users + [u], id) ==
              if FindById(users, id).Some? then FindById(users, id)
              else if u.id == id then Some(u) else None
  {
    if |users| == 0 {
      assert users + [u] == [u];
    } else {
      assert (users + [u])[1..] == users[1..] + [u];
      FindByIdAppend(users[1..], u, id);
    }
  }

  /** In a well-formed store, looking up a stored user's identifier finds that user. */
  lemma FindByIdStored(st: Store, u: User)
    requires Valid(st)
    requires u in st.users
    ensures FindById(st.users, u.id) == Some(u)
  {
    var v := FindById(st.users, u.id).value;
    var i :| 0 <= i < |st.users| && st.users[i] == u;
    var j :| 0 <= j < |st.users| && st.users[j] == v;
  }
}
