/** Registration (`POST /api/users`) and the user collection it writes. */
module Users {
  import opened Base
  import opened Http
  import opened JsArray
  import opened JsString
  import opened Validation
  import opened Foreign

  /** A stored user document; `password` holds the bcrypt hash. */
  datatype User = User(id: Id, firstName: string, lastName: string, email: string,
                       avatar: string, password: string)

  /** The user collection, in natural order: `findOne` returns the first match. */
  type UserStore = seq<User>

  /** `User.findOne({ email })`, as an index into the collection, or -1. */
  function IndexOfEmail(users: UserStore, email: string): (i: int)
    ensures -1 <= i < |users|
    ensures i == -1 <==> forall j :: 0 <= j < |users| ==> users[j].email != email
    ensures 0 <= i ==> users[i].email == email && forall j :: 0 <= j < i ==> users[j].email != email
  {
    var emails := Map(users, (u: User) => u.email);
    var i := IndexOf(emails, email);
    assert 0 <= i ==> forall j :: 0 <= j < i ==> emails[..i][j] == emails[j];
    i
  }

  /** `User.findById(id)`, as an index into the collection, or -1. */
  function IndexOfId(users: UserStore, id: Id): (i: int)
    ensures -1 <= i < |users|
    ensures i == -1 <==> forall j :: 0 <= j < |users| ==> users[j].id != id
    ensures 0 <= i ==> users[i].id == id && forall j :: 0 <= j < i ==> users[j].id != id
  {
    var ids := Map(users, (u: User) => u.id);
    var i := IndexOf(ids, id);
    assert 0 <= i ==> forall j :: 0 <= j < i ==> ids[..i][j] == ids[j];
    i
  }

  /** No two users share an e-mail address. */
  predicate EmailsUnique(users: UserStore) {
    forall i, j :: 0 <= i < |users| && 0 <= j < |users| && users[i].email == users[j].email ==> i == j
  }

  /** No two users share an id. */
  predicate IdsUnique(users: UserStore) {
    forall i, j :: 0 <= i < |users| && 0 <= j < |users| && users[i].id == users[j].id ==> i == j
  }

  const RegisterRules: seq<Rule> := [
    NotEmpty("first_name", "First name is required"),
    NotEmpty("last_name", "Last name is required"),
    IsEmail("email", "Please include a valid email"),
    MinLength("password", 8, "Please enter a password with 8 or more characters")
  ]

  const UserExists: Failure := SingleError("User already exists")

  /** A body that passes the registration rules carries every field they name;
      the names and the e-mail are non-empty and the e-mail passes the syntax check. */
  lemma ValidRegisterBodyHasFields(body: Body, isEmail: string -> bool)
    requires Violations(RegisterRules, body, isEmail) == []
    ensures "first_name" in body && "last_name" in body && "email" in body && "password" in body
    ensures body["first_name"] != "" && body["last_name"] != "" && body["email"] != "" && isEmail(body["email"])
    ensures |body["password"]| >= 8
  {
    assert Passes(RegisterRules[0], body, isEmail) && Passes(RegisterRules[1], body, isEmail);
    assert Passes(RegisterRules[2], body, isEmail) && Passes(RegisterRules[3], body, isEmail);
  }

  /** `POST /api/users`: validate, refuse a taken e-mail, then store a user with
      trimmed names, a hashed password and an e-mail-derived avatar, and sign a
      token for its id. `salt` is the output of `genSalt`, `newId` the id the
      store assigns. */
  function Register(users: UserStore, body: Body, env: Env, salt: string, newId: Id)
    : (r: Step<UserStore, TokenGrant>)
    ensures r.reply.Err? ==> r.store == users
    ensures Violations(RegisterRules, body, env.isEmail) != [] ==>
              r.reply == Err(Reject(Violations(RegisterRules, body, env.isEmail)))
    ensures Violations(RegisterRules, body, env.isEmail) == [] ==>
              && "first_name" in body && "last_name" in body && "email" in body && "password" in body
              && (IndexOfEmail(users, body["email"]) >= 0 ==> r.reply == Err(UserExists))
              && (IndexOfEmail(users, body["email"]) == -1 && IndexOfId(users, newId) >= 0 ==>
                    r.reply == Err(ServerError))
              && (r.reply.Ok? <==> IndexOfEmail(users, body["email"]) == -1 && IndexOfId(users, newId) == -1)
    ensures r.reply.Ok? ==>
              && "first_name" in body && "last_name" in body && "email" in body && "password" in body
              && IndexOfEmail(users, body["email"]) == -1 && IndexOfId(users, newId) == -1
              && |r.store| == |users| + 1 && r.store[..|users|] == users
              && r.store[|users|].id == newId
              && r.store[|users|].email == body["email"]
              && r.store[|users|].firstName == Trim(body["first_name"])
              && r.store[|users|].lastName == Trim(body["last_name"])
              && r.store[|users|].password == env.hash(body["password"], salt)
              && r.store[|users|].avatar == env.avatarUrl(body["email"], AvatarDefaults)
              && r.reply.value == IssueToken(newId)
  {
    var errors := Violations(RegisterRules, body, env.isEmail);
    if errors != [] then Step(users, Err(Reject(errors)))
    else
      ValidRegisterBodyHasFields(body, env.isEmail);
      var email := body["email"];
      if IndexOfEmail(users, email) >= 0 then Step(users, Err(UserExists))
      else if IndexOfId(users, newId) >= 0 then Step(users, Err(ServerError))
      else
        var user := User(newId, Trim(body["first_name"]), Trim(body["last_name"]), email,
                         env.avatarUrl(email, AvatarDefaults), env.hash(body["password"], salt));
        Step(users + [user], Ok(IssueToken(newId)))
  }

  lemma {:induction false} AppendKeepsUnique(users: UserStore, u: User)
    requires EmailsUnique(users) && IdsUnique(users)
    requires forall j :: 0 <= j < |users| ==> users[j].email != u.email && users[j].id != u.id
    ensures EmailsUnique(users + [u]) && IdsUnique(users + [u])
  {
    var s := users + [u];
    assert forall i :: 0 <= i < |users| ==> s[i] == users[i];
  }

  /** Registration keeps e-mails and ids unique. */
  lemma {:induction false} RegisterPreservesUniqueness(users: UserStore, body: Body, env: Env, salt: string, newId: Id)
    requires EmailsUnique(users) && IdsUnique(users)
    ensures EmailsUnique(Register(users, body, env, salt, newId).store)
    ensures IdsUnique(Register(users, body, env, salt, newId).store)
  {
    var r := Register(users, body, env, salt, newId);
    if r.reply.Ok? {
      var u := r.store[|users|];
      assert r.store == users + [u];
      AppendKeepsUnique(users, u);
    }
  }

  /** Once an e-mail is registered, every later registration with it fails
      with "User already exists" and stores nothing. */
  lemma RegisterSameEmailTwice(users: UserStore, first: Body, second: Body, env: Env,
                               salt1: string, salt2: string, id1: Id, id2: Id)
    requires Register(users, first, env, salt1, id1).reply.Ok?
    requires "email" in first && "email" in second && second["email"] == first["email"]
    requires Violations(RegisterRules, second, env.isEmail) == []
    ensures var after := Register(users, first, env, salt1, id1).store;
            Register(after, second, env, salt2, id2) == Step(after, Err(UserExists))
  {
    var after := Register(users, first, env, salt1, id1).store;
    assert after[|users|].email == second["email"];
  }
}
