/** Login (`POST /api/auth`) and the current-user lookup (`GET /api/auth`). */
module Auth {
  import opened Base
  import opened Http
  import opened Validation
  import opened Foreign
  import opened Users

  /** A user document as sent back to the client: every field but `password`. */
  datatype PublicUser = PublicUser(id: Id, firstName: string, lastName: string, email: string, avatar: string)

  /** `.select('-password')`: every stored field but the hash. */
  function WithoutPassword(u: User): (p: PublicUser)
    ensures p.id == u.id && p.firstName == u.firstName && p.lastName == u.lastName
    ensures p.email == u.email && p.avatar == u.avatar
  {
    PublicUser(u.id, u.firstName, u.lastName, u.email, u.avatar)
  }

  /** `GET /api/auth` for the caller the auth guard resolved: the caller's user
      document without the password. A caller with no document gets `null`
      with status 200, because `res.json(null)` is what the handler sends. */
  function CurrentUser(users: UserStore, caller: Id): (r: Option<PublicUser>)
    ensures r.None? <==> forall j :: 0 <= j < |users| ==> users[j].id != caller
    ensures r.Some? ==> exists j :: 0 <= j < |users| && users[j].id == caller
                          && r.value.id == caller
                          && r.value.firstName == users[j].firstName
                          && r.value.lastName == users[j].lastName
                          && r.value.email == users[j].email
                          && r.value.avatar == users[j].avatar
  {
    var i := IndexOfId(users, caller);
    if i < 0 then None else Some(WithoutPassword(users[i]))
  }

  /** The reply never depends on stored password hashes: two stores that
      differ only in passwords give the same current-user reply. */
  lemma CurrentUserIgnoresPasswords(a: UserStore, b: UserStore, caller: Id)
    requires |a| == |b|
    requires forall j :: 0 <= j < |a| ==> a[j].(password := "") == b[j].(password := "")
    ensures CurrentUser(a, caller) == CurrentUser(b, caller)
  {
    var i := IndexOfId(a, caller);
    assert forall j :: 0 <= j < |a| ==> a[j].id == b[j].id;
    assert IndexOfId(b, caller) == i;
    if i >= 0 {
      assert a[i].(password := "") == b[i].(password := "");
    }
  }

  const LoginRules: seq<Rule> := [
    IsEmail("email", "Please include a valid email"),
    Exists("password", "Password is required")
  ]

  /** The one reply for both an unknown e-mail and a wrong password. */
  const InvalidCredentials: Failure := SingleError("Invalid credentials")

  /** `POST /api/auth`: validate, find the first user with the e-mail, compare
      the password with its hash, and sign a token for that user's id. The
      user collection is only read. */
  function Login(users: UserStore, body: Body, env: Env): (r: Result<TokenGrant>)
    ensures Violations(LoginRules, body, env.isEmail) != [] ==>
              r == Err(Reject(Violations(LoginRules, body, env.isEmail)))
    ensures Violations(LoginRules, body, env.isEmail) == [] ==>
              && "email" in body && "password" in body
              && var i := IndexOfEmail(users, body["email"]);
                 && (i == -1 ==> r == Err(InvalidCredentials))
                 && (0 <= i && !env.compare(body["password"], users[i].password) ==> r == Err(InvalidCredentials))
                 && (0 <= i && env.compare(body["password"], users[i].password) ==> r == Ok(IssueToken(users[i].id)))
  {
    var errors := Violations(LoginRules, body, env.isEmail);
    if errors != [] then Err(Reject(errors))
    else
      assert Passes(LoginRules[0], body, env.isEmail) && Passes(LoginRules[1], body, env.isEmail);
      var i := IndexOfEmail(users, body["email"]);
      if i < 0 then Err(InvalidCredentials)
      else if !env.compare(body["password"], users[i].password) then Err(InvalidCredentials)
      else Ok(IssueToken(users[i].id))
  }

  /** No account enumeration: a login against a store that does not know the
      e-mail and one against a store where the password is wrong get the very
      same reply. */
  lemma LoginFailuresIndistinguishable(unknown: UserStore, known: UserStore, body: Body, env: Env)
    requires Violations(LoginRules, body, env.isEmail) == []
    requires "email" in body && "password" in body
    requires forall j :: 0 <= j < |unknown| ==> unknown[j].email != body["email"]
    requires exists j :: 0 <= j < |known| && known[j].email == body["email"]
    requires forall j :: 0 <= j < |known| && known[j].email == body["email"] ==>
               !env.compare(body["password"], known[j].password)
    ensures Login(unknown, body, env) == Login(known, body, env) == Err(InvalidCredentials)
  {
    var i := IndexOfEmail(known, body["email"]);
    assert i >= 0;
  }

  lemma {:induction false} LoginFindsAppendedUser(users: UserStore, u: User, login: Body, env: Env)
    requires forall j :: 0 <= j < |users| ==> users[j].email != u.email && users[j].id != u.id
    requires Violations(LoginRules, login, env.isEmail) == []
    requires "email" in login && "password" in login && login["email"] == u.email
    requires env.compare(login["password"], u.password)
    ensures Login(users + [u], login, env) == Ok(IssueToken(u.id))
    ensures CurrentUser(users + [u], u.id).Some?
  {
    var after := users + [u];
    assert forall j :: 0 <= j < |users| ==> after[j] == users[j];
    assert after[|users|] == u;
    assert IndexOfEmail(after, u.email) == |users|;
    assert IndexOfId(after, u.id) == |users|;
  }

  lemma LoginBodyValid(body: Body, login: Body, env: Env)
    requires Violations(RegisterRules, body, env.isEmail) == []
    requires "email" in body && "password" in body
    requires login == map["email" := body["email"], "password" := body["password"]]
    ensures Violations(LoginRules, login, env.isEmail) == []
  {
    assert Passes(RegisterRules[2], body, env.isEmail);
    assert Passes(LoginRules[0], login, env.isEmail) && Passes(LoginRules[1], login, env.isEmail);
  }

  /** A registration followed by a login with the same e-mail and password
      signs a token for the new user, and the current-user lookup finds that
      user, provided bcrypt's compare accepts a password against its own hash. */
  lemma {:induction false} RegisterThenLogin(users: UserStore, body: Body, login: Body, env: Env, salt: string, newId: Id)
    requires Register(users, body, env, salt, newId).reply.Ok?
    requires "email" in body && "password" in body
    requires login == map["email" := body["email"], "password" := body["password"]]
    requires env.compare(body["password"], env.hash(body["password"], salt))
    ensures Login(Register(users, body, env, salt, newId).store, login, env) == Ok(IssueToken(newId))
    ensures CurrentUser(Register(users, body, env, salt, newId).store, newId).Some?
  {
    var r := Register(users, body, env, salt, newId);
    assert Violations(RegisterRules, body, env.isEmail) == [];
    assert IndexOfEmail(users, body["email"]) == -1 && IndexOfId(users, newId) == -1;
    var u := r.store[|users|];
    assert u.email == body["email"] && u.id == newId && u.password == env.hash(body["password"], salt);
    assert r.store == users + [u];
    LoginBodyValid(body, login, env);
    LoginFindsAppendedUser(users, u, login, env);
  }
}
