/**
 Registration and login (src/routes/auth.js) over an in-memory user table.
 Password hashing and comparison are the parameters `Crypto.hash` and
 `Crypto.matches`; a signed token is modelled by the user id it carries, the
 only claim `generateToken` puts in it.
 */
module Auth {
  import opened Common
  import opened Validation
  import opened Responses

  datatype User = User(username: string, email: string, passwordHash: string)

  /** The `users` collection: accounts by id, and the next id the database hands out. */
  datatype UserTable = UserTable(users: map<UserId, User>, nextId: UserId)

  /** One-way password functions: what the user model stores for a password, and
      whether a candidate password matches a stored hash. */
  datatype Crypto = Crypto(hash: string -> string, matches: (string, string) -> bool)

  /** A signed token; its payload is `{ id }`. Signing key and expiry are not modelled. */
  datatype Token = Token(userId: UserId)

  /** The public user record a client receives: id, username and e-mail, nothing else. */
  datatype UserSummary = UserSummary(id: UserId, username: string, email: string)

  datatype Session = Session(token: Token, user: UserSummary)

  const DuplicateMessage: string := "Email or username already exists"
  const MissingCredentialsMessage: string := "Please provide email and password"
  const InvalidCredentialsMessage: string := "Invalid credentials"

  predicate TableValid(t: UserTable) {
    forall id :: id in t.users ==> id < t.nextId
  }

  /** No two accounts share an e-mail address or a username. */
  predicate Unique(t: UserTable) {
    forall a, b :: a in t.users && b in t.users && a != b ==>
      t.users[a].email != t.users[b].email && t.users[a].username != t.users[b].username
  }

  /** Some account already has this e-mail address or this username. */
  predicate Taken(t: UserTable, username: string, email: string) {
    exists id :: id in t.users && (t.users[id].email == email || t.users[id].username == username)
  }

  function Summary(id: UserId, u: User): UserSummary {
    UserSummary(id, u.username, u.email)
  }

  datatype RegisterReply = RegisterReply(table: UserTable, result: Result<Session, ApiError>)

  /** POST /api/auth/register: validate, refuse a taken e-mail or username, then
      create the account and answer with a token for it. */
  function Register(t: UserTable, body: Body, isEmail: string -> bool, crypto: Crypto): (r: RegisterReply)
    ensures r.result.Err? ==> r.table == t
    ensures r.result.Ok? <==>
      ValidateRegister(body, isEmail).Valid? &&
      !Taken(t, ValidateRegister(body, isEmail).value.username, ValidateRegister(body, isEmail).value.email)
    ensures r.result.Ok? ==>
      var input := ValidateRegister(body, isEmail).value;
      var id := t.nextId;
      && r.table == UserTable(t.users[id := User(input.username, input.email, crypto.hash(input.password))], id + 1)
      && r.result.value == Session(Token(id), UserSummary(id, input.username, input.email))
  {
    match ValidateRegister(body, isEmail)
    case Invalid(errors) => RegisterReply(t, Err(ValidationFailed(errors)))
    case Valid(input) =>
      if Taken(t, input.username, input.email) then RegisterReply(t, Err(BadRequest(DuplicateMessage)))
      else
        var id := t.nextId;
        var user := User(input.username, input.email, crypto.hash(input.password));
        RegisterReply(UserTable(t.users[id := user], id + 1), Ok(Session(Token(id), Summary(id, user))))
  }

  /** A duplicate e-mail or username is refused with status 400 and the table is left as it was. */
  lemma RegisterRefusesDuplicate(t: UserTable, body: Body, isEmail: string -> bool, crypto: Crypto)
    requires ValidateRegister(body, isEmail).Valid?
    requires Taken(t, ValidateRegister(body, isEmail).value.username, ValidateRegister(body, isEmail).value.email)
    ensures Register(t, body, isEmail, crypto) == RegisterReply(t, Err(BadRequest(DuplicateMessage)))
    ensures Register(t, body, isEmail, crypto).result.error.Status() == 400
  {
  }

  /** Registration keeps e-mail addresses and usernames unique, adds exactly one
      account under a fresh id, and binds the token to that id. */
  lemma RegisterKeepsUnique(t: UserTable, body: Body, isEmail: string -> bool, crypto: Crypto)
    requires TableValid(t) && Unique(t)
    ensures var r := Register(t, body, isEmail, crypto);
      && TableValid(r.table) && Unique(r.table)
      && (r.result.Ok? ==>
            && t.nextId !in t.users
            && r.table.users.Keys == t.users.Keys + {t.nextId}
            && |r.table.users| == |t.users| + 1
            && r.result.value.token.userId == r.result.value.user.id == t.nextId
            && r.table.users[t.nextId].email == r.result.value.user.email
            && r.table.users[t.nextId].username == r.result.value.user.username)
  {
    var r := Register(t, body, isEmail, crypto);
    if r.result.Ok? {
      var input := ValidateRegister(body, isEmail).value;
      AddKeepsUnique(t, User(input.username, input.email, crypto.hash(input.password)));
    }
  }

  /** Adding an account whose e-mail and username are both free keeps them unique. */
  lemma AddKeepsUnique(t: UserTable, u: User)
    requires TableValid(t) && Unique(t) && !Taken(t, u.username, u.email)
    ensures var t' := UserTable(t.users[t.nextId := u], t.nextId + 1);
      && TableValid(t') && Unique(t')
      && t.nextId !in t.users
      && t'.users.Keys == t.users.Keys + {t.nextId}
      && |t'.users| == |t.users| + 1
  {
    var id := t.nextId;
    var t' := UserTable(t.users[id := u], id + 1);
    forall a, b | a in t'.users && b in t'.users && a != b
      ensures t'.users[a].email != t'.users[b].email
      ensures t'.users[a].username != t'.users[b].username
    {
      if a == id {
        assert b in t.users;
      } else if b == id {
        assert a in t.users;
      }
    }
    assert t'.users.Keys == t.users.Keys + {id};
  }

  /** The first account (in id order) from `from` on whose e-mail is `email`: `User.findOne({ email })`. */
  function FindByEmail(t: UserTable, email: string, from: nat): (r: Option<UserId>)
    ensures r.Some? ==> from <= r.value && r.value in t.users && t.users[r.value].email == email
    ensures r.Some? ==> forall id :: from <= id < r.value && id in t.users ==> t.users[id].email != email
    ensures r.None? ==> forall id :: from <= id < t.nextId && id in t.users ==> t.users[id].email != email
    decreases t.nextId - from
  {
    if from >= t.nextId then None
    else if from in t.users && t.users[from].email == email then Some(from)
    else FindByEmail(t, email, from + 1)
  }

  /** POST /api/auth/login. An unknown e-mail and a wrong password get the same answer. */
  function Login(t: UserTable, body: Body, isEmail: string -> bool, crypto: Crypto): (r: Result<Session, ApiError>)
    ensures r.Ok? ==> ValidateLogin(body, isEmail).Valid?
    ensures r.Ok? ==>
      var input := ValidateLogin(body, isEmail).value;
      var id := r.value.token.userId;
      && id in t.users
      && t.users[id].email == input.email
      && crypto.matches(input.password, t.users[id].passwordHash)
      && r.value.user == Summary(id, t.users[id])
    ensures r.Err? && r.error.Unauthorized? ==> r.error.message == InvalidCredentialsMessage
  {
    match ValidateLogin(body, isEmail)
    case Invalid(errors) => Err(ValidationFailed(errors))
    case Valid(input) =>
      if input.email == "" || input.password == "" then Err(BadRequest(MissingCredentialsMessage))
      else
        match FindByEmail(t, input.email, 0)
        case None => Err(Unauthorized(InvalidCredentialsMessage))
        case Some(id) =>
          if !crypto.matches(input.password, t.users[id].passwordHash)
          then Err(Unauthorized(InvalidCredentialsMessage))
          else Ok(Session(Token(id), Summary(id, t.users[id])))
  }

  /** Both login failures, no account for the e-mail and a wrong password, give the
      identical 401 answer, so a client cannot tell which one happened. */
  lemma LoginFailuresIdentical(t: UserTable, body: Body, isEmail: string -> bool, crypto: Crypto)
    requires TableValid(t) && Unique(t)
    requires ValidateLogin(body, isEmail).Valid?
    requires var input := ValidateLogin(body, isEmail).value; input.email != "" && input.password != ""
    requires var input := ValidateLogin(body, isEmail).value;
      forall id :: id in t.users && t.users[id].email == input.email ==>
        !crypto.matches(input.password, t.users[id].passwordHash)
    ensures Login(t, body, isEmail, crypto) == Err(Unauthorized(InvalidCredentialsMessage))
    ensures Login(t, body, isEmail, crypto).error.Status() == 401
  {
  }

  /** Login succeeds exactly when some account has the e-mail and the password matches
      its hash; the token is then bound to that account. */
  lemma LoginSucceedsIff(t: UserTable, body: Body, isEmail: string -> bool, crypto: Crypto)
    requires TableValid(t) && Unique(t)
    requires ValidateLogin(body, isEmail).Valid?
    requires var input := ValidateLogin(body, isEmail).value; input.email != "" && input.password != ""
    ensures var input := ValidateLogin(body, isEmail).value;
      Login(t, body, isEmail, crypto).Ok? <==>
        exists id :: id in t.users && t.users[id].email == input.email
                     && crypto.matches(input.password, t.users[id].passwordHash)
    ensures var input := ValidateLogin(body, isEmail).value;
      forall id :: id in t.users && t.users[id].email == input.email
                   && crypto.matches(input.password, t.users[id].passwordHash) ==>
        Login(t, body, isEmail, crypto) == Ok(Session(Token(id), Summary(id, t.users[id])))
  {
    var input := ValidateLogin(body, isEmail).value;
    var found := FindByEmail(t, input.email, 0);
    forall id | id in t.users && t.users[id].email == input.email
      ensures found == Some(id)
    {
      assert found.Some?;
      assert t.users[found.value].email == t.users[id].email;
    }
  }

  /** A freshly registered account can log in with the e-mail and password it
      registered with, and the login token names the same id as the registration. */
  lemma RegisterThenLogin(t: UserTable, body: Body, isEmail: string -> bool, crypto: Crypto)
    requires TableValid(t) && Unique(t)
    requires forall p :: crypto.matches(p, crypto.hash(p))
    requires Register(t, body, isEmail, crypto).result.Ok?
    requires StringAt(body, "email") != ""
    ensures var r := Register(t, body, isEmail, crypto);
      var login := [Member("email", JString(StringAt(body, "email"))),
                    Member("password", JString(StringAt(body, "password")))];
      Login(r.table, login, isEmail, crypto) == Ok(r.result.value)
  {
    var r := Register(t, body, isEmail, crypto);
    var email := StringAt(body, "email");
    var password := StringAt(body, "password");
    RegisteredAccount(t, body, isEmail, crypto);
    LoginBody(email, password, isEmail);
    var login := [Member("email", JString(email)), Member("password", JString(password))];
    RegisterKeepsUnique(t, body, isEmail, crypto);
    var u := r.table.users[t.nextId];
    assert u.email == email && crypto.matches(password, u.passwordHash);
    LoginAs(r.table, login, isEmail, crypto, t.nextId);
    assert r.result.value == Session(Token(t.nextId), Summary(t.nextId, u));
  }

  /** Login with the e-mail and password of account `id` answers with that account. */
  lemma LoginAs(t: UserTable, body: Body, isEmail: string -> bool, crypto: Crypto, id: UserId)
    requires TableValid(t) && Unique(t)
    requires ValidateLogin(body, isEmail).Valid?
    requires var input := ValidateLogin(body, isEmail).value;
      && input.email != "" && input.password != ""
      && id in t.users && t.users[id].email == input.email
      && crypto.matches(input.password, t.users[id].passwordHash)
    ensures Login(t, body, isEmail, crypto) == Ok(Session(Token(id), Summary(id, t.users[id])))
  {
    LoginSucceedsIff(t, body, isEmail, crypto);
  }

  /** A successful registration stores the body's username, e-mail and hashed
      password under the table's next id, and answers with that account. */
  lemma RegisteredAccount(t: UserTable, body: Body, isEmail: string -> bool, crypto: Crypto)
    requires Register(t, body, isEmail, crypto).result.Ok?
    ensures isEmail(StringAt(body, "email"))
    ensures StringAt(body, "password") != ""
    ensures var r := Register(t, body, isEmail, crypto);
      var u := User(StringAt(body, "username"), StringAt(body, "email"), crypto.hash(StringAt(body, "password")));
      && r.table.users == t.users[t.nextId := u]
      && r.result.value == Session(Token(t.nextId), Summary(t.nextId, u))
  {
    RegisterRules(body, isEmail);
  }

  /** A login body with just an e-mail address and a password is accepted as it is. */
  lemma LoginBody(email: string, password: string, isEmail: string -> bool)
    requires isEmail(email)
    ensures ValidateLogin([Member("email", JString(email)), Member("password", JString(password))], isEmail)
            == Valid(LoginInput(email, password))
  {
    var login := [Member("email", JString(email)), Member("password", JString(password))];
    LoginRules(login, isEmail);
    assert Lookup(login, "email") == Some(JString(email));
    assert Lookup(login, "password") == Some(JString(password));
    assert OnlyKeys(login, ["email", "password"]);
  }
}
