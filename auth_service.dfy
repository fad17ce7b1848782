/**
 * The authentication service: registration (uniqueness checks in a fixed
 * order, user creation with the password hook, automatic portfolio) and login
 * (one message for an unknown email and a wrong password).
 */
module AuthService {
  import opened Wrappers
  import opened Records
  import opened Database

  datatype AuthError =
    | UsernameTaken     // "用户名已被使用"
    | EmailTaken        // "邮箱已被注册"
    | InvalidUser       // a validation of the users table failed
    | BadCredentials    // "邮箱或密码错误", for both login failures

  /** What `register` and `login` return: the safe user and a signed token. */
  datatype Session = Session(user: SafeUser, token: string)

  /** `generateToken`: `jwt.sign({ userId }, secret, { expiresIn })`, not modelled inside. */
  type Signer = Id -> string

  const PortfolioTitleSuffix: string := "的作品集"

  /** The row `User.create` inserts once the validations pass and `beforeCreate` ran. */
  function NewUserRow(id: Id, username: string, email: string, password: string, now: int,
                      hash: Hasher): (u: User)
    ensures u.id == id && u.username == username && u.email == email && u.avatar == None
    ensures password != "" ==> u.passwordHash == hash(password)
  {
    BeforeCreate(User(id, username, email, password, None, now), hash)
  }

  /** The portfolio created for a new user, titled after the username. */
  function DefaultPortfolio(id: Id, userId: Id, username: string): (p: Portfolio)
    ensures p.userId == userId && p.title == Some(username + PortfolioTitleSuffix)
    ensures p.templateId == None && p.generatedUrl == None
  {
    NewPortfolio(id, userId, Given(username + PortfolioTitleSuffix), Missing, Missing, Missing, Missing)
  }

  /** `register(username, email, password)` */
  method Register(db: Db, username: string, email: string, password: string, now: int,
                  hash: Hasher, sign: Signer) returns (r: Result<Session, AuthError>)
    requires db.Valid()
    modifies db
    ensures db.Valid()
    ensures unchanged(db`works, db`templates, db`nextWorkId)
    ensures UserByUsername(old(db.users), username).Some? ==> r == Err(UsernameTaken)
    ensures UserByUsername(old(db.users), username).None? && UserByEmail(old(db.users), email).Some?
            ==> r == Err(EmailTaken)
    ensures UserByUsername(old(db.users), username).None? && UserByEmail(old(db.users), email).None?
            && !ValidUser(User(old(db.nextUserId), username, email, password, None, now), db.isEmail)
            ==> r == Err(InvalidUser)
    ensures r.Err? ==> db.users == old(db.users) && db.portfolios == old(db.portfolios)
    ensures r.Err? ==> db.nextUserId == old(db.nextUserId) && db.nextPortfolioId == old(db.nextPortfolioId)
    ensures r.Ok? ==> db.nextUserId == old(db.nextUserId) + 1 && db.nextPortfolioId == old(db.nextPortfolioId) + 1
    ensures r.Ok? <==> UserByUsername(old(db.users), username).None? && UserByEmail(old(db.users), email).None?
                       && ValidUser(User(old(db.nextUserId), username, email, password, None, now), db.isEmail)
    ensures r.Ok? ==>
      var u := NewUserRow(old(db.nextUserId), username, email, password, now, hash);
      && db.users == old(db.users) + [u]
      && db.portfolios == old(db.portfolios) + [DefaultPortfolio(old(db.nextPortfolioId), u.id, username)]
      && r.value == Session(ToSafeObject(u), sign(u.id))
  {
    if UserByUsername(db.users, username).Some? {
      return Err(UsernameTaken);
    }
    if UserByEmail(db.users, email).Some? {
      return Err(EmailTaken);
    }
    var candidate := User(db.nextUserId, username, email, password, None, now);
    if !ValidUser(candidate, db.isEmail) {
      return Err(InvalidUser);
    }
    var u := BeforeCreate(candidate, hash);
    var p := DefaultPortfolio(db.nextPortfolioId, u.id, username);
    AddUserKeepsValid(db.users, u, db.nextUserId, db.isEmail);
    PortfoliosValidGrows(db.portfolios, db.nextPortfolioId, db.nextUserId, db.nextUserId + 1);
    AddPortfolioKeepsValid(db.portfolios, p, db.nextPortfolioId, db.nextUserId + 1);
    db.users := db.users + [u];
    db.nextUserId := db.nextUserId + 1;
    db.portfolios := db.portfolios + [p];
    db.nextPortfolioId := db.nextPortfolioId + 1;
    r := Ok(Session(ToSafeObject(u), sign(u.id)));
  }

  /** `login(email, password)`: a read of the users table and a password check. */
  function Login(users: seq<User>, email: string, password: string, hash: Hasher, sign: Signer)
    : (r: Result<Session, AuthError>)
    ensures r.Err? ==> r.error == BadCredentials
    ensures r.Ok? <==> UserByEmail(users, email).Some?
                       && ValidatePassword(UserByEmail(users, email).value, password, hash)
    ensures r.Ok? ==> r.value.user == ToSafeObject(UserByEmail(users, email).value)
                      && r.value.user.email == email && r.value.token == sign(r.value.user.id)
  {
    match UserByEmail(users, email)
    case None => Err(BadCredentials)
    case Some(u) =>
      if ValidatePassword(u, password, hash) then Ok(Session(ToSafeObject(u), sign(u.id)))
      else Err(BadCredentials)
  }

  /** Right after a successful registration, logging in with the same email and (non-empty)
      password yields the same session as the registration did. */
  lemma RegisterThenLogin(users: seq<User>, id: Id, username: string, email: string,
                          password: string, now: int, hash: Hasher, sign: Signer)
    requires UserByEmail(users, email).None? && password != ""
    ensures var u := NewUserRow(id, username, email, password, now, hash);
      Login(users + [u], email, password, hash, sign) == Ok(Session(ToSafeObject(u), sign(id)))
  {
    var u := NewUserRow(id, username, email, password, now, hash);
    FindFirstAppend(users, u, (v: User) => v.email == email);
  }
}
