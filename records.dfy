/**
 * The rows of the four tables (users, works, portfolios, templates) and the
 * per-record rules the Sequelize models attach to them: the password hooks,
 * the safe projection, the `link` setter, the column defaults and the
 * validations.
 */
module Records {
  import opened Wrappers
  import opened Text

  type Id = nat

  /** A JSON object column (`socialLinks`, `customConfig`). */
  type Links = map<string, string>

  /** A `users` row; `passwordHash` holds whatever the hooks stored. */
  datatype User = User(
    id: Id,
    username: string,
    email: string,
    passwordHash: string,
    avatar: Option<string>,
    createdAt: int)

  /** What `toSafeObject` returns: a user without any credential. */
  datatype SafeUser = SafeUser(
    id: Id,
    username: string,
    email: string,
    avatar: Option<string>,
    createdAt: int)

  /** A `works` row. */
  datatype Work = Work(
    id: Id,
    userId: Id,
    title: string,
    description: Option<string>,
    coverImage: Option<string>,
    category: Option<string>,
    link: Option<string>,
    sortOrder: int,
    createdAt: int)

  /** A `portfolios` row; at most one per user. */
  datatype Portfolio = Portfolio(
    id: Id,
    userId: Id,
    templateId: Option<Id>,
    title: Option<string>,
    bio: Option<string>,
    socialLinks: Option<Links>,
    customConfig: Option<Links>,
    generatedUrl: Option<string>)

  /** A `templates` row. */
  datatype Template = Template(
    id: Id,
    name: string,
    description: Option<string>,
    previewImage: Option<string>,
    folderPath: string,
    isActive: bool)

  /** The one-way password hash (bcrypt with cost 10); its internals are not modelled. */
  type Hasher = string -> string

  // ---------------------------------------------------------------- users

  const MinUsernameLength: nat := 2
  const MaxUsernameLength: nat := 50

  /** The `username` length bound and the `email` format rule of the users table. */
  predicate ValidUser(u: User, isEmail: string -> bool) {
    MinUsernameLength <= |u.username| <= MaxUsernameLength && isEmail(u.email)
  }

  /** `toSafeObject`: exactly id, username, email, avatar and createdAt. */
  function ToSafeObject(u: User): (s: SafeUser)
    ensures s.id == u.id && s.username == u.username && s.email == u.email
    ensures s.avatar == u.avatar && s.createdAt == u.createdAt
  {
    SafeUser(u.id, u.username, u.email, u.avatar, u.createdAt)
  }

  /** Two users have the same safe projection exactly when they differ at most in their hash. */
  lemma SafeObjectHidesOnlyTheHash(u: User, v: User)
    ensures ToSafeObject(u) == ToSafeObject(v) <==> u.(passwordHash := v.passwordHash) == v
  {
  }

  /** The `beforeCreate` hook: a non-empty `passwordHash` is replaced by its hash. */
  function BeforeCreate(u: User, hash: Hasher): (r: User)
    ensures u.passwordHash != "" ==> r.passwordHash == hash(u.passwordHash)
    ensures u.passwordHash == "" ==> r.passwordHash == ""
    ensures r.(passwordHash := u.passwordHash) == u
  {
    if u.passwordHash != "" then u.(passwordHash := hash(u.passwordHash)) else u
  }

  /** The `beforeUpdate` hook: the hash is recomputed only when `passwordHash` changed
      since `previous` (the row as loaded). */
  function BeforeUpdate(previous: User, u: User, hash: Hasher): (r: User)
    ensures u.passwordHash == previous.passwordHash ==> r == u
    ensures u.passwordHash != previous.passwordHash ==> r.passwordHash == hash(u.passwordHash)
    ensures r.(passwordHash := u.passwordHash) == u
  {
    if u.passwordHash != previous.passwordHash then u.(passwordHash := hash(u.passwordHash)) else u
  }

  /** Saving a row whose `passwordHash` was not touched never re-hashes: the stored hash is
      not hashed a second time, whatever else changed. */
  lemma UnchangedHashIsNotRehashed(stored: User, edited: User, hash: Hasher)
    requires edited.passwordHash == stored.passwordHash
    ensures BeforeUpdate(stored, edited, hash).passwordHash == stored.passwordHash
  {
  }

  /** `validatePassword(p)`: `bcrypt.compare`, modelled as "p hashes to the stored value". */
  predicate ValidatePassword(u: User, password: string, hash: Hasher) {
    hash(password) == u.passwordHash
  }

  /** A user created with a non-empty password accepts exactly the passwords that hash
      like it. */
  lemma CreatedUserAcceptsItsPassword(u: User, password: string, other: string, hash: Hasher)
    requires u.passwordHash == password && password != ""
    ensures ValidatePassword(BeforeCreate(u, hash), password, hash)
    ensures ValidatePassword(BeforeCreate(u, hash), other, hash) <==> hash(other) == hash(password)
  {
  }

  // ---------------------------------------------------------------- works

  const MinTitleLength: nat := 1
  const MaxTitleLength: nat := 100
  const DefaultCategory: string := "未分类"

  /** The `title` rule: required, 1 to 100 characters. */
  predicate ValidTitle(t: string) {
    MinTitleLength <= |t| <= MaxTitleLength
  }

  /** A stored work: a valid title and, when present, a link accepted by the URL check. */
  predicate ValidWork(w: Work, isUrl: string -> bool) {
    ValidTitle(w.title) && (w.link.Some? ==> isUrl(w.link.value))
  }

  /** The `link` setter: a blank string is stored as `null`, anything else unchanged. */
  function SetLink(v: Option<string>): (r: Option<string>)
    ensures v.Some? && IsBlank(v.value) ==> r == None
    ensures !(v.Some? && IsBlank(v.value)) ==> r == v
  {
    match v
    case Some(s) => if IsBlank(s) then None else v
    case None => None
  }

  /** The setter is idempotent: assigning a stored link again stores the same value. */
  lemma SetLinkIdempotent(v: Option<string>)
    ensures SetLink(SetLink(v)) == SetLink(v)
  {
  }

  /** A nullable attribute as Sequelize stores it: `undefined` and `null` both read as NULL. */
  function Nullable<T>(f: Field<T>): (r: Option<T>)
    ensures f.Given? <==> r.Some?
    ensures f.Given? ==> r.value == f.value
  {
    if f.Given? then Some(f.value) else None
  }

  /** A nullable attribute with a default: the default only when the key is absent. */
  function WithDefault<T>(f: Field<T>, default: T): (r: Option<T>)
    ensures f.Missing? ==> r == Some(default)
    ensures f.Null? ==> r == None
    ensures f.Given? ==> r == Some(f.value)
  {
    match f
    case Missing => Some(default)
    case Null => None
    case Given(v) => Some(v)
  }

  // ---------------------------------------------------------------- portfolios

  const DefaultPortfolioTitle: string := "我的作品集"

  /** A new portfolio row built from attribute values, with the column defaults of the
      portfolios table: title "我的作品集", `{}` for both JSON columns, no template and no
      generated URL. */
  function NewPortfolio(id: Id, userId: Id, title: Field<string>, bio: Field<string>,
                        socialLinks: Field<Links>, customConfig: Field<Links>,
                        templateId: Field<Id>): (p: Portfolio)
    ensures p.id == id && p.userId == userId && p.generatedUrl == None
    ensures title.Missing? ==> p.title == Some(DefaultPortfolioTitle)
    ensures socialLinks.Missing? ==> p.socialLinks == Some(map[])
    ensures customConfig.Missing? ==> p.customConfig == Some(map[])
    ensures !templateId.Given? ==> p.templateId == None
  {
    Portfolio(id, userId, Nullable(templateId), WithDefault(title, DefaultPortfolioTitle),
              Nullable(bio), WithDefault(socialLinks, map[]), WithDefault(customConfig, map[]),
              None)
  }
}
