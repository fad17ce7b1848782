/**
 * The relational store behind the Sequelize models: the four tables as
 * sequences of rows in insertion order, the auto-increment counters, and the
 * constraints the schema enforces (unique keys, validations).
 */
module Database {
  import opened Wrappers
  import opened Records

  /** Index of the first row satisfying `p`: `findOne` over the table in insertion order. */
  function FindFirst<T>(s: seq<T>, p: T -> bool): (r: Option<nat>)
    ensures r.Some? ==> r.value < |s| && p(s[r.value])
    ensures r.Some? ==> forall j :: 0 <= j < r.value ==> !p(s[j])
    ensures r.None? ==> forall j :: 0 <= j < |s| ==> !p(s[j])
  {
    if s == [] then None
    else if p(s[0]) then Some(0)
    else
      match FindFirst(s[1..], p)
      case None => None
      case Some(k) => Some(k + 1)
  }

  /** A lookup in a table extended by one row finds an old row first, else the new one. */
  lemma {:induction false} FindFirstAppend<T>(s: seq<T>, x: T, p: T -> bool)
    ensures FindFirst(s + [x], p) == if FindFirst(s, p).Some? then FindFirst(s, p)
                                     else if p(x) then Some(|s|) else None
  {
    if s != [] {
      assert (s + [x])[0] == s[0];
      assert (s + [x])[1..] == s[1..] + [x];
      FindFirstAppend(s[1..], x, p);
    }
  }

  /** The first user row, in insertion order, that satisfies `p`; the three user lookups
      below differ only in the column they compare. */
  function UserWhere(users: seq<User>, p: User -> bool): (r: Option<User>)
    ensures r.Some? ==> r.value in users && p(r.value)
    ensures r.None? ==> forall u :: u in users ==> !p(u)
  {
    match FindFirst(users, p)
    case None => None
    case Some(k) => Some(users[k])
  }

  /** `User.findByPk(id)` */
  function UserById(users: seq<User>, id: Id): (r: Option<User>)
    ensures r.Some? ==> r.value in users && r.value.id == id
    ensures r.None? ==> forall u :: u in users ==> u.id != id
  {
    UserWhere(users, (u: User) => u.id == id)
  }

  /** `User.findOne({ where: { email } })` */
  function UserByEmail(users: seq<User>, email: string): (r: Option<User>)
    ensures r.Some? ==> r.value in users && r.value.email == email
    ensures r.None? ==> forall u :: u in users ==> u.email != email
  {
    UserWhere(users, (u: User) => u.email == email)
  }

  /** `User.findOne({ where: { username } })` */
  function UserByUsername(users: seq<User>, username: string): (r: Option<User>)
    ensures r.Some? ==> r.value in users && r.value.username == username
    ensures r.None? ==> forall u :: u in users ==> u.username != username
  {
    UserWhere(users, (u: User) => u.username == username)
  }

  /** The position of `Portfolio.findOne({ where: { userId } })` in the table. */
  function PortfolioIndex(portfolios: seq<Portfolio>, userId: Id): (r: Option<nat>)
    ensures r.Some? ==> r.value < |portfolios| && portfolios[r.value].userId == userId
    ensures r.None? ==> forall j :: 0 <= j < |portfolios| ==> portfolios[j].userId != userId
  {
    FindFirst(portfolios, (p: Portfolio) => p.userId == userId)
  }

  /** `Template.findByPk(id)`, also the `include` of a portfolio's template. */
  function TemplateById(templates: seq<Template>, id: Id): (r: Option<Template>)
    ensures r.Some? ==> r.value in templates && r.value.id == id
    ensures r.None? ==> forall t :: t in templates ==> t.id != id
  {
    match FindFirst(templates, (t: Template) => t.id == id)
    case None => None
    case Some(k) => Some(templates[k])
  }

  /** The unique keys and validations of the users table, and ids below the counter. */
  ghost predicate UsersValid(users: seq<User>, nextId: Id, isEmail: string -> bool) {
    && (forall i :: 0 <= i < |users| ==> users[i].id < nextId && ValidUser(users[i], isEmail))
    && (forall i, j :: 0 <= i < j < |users| ==>
          users[i].id != users[j].id && users[i].username != users[j].username
          && users[i].email != users[j].email)
  }

  /** Unique ids, one portfolio per user, owners among the allocated user ids. */
  ghost predicate PortfoliosValid(portfolios: seq<Portfolio>, nextId: Id, nextUserId: Id) {
    && (forall i :: 0 <= i < |portfolios| ==> portfolios[i].id < nextId && portfolios[i].userId < nextUserId)
    && (forall i, j :: 0 <= i < j < |portfolios| ==>
          portfolios[i].id != portfolios[j].id && portfolios[i].userId != portfolios[j].userId)
  }

  /** Unique ids below the counter, and every row passes the model validations. */
  ghost predicate WorksValid(works: seq<Work>, nextId: Id, isUrl: string -> bool) {
    && (forall i :: 0 <= i < |works| ==> works[i].id < nextId && ValidWork(works[i], isUrl))
    && (forall i, j :: 0 <= i < j < |works| ==> works[i].id != works[j].id)
  }

  /** Inserting a valid user with a fresh id, username and email keeps the users table valid. */
  lemma AddUserKeepsValid(users: seq<User>, u: User, nextId: Id, isEmail: string -> bool)
    requires UsersValid(users, nextId, isEmail) && u.id == nextId && ValidUser(u, isEmail)
    requires forall v :: v in users ==> v.username != u.username && v.email != u.email
    ensures UsersValid(users + [u], nextId + 1, isEmail)
  {
    var t := users + [u];
    forall i, j | 0 <= i < j < |t|
      ensures t[i].id != t[j].id && t[i].username != t[j].username && t[i].email != t[j].email
    {
      if j == |users| {
        assert t[i] == users[i] && t[i] in users;
      } else {
        assert t[i] == users[i] && t[j] == users[j];
      }
    }
  }

  /** Inserting a portfolio with a fresh id for a user that has none keeps the table valid. */
  lemma AddPortfolioKeepsValid(portfolios: seq<Portfolio>, p: Portfolio, nextId: Id, nextUserId: Id)
    requires PortfoliosValid(portfolios, nextId, nextUserId) && p.id == nextId && p.userId < nextUserId
    requires forall j :: 0 <= j < |portfolios| ==> portfolios[j].userId != p.userId
    ensures PortfoliosValid(portfolios + [p], nextId + 1, nextUserId)
  {
    var t := portfolios + [p];
    forall i, j | 0 <= i < j < |t| ensures t[i].id != t[j].id && t[i].userId != t[j].userId {
      assert t[i] == portfolios[i];
      if j < |portfolios| {
        assert t[j] == portfolios[j];
      }
    }
  }

  /** Replacing a portfolio by one with the same id and owner keeps the table valid. */
  lemma ReplacePortfolioKeepsValid(portfolios: seq<Portfolio>, k: nat, q: Portfolio, nextId: Id, nextUserId: Id)
    requires k < |portfolios| && PortfoliosValid(portfolios, nextId, nextUserId)
    requires q.id == portfolios[k].id && q.userId == portfolios[k].userId
    ensures PortfoliosValid(portfolios[k := q], nextId, nextUserId)
  {
  }

  /** A user of a valid table has an id below the counter. */
  lemma UserIdAllocated(users: seq<User>, u: User, nextId: Id, isEmail: string -> bool)
    requires UsersValid(users, nextId, isEmail) && u in users
    ensures u.id < nextId
  {
  }

  /** Allocating more user ids keeps every owner reference below the counter. */
  lemma PortfoliosValidGrows(portfolios: seq<Portfolio>, nextId: Id, nextUserId: Id, nextUserId': Id)
    requires PortfoliosValid(portfolios, nextId, nextUserId) && nextUserId <= nextUserId'
    ensures PortfoliosValid(portfolios, nextId, nextUserId')
  {
  }

  /** Inserting a valid work with a fresh id keeps the works table valid. */
  lemma AddWorkKeepsValid(works: seq<Work>, w: Work, nextId: Id, isUrl: string -> bool)
    requires WorksValid(works, nextId, isUrl) && w.id == nextId && ValidWork(w, isUrl)
    ensures WorksValid(works + [w], nextId + 1, isUrl)
  {
    var t := works + [w];
    forall i, j | 0 <= i < j < |t| ensures t[i].id != t[j].id {
      assert t[i] == works[i];
      if j < |works| {
        assert t[j] == works[j];
      }
    }
  }

  /** The database. `isEmail` and `isUrl` are the validator library's checks. */
  class Db {
    var users: seq<User>
    var portfolios: seq<Portfolio>
    var works: seq<Work>
    var templates: seq<Template>
    var nextUserId: Id
    var nextPortfolioId: Id
    var nextWorkId: Id
    const isEmail: string -> bool
    const isUrl: string -> bool

    ghost predicate Valid()
      reads this
    {
      && UsersValid(users, nextUserId, isEmail)
      && PortfoliosValid(portfolios, nextPortfolioId, nextUserId)
      && WorksValid(works, nextWorkId, isUrl)
    }

    /** An empty database with the seeded templates. */
    constructor (isEmail: string -> bool, isUrl: string -> bool, templates: seq<Template>)
      ensures Valid()
      ensures this.isEmail == isEmail && this.isUrl == isUrl && this.templates == templates
      ensures users == [] && portfolios == [] && works == []
    {
      this.users := [];
      this.portfolios := [];
      this.works := [];
      this.templates := templates;
      this.nextUserId := 1;
      this.nextPortfolioId := 1;
      this.nextWorkId := 1;
      this.isEmail := isEmail;
      this.isUrl := isUrl;
    }
  }
}
