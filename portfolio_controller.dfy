/**
 * The portfolio controller's data rules: reading the configuration, the
 * upsert/merge of `updateConfig`, and the active-template listing.
 */
module PortfolioController {
  import opened Wrappers
  import opened Records
  import opened Database

  datatype ConfigError =
    | PortfolioNotFound   // 404 "作品集不存在"
    | UnknownTemplate     // the foreign key to templates is violated
    | UnknownUser         // the foreign key to users is violated

  /** The fields `updateConfig` reads from the request body. */
  datatype ConfigBody = ConfigBody(
    title: Field<string>,
    bio: Field<string>,
    socialLinks: Field<Links>,
    customConfig: Field<Links>,
    templateId: Field<Id>)

  /** `value ?? current` for a nullable column. */
  function OrCurrent<T>(f: Field<T>, current: Option<T>): (r: Option<T>)
    ensures f.Given? ==> r == Some(f.value)
    ensures !f.Given? ==> r == current
  {
    if f.Given? then Some(f.value) else current
  }

  /** The update branch of `updateConfig`: each field is replaced only by a non-null value. */
  function MergeConfig(p: Portfolio, b: ConfigBody): (r: Portfolio)
    ensures r.id == p.id && r.userId == p.userId && r.generatedUrl == p.generatedUrl
    ensures r.title == OrCurrent(b.title, p.title) && r.bio == OrCurrent(b.bio, p.bio)
    ensures r.socialLinks == OrCurrent(b.socialLinks, p.socialLinks)
    ensures r.customConfig == OrCurrent(b.customConfig, p.customConfig)
    ensures r.templateId == OrCurrent(b.templateId, p.templateId)
  {
    p.(title := OrCurrent(b.title, p.title),
       bio := OrCurrent(b.bio, p.bio),
       socialLinks := OrCurrent(b.socialLinks, p.socialLinks),
       customConfig := OrCurrent(b.customConfig, p.customConfig),
       templateId := OrCurrent(b.templateId, p.templateId))
  }

  /** Applying the same body twice gives the record of applying it once. */
  lemma MergeIdempotent(p: Portfolio, b: ConfigBody)
    ensures MergeConfig(MergeConfig(p, b), b) == MergeConfig(p, b)
  {
  }

  /** A body with no non-null field changes nothing. */
  lemma MergeWithoutValuesKeepsRecord(p: Portfolio, b: ConfigBody)
    requires !b.title.Given? && !b.bio.Given? && !b.socialLinks.Given?
    requires !b.customConfig.Given? && !b.templateId.Given?
    ensures MergeConfig(p, b) == p
  {
  }

  /** A non-null body field, the empty string included, always lands in the record. */
  lemma MergeEmptyStringReplaces(p: Portfolio, b: ConfigBody)
    requires b.title == Given("")
    ensures MergeConfig(p, b).title == Some("")
  {
  }

  /** The create branch: `Portfolio.create` with the body's fields and the column defaults. */
  function CreatedConfig(id: Id, userId: Id, b: ConfigBody): (r: Portfolio)
    ensures r.id == id && r.userId == userId && r.generatedUrl == None
    ensures r.title == WithDefault(b.title, DefaultPortfolioTitle) && r.bio == Nullable(b.bio)
    ensures r.socialLinks == WithDefault(b.socialLinks, map[])
    ensures r.customConfig == WithDefault(b.customConfig, map[])
    ensures r.templateId == Nullable(b.templateId)
  {
    NewPortfolio(id, userId, b.title, b.bio, b.socialLinks, b.customConfig, b.templateId)
  }

  /** `getConfig`: the user's portfolio with its template, or not-found. */
  function GetConfig(portfolios: seq<Portfolio>, templates: seq<Template>, userId: Id)
    : (r: Result<(Portfolio, Option<Template>), ConfigError>)
    ensures r.Err? <==> PortfolioIndex(portfolios, userId).None?
    ensures r.Err? ==> r.error == PortfolioNotFound
    ensures r.Ok? ==> r.value.0 in portfolios && r.value.0.userId == userId
    ensures r.Ok? ==> r.value.1 == if r.value.0.templateId.Some? then TemplateById(templates, r.value.0.templateId.value) else None
  {
    match PortfolioIndex(portfolios, userId)
    case None => Err(PortfolioNotFound)
    case Some(k) =>
      var p := portfolios[k];
      Ok((p, if p.templateId.Some? then TemplateById(templates, p.templateId.value) else None))
  }

  /** `getTemplates`: the active templates, in table order. */
  function GetTemplates(templates: seq<Template>): (r: seq<Template>)
    ensures |r| <= |templates|
    ensures forall t :: t in r <==> t in templates && t.isActive
  {
    if templates == [] then []
    else (if templates[0].isActive then [templates[0]] else []) + GetTemplates(templates[1..])
  }

  /** Each active template is listed as often as it is stored, an inactive one never. */
  lemma {:induction false} GetTemplatesCounts(templates: seq<Template>, t: Template)
    ensures multiset(GetTemplates(templates))[t] == if t.isActive then multiset(templates)[t] else 0
  {
    if templates != [] {
      assert templates == [templates[0]] + templates[1..];
      GetTemplatesCounts(templates[1..], t);
    }
  }

  /** The listing keeps table order: the rows of a prefix come before those of the rest. */
  lemma {:induction false} GetTemplatesConcat(a: seq<Template>, b: seq<Template>)
    ensures GetTemplates(a + b) == GetTemplates(a) + GetTemplates(b)
  {
    if a == [] {
      assert a + b == b;
    } else {
      var head := if a[0].isActive then [a[0]] else [];
      assert (a + b)[0] == a[0] && (a + b)[1..] == a[1..] + b;
      assert GetTemplates(a + b) == head + GetTemplates(a[1..] + b);
      assert GetTemplates(a) == head + GetTemplates(a[1..]);
      GetTemplatesConcat(a[1..], b);
      assert head + (GetTemplates(a[1..]) + GetTemplates(b)) == (head + GetTemplates(a[1..])) + GetTemplates(b);
    }
  }

  /** `updateConfig`: merge into the user's portfolio, or create one when there is none. */
  method UpdateConfig(db: Db, userId: Id, body: ConfigBody) returns (r: Result<Portfolio, ConfigError>)
    requires db.Valid()
    modifies db
    ensures db.Valid()
    ensures unchanged(db`users, db`works, db`templates, db`nextUserId, db`nextWorkId)
    ensures body.templateId.Given? && TemplateById(db.templates, body.templateId.value).None?
            ==> r == Err(UnknownTemplate)
    ensures var templateOk := !(body.templateId.Given? && TemplateById(db.templates, body.templateId.value).None?);
      var hasPortfolio := PortfolioIndex(old(db.portfolios), userId).Some?;
      && (r.Ok? <==> templateOk && (hasPortfolio || UserById(db.users, userId).Some?))
      && (r == Err(UnknownUser) <==> templateOk && !hasPortfolio && UserById(db.users, userId).None?)
    ensures r.Err? ==> db.portfolios == old(db.portfolios) && db.nextPortfolioId == old(db.nextPortfolioId)
    ensures r.Ok? ==> match PortfolioIndex(old(db.portfolios), userId)
      case Some(k) =>
        && r.value == MergeConfig(old(db.portfolios)[k], body)
        && db.portfolios == old(db.portfolios)[k := r.value]
        && db.nextPortfolioId == old(db.nextPortfolioId)
      case None =>
        && UserById(db.users, userId).Some?
        && r.value == CreatedConfig(old(db.nextPortfolioId), userId, body)
        && db.portfolios == old(db.portfolios) + [r.value]
        && db.nextPortfolioId == old(db.nextPortfolioId) + 1
  {
    if body.templateId.Given? && TemplateById(db.templates, body.templateId.value).None? {
      return Err(UnknownTemplate);
    }
    var k := PortfolioIndex(db.portfolios, userId);
    if k.None? {
      if UserById(db.users, userId).None? {
        return Err(UnknownUser);
      }
      var p := CreatedConfig(db.nextPortfolioId, userId, body);
      UserIdAllocated(db.users, UserById(db.users, userId).value, db.nextUserId, db.isEmail);
      AddPortfolioKeepsValid(db.portfolios, p, db.nextPortfolioId, db.nextUserId);
      db.portfolios := db.portfolios + [p];
      db.nextPortfolioId := db.nextPortfolioId + 1;
      r := Ok(p);
    } else {
      var p := MergeConfig(db.portfolios[k.value], body);
      ReplacePortfolioKeepsValid(db.portfolios, k.value, p, db.nextPortfolioId, db.nextUserId);
      db.portfolios := db.portfolios[k.value := p];
      r := Ok(p);
    }
  }
}
