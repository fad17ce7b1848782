/**
 * The site generator: `generatePortfolio` (checks, template choice, render
 * context, output directory, index page, static assets, and finally the
 * portfolio's `generatedUrl`), `copyStaticAssets` and `getPreviewData`.
 * The database phase is the pure `Prepare`, the file-system phase the pure
 * `Emit`; the method `GeneratePortfolio` runs both against the live objects.
 */
module Generator {
  import opened Wrappers
  import opened Text
  import opened Records
  import opened Database
  import opened PathSegment
  import opened WorkQuery
  import opened FileTree

  /** The folders `copyStaticAssets` tries, in this order. */
  const AssetFolders: seq<string> := ["css", "js", "images", "assets"]
  const DefaultTemplateFolder: string := "minimal"
  const TemplateFileName: string := "index.ejs"
  const PageFileName: string := "index.html"
  const UrlPrefix: string := "/generated/"
  /** How many characters of the fresh uuid end the directory name. */
  const OutputIdLength: nat := 8

  datatype GenError =
    | UserNotFound            // "用户不存在"
    | PortfolioNotConfigured  // "请先配置作品集信息"
    | OutputDirFailed         // mkdir of the output directory threw
    | TemplateUnreadable      // reading `index.ejs` threw
    | RenderFailed            // `ejs.render` threw
    | PageWriteFailed         // writing `index.html` threw

  /** The `portfolio` object handed to the template. */
  datatype PortfolioView = PortfolioView(title: Option<string>, bio: Option<string>,
                                         socialLinks: Links, customConfig: Links)

  /** One entry of the `works` list handed to the template. */
  datatype WorkView = WorkView(id: Id, title: string, description: Option<string>,
                               coverImage: Option<string>, category: Option<string>,
                               link: Option<string>)

  datatype RenderContext = RenderContext(user: SafeUser, portfolio: PortfolioView, works: seq<WorkView>)

  /** `ejs.render(template, data)`; `None` when rendering throws. Not modelled inside. */
  type Renderer = (string, RenderContext) -> Option<string>

  /** The template folder: the joined template's `folderPath` when there is one (whether or not
      it is active), `minimal` otherwise. */
  function TemplateFolder(p: Portfolio, templates: seq<Template>): (r: string)
    ensures p.templateId.Some? && TemplateById(templates, p.templateId.value).Some?
            ==> r == TemplateById(templates, p.templateId.value).value.folderPath
    ensures p.templateId.None? || TemplateById(templates, p.templateId.value).None?
            ==> r == DefaultTemplateFolder
  {
    if p.templateId.Some? then
      match TemplateById(templates, p.templateId.value)
      case Some(t) => t.folderPath
      case None => DefaultTemplateFolder
    else DefaultTemplateFolder
  }

  /** An inactive template that a portfolio points at is used all the same. */
  lemma InactiveTemplateIsStillUsed(p: Portfolio, templates: seq<Template>, t: Template)
    requires p.templateId == Some(t.id) && TemplateById(templates, t.id) == Some(t) && !t.isActive
    ensures TemplateFolder(p, templates) == t.folderPath
  {
  }

  /** The data passed to the template. */
  function ContextFor(user: User, p: Portfolio, works: seq<Work>): (c: RenderContext)
    ensures c.user == ToSafeObject(user)
    ensures c.portfolio.title == p.title && c.portfolio.bio == p.bio
    ensures c.portfolio.socialLinks == (if p.socialLinks.Some? then p.socialLinks.value else map[])
    ensures c.portfolio.customConfig == (if p.customConfig.Some? then p.customConfig.value else map[])
    ensures |c.works| == |works|
    ensures forall i :: 0 <= i < |works| ==>
      c.works[i] == WorkView(works[i].id, works[i].title, works[i].description,
                             works[i].coverImage, works[i].category, works[i].link)
  {
    RenderContext(
      ToSafeObject(user),
      PortfolioView(p.title, p.bio, p.socialLinks.GetOr(map[]), p.customConfig.GetOr(map[])),
      seq(|works|, i requires 0 <= i < |works| =>
        WorkView(works[i].id, works[i].title, works[i].description,
                 works[i].coverImage, works[i].category, works[i].link)))
  }

  function Min(a: nat, b: nat): nat { if a <= b then a else b }

  /** The fallback directory part, `user-<id>`. */
  function UserFallback(id: Id): (r: string)
    ensures r != [] && AllSafe(r)
  {
    var d := Decimal(id);
    var r := "user-" + d;
    assert forall i :: 5 <= i < |r| ==> r[i] == d[i - 5];
    r
  }

  /** Distinct users get distinct fallback names. */
  lemma UserFallbackInjective(a: Id, b: Id)
    ensures UserFallback(a) == UserFallback(b) ==> a == b
  {
    if UserFallback(a) == UserFallback(b) {
      assert UserFallback(a)[5..] == Decimal(a);
      assert UserFallback(b)[5..] == Decimal(b);
      DecimalInjective(a, b);
    }
  }

  /** The three parts of `part + "-" + suffix` can be read back from its end. */
  lemma JoinedName(part: string, suffix: string)
    ensures var r := part + "-" + suffix;
      && |r| == |part| + 1 + |suffix|
      && r[|r| - |suffix|..] == suffix
      && r[|r| - |suffix| - 1] == '-'
      && r[..|r| - |suffix| - 1] == part
      && (AllSafe(part) && AllSafe(suffix) ==> AllSafe(r))
  {
    var r := part + "-" + suffix;
    assert r[..|part|] == part;
    assert r[|part| + 1..] == suffix;
    if AllSafe(part) && AllSafe(suffix) {
      forall i | 0 <= i < |r| ensures IsSafeChar(r[i]) {
        if i > |part| {
          assert r[i] == suffix[i - |part| - 1];
        }
      }
    }
  }

  /** A prefix of a string of safe characters is one too. */
  lemma SafePrefix(s: string, n: nat)
    requires n <= |s|
    ensures AllSafe(s) ==> AllSafe(s[..n])
  {
  }

  /** `safeUserPart`: the sanitised username, or `user-<id>` when nothing of it is left. */
  function DirPart(user: User): (part: string)
    ensures part != [] && AllSafe(part)
    ensures part == UserFallback(user.id) || IsSafeSegment(part)
    ensures Cleaned(user.username) == [] ==> part == UserFallback(user.id)
    ensures Cleaned(user.username) != [] ==> part == Cleaned(user.username)
  {
    ToSafePathSegment(Some(user.username), UserFallback(user.id))
  }

  /** `${safeUserPart}-${uuid.slice(0, 8)}` */
  function OutputDirName(user: User, uuid: string): (r: string)
    ensures var suffix := uuid[..Min(OutputIdLength, |uuid|)];
      && |r| > |suffix|
      && r[|r| - |suffix|..] == suffix
      && r[|r| - |suffix| - 1] == '-'
      && var part := r[..|r| - |suffix| - 1];
         && part == DirPart(user)
         && part != [] && AllSafe(part)
         && (part == UserFallback(user.id) || IsSafeSegment(part))
    ensures AllSafe(uuid) ==> AllSafe(r)
  {
    var part := DirPart(user);
    var suffix := uuid[..Min(OutputIdLength, |uuid|)];
    SafePrefix(uuid, |suffix|);
    JoinedName(part, suffix);
    part + "-" + suffix
  }

  /** With a uuid of safe characters (a uuid v4 is hex digits and `-`), the directory name is a
      single path segment: no `/`, and neither `.` nor `..`. */
  lemma OutputDirIsOneSegment(user: User, uuid: string)
    requires AllSafe(uuid)
    ensures var r := OutputDirName(user, uuid);
      r != "" && r != "." && r != ".." && forall i :: 0 <= i < |r| ==> r[i] != '/'
  {
    var r := OutputDirName(user, uuid);
    assert AllSafe(r);
    assert r[0] != '.';
    forall i | 0 <= i < |r| ensures r[i] != '/' {
      assert IsSafeChar(r[i]);
    }
  }

  /** What the database phase decides: the portfolio row to update, the directory name, the
      template folder and the render data. */
  datatype Job = Job(index: nat, dirName: string, folder: string, context: RenderContext)

  /** The lookups of `generatePortfolio`, in the source's order: user, portfolio, works. */
  function Prepare(users: seq<User>, portfolios: seq<Portfolio>, works: seq<Work>,
                   templates: seq<Template>, userId: Id, uuid: string): (r: Result<Job, GenError>)
    ensures UserById(users, userId).None? ==> r == Err(UserNotFound)
    ensures UserById(users, userId).Some? && PortfolioIndex(portfolios, userId).None?
            ==> r == Err(PortfolioNotConfigured)
    ensures r.Ok? <==> UserById(users, userId).Some? && PortfolioIndex(portfolios, userId).Some?
    ensures r.Ok? ==>
      var user := UserById(users, userId).value;
      var k := PortfolioIndex(portfolios, userId).value;
      && r.value.index == k && k < |portfolios| && portfolios[k].userId == userId
      && r.value.dirName == OutputDirName(user, uuid)
      && r.value.folder == TemplateFolder(portfolios[k], templates)
      && r.value.context == ContextFor(user, portfolios[k], ListWorks(works, userId))
  {
    match UserById(users, userId)
    case None => Err(UserNotFound)
    case Some(user) =>
      match PortfolioIndex(portfolios, userId)
      case None => Err(PortfolioNotConfigured)
      case Some(k) =>
        Ok(Job(k, OutputDirName(user, uuid), TemplateFolder(portfolios[k], templates),
               ContextFor(user, portfolios[k], ListWorks(works, userId))))
  }

  /** `path.join(dir, name)` followed by a stat, on a directory that may not exist. */
  function Lookup(dir: Option<Node>, name: string): (r: Option<Node>)
    ensures r.Some? ==> dir.Some? && Child(dir.value, name) == r
  {
    if dir.None? then None else Child(dir.value, name)
  }

  /** Is `p` inside one of the asset folders under `dest`? */
  predicate InAssetFolder(p: Path, dest: Path) {
    |p| > |dest| && dest <= p && p[|dest|] in AssetFolders
  }

  /** One iteration of `copyStaticAssets`: an absent folder is skipped, and whatever a failing
      copy did is kept. */
  function CopyAssetFolder(src: Option<Node>, dest: Path, st: FsState, faulty: set<Path>, item: string): FsState {
    match Lookup(src, item)
    case None => st
    case Some(n) => CopyDirSpec(n, dest + [item], st, faulty).st
  }

  /** `copyStaticAssets(src, dest)` from folder `i` on: every folder is tried, whatever
      happened to the ones before. */
  function CopyAssetsSpec(src: Option<Node>, dest: Path, st: FsState, faulty: set<Path>, i: nat): FsState
    requires i <= |AssetFolders|
    decreases |AssetFolders| - i
  {
    if i == |AssetFolders| then st
    else CopyAssetsSpec(src, dest, CopyAssetFolder(src, dest, st, faulty, AssetFolders[i]), faulty, i + 1)
  }

  /** The files a complete copy of one asset folder adds. */
  function AssetFolderFiles(src: Option<Node>, dest: Path, item: string): map<Path, string> {
    match Lookup(src, item)
    case None => map[]
    case Some(n) => TreeFiles(n, dest + [item])
  }

  /** The files a fault-free asset copy adds, folder by folder. */
  function AssetFiles(src: Option<Node>, dest: Path, i: nat): map<Path, string>
    requires i <= |AssetFolders|
    decreases |AssetFolders| - i
  {
    if i == |AssetFolders| then map[]
    else AssetFolderFiles(src, dest, AssetFolders[i]) + AssetFiles(src, dest, i + 1)
  }

  /** Without faults below `dest`, one folder is copied in full (a plain file named like the
      folder adds nothing). */
  lemma AssetFolderWithoutFaults(src: Option<Node>, dest: Path, st: FsState, faulty: set<Path>, item: string)
    requires NoFaultsBelow(dest, faulty)
    ensures CopyAssetFolder(src, dest, st, faulty, item).files == st.files + AssetFolderFiles(src, dest, item)
  {
    if Lookup(src, item).Some? {
      var n := Lookup(src, item).value;
      var target := dest + [item];
      assert dest <= target;
      CopyDirSucceedsWithoutFaults(n, target, st, faulty);
      CopyDirComplete(n, target, st, faulty);
      if n.File? {
        assert TreeFiles(n, target) == map[];
        assert CopyDirSpec(n, target, st, faulty).st.files == st.files;
      }
    }
  }

  /** The asset copy writes only inside `dest/css`, `dest/js`, `dest/images` and `dest/assets`;
      every other file, the rendered page included, keeps its content. */
  lemma {:induction false} AssetsTouchOnlyAssetFolders(src: Option<Node>, dest: Path, st: FsState, faulty: set<Path>, i: nat)
    requires i <= |AssetFolders|
    ensures var after := CopyAssetsSpec(src, dest, st, faulty, i).files;
      && (forall p :: p in st.files ==> p in after)
      && (forall p :: p in after && !InAssetFolder(p, dest) ==> p in st.files && after[p] == st.files[p])
    decreases |AssetFolders| - i
  {
    if i < |AssetFolders| {
      var item := AssetFolders[i];
      var target := dest + [item];
      if Lookup(src, item).Some? {
        CopyDirStaysInside(Lookup(src, item).value, target, st, faulty);
        forall p | target <= p ensures InAssetFolder(p, dest) {
          assert p[|dest|] == target[|dest|];
        }
      }
      AssetsTouchOnlyAssetFolders(src, dest, CopyAssetFolder(src, dest, st, faulty, item), faulty, i + 1);
    }
  }

  /** Without faults below `dest`, every asset folder present in the template is copied in full,
      whatever happens to the others (a plain file named like a folder fails alone). */
  lemma {:induction false} AssetsCopiedWithoutFaults(src: Option<Node>, dest: Path, st: FsState, faulty: set<Path>, i: nat)
    requires i <= |AssetFolders| && NoFaultsBelow(dest, faulty)
    ensures CopyAssetsSpec(src, dest, st, faulty, i).files == st.files + AssetFiles(src, dest, i)
    decreases |AssetFolders| - i
  {
    if i < |AssetFolders| {
      var item := AssetFolders[i];
      var next := CopyAssetFolder(src, dest, st, faulty, item);
      AssetFolderWithoutFaults(src, dest, st, faulty, item);
      AssetsCopiedWithoutFaults(src, dest, next, faulty, i + 1);
      var here := AssetFolderFiles(src, dest, item);
      var rest := AssetFiles(src, dest, i + 1);
      UnionAssociative(st.files, here, rest);
      assert CopyAssetsSpec(src, dest, st, faulty, i) == CopyAssetsSpec(src, dest, next, faulty, i + 1);
      assert AssetFiles(src, dest, i) == here + rest;
    }
  }

  /** The folders after `k` keep every file under `dest/item` when `item` is not one of them. */
  lemma {:induction false} LaterFoldersKeep(src: Option<Node>, dest: Path, st: FsState, faulty: set<Path>,
                                            k: nat, item: string)
    requires k <= |AssetFolders| && item !in AssetFolders[k..]
    ensures var after := CopyAssetsSpec(src, dest, st, faulty, k).files;
      forall p :: p in st.files && dest + [item] <= p ==> p in after && after[p] == st.files[p]
    decreases |AssetFolders| - k
  {
    if k < |AssetFolders| {
      var other := AssetFolders[k];
      var next := CopyAssetFolder(src, dest, st, faulty, other);
      assert AssetFolders[k..] == [other] + AssetFolders[k + 1..];
      if Lookup(src, other).Some? {
        CopyDirStaysInside(Lookup(src, other).value, dest + [other], st, faulty);
        forall p | p in st.files && dest + [item] <= p ensures !(dest + [other] <= p) {
          assert p[|dest|] == item;
        }
      }
      LaterFoldersKeep(src, dest, next, faulty, k + 1, item);
    }
  }

  /** A folder with no fault below its own target is copied in full, whatever faults lie under
      the other folders: a failure in one folder is swallowed and the loop goes on. */
  lemma {:induction false} AssetFolderCopiedDespiteOtherFaults(src: Option<Node>, dest: Path, st: FsState,
                                                               faulty: set<Path>, i: nat, j: nat)
    requires i <= j < |AssetFolders|
    requires NoFaultsBelow(dest + [AssetFolders[j]], faulty)
    ensures var after := CopyAssetsSpec(src, dest, st, faulty, i).files;
      var copied := AssetFolderFiles(src, dest, AssetFolders[j]);
      forall p :: p in copied ==> p in after && after[p] == copied[p]
    decreases j - i
  {
    var item := AssetFolders[i];
    var next := CopyAssetFolder(src, dest, st, faulty, item);
    assert CopyAssetsSpec(src, dest, st, faulty, i) == CopyAssetsSpec(src, dest, next, faulty, i + 1);
    if i < j {
      AssetFolderCopiedDespiteOtherFaults(src, dest, next, faulty, i + 1, j);
    } else if Lookup(src, item).Some? {
      var n := Lookup(src, item).value;
      var target := dest + [item];
      CopyDirSucceedsWithoutFaults(n, target, st, faulty);
      CopyDirComplete(n, target, st, faulty);
      TreeFilesBelow(n, target);
      assert item !in AssetFolders[i + 1..];
      LaterFoldersKeep(src, dest, next, faulty, i + 1, item);
    }
  }

  /** `copyStaticAssets(srcDir, destDir)` */
  method CopyStaticAssets(fs: FileSystem, src: Option<Node>, dest: Path)
    modifies fs
    ensures fs.State() == CopyAssetsSpec(src, dest, old(fs.State()), fs.faulty, 0)
  {
    var i := 0;
    while i < |AssetFolders|
      invariant i <= |AssetFolders|
      invariant CopyAssetsSpec(src, dest, old(fs.State()), fs.faulty, 0)
             == CopyAssetsSpec(src, dest, fs.State(), fs.faulty, i)
    {
      var item := AssetFolders[i];
      var node := Lookup(src, item);
      if node.Some? {
        var _ := fs.CopyDir(node.value, dest + [item]);  // every failure is swallowed
      }
      i := i + 1;
    }
  }

  /** The result of the file-system phase and the state it leaves. */
  datatype Emitted = Emitted(result: Result<string, GenError>, st: FsState)

  /** The file-system phase of `generatePortfolio`: create the output directory, read and render
      `index.ejs`, write `index.html`, copy the assets, and produce the URL. */
  function Emit(job: Job, templatesRoot: Node, render: Renderer, generatedRoot: Path,
                st: FsState, faulty: set<Path>): (e: Emitted)
    ensures var dir := generatedRoot + [job.dirName];
      && KeptOutside(st.files, e.st.files, dir)
      && (e.result.Err? && e.result.error != OutputDirFailed ==> dir in e.st.dirs)
      && (var index := Lookup(Lookup(Some(templatesRoot), job.folder), TemplateFileName);
          e.result.Ok? <==> && dir !in faulty
                            && index.Some? && index.value.File?
                            && render(index.value.content, job.context).Some?
                            && dir + [PageFileName] !in faulty)
      && (e.result.Ok? ==>
            var source := Lookup(Some(templatesRoot), job.folder);
            var index := Lookup(source, TemplateFileName);
            && e.result.value == UrlPrefix + job.dirName
            && index.Some? && index.value.File?
            && render(index.value.content, job.context).Some?
            && dir + [PageFileName] in e.st.files
            && e.st.files[dir + [PageFileName]] == render(index.value.content, job.context).value)
  {
    var dir := generatedRoot + [job.dirName];
    var made := MkdirSpec(st, dir, faulty);
    if !made.ok then Emitted(Err(OutputDirFailed), made.st)
    else
      var source := Lookup(Some(templatesRoot), job.folder);
      var index := Lookup(source, TemplateFileName);
      if index.None? || !index.value.File? then Emitted(Err(TemplateUnreadable), made.st)
      else match render(index.value.content, job.context)
        case None => Emitted(Err(RenderFailed), made.st)
        case Some(html) =>
          var page := dir + [PageFileName];
          var written := WriteSpec(made.st, page, html, faulty);
          if !written.ok then Emitted(Err(PageWriteFailed), written.st)
          else
            var copied := CopyAssetsSpec(source, dir, written.st, faulty, 0);
            AssetsTouchOnlyAssetFolders(source, dir, written.st, faulty, 0);
            assert !InAssetFolder(page, dir);
            assert forall p :: !(dir <= p) ==> !InAssetFolder(p, dir);
            Emitted(Ok(UrlPrefix + job.dirName), copied)
  }

  /** When generation succeeds, an asset folder with no faulty path below its output copy is
      copied in full, whatever happens to the other folders. */
  lemma EmitCopiesAssetFolder(job: Job, templatesRoot: Node, render: Renderer, generatedRoot: Path,
                              st: FsState, faulty: set<Path>, j: nat)
    requires j < |AssetFolders|
    requires Emit(job, templatesRoot, render, generatedRoot, st, faulty).result.Ok?
    requires NoFaultsBelow(generatedRoot + [job.dirName] + [AssetFolders[j]], faulty)
    ensures var after := Emit(job, templatesRoot, render, generatedRoot, st, faulty).st.files;
      var copied := AssetFolderFiles(Lookup(Some(templatesRoot), job.folder), generatedRoot + [job.dirName], AssetFolders[j]);
      forall p :: p in copied ==> p in after && after[p] == copied[p]
  {
    var dir := generatedRoot + [job.dirName];
    var made := MkdirSpec(st, dir, faulty);
    var source := Lookup(Some(templatesRoot), job.folder);
    var index := Lookup(source, TemplateFileName);
    var html := render(index.value.content, job.context).value;
    var written := WriteSpec(made.st, dir + [PageFileName], html, faulty);
    assert Emit(job, templatesRoot, render, generatedRoot, st, faulty).st
        == CopyAssetsSpec(source, dir, written.st, faulty, 0);
    AssetFolderCopiedDespiteOtherFaults(source, dir, written.st, faulty, 0, j);
  }

  /** The file-system steps of `generatePortfolio`, in order, leaving the state `Emit` describes. */
  method WriteSite(fs: FileSystem, job: Job, templatesRoot: Node, generatedRoot: Path, render: Renderer)
    returns (r: Result<string, GenError>)
    modifies fs
    ensures Emitted(r, fs.State()) == Emit(job, templatesRoot, render, generatedRoot, old(fs.State()), fs.faulty)
  {
    ghost var emitted := Emit(job, templatesRoot, render, generatedRoot, fs.State(), fs.faulty);
    var dir := generatedRoot + [job.dirName];
    var ok := fs.Mkdir(dir);
    if !ok {
      assert emitted == Emitted(Err(OutputDirFailed), fs.State());
      return Err(OutputDirFailed);
    }
    ghost var st1 := fs.State();
    var source := Lookup(Some(templatesRoot), job.folder);
    var index := Lookup(source, TemplateFileName);
    if index.None? || !index.value.File? {
      assert emitted == Emitted(Err(TemplateUnreadable), st1);
      return Err(TemplateUnreadable);
    }
    var html := render(index.value.content, job.context);
    if html.None? {
      assert emitted == Emitted(Err(RenderFailed), st1);
      return Err(RenderFailed);
    }
    ok := fs.WriteFile(dir + [PageFileName], html.value);
    if !ok {
      assert emitted == Emitted(Err(PageWriteFailed), fs.State());
      return Err(PageWriteFailed);
    }
    ghost var st2 := fs.State();
    CopyStaticAssets(fs, source, dir);
    assert emitted == Emitted(Ok(UrlPrefix + job.dirName), CopyAssetsSpec(source, dir, st2, fs.faulty, 0));
    r := Ok(UrlPrefix + job.dirName);
  }

  /** `generatePortfolio(userId)`: the returned URL is the one stored in the portfolio, and it is
      stored only after the page was written and the assets copied. */
  method GeneratePortfolio(db: Db, fs: FileSystem, userId: Id, uuid: string, templatesRoot: Node,
                           generatedRoot: Path, render: Renderer) returns (r: Result<string, GenError>)
    requires db.Valid()
    modifies db, fs
    ensures db.Valid()
    ensures unchanged(db`users, db`works, db`templates, db`nextUserId, db`nextPortfolioId, db`nextWorkId)
    ensures var job := Prepare(old(db.users), old(db.portfolios), old(db.works), db.templates, userId, uuid);
      && (job.Err? ==> r == Err(job.error) && fs.State() == old(fs.State()))
      && (job.Ok? ==> Emitted(r, fs.State()) == Emit(job.value, templatesRoot, render, generatedRoot,
                                                    old(fs.State()), fs.faulty))
      && (r.Err? ==> db.portfolios == old(db.portfolios))
      && (r.Ok? ==>
            && job.Ok?
            && var k := job.value.index;
               db.portfolios == old(db.portfolios)[k := old(db.portfolios)[k].(generatedUrl := Some(r.value))])
  {
    var job := Prepare(db.users, db.portfolios, db.works, db.templates, userId, uuid);
    if job.Err? {
      return Err(job.error);
    }
    r := WriteSite(fs, job.value, templatesRoot, generatedRoot, render);
    if r.Ok? {
      StoreGeneratedUrl(db, job.value.index, r.value);
    }
  }

  /** `portfolio.update({ generatedUrl })` */
  method StoreGeneratedUrl(db: Db, k: nat, url: string)
    requires db.Valid() && k < |db.portfolios|
    modifies db
    ensures db.Valid()
    ensures unchanged(db`users, db`works, db`templates, db`nextUserId, db`nextPortfolioId, db`nextWorkId)
    ensures db.portfolios == old(db.portfolios)[k := old(db.portfolios)[k].(generatedUrl := Some(url))]
  {
    var p := db.portfolios[k].(generatedUrl := Some(url));
    ReplacePortfolioKeepsValid(db.portfolios, k, p, db.nextPortfolioId, db.nextUserId);
    db.portfolios := db.portfolios[k := p];
  }

  /** What `getPreviewData` returns. */
  datatype Preview = Preview(user: SafeUser, portfolio: Option<Portfolio>, works: seq<Work>)

  /** `getPreviewData(userId)`: a missing user makes `toSafeObject` throw; a missing portfolio is
      returned as null. */
  function GetPreviewData(users: seq<User>, portfolios: seq<Portfolio>, works: seq<Work>, userId: Id)
    : (r: Result<Preview, GenError>)
    ensures r.Err? <==> UserById(users, userId).None?
    ensures r.Ok? ==> r.value.user == ToSafeObject(UserById(users, userId).value)
    ensures r.Ok? ==> (r.value.portfolio.None? <==> PortfolioIndex(portfolios, userId).None?)
    ensures r.Ok? && r.value.portfolio.Some? ==>
      r.value.portfolio.value in portfolios && r.value.portfolio.value.userId == userId
    ensures r.Ok? ==> multiset(r.value.works) == multiset(OwnedBy(works, userId))
    ensures r.Ok? ==> forall i, j :: 0 <= i < j < |r.value.works| ==>
      r.value.works[i].sortOrder <= r.value.works[j].sortOrder
  {
    match UserById(users, userId)
    case None => Err(UserNotFound)
    case Some(user) =>
      var listed := ListWorks(works, userId);
      assert forall i, j :: 0 <= i < j < |listed| ==> listed[i].sortOrder <= listed[j].sortOrder by {
        forall i, j | 0 <= i < j < |listed| ensures listed[i].sortOrder <= listed[j].sortOrder {
          ListingAscendsBySortOrder(works, userId, i, j);
        }
      }
      var p := match PortfolioIndex(portfolios, userId)
        case None => None
        case Some(k) => Some(portfolios[k]);
      Ok(Preview(ToSafeObject(user), p, listed))
  }
}
