/**
 * The work service: listing, creation with `max(sortOrder) + 1`, owner-checked
 * update and delete, and the bulk reorder, as in-place changes of the works
 * table of a `Db`.
 */
module WorkService {
  import opened Wrappers
  import opened Records
  import opened Database
  import opened WorkQuery

  datatype WorkError =
    | NotFoundOrForbidden   // no row has both the id and the owner
    | ValidationFailed      // a Sequelize validation or NOT NULL violation
    | UnknownUser           // the foreign key to users is violated

  /** The attribute bag handed to `createWork`; `userId` and `sortOrder` in it are overridden. */
  datatype WorkData = WorkData(
    title: Field<string>,
    description: Field<string>,
    coverImage: Field<string>,
    category: Field<string>,
    link: Field<string>,
    userId: Field<Id>,
    sortOrder: Field<int>)

  /** The request body handed to `updateWork` (every attribute except the primary key). */
  datatype WorkPatch = WorkPatch(
    title: Field<string>,
    description: Field<string>,
    coverImage: Field<string>,
    category: Field<string>,
    link: Field<string>,
    userId: Field<Id>,
    sortOrder: Field<int>)

  // ------------------------------------------------------------ listing

  /** `getWorksByUserId` */
  function GetWorksByUserId(works: seq<Work>, userId: Id): (r: seq<Work>)
    ensures Sorted(r)
    ensures multiset(r) == multiset(OwnedBy(works, userId))
    ensures forall w :: w in r <==> w in works && w.userId == userId
  {
    ListWorks(works, userId)
  }

  // ------------------------------------------------------------ creation

  /** `Work.max('sortOrder', { where: { userId } })`: NULL when the user has no work. */
  function MaxSortOrder(works: seq<Work>, userId: Id): (r: Option<int>)
    ensures r.None? <==> forall i :: 0 <= i < |works| ==> works[i].userId != userId
    ensures r.Some? ==> exists i :: 0 <= i < |works| && works[i].userId == userId
                                    && works[i].sortOrder == r.value
    ensures r.Some? ==> forall i :: 0 <= i < |works| && works[i].userId == userId
                                    ==> works[i].sortOrder <= r.value
  {
    if works == [] then None
    else
      var rest := MaxSortOrder(works[1..], userId);
      assert forall i :: 1 <= i < |works| ==> works[i] == works[1..][i - 1];
      if works[0].userId != userId then rest
      else
        match rest
        case None => Some(works[0].sortOrder)
        case Some(m) => Some(if works[0].sortOrder >= m then works[0].sortOrder else m)
  }

  /** `(max || 0) + 1`: strictly above every sortOrder the user has, 1 for a first work. */
  function NextSortOrder(works: seq<Work>, userId: Id): (r: int)
    ensures forall i :: 0 <= i < |works| && works[i].userId == userId ==> works[i].sortOrder < r
    ensures (forall i :: 0 <= i < |works| ==> works[i].userId != userId) ==> r == 1
    ensures (exists i :: 0 <= i < |works| && works[i].userId == userId)
            ==> exists i :: 0 <= i < |works| && works[i].userId == userId
                            && r == works[i].sortOrder + 1
  {
    MaxSortOrder(works, userId).GetOr(0) + 1
  }

  /** The row `Work.create({ ...workData, userId, sortOrder })` would insert, after the
      column defaults, the `link` setter and the validations. */
  function NewWorkRow(id: Id, userId: Id, sortOrder: int, now: int, data: WorkData,
                      isUrl: string -> bool): (r: Result<Work, WorkError>)
    ensures r.Ok? <==> data.title.Given? && ValidTitle(data.title.value)
                       && (SetLink(Nullable(data.link)).Some? ==> isUrl(SetLink(Nullable(data.link)).value))
    ensures r.Err? ==> r.error == ValidationFailed
    ensures r.Ok? ==> ValidWork(r.value, isUrl)
    ensures r.Ok? ==> r.value.id == id && r.value.userId == userId && r.value.sortOrder == sortOrder
    ensures r.Ok? ==> r.value.title == data.title.value && r.value.createdAt == now
    ensures r.Ok? ==> r.value.category == WithDefault(data.category, DefaultCategory)
    ensures r.Ok? ==> r.value.link == SetLink(Nullable(data.link))
    ensures r.Ok? ==> r.value.description == Nullable(data.description)
                      && r.value.coverImage == Nullable(data.coverImage)
  {
    if !data.title.Given? then Err(ValidationFailed)
    else
      var w := Work(id, userId, data.title.value, Nullable(data.description),
                    Nullable(data.coverImage), WithDefault(data.category, DefaultCategory),
                    SetLink(Nullable(data.link)), sortOrder, now);
      if ValidWork(w, isUrl) then Ok(w) else Err(ValidationFailed)
  }

  /** The service's `userId` and `sortOrder` win over whatever the attribute bag carries. */
  lemma CreateIgnoresCallerOwnerAndOrder(id: Id, userId: Id, sortOrder: int, now: int,
                                         data: WorkData, isUrl: string -> bool)
    ensures NewWorkRow(id, userId, sortOrder, now, data, isUrl)
         == NewWorkRow(id, userId, sortOrder, now, data.(userId := Missing, sortOrder := Missing), isUrl)
  {
  }

  /** `createWork(userId, workData)` */
  method CreateWork(db: Db, userId: Id, data: WorkData, now: int) returns (r: Result<Work, WorkError>)
    requires db.Valid()
    modifies db
    ensures db.Valid()
    ensures unchanged(db`users, db`portfolios, db`templates, db`nextUserId, db`nextPortfolioId)
    ensures var row := NewWorkRow(old(db.nextWorkId), userId, NextSortOrder(old(db.works), userId),
                                  now, data, db.isUrl);
      r == if row.Err? then row
           else if UserById(db.users, userId).None? then Err(UnknownUser)
           else row
    ensures r.Ok? ==> db.works == old(db.works) + [r.value] && db.nextWorkId == old(db.nextWorkId) + 1
    ensures r.Ok? ==> r.value.userId == userId
    ensures r.Ok? ==> forall w :: w in old(db.works) && w.userId == userId ==> w.sortOrder < r.value.sortOrder
    ensures r.Err? ==> db.works == old(db.works) && db.nextWorkId == old(db.nextWorkId)
  {
    var sortOrder := NextSortOrder(db.works, userId);
    r := NewWorkRow(db.nextWorkId, userId, sortOrder, now, data, db.isUrl);
    if r.Ok? {
      if UserById(db.users, userId).None? {
        r := Err(UnknownUser);
      } else {
        AddWorkKeepsValid(db.works, r.value, db.nextWorkId, db.isUrl);
        db.works := db.works + [r.value];
        db.nextWorkId := db.nextWorkId + 1;
      }
    }
  }

  // ------------------------------------------------------------ update

  /** `work.update(updateData)`: keys absent from the body keep their value, `null` clears
      a nullable column and fails a NOT NULL one, the link goes through its setter, and the
      resulting row must validate. */
  function ApplyPatch(w: Work, p: WorkPatch, isUrl: string -> bool): (r: Result<Work, WorkError>)
    ensures r.Err? ==> r.error == ValidationFailed
    ensures p.title.Null? || p.userId.Null? || p.sortOrder.Null? ==> r.Err?
    ensures r.Ok? ==> ValidWork(r.value, isUrl) && r.value.id == w.id && r.value.createdAt == w.createdAt
    ensures r.Ok? ==> r.value.title == (if p.title.Given? then p.title.value else w.title)
    ensures r.Ok? ==> r.value.userId == (if p.userId.Given? then p.userId.value else w.userId)
    ensures r.Ok? ==> r.value.sortOrder == (if p.sortOrder.Given? then p.sortOrder.value else w.sortOrder)
    ensures r.Ok? ==> r.value.link == (if p.link.Missing? then w.link else SetLink(Nullable(p.link)))
    ensures r.Ok? ==> r.value.category == (if p.category.Missing? then w.category else Nullable(p.category))
    ensures r.Ok? ==> r.value.description == (if p.description.Missing? then w.description else Nullable(p.description))
    ensures r.Ok? ==> r.value.coverImage == (if p.coverImage.Missing? then w.coverImage else Nullable(p.coverImage))
    ensures var link := if p.link.Missing? then w.link else SetLink(Nullable(p.link));
      r.Ok? <==> && !(p.title.Null? || p.userId.Null? || p.sortOrder.Null?)
                 && ValidTitle(if p.title.Given? then p.title.value else w.title)
                 && (link.Some? ==> isUrl(link.value))
  {
    if p.title.Null? || p.userId.Null? || p.sortOrder.Null? then Err(ValidationFailed)
    else
      var w' := Work(
        w.id,
        if p.userId.Given? then p.userId.value else w.userId,
        if p.title.Given? then p.title.value else w.title,
        if p.description.Missing? then w.description else Nullable(p.description),
        if p.coverImage.Missing? then w.coverImage else Nullable(p.coverImage),
        if p.category.Missing? then w.category else Nullable(p.category),
        if p.link.Missing? then w.link else SetLink(Nullable(p.link)),
        if p.sortOrder.Given? then p.sortOrder.value else w.sortOrder,
        w.createdAt);
      if ValidWork(w', isUrl) then Ok(w') else Err(ValidationFailed)
  }

  /** An empty body leaves a valid row as it is. */
  lemma EmptyPatchKeepsRow(w: Work, isUrl: string -> bool)
    requires ValidWork(w, isUrl)
    ensures ApplyPatch(w, WorkPatch(Missing, Missing, Missing, Missing, Missing, Missing, Missing), isUrl) == Ok(w)
  {
  }

  /** Applying the same body twice gives the row of applying it once. */
  lemma PatchIdempotent(w: Work, p: WorkPatch, isUrl: string -> bool)
    requires ApplyPatch(w, p, isUrl).Ok?
    ensures ApplyPatch(ApplyPatch(w, p, isUrl).value, p, isUrl) == ApplyPatch(w, p, isUrl)
  {
    SetLinkIdempotent(Nullable(p.link));
  }

  /** As written, a body that names another user moves the work to that user: the owner
      check decides who may edit, not what the edit may change. */
  lemma PatchCanTransferOwnership(w: Work, other: Id, isUrl: string -> bool)
    requires ValidWork(w, isUrl) && other != w.userId
    ensures ApplyPatch(w, WorkPatch(Missing, Missing, Missing, Missing, Missing, Given(other), Missing), isUrl)
            == Ok(w.(userId := other))
  {
  }

  /** The update with the owner taken from the service, as `createWork` does: a `userId` in the
      body is ignored, everything else is applied as by `ApplyPatch`. */
  function ApplyOwnedPatch(w: Work, p: WorkPatch, isUrl: string -> bool): (r: Result<Work, WorkError>)
    ensures r.Ok? ==> r.value.userId == w.userId && r.value.id == w.id
    ensures p.userId.Missing? ==> r == ApplyPatch(w, p, isUrl)
    ensures ApplyPatch(w, p, isUrl).Ok? ==> r == Ok(ApplyPatch(w, p, isUrl).value.(userId := w.userId))
  {
    ApplyPatch(w, p.(userId := Missing), isUrl)
  }

  /** The row with id `workId` owned by `userId`: `Work.findOne({ where: { id, userId } })`. */
  function OwnedIndex(works: seq<Work>, workId: Id, userId: Id): (r: Option<nat>)
    ensures r.Some? ==> r.value < |works| && works[r.value].id == workId && works[r.value].userId == userId
    ensures r.None? ==> forall k :: 0 <= k < |works| ==> !(works[k].id == workId && works[k].userId == userId)
  {
    FindFirst(works, (w: Work) => w.id == workId && w.userId == userId)
  }

  /** `updateWork(workId, userId, updateData)` */
  method UpdateWork(db: Db, workId: Id, userId: Id, patch: WorkPatch) returns (r: Result<Work, WorkError>)
    requires db.Valid()
    modifies db
    ensures db.Valid()
    ensures unchanged(db`users, db`portfolios, db`templates, db`nextUserId, db`nextPortfolioId, db`nextWorkId)
    ensures var k := OwnedIndex(old(db.works), workId, userId);
      r == if k.None? then Err(NotFoundOrForbidden)
           else var a := ApplyPatch(old(db.works)[k.value], patch, db.isUrl);
             if a.Ok? && UserById(db.users, a.value.userId).None? then Err(UnknownUser) else a
    ensures r.Err? ==> db.works == old(db.works)
    ensures r.Ok? ==> var k := OwnedIndex(old(db.works), workId, userId);
      && k.Some?
      && UserById(db.users, r.value.userId).Some?
      && (patch.userId.Given? ==> r.value.userId == patch.userId.value)
      && db.works == old(db.works)[k.value := r.value]
  {
    var k := OwnedIndex(db.works, workId, userId);
    if k.None? {
      return Err(NotFoundOrForbidden);
    }
    r := ApplyPatch(db.works[k.value], patch, db.isUrl);
    if r.Ok? {
      if UserById(db.users, r.value.userId).None? {
        r := Err(UnknownUser);
      } else {
        db.works := db.works[k.value := r.value];
      }
    }
  }

  /** `updateWork` with the owner kept: after a successful update the caller still owns the
      work, so it stays in the caller's listing. */
  method UpdateOwnedWork(db: Db, workId: Id, userId: Id, patch: WorkPatch) returns (r: Result<Work, WorkError>)
    requires db.Valid()
    modifies db
    ensures db.Valid()
    ensures unchanged(db`users, db`portfolios, db`templates, db`nextUserId, db`nextPortfolioId, db`nextWorkId)
    ensures var k := OwnedIndex(old(db.works), workId, userId);
      r == if k.None? then Err(NotFoundOrForbidden) else ApplyOwnedPatch(old(db.works)[k.value], patch, db.isUrl)
    ensures r.Err? ==> db.works == old(db.works)
    ensures r.Ok? ==> var k := OwnedIndex(old(db.works), workId, userId);
      && k.Some?
      && db.works == old(db.works)[k.value := r.value]
    ensures r.Ok? ==> r.value.userId == userId && OwnedIndex(db.works, workId, userId).Some?
  {
    var k := OwnedIndex(db.works, workId, userId);
    if k.None? {
      return Err(NotFoundOrForbidden);
    }
    r := ApplyOwnedPatch(db.works[k.value], patch, db.isUrl);
    if r.Ok? {
      db.works := db.works[k.value := r.value];
      assert db.works[k.value].id == workId && db.works[k.value].userId == userId;
    }
  }

  // ------------------------------------------------------------ delete

  /** `deleteWork(workId, userId)` */
  method DeleteWork(db: Db, workId: Id, userId: Id) returns (r: Result<(), WorkError>)
    requires db.Valid()
    modifies db
    ensures db.Valid()
    ensures unchanged(db`users, db`portfolios, db`templates, db`nextUserId, db`nextPortfolioId, db`nextWorkId)
    ensures r.Err? <==> OwnedIndex(old(db.works), workId, userId).None?
    ensures r.Err? ==> r.error == NotFoundOrForbidden && db.works == old(db.works)
    ensures r.Ok? ==> var k := OwnedIndex(old(db.works), workId, userId).value;
      db.works == old(db.works)[..k] + old(db.works)[k + 1..]
    ensures r.Ok? ==> forall w :: w in db.works <==> w in old(db.works) && w.id != workId
  {
    var k := OwnedIndex(db.works, workId, userId);
    if k.None? {
      return Err(NotFoundOrForbidden);
    }
    var i := k.value;
    RemoveAtKeepsOthers(db.works, i, db.nextWorkId, db.isUrl);
    db.works := db.works[..i] + db.works[i + 1..];
    r := Ok(());
  }

  /** Where each row of the table without row `i` came from. */
  lemma RemoveAtIndices(works: seq<Work>, i: nat)
    requires i < |works|
    ensures var rest := works[..i] + works[i + 1..];
      |rest| == |works| - 1 && forall j :: 0 <= j < |rest| ==> rest[j] == works[if j < i then j else j + 1]
  {
  }

  lemma RemoveAtKeepsValid(works: seq<Work>, i: nat, nextId: Id, isUrl: string -> bool)
    requires i < |works| && WorksValid(works, nextId, isUrl)
    ensures WorksValid(works[..i] + works[i + 1..], nextId, isUrl)
  {
    var rest := works[..i] + works[i + 1..];
    RemoveAtIndices(works, i);
    forall j | 0 <= j < |rest| ensures rest[j].id < nextId && ValidWork(rest[j], isUrl) {
      assert rest[j] == works[if j < i then j else j + 1];
    }
    forall j, k | 0 <= j < k < |rest| ensures rest[j].id != rest[k].id {
      var j', k' := if j < i then j else j + 1, if k < i then k else k + 1;
      assert rest[j] == works[j'] && rest[k] == works[k'] && j' < k';
    }
  }

  /** Removing the row at `i` from a table with unique ids removes exactly the rows with that
      id, and keeps the table valid. */
  lemma RemoveAtKeepsOthers(works: seq<Work>, i: nat, nextId: Id, isUrl: string -> bool)
    requires i < |works| && WorksValid(works, nextId, isUrl)
    ensures var rest := works[..i] + works[i + 1..];
      WorksValid(rest, nextId, isUrl)
      && forall w :: w in rest <==> w in works && w.id != works[i].id
  {
    var rest := works[..i] + works[i + 1..];
    RemoveAtKeepsValid(works, i, nextId, isUrl);
    RemoveAtIndices(works, i);
    forall w ensures w in rest <==> w in works && w.id != works[i].id {
      if w in rest {
        var j :| 0 <= j < |rest| && rest[j] == w;
        if j < i {
          assert w == works[j] && works[j].id != works[i].id;
        } else {
          assert w == works[j + 1] && works[i].id != works[j + 1].id;
        }
      }
      if w in works && w.id != works[i].id {
        var j :| 0 <= j < |works| && works[j] == w;
        assert j != i;
        assert rest[if j < i then j else j - 1] == w;
      }
    }
  }

  // ------------------------------------------------------------ reorder

  /** The last position of `x` in `ids`: with sequential updates, the last one wins. */
  function LastIndex(ids: seq<Id>, x: Id): (r: Option<nat>)
    ensures r.Some? ==> r.value < |ids| && ids[r.value] == x
    ensures r.Some? ==> forall j :: r.value < j < |ids| ==> ids[j] != x
    ensures r.None? <==> x !in ids
  {
    if ids == [] then None
    else if ids[|ids| - 1] == x then Some(|ids| - 1)
    else
      var r := LastIndex(ids[..|ids| - 1], x);
      assert x in ids[..|ids| - 1] ==> x in ids;
      assert x in ids && ids[|ids| - 1] != x ==> x in ids[..|ids| - 1] by {
        if x in ids && ids[|ids| - 1] != x {
          var j :| 0 <= j < |ids| && ids[j] == x;
          assert ids[..|ids| - 1][j] == x;
        }
      }
      r
  }

  /** A row after the reorder: the caller's listed rows take their (last) position. */
  function Renumbered(w: Work, userId: Id, ids: seq<Id>): (r: Work)
    ensures r == w.(sortOrder := r.sortOrder)
  {
    if w.userId == userId && LastIndex(ids, w.id).Some? then w.(sortOrder := LastIndex(ids, w.id).value)
    else w
  }

  /** The works table after `updateWorkOrder(userId, ids)`. */
  function Reordered(works: seq<Work>, userId: Id, ids: seq<Id>): (r: seq<Work>)
    ensures |r| == |works|
    ensures forall k :: 0 <= k < |works| ==> r[k] == Renumbered(works[k], userId, ids)
  {
    seq(|works|, k requires 0 <= k < |works| => Renumbered(works[k], userId, ids))
  }

  /** One `Work.update({ sortOrder: order }, { where: { id, userId } })`. */
  function SetSortOrderWhere(works: seq<Work>, id: Id, userId: Id, order: int): (r: seq<Work>)
    ensures |r| == |works|
    ensures forall k :: 0 <= k < |works| ==>
      r[k] == if works[k].id == id && works[k].userId == userId then works[k].(sortOrder := order) else works[k]
  {
    seq(|works|, k requires 0 <= k < |works| =>
      if works[k].id == id && works[k].userId == userId then works[k].(sortOrder := order) else works[k])
  }

  /** Reordering by one more id is one more single-row update. */
  lemma ReorderedStep(works: seq<Work>, userId: Id, ids: seq<Id>, i: nat)
    requires i < |ids|
    ensures Reordered(works, userId, ids[..i + 1])
         == SetSortOrderWhere(Reordered(works, userId, ids[..i]), ids[i], userId, i)
  {
    var longer := ids[..i + 1];
    assert longer[..|longer| - 1] == ids[..i];
    var a := Reordered(works, userId, longer);
    var b := SetSortOrderWhere(Reordered(works, userId, ids[..i]), ids[i], userId, i);
    forall k | 0 <= k < |works| ensures a[k] == b[k] {
      if works[k].id != ids[i] {
        assert LastIndex(longer, works[k].id) == LastIndex(ids[..i], works[k].id);
      }
    }
  }

  /** `updateWorkOrder(userId, workIds)`, with the updates run one after another. */
  method UpdateWorkOrder(db: Db, userId: Id, workIds: seq<Id>)
    requires db.Valid()
    modifies db
    ensures db.Valid()
    ensures unchanged(db`users, db`portfolios, db`templates, db`nextUserId, db`nextPortfolioId, db`nextWorkId)
    ensures db.works == Reordered(old(db.works), userId, workIds)
  {
    var i := 0;
    while i < |workIds|
      invariant 0 <= i <= |workIds|
      invariant unchanged(db`users, db`portfolios, db`templates, db`nextUserId, db`nextPortfolioId, db`nextWorkId)
      invariant db.works == Reordered(old(db.works), userId, workIds[..i])
      invariant db.Valid()
    {
      ReorderedStep(old(db.works), userId, workIds, i);
      db.works := SetSortOrderWhere(db.works, workIds[i], userId, i);
      i := i + 1;
    }
    assert workIds[..i] == workIds;
  }

  predicate Distinct(ids: seq<Id>) {
    forall i, j :: 0 <= i < j < |ids| ==> ids[i] != ids[j]
  }

  /** With distinct ids, the caller's work listed at position i gets sortOrder i; rows of
      other users, and rows not listed, are untouched. */
  lemma ReorderAssignsPositions(works: seq<Work>, userId: Id, ids: seq<Id>)
    requires Distinct(ids)
    ensures var after := Reordered(works, userId, ids);
      forall k, i :: 0 <= k < |works| && 0 <= i < |ids| && works[k].id == ids[i] && works[k].userId == userId
        ==> after[k].sortOrder == i
    ensures var after := Reordered(works, userId, ids);
      forall k :: 0 <= k < |works| && (works[k].userId != userId || works[k].id !in ids) ==> after[k] == works[k]
  {
    var after := Reordered(works, userId, ids);
    forall k, i | 0 <= k < |works| && 0 <= i < |ids| && works[k].id == ids[i] && works[k].userId == userId
      ensures after[k].sortOrder == i
    {
      var last := LastIndex(ids, works[k].id);
      assert last.Some?;
      assert last.value == i;
    }
  }

  // ------------------------------------------------------------ reorder, then list

  predicate UniqueIds(works: seq<Work>) {
    forall i, j :: 0 <= i < j < |works| ==> works[i].id != works[j].id
  }

  predicate NoDuplicates(s: seq<Work>) {
    forall i, j :: 0 <= i < j < |s| ==> s[i] != s[j]
  }

  /** `ids` lists every work of `userId` exactly once, and nothing else. */
  predicate ListsAllOwned(works: seq<Work>, userId: Id, ids: seq<Id>) {
    && Distinct(ids)
    && (forall k :: 0 <= k < |works| && works[k].userId == userId ==> works[k].id in ids)
    && (forall i :: 0 <= i < |ids| ==>
          exists k :: 0 <= k < |works| && works[k].id == ids[i] && works[k].userId == userId)
  }

  lemma {:induction false} NoDuplicatesCountsOnce(s: seq<Work>, x: Work)
    requires NoDuplicates(s)
    ensures multiset(s)[x] <= 1
  {
    if s != [] {
      assert s == [s[0]] + s[1..];
      NoDuplicatesCountsOnce(s[1..], x);
      if s[0] == x {
        assert x !in s[1..];
      }
    }
  }

  /** A rearrangement of a list without duplicates has none either. */
  lemma PermutationKeepsNoDuplicates(a: seq<Work>, b: seq<Work>)
    requires NoDuplicates(a) && multiset(a) == multiset(b)
    ensures NoDuplicates(b)
  {
    forall i, j | 0 <= i < j < |b| ensures b[i] != b[j] {
      if b[i] == b[j] {
        var x := b[i];
        assert b == b[..j] + b[j..];
        assert x in b[..j] && x in b[j..];
        assert multiset(b)[x] == multiset(b[..j])[x] + multiset(b[j..])[x];
        NoDuplicatesCountsOnce(a, x);
        assert false;
      }
    }
  }

  lemma {:induction false} OwnedByNoDuplicates(works: seq<Work>, userId: Id)
    requires UniqueIds(works)
    ensures NoDuplicates(OwnedBy(works, userId))
  {
    if works != [] {
      var rest := OwnedBy(works[1..], userId);
      assert UniqueIds(works[1..]) by {
        forall i, j | 0 <= i < j < |works[1..]| ensures works[1..][i].id != works[1..][j].id {
          assert works[1..][i] == works[i + 1] && works[1..][j] == works[j + 1];
        }
      }
      OwnedByNoDuplicates(works[1..], userId);
      if works[0].userId == userId {
        forall x | x in rest ensures x.id != works[0].id {
          var k :| 0 <= k < |works[1..]| && works[1..][k] == x;
          assert works[k + 1] == x;
        }
        var r := [works[0]] + rest;
        forall i, j | 0 <= i < j < |r| ensures r[i] != r[j] {
          if i == 0 { assert r[j] in rest; } else { assert r[i] == rest[i - 1] && r[j] == rest[j - 1]; }
        }
      }
    }
  }

  /** A strictly increasing list of values in [0, n) that takes every such value is 0, 1, …, n-1. */
  lemma IncreasingCover(s: seq<int>, n: nat)
    requires forall i, j :: 0 <= i < j < |s| ==> s[i] < s[j]
    requires forall i :: 0 <= i < |s| ==> 0 <= s[i] < n
    requires forall v :: 0 <= v < n ==> v in s
    ensures |s| == n
    ensures forall i :: 0 <= i < |s| ==> s[i] == i
  {
    AtLeastIndex(s, |s|);
    var k := 0;
    while k < |s|
      invariant 0 <= k <= |s|
      invariant forall m :: 0 <= m < k ==> s[m] == m
    {
      assert k <= s[k] < n;
      assert k in s;
      var m :| 0 <= m < |s| && s[m] == k;
      assert m == k;  // an earlier index holds its own value, a later one more than s[k]
      k := k + 1;
    }
    if |s| > 0 {
      assert s[|s| - 1] == |s| - 1 < n;
    }
    if n > 0 {
      assert n - 1 in s;
      var m :| 0 <= m < |s| && s[m] == n - 1;
      assert s[m] == m;
      assert n <= |s|;
    }
  }

  lemma {:induction false} AtLeastIndex(s: seq<int>, k: nat)
    requires k <= |s|
    requires forall i, j :: 0 <= i < j < |s| ==> s[i] < s[j]
    requires forall i :: 0 <= i < |s| ==> 0 <= s[i]
    ensures forall i :: 0 <= i < k ==> s[i] >= i
  {
    if k > 0 {
      AtLeastIndex(s, k - 1);
      if k >= 2 { assert s[k - 2] < s[k - 1]; }
    }
  }

  /** After the reorder, each of the caller's rows carries the position of its id. */
  lemma ReorderedPositions(works: seq<Work>, userId: Id, ids: seq<Id>)
    requires ListsAllOwned(works, userId, ids)
    ensures forall x :: x in Reordered(works, userId, ids) && x.userId == userId ==>
        0 <= x.sortOrder < |ids| && ids[x.sortOrder] == x.id
  {
    var after := Reordered(works, userId, ids);
    forall x | x in after && x.userId == userId
      ensures 0 <= x.sortOrder < |ids| && ids[x.sortOrder] == x.id
    {
      var k :| 0 <= k < |after| && after[k] == x;
      assert works[k].id in ids;
    }
  }

  /** Two different rows of a table with unique ids have different ids. */
  lemma DistinctRowsDistinctIds(works: seq<Work>, x: Work, y: Work)
    requires UniqueIds(works) && x in works && y in works && x != y
    ensures x.id != y.id
  {
    var a :| 0 <= a < |works| && works[a] == x;
    var b :| 0 <= b < |works| && works[b] == y;
    assert a != b;
    if a < b { assert works[a].id != works[b].id; } else { assert works[b].id != works[a].id; }
  }

  function SortOrders(s: seq<Work>): (r: seq<int>)
    ensures |r| == |s| && forall i :: 0 <= i < |s| ==> r[i] == s[i].sortOrder
  {
    seq(|s|, i requires 0 <= i < |s| => s[i].sortOrder)
  }

  /** In a table with unique ids whose caller rows carry the position of their id, the
      listing's sortOrders strictly increase. */
  lemma ListingStrictlyIncreases(after: seq<Work>, userId: Id, ids: seq<Id>)
    requires UniqueIds(after)
    requires forall x :: x in after && x.userId == userId ==>
        0 <= x.sortOrder < |ids| && ids[x.sortOrder] == x.id
    ensures var orders := SortOrders(GetWorksByUserId(after, userId));
      forall i, j :: 0 <= i < j < |orders| ==> orders[i] < orders[j]
  {
    var listing := GetWorksByUserId(after, userId);
    OwnedByNoDuplicates(after, userId);
    PermutationKeepsNoDuplicates(OwnedBy(after, userId), listing);
    forall i, j | 0 <= i < j < |listing| ensures listing[i].sortOrder < listing[j].sortOrder {
      assert Precedes(listing[i], listing[j]);
      assert listing[i] in after && listing[j] in after;
      DistinctRowsDistinctIds(after, listing[i], listing[j]);
    }
  }

  /** After a reorder by a permutation of the caller's ids, the listing takes every
      position 0 … n-1, and no other. */
  lemma ListingCoversPositions(works: seq<Work>, userId: Id, ids: seq<Id>)
    requires ListsAllOwned(works, userId, ids)
    ensures var orders := SortOrders(GetWorksByUserId(Reordered(works, userId, ids), userId));
      && (forall v :: 0 <= v < |ids| ==> v in orders)
      && (forall i :: 0 <= i < |orders| ==> 0 <= orders[i] < |ids|)
  {
    var after := Reordered(works, userId, ids);
    var listing := GetWorksByUserId(after, userId);
    var orders := SortOrders(listing);
    ReorderedPositions(works, userId, ids);
    ReorderAssignsPositions(works, userId, ids);
    forall v | 0 <= v < |ids| ensures v in orders {
      var k :| 0 <= k < |works| && works[k].id == ids[v] && works[k].userId == userId;
      assert after[k] in listing;
      var i :| 0 <= i < |listing| && listing[i] == after[k];
      assert orders[i] == v;
    }
    forall i | 0 <= i < |orders| ensures 0 <= orders[i] < |ids| {
      assert listing[i] in after;
    }
  }

  /**
   * Reordering with a permutation of all of a user's work ids, then listing the user's
   * works, returns them in exactly that order, numbered 0, 1, …, n-1.
   */
  lemma ReorderThenList(works: seq<Work>, userId: Id, ids: seq<Id>)
    requires UniqueIds(works)
    requires ListsAllOwned(works, userId, ids)
    ensures var listing := GetWorksByUserId(Reordered(works, userId, ids), userId);
      |listing| == |ids|
      && forall i :: 0 <= i < |ids| ==> listing[i].id == ids[i] && listing[i].sortOrder == i
  {
    var after := Reordered(works, userId, ids);
    assert UniqueIds(after);
    ReorderedPositions(works, userId, ids);
    ListingStrictlyIncreases(after, userId, ids);
    ListingCoversPositions(works, userId, ids);
    var listing := GetWorksByUserId(after, userId);
    var orders := SortOrders(listing);
    IncreasingCover(orders, |ids|);
    forall i | 0 <= i < |ids| ensures listing[i].id == ids[i] && listing[i].sortOrder == i {
      assert orders[i] == i;
      assert listing[i] in after;
    }
  }
}
