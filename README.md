# Portfolio generator — a verified model of its core

Portfolio-generator is an Express/Sequelize server with a React client. A user
registers, keeps a catalogue of works, configures a portfolio (title, bio,
social links, template), and has the server generate a static site from that
data. This project models the server's logic and two small client helpers in
Dafny, and proves what the code promises. The modelled parts are:

- the path sanitiser `toSafePathSegment`;
- the site generator `generatePortfolio`, with `copyStaticAssets`, `copyDir` and
  `getPreviewData`;
- the work service: listing, creation with `max(sortOrder) + 1`, owner-checked
  update and delete, and the bulk reorder;
- registration and login, with the user-model hooks (hash on create, re-hash only
  on change), the safe projection and the work-model rules (title length, link
  normalisation, defaults);
- the portfolio controller: the `updateConfig` upsert and merge, `getConfig`, and
  `getTemplates`;
- the bearer-token middlewares and the client's header construction;
- `resolveBackendUrl`;
- the upload filter and file naming.

Layout, one module per file:

- `wrappers.dfy`: `Option`, `Result`, and `Field`. `Field` tells a JSON key that is
  absent (`Missing`) from one that is `null` (`Null`). Sequelize defaults apply
  only to the first, while `??` treats both alike.
- `text.dfy`: the JavaScript string built-ins that are used: `startsWith`,
  case-insensitive prefixes, `trim` blanks, `split`, and decimal rendering.
- `path_segment.dfy`: the sanitiser as a chain of pure rewrites.
- `records.dfy`: the rows of the four tables and the model-level rules.
- `database.dfy`: the class `Db`. Its fields are the four tables as sequences in
  insertion order and the auto-increment counters. `Valid()` holds the schema's
  unique keys (ids, usernames, emails, one portfolio per user), the model
  validations, ids below their counters, and portfolio owner ids below the user
  counter. The owner of a work is checked only when a work is written
  (`CreateWork`, `UpdateWork`); `Valid()` does not hold it.
- `work_query.dfy` and `work_service.dfy`: the work listing order and the work
  service methods over `Db`.
- `auth_service.dfy`, `portfolio_controller.dfy`, `auth_middleware.dfy`,
  `client_api.dfy` and `upload.dfy`.
- `file_tree.dfy`: a read-only source tree (the template directory) and the
  class `FileSystem`. `FileSystem` holds the created directories and written
  files, plus a set of paths on which every write or `mkdir` fails.
- `generator.dfy`: the generator. It has a pure database phase (`Prepare`), a pure
  file-system phase (`Emit`), and the method `GeneratePortfolio` that runs both
  against a `Db` and a `FileSystem`.

The source calls foreign libraries: bcrypt, `jwt.sign` and `jwt.verify`,
`uuidv4`, `ejs.render`, `new URL`, `path.extname`, and validator's `isEmail` and
`isUrl`. Each becomes a function-typed parameter (or a `const` of `Db`), and
nothing is assumed about its internals. Clocks are a `now` parameter. The fresh
uuid is a parameter.

The model follows the code in the following places, where the code behaves
differently from what a reader might expect:

- A sanitised name can end in `_`. The trim runs before the 32-character cut,
  so the cut can expose a `_` (`TruncatedResultMayEndInUnderscore`).
- `copyStaticAssets` swallows every error of a folder, not only a missing
  source folder. A failing write inside `css` is skipped like a missing `js`
  (`AssetFolderCopiedDespiteOtherFaults`), and the asset step never makes
  generation fail (`Emit`). A successful generation still contains every
  asset folder whose own output copy hit no fault (`EmitCopiesAssetFolder`).
- The template is taken from the portfolio's `templateId` whether or not the
  template is active.
- The output directory is created before `index.ejs` is read. A missing
  template therefore leaves an empty output directory behind, although the
  URL is not stored.
- Hashing is a hook on create and on update, not a step of the registration
  service. The create hook hashes only a non-empty password. The column is NOT
  NULL but may be empty, so an empty password is stored as it is.

## Model

| member | source | states |
|---|---|---|
| PathSegment.ToSafePathSegment | server/src/services/generatorService.js:16-25 | null/undefined is read as `""`; an empty cleaned result gives `fallback` unchanged; otherwise the result is the cleaned string, which has 1–32 characters, all in `[A-Za-z0-9_-]`, no `__`, and does not start with `_` |
| PathSegment.ReplaceUnsafe | server/src/services/generatorService.js:19 | same length; each unsafe character becomes `_` and safe ones stay |
| PathSegment.Collapse | server/src/services/generatorService.js:20 | no two adjacent `_` remain; the first character is kept; safety is preserved; never longer |
| PathSegment.CollapseKeepsLast | server/src/services/generatorService.js:20 | the last character is kept |
| PathSegment.CollapseCons | server/src/services/generatorService.js:20 | a character in front of a non-empty rest is dropped exactly when it and the rest's first character are both `_` |
| PathSegment.CollapseRun | server/src/services/generatorService.js:20 | a run of one or more `_` becomes exactly one `_` |
| PathSegment.CollapseConcat | server/src/services/generatorService.js:20 | two strings with no `_` run across their boundary collapse independently |
| PathSegment.CollapseTrailingRun | server/src/services/generatorService.js:20 | a string the collapse keeps, followed by a run of `_`, keeps exactly one `_` of the run |
| PathSegment.SanitisedExample | server/src/services/generatorService.js:16-25 | `My User!!` becomes `My_User`: the space and the two `!` become `_`, the trailing pair is collapsed and then trimmed |
| PathSegment.CollapseKeepsOtherCharacters | server/src/services/generatorService.js:20 | collapsing changes only `_` runs: the non-`_` characters are exactly those of the input, in order |
| PathSegment.TrimStart | server/src/services/generatorService.js:21 | the result is a suffix of the input, everything removed was `_`, and it does not start with `_` |
| PathSegment.TrimEnd | server/src/services/generatorService.js:21 | the result is a prefix of the input, everything removed was `_`, and it does not end with `_` |
| PathSegment.Trim | server/src/services/generatorService.js:21 | removing every leading and every trailing `_`, done as two steps: leading ones first, then trailing ones |
| PathSegment.Truncate | server/src/services/generatorService.js:22 | the result is the first `min(32, length)` characters |
| PathSegment.Cleaned | server/src/services/generatorService.js:18-22 | the cleaning chain in source order: replace unsafe characters, collapse `_` runs, trim `_` at both ends, keep at most 32 characters |
| PathSegment.SliceKeepsShape | server/src/services/generatorService.js:22 | a slice of a safe string without `__` is again safe and without `__` |
| PathSegment.TrimmedShape | server/src/services/generatorService.js:18-21 | after replace, collapse and trim, the string is safe, has no `__`, and has no `_` at either end |
| PathSegment.CleanedIsSafe | server/src/services/generatorService.js:18-22 | a non-empty cleaned string is a safe segment |
| PathSegment.NullGivesFallback | server/src/services/generatorService.js:17-24 | `null` and `""` both give the fallback |
| PathSegment.NoSafeContentGivesFallback | server/src/services/generatorService.js:18-24 | input made only of unsafe characters and `_` gives the fallback |
| PathSegment.ReplaceUnsafeFixesSafe | server/src/services/generatorService.js:19 | the replacement leaves a safe string unchanged |
| PathSegment.CollapseFixesNoDouble | server/src/services/generatorService.js:20 | collapsing leaves a string without `__` unchanged |
| PathSegment.ResanitiseSafeSegment | server/src/services/generatorService.js:16-25 | sanitising a sanitised result again only drops a trailing `_` |
| PathSegment.IdempotentUnlessTrailingUnderscore | server/src/services/generatorService.js:16-25 | sanitising twice equals sanitising once exactly when the first result does not end in `_` |
| PathSegment.TruncatedResultMayEndInUnderscore | server/src/services/generatorService.js:21-22 | a 33-character input whose 32nd character is `_` gives a 32-character result ending in `_` |
| Records.ValidUser | server/src/models/User.js:15-28 | a stored user's username has 2 to 50 characters and the `isEmail` check accepts its email |
| Records.ValidatePassword | server/src/models/User.js:57-59 | a password is accepted exactly when its hash equals the stored `passwordHash` (the hash parameter stands for `bcrypt.compare`) |
| Records.ValidTitle | server/src/models/Work.js:23-29 | a work title has 1 to 100 characters |
| Records.ValidWork | server/src/models/Work.js:23-49 | a stored work has a valid title and, when its link is present, the `isUrl` check accepts the link |
| Records.ToSafeObject | server/src/models/User.js:62-70 | the projection carries `id`, `username`, `email`, `avatar` and `createdAt` unchanged |
| Records.SafeObjectHidesOnlyTheHash | server/src/models/User.js:62-70 | two users have the same projection exactly when they differ at most in `passwordHash` |
| Records.BeforeCreate | server/src/models/User.js:43-47 | a non-empty `passwordHash` is replaced by its hash once, an empty one is kept, and no other field changes |
| Records.BeforeUpdate | server/src/models/User.js:48-52 | the hash is recomputed exactly when `passwordHash` changed; otherwise the row is untouched |
| Records.UnchangedHashIsNotRehashed | server/src/models/User.js:48-52 | saving a user with an unchanged stored hash keeps that hash |
| Records.CreatedUserAcceptsItsPassword | server/src/models/User.js:43-59 | after create, `validatePassword` accepts the original password, and another password exactly when it hashes alike |
| Records.SetLink | server/src/models/Work.js:50-56 | a string whose trim is empty is stored as null; any other value is stored as given |
| Records.SetLinkIdempotent | server/src/models/Work.js:50-56 | setting the stored value again changes nothing |
| Records.Nullable | server/src/controllers/portfolioController.js:45-52 | a given value is stored; an absent or null one leaves the nullable column null |
| Records.WithDefault | server/src/models/Work.js:39-43 | an absent value takes the column default, null stays null, and a given value is stored |
| Records.NewPortfolio | server/src/models/Portfolio.js:24-55 | absent title, social links and custom config take their defaults (`我的作品集`, `{}`, `{}`); no template; no generated URL |
| Database.FindFirst | server/src/services/authService.js:16 | the index of the first row in insertion order that satisfies the condition; none when no row does |
| Database.FindFirstAppend | server/src/services/authService.js:27-32 | after a row is appended, a lookup finds an old row first and the new row only when no old row matches |
| Database.UserWhere | server/src/services/authService.js:16-25 | the first user row satisfying the condition, or none when no row does; the lookups by id, email and username are instances of it |
| Database.UserById | server/src/services/generatorService.js:32 | `findByPk`: a row of the table with that id, or none when no row has it |
| Database.UserByEmail | server/src/services/authService.js:21-25 | a row with that email, or none when no row has it |
| Database.UserByUsername | server/src/services/authService.js:16 | a row with that username, or none when no row has it |
| Database.PortfolioIndex | server/src/controllers/portfolioController.js:41 | the position of the user's portfolio, or none when the user has none |
| Database.TemplateById | server/src/services/generatorService.js:40 | a template row with that id, or none |
| WorkQuery.Precedes | server/src/services/workService.js:14 | the listing order: smaller `sortOrder` first, and on equal `sortOrder` the later `createdAt` first |
| WorkQuery.OwnedBy | server/src/services/workService.js:13 | exactly the works whose `userId` matches |
| WorkQuery.Insert | server/src/services/workService.js:14 | inserting into a sorted listing keeps it sorted and adds exactly the new row |
| WorkQuery.Sort | server/src/services/workService.js:14 | the result is ordered and is a permutation of the input |
| WorkQuery.ListWorks | server/src/services/workService.js:11-16 | the listing is a permutation of the user's works, ordered by `sortOrder` ascending and then `createdAt` descending |
| WorkQuery.ListingAscendsBySortOrder | server/src/services/workService.js:14 | in a listing, `sortOrder` never decreases |
| WorkService.GetWorksByUserId | server/src/services/workService.js:11-16 | exactly the user's works, in listing order |
| WorkService.MaxSortOrder | server/src/services/workService.js:23 | SQL `MAX`: none exactly when the user has no work; otherwise the value belongs to one of the user's works and bounds all of them |
| WorkService.NextSortOrder | server/src/services/workService.js:23-28 | `(max or 0) + 1`: strictly above every `sortOrder` the user has, and 1 for a first work |
| WorkService.NewWorkRow | server/src/services/workService.js:25-29 | the row is created exactly when the title is present with 1–100 characters and a non-null link passes `isUrl`; otherwise it is a validation error. The row has the service's `userId` and `sortOrder`, the category default and the link normalisation |
| WorkService.CreateIgnoresCallerOwnerAndOrder | server/src/services/workService.js:25-29 | a `userId` or `sortOrder` in the attribute bag has no effect |
| WorkService.CreateWork | server/src/services/workService.js:21-30 | validation runs first, then the owner reference; on success exactly one row with the next id is appended, with a `sortOrder` above all the user's others; on failure the table is unchanged |
| WorkService.ApplyPatch | server/src/services/workService.js:42 | absent keys keep their value and given ones are stored, for every column; null clears a nullable column and fails a NOT NULL one; the link goes through its setter; the update succeeds exactly when no NOT NULL column is nulled, the resulting title has 1–100 characters and the resulting link, if any, is a URL; id and creation time never change |
| WorkService.EmptyPatchKeepsRow | server/src/services/workService.js:42 | an empty body leaves a valid row as it is |
| WorkService.PatchIdempotent | server/src/services/workService.js:42 | applying the same body twice gives the row of applying it once |
| WorkService.PatchCanTransferOwnership | server/src/services/workService.js:35-43 | as written, a body naming another user's id moves the work to that user |
| WorkService.ApplyOwnedPatch | server/src/services/workService.js:35-43 | corrected update: the owner and id are kept; otherwise the result is the as-written update with the owner put back |
| WorkService.OwnedIndex | server/src/services/workService.js:36 | the position of the row with both the id and the owner, or none when no row has both |
| WorkService.UpdateWork | server/src/services/workService.js:35-43 | the result is the not-found error when no row has both the id and the owner, otherwise the patch's validation error, otherwise the unknown-user error when the patched owner does not exist, otherwise the patched row; a `userId` in the body becomes the owner; only a success changes the table, replacing exactly that row |
| WorkService.UpdateOwnedWork | server/src/services/workService.js:35-43 | corrected update: the not-found error when no row has both the id and the owner, otherwise the patch applied with the owner kept; only a success changes the table, and after it the caller still owns the work |
| WorkService.DeleteWork | server/src/services/workService.js:48-57 | fails, with the table unchanged, exactly when no row has both the id and the owner; otherwise it removes exactly that row and keeps all others |
| WorkService.RemoveAtKeepsOthers | server/src/services/workService.js:55 | with unique ids, removing one row leaves exactly the rows with another id, and the table stays valid |
| WorkService.LastIndex | server/src/services/workService.js:63-64 | the last position of an id in the list; none exactly when the id is not listed |
| WorkService.Renumbered | server/src/services/workService.js:63-64 | a row changes at most in `sortOrder` |
| WorkService.Reordered | server/src/services/workService.js:62-67 | the table after the reorder: each row renumbered on its own, the length kept |
| WorkService.SetSortOrderWhere | server/src/services/workService.js:64 | one `UPDATE … WHERE id AND userId` sets `sortOrder` on exactly the matching rows |
| WorkService.ReorderedStep | server/src/services/workService.js:63-66 | reordering by one more id is one more single-row update |
| WorkService.UpdateWorkOrder | server/src/services/workService.js:62-68 | the table becomes `Reordered(old table, userId, ids)` and stays valid |
| WorkService.ReorderAssignsPositions | server/src/services/workService.js:62-67 | with distinct ids, the caller's work listed at position i gets `sortOrder` i; other users' rows and rows not listed are unchanged |
| WorkService.NoDuplicatesCountsOnce | server/src/services/workService.js:11-16 | in a listing without duplicates each row occurs once |
| WorkService.PermutationKeepsNoDuplicates | server/src/services/workService.js:14 | sorting a list without duplicates keeps it without duplicates |
| WorkService.OwnedByNoDuplicates | server/src/services/workService.js:13 | with unique ids, a user's works hold no duplicate row |
| WorkService.IncreasingCover | server/src/services/workService.js:63-64 | a strictly increasing list of values in [0, n) that takes every such value is 0, 1, …, n-1 |
| WorkService.AtLeastIndex | server/src/services/workService.js:63-64 | in a strictly increasing list of naturals, the element at position i is at least i |
| WorkService.ReorderedPositions | server/src/services/workService.js:62-67 | after a reorder by a permutation of the caller's ids, each of the caller's rows carries the position of its id |
| WorkService.DistinctRowsDistinctIds | server/src/services/workService.js:55 | two different rows of a table with unique ids have different ids |
| WorkService.SortOrders | server/src/services/workService.js:14 | the `sortOrder` column of a listing, position by position |
| WorkService.ListingStrictlyIncreases | server/src/services/workService.js:62-67 | when the caller's rows carry the positions of distinct ids, their listing has strictly increasing `sortOrder` |
| WorkService.ListingCoversPositions | server/src/services/workService.js:62-67 | after a full reorder, the listing's `sortOrder` values are all in [0, n) and take every value |
| WorkService.ReorderThenList | server/src/services/workService.js:11-68 | a reorder with a permutation of all the user's work ids, then a listing, returns the works in exactly that order, numbered 0, 1, …, n-1 |
| AuthService.NewUserRow | server/src/services/authService.js:27-32 | the inserted user carries the given name and email, no avatar, and the hash of a non-empty password |
| AuthService.DefaultPortfolio | server/src/services/authService.js:34-38 | the new portfolio belongs to the user and is titled username + `的作品集`, with no template and no URL |
| AuthService.Register | server/src/services/authService.js:14-47 | a taken username fails before the email is looked at; then a taken email fails; then a row failing validation gives the validation error. Any failure leaves users, portfolios and both counters unchanged. Success advances both counters by one, adds exactly one user and exactly one portfolio for that user, and returns the safe projection and the token signed for the new id |
| AuthService.Login | server/src/services/authService.js:52-72 | succeeds exactly when a user with that email exists and the password matches its hash; both failures give the one same error; the session holds the safe projection and the token for that user's id |
| AuthService.RegisterThenLogin | server/src/services/authService.js:14-72 | after a registration with a fresh email and a non-empty password, logging in with them yields the registration's session |
| PortfolioController.OrCurrent | server/src/controllers/portfolioController.js:56-60 | `value ?? current`: a non-null value, the empty string included, replaces; absent or null keeps |
| PortfolioController.MergeConfig | server/src/controllers/portfolioController.js:55-61 | each of the five fields is replaced only by a non-null value; id, owner and generated URL never change |
| PortfolioController.MergeIdempotent | server/src/controllers/portfolioController.js:55-61 | applying the same body twice gives the record of applying it once |
| PortfolioController.MergeWithoutValuesKeepsRecord | server/src/controllers/portfolioController.js:55-61 | a body with no non-null field changes nothing |
| PortfolioController.MergeEmptyStringReplaces | server/src/controllers/portfolioController.js:56 | an empty-string title does replace |
| PortfolioController.CreatedConfig | server/src/controllers/portfolioController.js:45-52 | a portfolio created from the body: absent fields take the column defaults, nulls stay null, and no URL |
| PortfolioController.GetConfig | server/src/controllers/portfolioController.js:10-34 | not-found exactly when the user has no portfolio; otherwise the user's portfolio with its joined template |
| PortfolioController.GetTemplates | server/src/controllers/portfolioController.js:113-117 | exactly the templates with `isActive` set |
| PortfolioController.GetTemplatesCounts | server/src/controllers/portfolioController.js:113-117 | each active template is listed as many times as it is stored, an inactive one never |
| PortfolioController.GetTemplatesConcat | server/src/controllers/portfolioController.js:113-117 | the listing keeps table order: the listing of `a + b` is the listing of `a` followed by that of `b` |
| PortfolioController.UpdateConfig | server/src/controllers/portfolioController.js:37-75 | with no portfolio, one is created for an existing user from the body; otherwise the existing one is merged in place; an unknown template id fails; the call succeeds exactly when the template id is known or absent and the user has a portfolio or exists, and fails with the unknown-user error exactly when the template is fine, there is no portfolio and no such user; a failure changes nothing |
| FileTree.Child | server/src/services/generatorService.js:132-141 | the node of the entry with that name in a directory, or none when there is no such entry |
| FileTree.Ancestors | server/src/services/generatorService.js:84 | `mkdir -p` creates the path itself and only prefixes of it |
| FileTree.MkdirSpec | server/src/services/generatorService.js:84 | `mkdir -p` fails exactly on a faulty path, never touches files, and otherwise adds the path and its ancestors |
| FileTree.WriteSpec | server/src/services/generatorService.js:92 | a write fails exactly on a faulty path and otherwise sets that one file |
| FileTree.CopyDirSpec | server/src/services/generatorService.js:128-142 | `copyDir`: the destination is created first; a source that is a plain file then fails at `readdir`; otherwise the entries are copied in `readdir` order, recursing into directories, and the first failure stops the copy with what it did so far |
| FileTree.CopyEntriesSpec | server/src/services/generatorService.js:132-141 | the entry loop of `copyDir` from entry `i` on: a file is copied with `copyFile`, a directory recursively, and a failure ends the loop |
| FileTree.CopyDirComplete | server/src/services/generatorService.js:128-142 | a completed copy puts every file at relative path p under the source at the same path under the destination, with the same contents, on top of what was there |
| FileTree.CopyEntriesComplete | server/src/services/generatorService.js:132-141 | the same for the copy loop from entry i on |
| FileTree.CopyDirStaysInside | server/src/services/generatorService.js:128-142 | completed or not, a copy removes no file and changes no file outside the destination |
| FileTree.CopyEntriesStayInside | server/src/services/generatorService.js:132-141 | the same for the copy loop from entry i on |
| FileTree.CopyDirSucceedsWithoutFaults | server/src/services/generatorService.js:128-142 | without faults below the destination, a copy completes exactly when the source is a directory |
| FileTree.CopyEntriesSucceedWithoutFaults | server/src/services/generatorService.js:132-141 | without faults below the destination, the copy loop completes |
| FileTree.FileSystem.Mkdir | server/src/services/generatorService.js:84 | the new state and result are those of `MkdirSpec` |
| FileTree.FileSystem.WriteFile | server/src/services/generatorService.js:92 | the new state and result are those of `WriteSpec` |
| FileTree.FileSystem.CopyDir | server/src/services/generatorService.js:128-142 | the recursive copy leaves exactly the state and result of `CopyDirSpec` |
| Generator.TemplateFolder | server/src/services/generatorService.js:54-56 | the joined template's `folderPath` when the portfolio has a template, `minimal` otherwise |
| Generator.InactiveTemplateIsStillUsed | server/src/services/generatorService.js:54-56 | an inactive template is still used |
| Generator.ContextFor | server/src/services/generatorService.js:59-75 | the safe user; the title and bio; social links and custom config, or `{}` when null; each work projected to exactly id, title, description, cover image, category and link, in the given order |
| Generator.UserFallback | server/src/services/generatorService.js:79 | `user-<id>` is non-empty and made of safe characters |
| Generator.UserFallbackInjective | server/src/services/generatorService.js:79 | two users with different ids get different fallback folder names |
| Generator.JoinedName | server/src/services/generatorService.js:80 | the parts of `part-suffix` can be read back, and safe parts give a safe name |
| Generator.DirPart | server/src/services/generatorService.js:79 | the cleaned username when it is non-empty, and `user-<id>` when cleaning leaves nothing; never empty, and made of safe characters |
| Generator.OutputDirName | server/src/services/generatorService.js:78-80 | the name ends with `-` followed by the first 8 characters of the uuid; the part before is exactly `DirPart` of the user: the cleaned username, or `user-<id>` when that is empty, made of safe characters |
| Generator.OutputDirIsOneSegment | server/src/services/generatorService.js:78-81 | for a uuid of safe characters, the name is a single path segment: no `/`, and neither `.` nor `..` |
| Generator.Prepare | server/src/services/generatorService.js:30-81 | a missing user fails before the portfolio is looked up; a missing portfolio fails next; otherwise the name, the template folder and the context built from the listed works |
| Generator.Lookup | server/src/services/generatorService.js:113-117 | a child of a directory that may itself be absent |
| Generator.AssetFolderWithoutFaults | server/src/services/generatorService.js:112-122 | without faults, one asset folder is copied in full, and a plain file of that name adds nothing |
| Generator.AssetsTouchOnlyAssetFolders | server/src/services/generatorService.js:109-123 | the asset copy changes only files inside `css`, `js`, `images` and `assets` of the destination; every other file, the rendered page included, keeps its content |
| Generator.LaterFoldersKeep | server/src/services/generatorService.js:109-123 | copying the remaining asset folders keeps every file under a folder that is not among them |
| Generator.CopyAssetFolder | server/src/services/generatorService.js:113-121 | one iteration of `copyStaticAssets`: a folder missing from the template is skipped, and a failing copy keeps what it did and does not stop the loop |
| Generator.CopyAssetsSpec | server/src/services/generatorService.js:109-123 | `copyStaticAssets` from folder `i` on: `css`, `js`, `images` and `assets` are each tried in order, whatever happened to the ones before |
| Generator.AssetFolderCopiedDespiteOtherFaults | server/src/services/generatorService.js:109-123 | a folder with no fault below its own target is copied in full, whatever faults lie under the other folders |
| Generator.AssetsCopiedWithoutFaults | server/src/services/generatorService.js:109-123 | without faults, every asset folder of the fixed list that exists is copied in full, whatever happens to the others |
| Generator.CopyStaticAssets | server/src/services/generatorService.js:109-123 | the loop over the four folders leaves exactly the state of `CopyAssetsSpec`: absent folders are skipped, and a failure is kept without stopping the next folder |
| Generator.Emit | server/src/services/generatorService.js:84-103 | generation succeeds exactly when the output directory can be made, the template's `index.ejs` exists and renders, and `index.html` can be written, so the asset copy never makes it fail; nothing outside the output directory changes; after the directory was made it stays; on success the URL is `/generated/` + the name, and `index.html` holds the render of the template's `index.ejs` |
| Generator.EmitCopiesAssetFolder | server/src/services/generatorService.js:84-123 | when generation succeeds, every file of a template asset folder with no fault below its output copy is in the output with the template's content |
| Generator.WriteSite | server/src/services/generatorService.js:84-95 | the directory, page and asset steps, in order, leave exactly the state and result `Emit` describes |
| Generator.StoreGeneratedUrl | server/src/services/generatorService.js:98-103 | only that portfolio's `generatedUrl` changes, to the given URL, and the database stays valid |
| Generator.GeneratePortfolio | server/src/services/generatorService.js:30-104 | a precondition failure touches neither store; the file system ends in the state `Emit` describes; `generatedUrl` is written, with the returned URL, only on success, and so only after the page was written and the assets copied |
| Generator.GetPreviewData | server/src/services/generatorService.js:147-160 | fails exactly when the user is missing; the safe user; the user's portfolio or none; the user's works ordered by ascending `sortOrder` |
| AuthMiddleware.ParseBearer | server/src/middlewares/auth.js:12-19 | a token exists exactly when the header starts with the case-sensitive `Bearer `; it is the text after the prefix up to the next space |
| AuthMiddleware.BearerRoundTrip | server/src/middlewares/auth.js:19 | the header built from a token without spaces is parsed back to that token |
| AuthMiddleware.TokenWithSpaceIsCut | server/src/middlewares/auth.js:19 | of a token with a space, only the first word is kept |
| AuthMiddleware.Authenticate | server/src/middlewares/auth.js:8-32 | a missing or malformed header is rejected as missing; a token that fails verification is rejected as invalid; otherwise the verified user id is accepted |
| AuthMiddleware.AuthMiddleware | server/src/middlewares/auth.js:8-32 | on acceptance `userId` is set and `next` runs once, with no response sent; on rejection a 401 with the message is sent, `next` does not run and `userId` is untouched |
| AuthMiddleware.OptionalAuth | server/src/middlewares/auth.js:38-51 | `next` runs exactly once and no response is sent; `userId` is set only for a well-formed header whose token verifies |
| ClientApi.IsWebUrl | client/src/api/index.js:33 | the first pass-through test: the string starts with `http://` or `https://` in any letter case, or with `//` |
| ClientApi.IsInlineUrl | client/src/api/index.js:34 | the second pass-through test: the string starts with `data:` or `blob:` in any letter case |
| ClientApi.ResolveBackendUrl | client/src/api/index.js:31-42 | falsy input, input starting case-insensitively with `http://`, `https://` or `//`, and `data:`/`blob:` input are returned unchanged; anything else is resolved against the origin, or returned unchanged when resolution throws |
| ClientApi.ResolveIdempotent | client/src/api/index.js:31-42 | when resolution yields absolute http(s) URLs, resolving a resolved value changes nothing |
| ClientApi.UpperCaseSchemePassesThrough | client/src/api/index.js:33-34 | upper-case `HTTP://` and `BLOB:` pass through unchanged |
| ClientApi.AttachToken | client/src/api/index.js:54-63 | `Authorization` becomes `Bearer <token>` exactly when a non-empty token is stored; otherwise the header is left alone |
| ClientApi.StoredTokenAuthenticates | client/src/api/index.js:56-59 | a request carrying a stored token without spaces is accepted by the server middleware as exactly the user the token verifies to |
| Upload.ImageFilter | server/src/middlewares/upload.js:24-32 | accepted exactly for `image/jpeg`, `image/png`, `image/gif` and `image/webp`; a rejection carries the error and `false` |
| Upload.StoredName | server/src/middlewares/upload.js:15-20 | the stored name is the uuid followed by the extension of the original name |
| Upload.DistinctUuidsGiveDistinctNames | server/src/middlewares/upload.js:15-20 | different uuids of one length give different names, whatever the original names |
| Upload.Destination | server/src/middlewares/upload.js:12-14 | always the configured upload directory |
| Text.Split | server/src/middlewares/auth.js:19 | `split(' ')`: at least one field, no field contains the separator, and the first field is the text up to the first separator |
| Text.SplitAfterField | server/src/middlewares/auth.js:19 | splitting `p + sep + t` gives `p` followed by the fields of `t` |
| Text.SplitWithoutSeparator | server/src/middlewares/auth.js:19 | a string without the separator splits into itself |
| Text.Decimal | server/src/services/generatorService.js:79 | `${id}` is a non-empty string of digits |
| Text.DecimalRoundTrip | server/src/services/generatorService.js:79 | reading the digits of `${id}` back gives `id` |
| Text.DecimalInjective | server/src/services/generatorService.js:79 | different numbers have different decimal strings |

## Findings

| source | as written | input that shows it | evidently intended | confidence | as-written member | corrected member |
|---|---|---|---|---|---|---|
| server/src/services/workService.js:35-43 | `updateWork` checks that the caller owns the work and then passes the whole request body to `work.update`. A `userId` in the body changes the owner | the owner of work 7 sends `PUT /works/7` with `{"userId": 2}`; work 7 now belongs to user 2 and leaves the caller's list | the owner comes from the service, as `createWork` does by putting `userId` after the spread at workService.js:25-29 | medium, not executed | WorkService.PatchCanTransferOwnership | WorkService.ApplyOwnedPatch |

`WorkService.UpdateWork` models the code as written. `WorkService.UpdateOwnedWork`
is the corrected method built on `ApplyOwnedPatch`, and it proves that the
caller still owns the work after the update.

## Left out

- Concurrency: `Promise.all` in `updateWorkOrder` is modelled as sequential updates in list order. For a duplicated id, the last position wins (`LastIndex`). The source guarantees no such order.
- Concurrent generations for the same user are left out.
- Foreign libraries are parameters with no internals: bcrypt, JWT (signature, secret and expiry), uuid, EJS, `new URL`, `path.extname`, `isEmail` and `isUrl`. bcrypt's salt is left out, and `validatePassword` is modelled as `hash(p) == stored`.
- `getBackendOrigin` reads build-time environment variables and `window.location`. The origin is a parameter of `ResolveBackendUrl` instead.
- The response interceptor clears the token and redirects to `/login` on a 401. This is browser navigation and is not modelled.
- Strings are sequences of Unicode scalar values, so a JavaScript string holding an unpaired surrogate cannot be represented. The `len` rules (username 2–50, title 1–100) count a surrogate pair as one character, as the model does. Recent versions of validator's `isLength` also skip the variation selectors U+FE0E and U+FE0F, which the model counts. The two `slice` calls act on ASCII strings.
- Column widths (`STRING(50)` and so on) are not modelled. Neither is the database's collation, for example case-insensitive uniqueness of usernames and emails.
- `path.join` is segment concatenation. A `folderPath` holding `/` or `..` is one segment, and normalisation is not modelled.
- The template repository is a read-only tree, separate from the writable output tree.
- File-system failures are a fixed set of faulty paths. Failure on a file in the way of `mkdir`, and failures of reads from the template tree other than a missing or wrong-kind node, are not modelled.
- `readdir` order is the order of the `Dir` node's entries.
- Generator.Prepare: the source orders works only by `sortOrder` and leaves ties to the database. The model breaks ties by `createdAt` descending, as the work listing does.
- The Sequelize hooks and the link setter mutate the instance in place. They are modelled as functions from the old row to the new row.
- Timestamps other than `createdAt`, and `updatedAt`, are left out.
- WorkService.CreateWork: an `id` or `createdAt` inside the attribute bag is left out. Ids always come from the counter.
- WorkService.UpdateWork: a patch of `id`, `createdAt` or `updatedAt` is left out.
- The foreign key from a work to its user is not part of `Valid()`. It is checked only when a work is created or updated.
- PortfolioController.UpdateConfig: the database reports one foreign-key error for an insert. The model checks the template reference before the user reference.
- AuthMiddleware.Authenticate: a verifier yields a user id or nothing. A token that verifies but carries no `userId` makes the source call `next()` with `req.userId` undefined (server/src/middlewares/auth.js:23-25); the model does not represent that case.
- HTTP status codes and response bodies are left out, except the middleware's 401 and its messages.
- The controllers' input guards are not modelled: a missing field, a password shorter than 6, an empty title, or a reorder list that is not an array.
- multer's `fileSize` limit, and the storage of the uploaded bytes, are left out.
