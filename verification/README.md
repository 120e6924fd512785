# elysius traversal core in Dafny

This project models the two traversal engines of the `elysius` library and
proves properties of them.

- **The downward tree walk**: `walk` and `walkSync` of `src/walk.ts`, with
  `shouldIncludePath` and the `WalkEntry` and `WalkOptions` types.
- **The upward ancestor search**: `find` and `findSync` of `src/find.ts`,
  with `FindOptions`.

The filesystem is an abstract value (module `FsTree`):

- The walk sees an acyclic tree of `Node`s: `File`, `Special` (socket, FIFO
  or device), `Dir(children)`, `Sealed` (a directory whose listing is
  refused with EACCES), `Symlink(target)` and `Missing`.
- A link's `target` is the entity found at the link's real path when it is
  re-examined. A target that is itself a link stands for the race the
  source comments on: the entity is replaced between `realpath` and the
  following `lstat`/`stat`.
- The search sees a map from path to the outcome of `stat`.
- Paths are sequences of segments. `join` appends one segment and
  `basename` is the last segment. The parent drops the last segment, and
  the root is its own parent, as `path.parse` reports.

**The walk** (modules `TreeWalk`, `WalkProps`, `WalkCases`)

- A walk is a pure function from start path, entity and options to a
  `Trace`. A trace is the yielded entries in yield order, each tagged with
  the `yield` statement that produced it, plus the error thrown after
  them, if any.
- One definition, `Run`, serves both entry points. A `Variant` parameter
  selects the two things they do differently:
  - `walk` wraps every error raised inside its loop in
    `Error walking path "<dir>": …`, once per enclosing directory.
    `walkSync` wraps only a failing `readdirSync`.
  - `walk` re-classifies a followed link with `lstat(realPath)`;
    `walkSync` uses `statSync(realPath)`.
- `maxDepth` is a `Depth`: a whole number or +Infinity.
- An exclusion pattern is an abstract predicate on paths, standing for
  `path.match(regexp)`.

**The search** (modules `AncestorSearch`, `SearchProps`, `SearchCases`)

- One definition, `Search`, serves both entry points. A `Mode` parameter
  says whether an asynchronous test is awaited (`find`) or refused
  (`findSync`).
- The test is tagged as synchronous or asynchronous, in place of the
  prototype-name check.
- `SearchProps.Candidates` lists every path the search may probe, in
  probing order. `SearchProps.Scan` probes such a list and lets the first
  decisive candidate settle the result. The search is proved equal to the
  scan of the candidates; every ordering and boundary property follows
  from that.

## Model

| member | source | states |
|---|---|---|
| `FsTree.Join` | src/walk.ts:152 | joining one name gives a path one segment longer that extends the directory, whose basename is the name and whose parent is the directory |
| `FsTree.Lstat` | src/walk.ts:154-156 | the type flags of an unfollowed entity: link and file flags hold exactly for those constructors, the directory flag for a directory, readable or not |
| `FsTree.Stat` | src/walk.ts:132 | `stat` follows links: it never reports a link, and it fails, with ENOENT naming the path, exactly when the link chain ends at nothing |
| `FsTree.RealPath` | src/walk.ts:171 | `realpath` of a link fails with ENOENT for that path exactly when the link dangles; otherwise it yields the entity at the real path |
| `TreeWalk.ShouldIncludePath` | src/walk.ts:102-110 | a path is included exactly when no exclusion pattern matches it |
| `TreeWalk.Run` | src/walk.ts:118-202 | every item lies below the start within `maxDepth` levels and is named by its last segment; only the start's own entry sits at the start path, and it carries the flags `stat` reports; each item's type flags fit the yield that produced it, and that yield's include flag is on; `walkSync` never wraps twice; an error of `walk` is raw with nothing yielded, or wrapped with the start path |
| `TreeWalk.Descend` | src/walk.ts:145-151 | the `try` block around the listing yields only entries strictly below the directory, each satisfying the item invariant of `Run`; under `walk` every error escaping it is wrapped with the directory's path |
| `TreeWalk.Children` | src/walk.ts:151-198 | the loop over the listing yields only entries strictly below the directory, each satisfying the item invariant of `Run`, and under `walkSync` no error is wrapped twice |
| `TreeWalk.Reclassify` | src/walk.ts:171-179 | re-typing a followed link fails only with ENOENT for the link's path, and under `walkSync` the new type is never a link |
| `TreeWalk.WalkChild` | src/walk.ts:152-197 | one loop iteration yields only entries strictly below the directory, each satisfying the item invariant |
| `TreeWalk.WalkWith` | src/walk.ts:118-143 | a negative depth or an excluded start yields nothing; otherwise, with `includeDirs`, the start entry with `stat`'s flags comes first, or `stat`'s error is thrown raw with nothing yielded; `maxDepth` 0 yields at most the start entry; every entry lies within `maxDepth` levels below the start and is named by its last segment; with `includeDirs` off no entry is a directory; an entry flagged as a link is an unfollowed, untyped link below the start |
| `TreeWalk.Walk` | src/walk.ts:145-201 | an error of `walk` is either a raw `stat` failure of the start with nothing yielded, or wrapped with the start path |
| `TreeWalk.WalkSync` | src/walk.ts:239-244 | an error of `walkSync` is raw, or wrapped exactly once around a raw cause |
| `WalkProps.FlagsOnlyGateYields` | src/walk.ts:181-197 | turning include flags off removes exactly the entries of the corresponding yield sites; the remaining entries keep their order and the error is unchanged; with `includeDirs` off this needs a start that resolves and no link replaced by a link during the walk, since only the walk that yields a directory's entry `stat`s it |
| `WalkProps.ExclusionIsShallow` | src/walk.ts:182-188 | with the start not excluded, a walk with patterns is the walk without them minus the file and link entries directly below the start that a pattern matches; excluded subdirectories are still yielded and walked |
| `WalkProps.WalkIsPreorder` | src/walk.ts:145-198 | with files and directories included and no patterns, a tree without links, missing entities or unreadable directories yields exactly its pre-order listing, cut at `maxDepth`, and throws nothing |
| `WalkProps.VariantsAgree` | src/walk.ts:171-179 | when no link's target is itself a link, both variants yield the same items and fail, if at all, with the same filesystem error |
| `WalkCases.UnfollowedLinkIsNotDescended` | src/walk.ts:158-170 | an unfollowed link yields only its own entry, flagged as a link and neither file nor directory, when symlinks are included and it is not excluded; its target is never looked at |
| `WalkCases.LinkWalkIsTargetWalk` | src/walk.ts:131-151 | walking a link's path is walking what it resolves to, because `stat` and `readdir` both follow it |
| `WalkCases.FollowedLinkToFile` | src/walk.ts:171-196 | a followed link to a file yields a file entry with the link's name and path and `isSymlink` false, gated by `includeFiles` and exclusion |
| `WalkCases.FollowedLinkToDirectory` | src/walk.ts:181-188 | a followed link to a directory is walked one level less deep from the link's own path; its first entry is the link, reported as a directory |
| `WalkCases.FollowedDanglingLinkFails` | src/walk.ts:171 | following a dangling link fails with ENOENT for the link's path |
| `WalkCases.NonDirectoryStartFails` | src/walk.ts:145-201 | a file start with `maxDepth` at least 1 yields its own entry, if directories are included, then fails with ENOTDIR wrapped once with the start path |
| `WalkCases.UnreadableStartFails` | src/walk.ts:145-201 | a start whose listing is refused yields its own directory entry, if directories are included, then fails with EACCES wrapped once with the start path, in both variants |
| `WalkCases.UnreadableSubdirectoryWrapping` | src/walk.ts:199-201 | an unreadable subdirectory is yielded, then `walkSync` throws its EACCES wrapped once with its path, and `walk` wraps that again with the start path |
| `WalkCases.MissingStartFails` | src/walk.ts:131-132 | a missing start fails with raw ENOENT from the start's `stat`; with `includeDirs` off, it fails with the wrapped ENOENT of the listing instead |
| `WalkCases.DepthZeroDoesNotList` | src/walk.ts:141-143 | with `maxDepth` 0 the start's contents do not matter and nothing is thrown |
| `WalkCases.WalkSyncAgreesWithWalk` | src/walk.ts:266-267 | without races `walk` and `walkSync` yield the same entries and fail for the same cause |
| `WalkCases.DefaultWalkScenario` | src/walk.ts:151-198 | `r/{a.txt, b/{c.txt}}` with the defaults yields r, a.txt, b, c.txt, in that order, and nothing else |
| `WalkCases.NestedFailureWrapping` | src/walk.ts:199-201 | a dangling followed link two levels down makes `walkSync` throw the raw ENOENT, and `walk` throw it wrapped once per enclosing directory, innermost last |
| `WalkCases.RaceSeparatesVariants` | src/walk.ts:172-175 | a link replaced by a link to a file after `realpath` is reported as a file by `walkSync`, while `walk` walks it as a link and fails listing it |
| `AncestorSearch.ProbeOne` | src/find.ts:69-77 | one candidate is accepted only if it exists and passes the test; ENOENT, from `stat` or from the test, and a falsy test result mean "try the next"; any other error is rethrown and never coded ENOENT; the sync-mode `TypeError` arises exactly for `findSync` with an asynchronous test and an existing file |
| `AncestorSearch.ProbeNames` | src/find.ts:68-78 | the names of one directory, tried in order, find only a path built from one of them, and the result obeys the soundness predicate `Sound` |
| `AncestorSearch.Search` | src/find.ts:67-81 | a found path is a name in the start directory or an ancestor, strictly below a boundary on that chain, and obeys `Sound` |
| `AncestorSearch.FindWith` | src/find.ts:62-81 | a found path exists and passes the test, is one of the names in the start directory or an ancestor, and lies strictly below an on-chain boundary; starting at the boundary gives null; ENOENT never escapes |
| `AncestorSearch.Find` | src/find.ts:58-82 | `find` never throws the sync-mode `TypeError` |
| `AncestorSearch.FindSync` | src/find.ts:109-113 | `findSync` with an asynchronous test never returns a path |
| `SearchProps.Candidates` | src/find.ts:67-80 | the probing order: every candidate is a name in the start directory or an ancestor, and deeper directories come first |
| `SearchProps.CandidatesAre` | src/find.ts:64-79 | the probed paths are exactly the names in the start directory and its ancestors strictly below the boundary, or up to the filesystem root when the boundary is off the chain |
| `SearchProps.Scan` | src/find.ts:68-78 | probing a list gives null exactly when every candidate says "try the next"; otherwise the first decisive candidate settles the result |
| `SearchProps.SearchIsScan` | src/find.ts:67-80 | the nested loops equal one scan of the candidate list |
| `SearchProps.SearchIsFirstMatch` | src/find.ts:67-81 | the search gives null exactly when every candidate is passed over; otherwise it returns or throws for the first decisive candidate |
| `SearchProps.NearestWins` | src/find.ts:67-80 | a found path is a candidate, every candidate in a deeper directory was passed over, and null means every candidate was passed over |
| `SearchProps.BoundaryNeverProbed` | src/find.ts:64-67 | nothing in the boundary directory or above it is `stat`ed or passed to the test: filesystems and tests that agree below the boundary give the same result |
| `SearchProps.SingleNameIsOneElementList` | src/find.ts:65 | a single name is searched for as the one-element list of it |
| `SearchProps.FindSyncAgreesWithFind` | src/find.ts:105-120 | with no test or a synchronous one, `findSync` returns or throws exactly what `find` does |
| `SearchProps.AsyncTestNeverRuns` | src/find.ts:109-113 | `findSync` with an asynchronous test returns null exactly when every candidate is missing, and throws the `TypeError` at the first existing candidate that no other error precedes |
| `SearchProps.AsWrittenAgreesOnChain` | src/find.ts:67-80 | with the boundary on the ancestor chain, the source's loop returns what `Search` returns within one iteration per directory |
| `SearchProps.AsWrittenOnlyAddsTermination` | src/find.ts:67-80 | for any boundary, whenever the source's loop returns, it returns what `Search` returns; at the root with an off-chain boundary and nothing found it never returns |
| `SearchProps.AsWrittenNeverReturns` | src/find.ts:79 | with a boundary off the ancestor chain and nothing to find, the source's loop never returns, while `Search` returns null |
| `SearchCases.FindMinions` | tests/find.test.ts:10-17 | searching `['minions.jpg', 'package.json']` from `fixture/a/b` returns `fixture/minions.jpg`, from both entry points |
| `SearchCases.FindManifest` | tests/find.test.ts:19-26 | searching `package.json` from `fixture/a/b` returns the fixture's manifest, not the one further up |
| `SearchCases.FindWithAsyncVersionTest` | tests/find.test.ts:28-42 | `find` awaits an asynchronous version test and returns the fixture's manifest |
| `SearchCases.FindSyncRefusesAsyncTest` | tests/find.test.ts:64-81 | `findSync` with the asynchronous version test throws the sync-mode `TypeError` |
| `SearchCases.FindSyncWithVersionTest` | tests/find.test.ts:83-97 | `findSync` with a synchronous version test returns the fixture's manifest |
| `SearchCases.StopAtFixture` | src/find.ts:64-67 | with the boundary at the fixture directory, the manifest there is not found |
| `SearchCases.ConfigAboveBoundary` | src/find.ts:64-81 | from `/x/y/z` with boundary `/x`, a `config.json` that exists only in `/x` is not found |

## Left out

- Real I/O is not modelled. `stat`, `lstat`, `readdir`, `realpath`, their sync forms and `process.cwd()` become the abstract filesystem and explicit parameters.
- Path string semantics are not modelled: separators, `..`, absolute names, and `normalize` of the path in the wrap message. A `cwd` or `stop` string is taken as already resolved to segments, so a `stop` that differs from every ancestor only in spelling counts as off the chain.
- Regular-expression matching is not modelled; each pattern is an abstract predicate on paths.
- Laziness, promises, consumer cancellation and scheduling are not modelled. A walk is its finite output sequence plus an optional error.
- Symlink cycles and deeper races are out of scope. Cycles cannot occur in the acyclic tree. The only race modelled is an entity replaced by a link between `realpath` and the following `lstat`/`stat`.
- `maxDepth` that is fractional or NaN is not modelled; it is a whole number or +Infinity. NaN compares false, so it would behave as +Infinity.
- Error-message text is not modelled beyond the wrapping structure and the filesystem cause. One cause names a different path: when a link's real path is replaced by a dangling link in the race below, the failing `statSync(realPath)` names the real path, and the model names the link's path.
- Test return values are not modelled beyond truthy, falsy or throwing; a thenable returned by a synchronous test is not modelled either.
- An error thrown by the caller's test is modelled by its `code` only.
- Build configuration and `src/index.ts` (re-exports) are not part of this model.
- Filesystem failures other than ENOENT, ENOTDIR and a refused listing (EACCES) are not modelled: a `stat`, `lstat` or `realpath` refused for want of search permission, ELOOP (no cycles in an acyclic tree), EMFILE and the like. Such an error of `stat` or `realpath` would be thrown like the modelled ENOENT; a listing failure of any modelled code is wrapped once.
- `exclude` is documented as "an array of regular expressions to exclude from the walk" (src/walk.ts:94-99), but the recursive calls (src/walk.ts:182-188, src/walk.ts:274-280) do not pass it on, so it filters only the start and its direct file and link entries. The model follows the code; `WalkProps.ExclusionIsShallow` states the consequence.

## Findings

| source | as written | input that shows it | evidently intended | confidence | as-written member | corrected member |
|---|---|---|---|---|---|---|
| src/find.ts:64-79 | the loop runs while `dir !== root` and replaces `dir` by `parse(dir).dir`; at the filesystem root that is the root again | `find('nothing', { cwd: '/x/y/z', stop: '/w' })`: `/w` is never reached, so the loop stays at `/` and never returns (likewise for a `stop` spelled differently from the resolved ancestor, such as `'/x/'`) | stop after the filesystem root has been probed, and return null | high; not executed | `SearchProps.AsWrittenNeverReturns` (about `AncestorSearch.SearchAsWritten`) | `AncestorSearch.Search` (with `SearchProps.AsWrittenAgreesOnChain`) |
