/** The downward tree walk: `walk` and `walkSync` of src/walk.ts.

    A walk is a pure function from a start path, the entity found there and
    the options to the sequence of entries the generator yields, in yield
    order, together with the error it throws after them, if any.  The two
    source functions share one definition, `Run`, parameterised by a
    `Variant` that selects the two things they do differently.
 */
module TreeWalk {
  import opened FsTree

  /** `maxDepth`: a count of descent steps still allowed, or +Infinity. */
  datatype Depth = Finite(n: int) | Unbounded {
    /** `maxDepth < k` as JavaScript evaluates it (never true of +Infinity). */
    predicate Below(k: int) {
      Finite? && n < k
    }

    /** `maxDepth - 1` (+Infinity minus one is still +Infinity). */
    function Minus1(): Depth {
      if Finite? then Finite(n - 1) else Unbounded
    }
  }

  /** One exclusion pattern: stands for `path.match(regexp)` being truthy. */
  type Pattern = Path -> bool

  datatype WalkOptions = WalkOptions(
    maxDepth: Depth,
    includeFiles: bool,
    includeDirs: bool,
    includeSymlinks: bool,
    followSymlinks: bool,
    exclude: seq<Pattern>)
  {
    /** The options object of the recursive call: one level less, and no
        `exclude` (the recursive calls do not pass it on). */
    function Nested(): WalkOptions {
      this.(maxDepth := maxDepth.Minus1(), exclude := [])
    }
  }

  /** The defaults of the destructuring at the top of `walk`/`walkSync`. */
  const Defaults := WalkOptions(Unbounded, true, true, true, false, [])

  datatype WalkEntry = WalkEntry(
    name: Name,
    path: Path,
    isFile: bool,
    isDirectory: bool,
    isSymlink: bool)

  function EntryOf(name: Name, path: Path, s: Stats): WalkEntry
  {
    WalkEntry(name, path, s.isFile, s.isDirectory, s.isSymlink)
  }

  /** `shouldIncludePath`: false exactly when some pattern matches the path. */
  function ShouldIncludePath(path: Path, exclude: seq<Pattern>): (r: bool)
    ensures r <==> forall i :: 0 <= i < |exclude| ==> !exclude[i](path)
  {
    if |exclude| == 0 then true
    else if exclude[0](path) then false
    else ShouldIncludePath(path, exclude[1..])
  }

  /** `walk` awaits `lstat(realPath)` and wraps every error raised inside its
      loop; `walkSync` uses `statSync(realPath)` and wraps only the failure of
      `readdirSync`. */
  datatype Variant = Async | Sync

  /** The thrown error: a filesystem error, possibly wrapped (once per
      enclosing `catch`) as `Error walking path "<dir>": <inner message>`. */
  datatype WalkError = Raw(cause: FsError) | Wrapped(dir: Path, inner: WalkError)
  {
    /** The filesystem error at the heart of the message. */
    function Cause(): FsError {
      match this
      case Raw(c) => c
      case Wrapped(_, e) => e.Cause()
    }
  }

  /** Which `yield` statement produced an entry: the root entry, an
      unfollowed link, or a file (the yield after the descent test). */
  datatype Site = RootSite | LinkSite | FileSite

  datatype Yield = Yield(site: Site, entry: WalkEntry)

  /** What a generator produced: its yields, then the error it threw, if any. */
  datatype Trace = Trace(items: seq<Yield>, error: Option<WalkError>)

  /** What the caller of `walk`/`walkSync` observes. */
  datatype WalkResult = WalkResult(entries: seq<WalkEntry>, error: Option<WalkError>)

  function Entries(items: seq<Yield>): (es: seq<WalkEntry>)
    ensures |es| == |items|
    ensures forall k :: 0 <= k < |items| ==> es[k] == items[k].entry
  {
    seq(|items|, k requires 0 <= k < |items| => items[k].entry)
  }

  function Strip(t: Trace): WalkResult
  {
    WalkResult(Entries(t.items), t.error)
  }

  const Empty := Trace([], None)

  function Fail(e: WalkError): Trace
  {
    Trace([], Some(e))
  }

  /** Run `a`, then `b` unless `a` threw. */
  function Then(a: Trace, b: Trace): Trace
  {
    if a.error.Some? then a else Trace(a.items + b.items, b.error)
  }

  /** The `catch` around the loop of `walk`; `walkSync` has none there. */
  function Guard(v: Variant, dir: Path, t: Trace): Trace
  {
    if v.Async? && t.error.Some? then t.(error := Some(Wrapped(dir, t.error.value))) else t
  }

  // ---------------------------------------------------------------------
  // Invariants of every trace

  /** `k` levels below the start is within `maxDepth`. */
  predicate Fits(k: int, d: Depth)
  {
    d.Unbounded? || k <= d.n
  }

  /** The type flags each yield site can produce. */
  predicate SiteShape(y: Yield)
  {
    match y.site
    case RootSite => !y.entry.isSymlink
    case LinkSite => y.entry.isSymlink && !y.entry.isFile && !y.entry.isDirectory
    case FileSite => !y.entry.isSymlink && !y.entry.isDirectory
  }

  /** The options under which a site yields at all. */
  predicate SiteEnabled(s: Site, o: WalkOptions)
  {
    match s
    case RootSite => o.includeDirs
    case LinkSite => o.includeSymlinks && !o.followSymlinks
    case FileSite => o.includeFiles
  }

  /** An item of a walk started at `dir` with options `o`. */
  predicate Placed(y: Yield, dir: Path, o: WalkOptions)
  {
    && IsPrefix(dir, y.entry.path)
    && Fits(|y.entry.path| - |dir|, o.maxDepth)
    && y.entry.name == Basename(y.entry.path)
    && SiteShape(y)
    && SiteEnabled(y.site, o)
  }

  /** Every item is placed; only the first can be the start itself. */
  predicate WellPlaced(t: Trace, dir: Path, o: WalkOptions)
  {
    && (forall k :: 0 <= k < |t.items| ==> Placed(t.items[k], dir, o))
    && (forall k :: 0 < k < |t.items| ==> |t.items[k].entry.path| > |dir|)
  }

  /** Every item lies strictly below `dir`. */
  predicate StrictlyBelow(t: Trace, dir: Path)
  {
    forall k :: 0 <= k < |t.items| ==> |t.items[k].entry.path| > |dir|
  }

  /** `walkSync` never wraps an error twice. */
  predicate Shallow(e: WalkError)
  {
    e.Raw? || e.inner.Raw?
  }

  predicate SyncErrorsShallow(v: Variant, t: Trace)
  {
    v.Sync? && t.error.Some? ==> Shallow(t.error.value)
  }

  // ---------------------------------------------------------------------
  // The walk

  /** The body of `walk(dir, options)` / `walkSync(dir, options)` with the
      entity `node` found at `dir`. */
  function Run(v: Variant, dir: Path, node: Node, o: WalkOptions): (t: Trace)
    ensures WellPlaced(t, dir, o)
    ensures |t.items| > 0 && |t.items[0].entry.path| == |dir| ==>
              Stat(dir, node).Ok? &&
              t.items[0] == Yield(RootSite, EntryOf(Basename(dir), dir, Stat(dir, node).value))
    ensures SyncErrorsShallow(v, t)
    ensures v.Async? && t.error.Some? ==>
              (t.error.value.Raw? && t.items == []) || (t.error.value.Wrapped? && t.error.value.dir == dir)
    decreases node, 2
  {
    if o.maxDepth.Below(0) then Empty
    else
      var included := ShouldIncludePath(dir, o.exclude);
      var rest := if o.maxDepth.Below(1) || !included then Empty else Descend(v, dir, node, o);
      if o.includeDirs && included then
        match Stat(dir, node)
        case Err(e) => Fail(Raw(e))
        case Ok(info) => Then(Trace([Yield(RootSite, EntryOf(Basename(dir), dir, info))], None), rest)
      else rest
  }

  /** The `try` block: list `dir` (following links, as `readdir` does) and
      walk its children in listing order. */
  function Descend(v: Variant, dir: Path, node: Node, o: WalkOptions): (t: Trace)
    requires !o.maxDepth.Below(1)
    ensures WellPlaced(t, dir, o) && StrictlyBelow(t, dir)
    ensures SyncErrorsShallow(v, t)
    ensures v.Async? && t.error.Some? ==> t.error.value.Wrapped? && t.error.value.dir == dir
    decreases node, 1
  {
    match node
    case Dir(cs) => Guard(v, dir, Children(v, dir, cs, 0, o))
    case Symlink(target) => Descend(v, dir, target, o)
    case Missing => Fail(Wrapped(dir, Raw(NoEntry(dir))))
    case Sealed => Fail(Wrapped(dir, Raw(AccessDenied(dir))))
    case _ => Fail(Wrapped(dir, Raw(NotADirectory(dir))))
  }

  /** The `for (const entry of entries)` loop, from the `i`-th entry on. */
  function Children(v: Variant, dir: Path, cs: seq<Child>, i: nat, o: WalkOptions): (t: Trace)
    requires i <= |cs|
    requires !o.maxDepth.Below(1)
    ensures WellPlaced(t, dir, o) && StrictlyBelow(t, dir)
    ensures SyncErrorsShallow(v, t)
    decreases cs, 0, |cs| - i
  {
    if i == |cs| then Empty
    else Then(WalkChild(v, dir, cs[i], o), Children(v, dir, cs, i + 1, o))
  }

  /** How a followed link is re-classified: `lstat(realPath)` in `walk`,
      `statSync(realPath)` in `walkSync`. */
  function Reclassify(v: Variant, path: Path, link: Node): (r: Result<Stats, FsError>)
    requires link.Symlink?
    ensures r.Err? ==> r.error == NoEntry(path)
    ensures v.Sync? && r.Ok? ==> !r.value.isSymlink
  {
    match RealPath(path, link)
    case Err(e) => Err(e)
    case Ok(resolved) => if v.Async? then Ok(Lstat(resolved)) else Stat(path, resolved)
  }

  /** One iteration of the loop, for the listing entry `c` of `dir`. */
  function WalkChild(v: Variant, dir: Path, c: Child, o: WalkOptions): (t: Trace)
    requires !o.maxDepth.Below(1)
    ensures WellPlaced(t, dir, o) && StrictlyBelow(t, dir)
    ensures SyncErrorsShallow(v, t)
    decreases c
  {
    var path := Join(dir, c.name);
    var listed := Lstat(c.node);
    if listed.isSymlink && !o.followSymlinks then
      if o.includeSymlinks && ShouldIncludePath(path, o.exclude) then
        Trace([Yield(LinkSite, EntryOf(c.name, path, listed))], None)
      else Empty
    else
      match (if listed.isSymlink then Reclassify(v, path, c.node) else Ok(listed))
      case Err(e) => Fail(Raw(e))
      case Ok(kind) =>
        if kind.isSymlink || kind.isDirectory then
          var t := Run(v, path, c.node, o.Nested());
          Deepen(t, dir, path, o);
          t
        else if o.includeFiles && ShouldIncludePath(path, o.exclude) then
          Trace([Yield(FileSite, EntryOf(c.name, path, kind))], None)
        else Empty
  }

  /** The items of the nested walk of a child `path` of `dir` are items of
      the walk of `dir`, one level deeper. */
  lemma Deepen(t: Trace, dir: Path, path: Path, o: WalkOptions)
    requires !o.maxDepth.Below(1) && IsPrefix(dir, path) && |path| == |dir| + 1
    requires WellPlaced(t, path, o.Nested())
    ensures WellPlaced(t, dir, o) && StrictlyBelow(t, dir)
  {
    forall k | 0 <= k < |t.items|
      ensures Placed(t.items[k], dir, o) && |t.items[k].entry.path| > |dir|
    {
      var p := t.items[k].entry.path;
      assert Placed(t.items[k], path, o.Nested());
      assert p[..|dir|] == p[..|path|][..|dir|];
    }
  }

  // ---------------------------------------------------------------------
  // The two entry points

  /** What both `walk` and `walkSync` promise their callers. */
  function WalkWith(v: Variant, dir: Path, root: Node, o: WalkOptions): (r: WalkResult)
    // a negative depth, or an excluded start, yields nothing and throws nothing
    ensures o.maxDepth.Below(0) ==> r == WalkResult([], None)
    ensures !ShouldIncludePath(dir, o.exclude) ==> r == WalkResult([], None)
    // the start entry comes first, with the type `stat` reports; a failing
    // `stat` is thrown as it is, before anything is listed
    ensures !o.maxDepth.Below(0) && o.includeDirs && ShouldIncludePath(dir, o.exclude) ==>
              match Stat(dir, root)
              case Ok(info) => |r.entries| > 0 && r.entries[0] == EntryOf(Basename(dir), dir, info)
              case Err(e) => r == WalkResult([], Some(Raw(e)))
    // maxDepth 0: at most the start entry, and no listing
    ensures o.maxDepth == Finite(0) ==> |r.entries| <= 1 && (r.error.Some? ==> r.error.value.Raw?)
    // every entry lies within maxDepth levels below the start, named by its last segment
    ensures forall e :: e in r.entries ==>
              IsPrefix(dir, e.path) && Fits(|e.path| - |dir|, o.maxDepth) && e.name == Basename(e.path)
    // only the start entry can be the start path itself
    ensures forall k :: 0 < k < |r.entries| ==> |r.entries[k].path| > |dir|
    ensures !o.includeDirs ==> forall e :: e in r.entries ==> !e.isDirectory
    // an entry flagged as a link is an unfollowed link, never typed and never the start
    ensures forall e :: e in r.entries && e.isSymlink ==>
              !o.followSymlinks && o.includeSymlinks && !e.isFile && !e.isDirectory && |e.path| > |dir|
  {
    var t := Run(v, dir, root, o);
    assert forall k :: 0 <= k < |t.items| ==> Placed(t.items[k], dir, o);
    Strip(t)
  }

  /** `walk(dir, options)`: every error thrown inside the loop is wrapped,
      so the only unwrapped error is a failing `stat` of the start. */
  function Walk(dir: Path, root: Node, o: WalkOptions): (r: WalkResult)
    ensures r.error.Some? ==>
              (r.error.value.Raw? && r.entries == []) || (r.error.value.Wrapped? && r.error.value.dir == dir)
  {
    WalkWith(Async, dir, root, o)
  }

  /** `walkSync(dir, options)`: only a failing listing is wrapped, once. */
  function WalkSync(dir: Path, root: Node, o: WalkOptions): (r: WalkResult)
    ensures r.error.Some? ==> r.error.value.Raw? || r.error.value.inner.Raw?
  {
    WalkWith(Sync, dir, root, o)
  }
}
