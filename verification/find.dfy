/** The upward ancestor search: `find` and `findSync` of src/find.ts.

    The filesystem is an abstract map from a path to the outcome of
    `stat`ing it, the optional test is tagged with how it runs, and both
    source functions share one definition, `Search`, parameterised by a
    `Mode` that says whether an asynchronous test is allowed.
 */
module AncestorSearch {
  import opened FsTree

  /** The `code` of a thrown error; only ENOENT is told apart. */
  datatype Code = ENOENT | OtherCode(name: string)

  /** What `stat(file)` does: succeed, or throw an error with a code. */
  datatype Probe = Exists | StatFails(code: Code)

  type FileSystem = Path -> Probe

  /** What the caller's test does with a file: return a truthy or falsy
      value, or throw (or reject with) an error with a code. */
  datatype Verdict = Truthy | Falsy | Throws(code: Code)

  /** `options.test`, tagged with whether it is an `async function`. */
  datatype Test = NoTest | SyncTest(run: Path -> Verdict) | AsyncTest(run: Path -> Verdict)

  /** The `name` argument: one name, or an array of names. */
  datatype NameArg = Single(name: Name) | Names(names: seq<Name>)

  /** `Array.isArray(name) ? name : [name]` */
  function FileNames(n: NameArg): seq<Name>
  {
    match n
    case Single(x) => [x]
    case Names(xs) => xs
  }

  datatype FindOptions = FindOptions(cwd: Option<Path>, stop: Option<Path>, test: Test)

  /** An error that escapes: a rethrown error, or the `TypeError` with the
      message "You are using a async test in sync mode." */
  datatype FindError = Thrown(code: Code) | AsyncTestInSyncMode

  datatype FindResult = Found(path: Path) | NotFound | Failed(error: FindError)

  /** `find` awaits its test; `findSync` refuses an asynchronous one. */
  datatype Mode = Awaiting | Blocking

  /** The outcome of probing one candidate: return it, try the next, or throw. */
  datatype Step = Accept | Next | Abort(error: FindError)

  /** The test passes the file: absent, or returning a truthy value. */
  predicate Passes(test: Test, file: Path)
  {
    test.NoTest? || test.run(file) == Truthy
  }

  /** The body of the inner loop for `file`: `stat` it, then run the test;
      an error coded ENOENT from either means "try the next candidate". */
  function ProbeOne(m: Mode, file: Path, fs: FileSystem, test: Test): (s: Step)
    ensures s == Accept ==> fs(file) == Exists && Passes(test, file) && !(m.Blocking? && test.AsyncTest?)
    ensures s.Abort? && s.error.Thrown? ==> s.error.code != ENOENT
    ensures s == Abort(AsyncTestInSyncMode) <==> m.Blocking? && test.AsyncTest? && fs(file) == Exists
    ensures fs(file) == StatFails(ENOENT) ==> s == Next
    // any other `stat` error is rethrown
    ensures fs(file).StatFails? && fs(file).code != ENOENT ==> s == Abort(Thrown(fs(file).code))
    // a test that runs: falsy or ENOENT moves on, any other error is rethrown
    ensures fs(file) == Exists && !test.NoTest? && !(m.Blocking? && test.AsyncTest?) ==>
              match test.run(file)
              case Truthy => s == Accept
              case Falsy => s == Next
              case Throws(code) => s == if code == ENOENT then Next else Abort(Thrown(code))
  {
    match fs(file)
    case StatFails(code) => if code == ENOENT then Next else Abort(Thrown(code))
    case Exists =>
      match test
      case NoTest => Accept
      case AsyncTest(run) => if m.Blocking? then Abort(AsyncTestInSyncMode) else Judge(run(file))
      case SyncTest(run) => Judge(run(file))
  }

  function Judge(v: Verdict): Step
  {
    match v
    case Truthy => Accept
    case Falsy => Next
    case Throws(code) => if code == ENOENT then Next else Abort(Thrown(code))
  }

  /** What any outcome of the search respects: a returned path exists and
      passes the test, and only other errors escape: never ENOENT, and the
      sync-mode `TypeError` only from `findSync` with an asynchronous test. */
  predicate Sound(m: Mode, fs: FileSystem, test: Test, r: FindResult)
  {
    && (r.Found? ==> fs(r.path) == Exists && Passes(test, r.path) && !(m.Blocking? && test.AsyncTest?))
    && (r.Failed? && r.error.Thrown? ==> r.error.code != ENOENT)
    && (r == Failed(AsyncTestInSyncMode) ==> m.Blocking? && test.AsyncTest?)
  }

  /** The candidates of one directory, in the order of the names. */
  function Level(dir: Path, names: seq<Name>): (r: seq<Path>)
    ensures |r| == |names|
    ensures forall i :: 0 <= i < |names| ==> r[i] == Join(dir, names[i])
  {
    seq(|names|, i requires 0 <= i < |names| => Join(dir, names[i]))
  }

  /** The inner `for (const name of fileNames)` loop, from the `i`-th name:
      the first candidate that is accepted or throws decides. */
  function ProbeNames(m: Mode, dir: Path, names: seq<Name>, i: nat, fs: FileSystem, test: Test): (r: FindResult)
    requires i <= |names|
    ensures r.Found? ==> exists j :: i <= j < |names| && r.path == Join(dir, names[j])
    ensures Sound(m, fs, test, r)
    decreases |names| - i
  {
    if i == |names| then NotFound
    else
      var file := Join(dir, names[i]);
      match ProbeOne(m, file, fs, test)
      case Accept => Found(file)
      case Abort(e) => Failed(e)
      case Next => ProbeNames(m, dir, names, i + 1, fs, test)
  }

  /** The outer `while (dir !== root)` loop, from `dir` up to the exclusive
      boundary `stop`.  Unlike the source, it also ends after the filesystem
      root has been probed, so a `stop` off the ancestor chain cannot make it
      run forever (see `SearchAsWritten`). */
  function Search(m: Mode, names: seq<Name>, dir: Path, stop: Path, fs: FileSystem, test: Test): (r: FindResult)
    ensures r.Found? ==> |r.path| > 0 && IsPrefix(Parent(r.path), dir) && Basename(r.path) in names
    ensures r.Found? && IsPrefix(stop, dir) ==> |Parent(r.path)| > |stop|
    ensures Sound(m, fs, test, r)
    decreases |dir|
  {
    if dir == stop then NotFound
    else
      match ProbeNames(m, dir, names, 0, fs, test)
      case NotFound => if |dir| == 0 then NotFound else Search(m, names, Parent(dir), stop, fs, test)
      case r => r
  }

  /** The source's loop exactly, run for at most `fuel` iterations: `None`
      when it has not returned by then.  The parent of the root is the root. */
  function SearchAsWritten(fuel: nat, m: Mode, names: seq<Name>, dir: Path, stop: Path, fs: FileSystem, test: Test)
    : Option<FindResult>
  {
    if fuel == 0 then None
    else if dir == stop then Some(NotFound)
    else
      match ProbeNames(m, dir, names, 0, fs, test)
      case NotFound => SearchAsWritten(fuel - 1, m, names, Parent(dir), stop, fs, test)
      case r => Some(r)
  }

  /** `resolve(options.cwd || process.cwd())`: the start directory. */
  function Start(o: FindOptions, processCwd: Path): Path
  {
    if o.cwd.Some? then o.cwd.value else processCwd
  }

  /** `options.stop || parse(dir).root`: the exclusive boundary. */
  function Boundary(o: FindOptions): Path
  {
    if o.stop.Some? then o.stop.value else []
  }

  /** What both `find` and `findSync` promise their callers. */
  function FindWith(m: Mode, name: NameArg, o: FindOptions, processCwd: Path, fs: FileSystem): (r: FindResult)
    // a returned path exists and passes the test; ENOENT, from `stat` or
    // from the test, never escapes
    ensures Sound(m, fs, o.test, r)
    // it is one of the names in the start directory or one of its ancestors,
    // strictly below the boundary when the boundary is on that chain
    ensures r.Found? ==>
              |r.path| > 0 && IsPrefix(Parent(r.path), Start(o, processCwd)) && Basename(r.path) in FileNames(name)
    ensures r.Found? && IsPrefix(Boundary(o), Start(o, processCwd)) ==> |Parent(r.path)| > |Boundary(o)|
    // starting at the boundary probes nothing
    ensures Start(o, processCwd) == Boundary(o) ==> r == NotFound
  {
    Search(m, FileNames(name), Start(o, processCwd), Boundary(o), fs, o.test)
  }

  /** `find(name, options)` */
  function Find(name: NameArg, o: FindOptions, processCwd: Path, fs: FileSystem): (r: FindResult)
    ensures r != Failed(AsyncTestInSyncMode)
  {
    FindWith(Awaiting, name, o, processCwd, fs)
  }

  /** `findSync(name, options)`: an asynchronous test never lets a path through. */
  function FindSync(name: NameArg, o: FindOptions, processCwd: Path, fs: FileSystem): (r: FindResult)
    ensures o.test.AsyncTest? ==> !r.Found?
  {
    FindWith(Blocking, name, o, processCwd, fs)
  }
}
