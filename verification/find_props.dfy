/** Properties of the ancestor search: which paths it probes and in which
    order, that the first decisive candidate settles the result, where
    `find` and `findSync` differ, and how the source's own loop relates to
    the terminating `Search`. */
module SearchProps {
  import opened FsTree
  import opened AncestorSearch

  // ---------------------------------------------------------------------
  // The candidates, as a reference list

  /** Every path the search may probe, in probing order: the names in
      `dir`, then in its parent, and so on up to (not including) `stop`, or
      through the filesystem root when `stop` is not an ancestor of `dir`. */
  function Candidates(dir: Path, stop: Path, names: seq<Name>): (r: seq<Path>)
    ensures Within(r, dir)
    // deeper directories come first
    ensures DeeperFirst(r)
    decreases |dir|
  {
    if dir == stop then []
    else
      var level := Level(dir, names);
      var rest := if |dir| == 0 then [] else Candidates(Parent(dir), stop, names);
      WithinParent(rest, dir);
      LevelFirst(level, rest, dir);
      level + rest
  }

  /** Every path is a name in `dir` or in one of its ancestors. */
  predicate Within(r: seq<Path>, dir: Path)
  {
    forall j :: 0 <= j < |r| ==> |r[j]| > 0 && IsPrefix(Parent(r[j]), dir)
  }

  /** The paths come in order of non-increasing depth. */
  predicate DeeperFirst(r: seq<Path>)
  {
    forall a, b :: 0 <= a < b < |r| ==> |r[a]| >= |r[b]|
  }

  /** The candidates above `dir` lie within `dir` too, no deeper than it. */
  lemma WithinParent(rest: seq<Path>, dir: Path)
    requires if |dir| == 0 then rest == [] else Within(rest, Parent(dir))
    ensures Within(rest, dir) && forall j :: 0 <= j < |rest| ==> |rest[j]| <= |dir|
  {
    forall j | 0 <= j < |rest|
      ensures IsPrefix(Parent(rest[j]), dir)
    {
      PrefixOfDir(Parent(rest[j]), dir);
    }
  }

  /** The names of `dir` come before, and are deeper than, the rest. */
  lemma LevelFirst(level: seq<Path>, rest: seq<Path>, dir: Path)
    requires forall j :: 0 <= j < |level| ==> level[j] == Join(dir, Basename(level[j]))
    requires Within(rest, dir) && DeeperFirst(rest)
    requires forall j :: 0 <= j < |rest| ==> |rest[j]| <= |dir|
    ensures Within(level + rest, dir) && DeeperFirst(level + rest)
  {
    var r := level + rest;
    forall j | 0 <= j < |r|
      ensures |r[j]| > 0 && IsPrefix(Parent(r[j]), dir)
    {
      if j >= |level| {
        assert r[j] == rest[j - |level|];
      }
    }
    forall a, b | 0 <= a < b < |r|
      ensures |r[a]| >= |r[b]|
    {
      if a >= |level| {
        assert r[a] == rest[a - |level|] && r[b] == rest[b - |level|];
      } else if b >= |level| {
        assert r[b] == rest[b - |level|];
      }
    }
  }

  /** The lowest directory depth that is probed. */
  function Lowest(dir: Path, stop: Path): nat
  {
    if IsPrefix(stop, dir) then |stop| + 1 else 0
  }

  /** `p` is one of the names in `dir` or in an ancestor of `dir` strictly
      below `stop`. */
  predicate Candidate(p: Path, dir: Path, stop: Path, names: seq<Name>)
  {
    |p| > 0 && Basename(p) in names && IsPrefix(Parent(p), dir) && |Parent(p)| >= Lowest(dir, stop)
  }

  lemma PrefixOfDir(q: Path, dir: Path)
    requires |dir| > 0
    ensures IsPrefix(q, dir) <==> q == dir || IsPrefix(q, Parent(dir))
  {
    if IsPrefix(q, dir) && q != dir {
      assert |q| < |dir|;
      assert Parent(dir)[..|q|] == dir[..|q|];
    }
    if IsPrefix(q, Parent(dir)) {
      assert dir[..|q|] == Parent(dir)[..|q|];
    }
  }

  lemma JoinParent(p: Path)
    requires |p| > 0
    ensures p == Join(Parent(p), Basename(p))
  {
  }

  /** `p` is one of the names in `dir` itself. */
  predicate InLevel(p: Path, dir: Path, names: seq<Name>)
  {
    |p| > 0 && Basename(p) in names && Parent(p) == dir
  }

  lemma LevelMembers(p: Path, dir: Path, names: seq<Name>)
    ensures p in Level(dir, names) <==> InLevel(p, dir, names)
  {
    var level := Level(dir, names);
    if p in level {
      var i :| 0 <= i < |level| && level[i] == p;
      assert p == Join(dir, names[i]);
    }
    if InLevel(p, dir, names) {
      JoinParent(p);
      var i :| 0 <= i < |names| && names[i] == Basename(p);
      assert level[i] == p;
    }
  }

  /** Going up one directory below the boundary keeps the lowest depth. */
  lemma CandidateStep(p: Path, dir: Path, stop: Path, names: seq<Name>)
    requires |dir| > 0 && dir != stop
    ensures Candidate(p, dir, stop, names) <==> InLevel(p, dir, names) || Candidate(p, Parent(dir), stop, names)
  {
    PrefixOfDir(stop, dir);
    assert Lowest(Parent(dir), stop) == Lowest(dir, stop);
    if |p| > 0 {
      PrefixOfDir(Parent(p), dir);
    }
  }

  /** At the root, only the names in the root itself are candidates. */
  lemma CandidateAtRoot(p: Path, dir: Path, stop: Path, names: seq<Name>)
    requires |dir| == 0 && dir != stop
    ensures Candidate(p, dir, stop, names) <==> InLevel(p, dir, names)
  {
    assert Lowest(dir, stop) == 0;
  }

  /** The reference list holds exactly the candidates. */
  lemma {:induction false} CandidatesAre(p: Path, dir: Path, stop: Path, names: seq<Name>)
    ensures p in Candidates(dir, stop, names) <==> Candidate(p, dir, stop, names)
    decreases |dir|
  {
    if dir == stop {
      if Candidate(p, dir, stop, names) {
        assert IsPrefix(stop, dir);
        assert false;
      }
    } else {
      LevelMembers(p, dir, names);
      if |dir| == 0 {
        CandidateAtRoot(p, dir, stop, names);
        assert Candidates(dir, stop, names) == Level(dir, names) + [];
      } else {
        CandidatesAre(p, Parent(dir), stop, names);
        CandidateStep(p, dir, stop, names);
        assert Candidates(dir, stop, names) == Level(dir, names) + Candidates(Parent(dir), stop, names);
      }
    }
  }

  // ---------------------------------------------------------------------
  // Scanning a candidate list

  /** The result a deciding step gives for its candidate. */
  function Outcome(file: Path, s: Step): FindResult
  {
    match s
    case Accept => Found(file)
    case Abort(e) => Failed(e)
    case Next => NotFound
  }

  /** Candidate `i` is the first whose probe does not say "try the next". */
  predicate Decides(m: Mode, cands: seq<Path>, i: nat, fs: FileSystem, test: Test)
    requires i < |cands|
  {
    && ProbeOne(m, cands[i], fs, test) != Next
    && forall j :: 0 <= j < i ==> ProbeOne(m, cands[j], fs, test) == Next
  }

  /** Probe the candidates in order; the first decisive one settles it. */
  function Scan(m: Mode, cands: seq<Path>, fs: FileSystem, test: Test): (r: FindResult)
    ensures r == NotFound <==> forall j :: 0 <= j < |cands| ==> ProbeOne(m, cands[j], fs, test) == Next
    ensures forall i :: 0 <= i < |cands| && Decides(m, cands, i, fs, test) ==>
                          r == Outcome(cands[i], ProbeOne(m, cands[i], fs, test))
    decreases |cands|
  {
    if |cands| == 0 then NotFound
    else
      match ProbeOne(m, cands[0], fs, test)
      case Accept => Found(cands[0])
      case Abort(e) => Failed(e)
      case Next =>
        var r := Scan(m, cands[1..], fs, test);
        assert forall i :: 1 <= i < |cands| && Decides(m, cands, i, fs, test) ==> Decides(m, cands[1..], i - 1, fs, test) by {
          forall i | 1 <= i < |cands| && Decides(m, cands, i, fs, test)
            ensures Decides(m, cands[1..], i - 1, fs, test)
          {
            assert forall j :: 0 <= j < i - 1 ==> cands[1..][j] == cands[j + 1];
          }
        }
        assert (forall j :: 0 <= j < |cands| ==> ProbeOne(m, cands[j], fs, test) == Next)
           <==> (forall j :: 0 <= j < |cands| - 1 ==> ProbeOne(m, cands[1..][j], fs, test) == Next) by {
          assert forall j :: 0 <= j < |cands| - 1 ==> cands[1..][j] == cands[j + 1];
        }
        r
  }

  /** When some candidate is decisive, the first one is. */
  lemma {:induction false} FirstDecider(m: Mode, cands: seq<Path>, fs: FileSystem, test: Test) returns (i: nat)
    requires exists j :: 0 <= j < |cands| && ProbeOne(m, cands[j], fs, test) != Next
    ensures i < |cands| && Decides(m, cands, i, fs, test)
    decreases |cands|
  {
    if ProbeOne(m, cands[0], fs, test) != Next {
      i := 0;
    } else {
      var j :| 0 <= j < |cands| && ProbeOne(m, cands[j], fs, test) != Next;
      assert cands[1..][j - 1] == cands[j];
      var k := FirstDecider(m, cands[1..], fs, test);
      i := k + 1;
      assert forall l :: 0 < l < i ==> cands[l] == cands[1..][l - 1];
    }
  }

  lemma {:induction false} ScanAppend(m: Mode, a: seq<Path>, b: seq<Path>, fs: FileSystem, test: Test)
    ensures Scan(m, a + b, fs, test) == if Scan(m, a, fs, test) == NotFound then Scan(m, b, fs, test) else Scan(m, a, fs, test)
    decreases |a|
  {
    if |a| == 0 {
      assert a + b == b;
    } else {
      assert (a + b)[0] == a[0];
      assert (a + b)[1..] == a[1..] + b;
      ScanAppend(m, a[1..], b, fs, test);
    }
  }

  /** Scans agree when every candidate probes alike. */
  lemma {:induction false} ScanCongruent(m: Mode, m': Mode, cands: seq<Path>, fs: FileSystem, fs': FileSystem, test: Test, test': Test)
    requires forall j :: 0 <= j < |cands| ==> ProbeOne(m, cands[j], fs, test) == ProbeOne(m', cands[j], fs', test')
    ensures Scan(m, cands, fs, test) == Scan(m', cands, fs', test')
    decreases |cands|
  {
    if |cands| > 0 {
      assert forall j :: 0 <= j < |cands| - 1 ==> cands[1..][j] == cands[j + 1];
      ScanCongruent(m, m', cands[1..], fs, fs', test, test');
    }
  }

  // ---------------------------------------------------------------------
  // The search is the scan of the candidates

  lemma {:induction false} ProbeNamesIsScan(m: Mode, dir: Path, names: seq<Name>, i: nat, fs: FileSystem, test: Test)
    requires i <= |names|
    ensures ProbeNames(m, dir, names, i, fs, test) == Scan(m, Level(dir, names)[i..], fs, test)
    decreases |names| - i
  {
    var level := Level(dir, names);
    if i < |names| {
      assert level[i..][0] == Join(dir, names[i]);
      assert level[i..][1..] == level[i + 1..];
      ProbeNamesIsScan(m, dir, names, i + 1, fs, test);
    }
  }

  lemma {:induction false} SearchIsScan(m: Mode, names: seq<Name>, dir: Path, stop: Path, fs: FileSystem, test: Test)
    ensures Search(m, names, dir, stop, fs, test) == Scan(m, Candidates(dir, stop, names), fs, test)
    decreases |dir|
  {
    if dir != stop {
      var level := Level(dir, names);
      ProbeNamesIsScan(m, dir, names, 0, fs, test);
      assert level[0..] == level;
      var rest := if |dir| == 0 then [] else Candidates(Parent(dir), stop, names);
      ScanAppend(m, level, rest, fs, test);
      if |dir| > 0 {
        SearchIsScan(m, names, Parent(dir), stop, fs, test);
      }
    }
  }

  /** The search returns the first candidate, in the order of the reference
      list, that is accepted or throws, and `NotFound` exactly when every
      candidate is absent, rejected by the test, or fails with ENOENT. */
  lemma SearchIsFirstMatch(m: Mode, names: seq<Name>, dir: Path, stop: Path, fs: FileSystem, test: Test)
    ensures var r := Search(m, names, dir, stop, fs, test);
            var c := Candidates(dir, stop, names);
            && (r == NotFound <==> forall j :: 0 <= j < |c| ==> ProbeOne(m, c[j], fs, test) == Next)
            && (forall i :: 0 <= i < |c| && Decides(m, c, i, fs, test) ==> r == Outcome(c[i], ProbeOne(m, c[i], fs, test)))
  {
    SearchIsScan(m, names, dir, stop, fs, test);
  }

  /** Every candidate is passed over exactly when every element of the
      reference list is. */
  lemma AllPassedOver(m: Mode, names: seq<Name>, dir: Path, stop: Path, fs: FileSystem, test: Test)
    ensures var c := Candidates(dir, stop, names);
            (forall q :: Candidate(q, dir, stop, names) ==> ProbeOne(m, q, fs, test) == Next)
            <==> (forall j :: 0 <= j < |c| ==> ProbeOne(m, c[j], fs, test) == Next)
  {
    var c := Candidates(dir, stop, names);
    if forall j :: 0 <= j < |c| ==> ProbeOne(m, c[j], fs, test) == Next {
      forall q | Candidate(q, dir, stop, names)
        ensures ProbeOne(m, q, fs, test) == Next
      {
        CandidatesAre(q, dir, stop, names);
      }
    }
    if forall q :: Candidate(q, dir, stop, names) ==> ProbeOne(m, q, fs, test) == Next {
      forall j | 0 <= j < |c|
        ensures ProbeOne(m, c[j], fs, test) == Next
      {
        CandidatesAre(c[j], dir, stop, names);
      }
    }
  }

  /** The nearest match wins: a found file is a candidate, and every
      candidate in a deeper directory was passed over; `NotFound` means every
      candidate was passed over. */
  lemma NearestWins(m: Mode, names: seq<Name>, dir: Path, stop: Path, fs: FileSystem, test: Test)
    ensures var r := Search(m, names, dir, stop, fs, test);
            && (r.Found? ==> Candidate(r.path, dir, stop, names))
            && (r.Found? ==> forall q :: Candidate(q, dir, stop, names) && |q| > |r.path| ==> ProbeOne(m, q, fs, test) == Next)
            && (r == NotFound <==> forall q :: Candidate(q, dir, stop, names) ==> ProbeOne(m, q, fs, test) == Next)
  {
    var r := Search(m, names, dir, stop, fs, test);
    SearchIsScan(m, names, dir, stop, fs, test);
    AllPassedOver(m, names, dir, stop, fs, test);
    if r.Found? {
      NearestFound(m, names, dir, stop, fs, test);
    }
  }

  lemma NearestFound(m: Mode, names: seq<Name>, dir: Path, stop: Path, fs: FileSystem, test: Test)
    requires Search(m, names, dir, stop, fs, test).Found?
    ensures var found := Search(m, names, dir, stop, fs, test).path;
            && Candidate(found, dir, stop, names)
            && forall q :: Candidate(q, dir, stop, names) && |q| > |found| ==> ProbeOne(m, q, fs, test) == Next
  {
    var c := Candidates(dir, stop, names);
    SearchIsScan(m, names, dir, stop, fs, test);
    var i := ScanFound(m, c, fs, test);
    FoundIsNearest(m, c, i, c[i], dir, stop, names, fs, test);
  }

  /** A found file is the first decisive candidate. */
  lemma ScanFound(m: Mode, c: seq<Path>, fs: FileSystem, test: Test) returns (i: nat)
    requires Scan(m, c, fs, test).Found?
    ensures i < |c| && Decides(m, c, i, fs, test) && c[i] == Scan(m, c, fs, test).path
  {
    i := FirstDecider(m, c, fs, test);
  }

  lemma FoundIsNearest(m: Mode, c: seq<Path>, i: nat, found: Path, dir: Path, stop: Path, names: seq<Name>, fs: FileSystem, test: Test)
    requires c == Candidates(dir, stop, names)
    requires i < |c| && Decides(m, c, i, fs, test) && c[i] == found
    ensures Candidate(found, dir, stop, names)
    ensures forall q :: Candidate(q, dir, stop, names) && |q| > |found| ==> ProbeOne(m, q, fs, test) == Next
  {
    CandidatesAre(found, dir, stop, names);
    forall q | Candidate(q, dir, stop, names) && |q| > |found|
      ensures ProbeOne(m, q, fs, test) == Next
    {
      CandidatesAre(q, dir, stop, names);
      var j := IndexOf(q, c);
      DeeperIsEarlier(c, i, j, dir, stop, names);
    }
  }

  lemma IndexOf(q: Path, c: seq<Path>) returns (j: nat)
    requires q in c
    ensures j < |c| && c[j] == q
  {
    j :| 0 <= j < |c| && c[j] == q;
  }

  lemma DeeperIsEarlier(c: seq<Path>, i: nat, j: nat, dir: Path, stop: Path, names: seq<Name>)
    requires c == Candidates(dir, stop, names)
    requires i < |c| && j < |c| && |c[j]| > |c[i]|
    ensures j < i
  {
  }

  /** Two tests of the same kind that agree on every path longer than `n`. */
  ghost predicate AgreeBeyond(test: Test, test': Test, n: nat)
  {
    match (test, test')
    case (NoTest, NoTest) => true
    case (SyncTest(f), SyncTest(g)) => forall p: Path :: |p| > n ==> f(p) == g(p)
    case (AsyncTest(f), AsyncTest(g)) => forall p: Path :: |p| > n ==> f(p) == g(p)
    case _ => false
  }

  /** The boundary is exclusive: no file in the `stop` directory or above it
      is `stat`ed or passed to the test, so filesystems and tests that agree below it
      give the same result. */
  lemma BoundaryNeverProbed(m: Mode, names: seq<Name>, dir: Path, stop: Path, fs: FileSystem, fs': FileSystem, test: Test, test': Test)
    requires IsPrefix(stop, dir)
    requires forall p: Path :: |p| > |stop| + 1 ==> fs(p) == fs'(p)
    requires AgreeBeyond(test, test', |stop| + 1)
    ensures Search(m, names, dir, stop, fs, test) == Search(m, names, dir, stop, fs', test')
  {
    var c := Candidates(dir, stop, names);
    forall j | 0 <= j < |c|
      ensures ProbeOne(m, c[j], fs, test) == ProbeOne(m, c[j], fs', test')
    {
      CandidatesAre(c[j], dir, stop, names);
      assert |c[j]| > |stop| + 1;
    }
    ScanCongruent(m, m, c, fs, fs', test, test');
    SearchIsScan(m, names, dir, stop, fs, test);
    SearchIsScan(m, names, dir, stop, fs', test');
  }

  // ---------------------------------------------------------------------
  // find and findSync

  /** With no test, or a synchronous one, `findSync` returns what `find`
      resolves to, and throws what `find` rejects with. */
  lemma FindSyncAgreesWithFind(name: NameArg, o: FindOptions, processCwd: Path, fs: FileSystem)
    requires !o.test.AsyncTest?
    ensures FindSync(name, o, processCwd, fs) == Find(name, o, processCwd, fs)
  {
    var names, dir, stop := FileNames(name), Start(o, processCwd), Boundary(o);
    ScanCongruent(Blocking, Awaiting, Candidates(dir, stop, names), fs, fs, o.test, o.test);
    SearchIsScan(Blocking, names, dir, stop, fs, o.test);
    SearchIsScan(Awaiting, names, dir, stop, fs, o.test);
  }

  /** A single name is searched for as the one-element list of it. */
  lemma SingleNameIsOneElementList(m: Mode, name: Name, o: FindOptions, processCwd: Path, fs: FileSystem)
    ensures FindWith(m, Single(name), o, processCwd, fs) == FindWith(m, Names([name]), o, processCwd, fs)
  {
  }

  /** `findSync` with an asynchronous test never runs it: it returns null
      only when every candidate is missing (ENOENT), and the first candidate
      that exists, unless a `stat` error comes first, makes it throw the
      `TypeError`. */
  lemma AsyncTestNeverRuns(name: NameArg, o: FindOptions, processCwd: Path, fs: FileSystem)
    requires o.test.AsyncTest?
    ensures var r := FindSync(name, o, processCwd, fs);
            var c := Candidates(Start(o, processCwd), Boundary(o), FileNames(name));
            && (r == NotFound <==> forall j :: 0 <= j < |c| ==> fs(c[j]) == StatFails(ENOENT))
            && (forall i :: 0 <= i < |c| && fs(c[i]) == Exists && (forall j :: 0 <= j < i ==> fs(c[j]) == StatFails(ENOENT))
                  ==> r == Failed(AsyncTestInSyncMode))
  {
    BlockingAsyncSearch(FileNames(name), Start(o, processCwd), Boundary(o), fs, o.test);
  }

  lemma BlockingAsyncSearch(names: seq<Name>, dir: Path, stop: Path, fs: FileSystem, test: Test)
    requires test.AsyncTest?
    ensures var r := Search(Blocking, names, dir, stop, fs, test);
            var c := Candidates(dir, stop, names);
            && (r == NotFound <==> forall j :: 0 <= j < |c| ==> fs(c[j]) == StatFails(ENOENT))
            && (forall i :: 0 <= i < |c| && fs(c[i]) == Exists && (forall j :: 0 <= j < i ==> fs(c[j]) == StatFails(ENOENT))
                  ==> r == Failed(AsyncTestInSyncMode))
  {
    var c := Candidates(dir, stop, names);
    RefusedUnlessMissing(c, fs, test);
    SearchIsScan(Blocking, names, dir, stop, fs, test);
  }

  /** In blocking mode an asynchronous test turns every existing file into
      the `TypeError`, and only a missing one into "try the next". */
  lemma RefusedUnlessMissing(c: seq<Path>, fs: FileSystem, test: Test)
    requires test.AsyncTest?
    ensures forall j :: 0 <= j < |c| ==> (ProbeOne(Blocking, c[j], fs, test) == Next <==> fs(c[j]) == StatFails(ENOENT))
    ensures forall i :: 0 <= i < |c| && fs(c[i]) == Exists && (forall j :: 0 <= j < i ==> fs(c[j]) == StatFails(ENOENT)) ==>
              Decides(Blocking, c, i, fs, test) && ProbeOne(Blocking, c[i], fs, test) == Abort(AsyncTestInSyncMode)
  {
  }

  // ---------------------------------------------------------------------
  // The source's loop

  /** With the boundary on the ancestor chain, the source's loop returns,
      within one iteration per directory probed, what `Search` returns. */
  lemma {:induction false} AsWrittenAgreesOnChain(fuel: nat, m: Mode, names: seq<Name>, dir: Path, stop: Path, fs: FileSystem, test: Test)
    requires IsPrefix(stop, dir)
    requires fuel > |dir| - |stop|
    ensures SearchAsWritten(fuel, m, names, dir, stop, fs, test) == Some(Search(m, names, dir, stop, fs, test))
    decreases |dir|
  {
    if dir != stop && ProbeNames(m, dir, names, 0, fs, test) == NotFound {
      assert |dir| > |stop|;
      PrefixOfDir(stop, dir);
      AsWrittenAgreesOnChain(fuel - 1, m, names, Parent(dir), stop, fs, test);
    }
  }

  /** Whatever the boundary, the source's loop, when it returns at all,
      returns what `Search` returns: the corrected loop changes only the
      runs that never end. */
  lemma {:induction false} AsWrittenOnlyAddsTermination(fuel: nat, m: Mode, names: seq<Name>, dir: Path, stop: Path, fs: FileSystem, test: Test)
    ensures SearchAsWritten(fuel, m, names, dir, stop, fs, test).Some? ==>
              SearchAsWritten(fuel, m, names, dir, stop, fs, test) == Some(Search(m, names, dir, stop, fs, test))
    decreases fuel
  {
    if fuel > 0 && dir != stop && ProbeNames(m, dir, names, 0, fs, test) == NotFound {
      if |dir| == 0 {
        StuckAtRoot(fuel - 1, m, names, stop, fs, test);
      } else {
        AsWrittenOnlyAddsTermination(fuel - 1, m, names, Parent(dir), stop, fs, test);
      }
    }
  }

  /** At the root, with a boundary elsewhere and nothing found there, the
      source's loop probes the root again and again. */
  lemma {:induction false} StuckAtRoot(fuel: nat, m: Mode, names: seq<Name>, stop: Path, fs: FileSystem, test: Test)
    requires stop != [] && ProbeNames(m, [], names, 0, fs, test) == NotFound
    ensures SearchAsWritten(fuel, m, names, [], stop, fs, test) == None
    decreases fuel
  {
    if fuel > 0 {
      assert Parent([]) == [];
      StuckAtRoot(fuel - 1, m, names, stop, fs, test);
    }
  }

  /** A filesystem where nothing exists. */
  function Nothing(): FileSystem
  {
    (p: Path) => StatFails(ENOENT)
  }

  lemma {:induction false} NothingProbed(m: Mode, dir: Path, names: seq<Name>, i: nat, test: Test)
    requires i <= |names|
    ensures ProbeNames(m, dir, names, i, Nothing(), test) == NotFound
    decreases |names| - i
  {
    if i < |names| {
      NothingProbed(m, dir, names, i + 1, test);
    }
  }

  /** With a boundary that is not an ancestor of the start, and nothing to
      find, the source's loop never returns: once at the filesystem root,
      the parent of the directory is the directory itself and never equals
      the boundary.  `Search` returns `NotFound` instead. */
  lemma {:induction false} AsWrittenNeverReturns(fuel: nat, m: Mode, names: seq<Name>, dir: Path, stop: Path, test: Test)
    requires !IsPrefix(stop, dir)
    ensures SearchAsWritten(fuel, m, names, dir, stop, Nothing(), test) == None
    ensures Search(m, names, dir, stop, Nothing(), test) == NotFound
    decreases fuel, |dir|
  {
    NothingProbed(m, dir, names, 0, test);
    if |dir| > 0 {
      PrefixOfDir(stop, dir);
    }
    if fuel > 0 {
      AsWrittenNeverReturns(fuel - 1, m, names, Parent(dir), stop, test);
    } else if |dir| > 0 {
      AsWrittenNeverReturns(0, m, names, Parent(dir), stop, test);
    }
  }
}
