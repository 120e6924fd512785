/** The ancestor search on the fixture of the repository's tests: a
    directory `t/fixture` holding `package.json` (with a version) and
    `minions.jpg`, searched from `t/fixture/a/b`, with another
    `package.json` further up, in `t`. */
module SearchCases {
  import opened FsTree
  import opened AncestorSearch
  import opened SearchProps

  const Cwd: Path := ["t", "fixture", "a", "b"]
  const Manifest: Path := ["t", "fixture", "package.json"]
  const Picture: Path := ["t", "fixture", "minions.jpg"]
  /** A manifest above the fixture, which a farthest-first search would find. */
  const Outer: Path := ["t", "package.json"]

  function Fixture(): FileSystem
  {
    (p: Path) => if p == Manifest || p == Picture || p == Outer then Exists else StatFails(ENOENT)
  }

  /** The test of the repository's tests: accept a `package.json` (whose
      `version` field is set), reject anything else. */
  function HasVersion(): Path -> Verdict
  {
    (p: Path) => if Basename(p) == "package.json" then Truthy else Falsy
  }

  function From(test: Test): FindOptions
  {
    FindOptions(Some(Cwd), None, test)
  }

  /** The directories above `Cwd`, as the search computes them. */
  lemma Ancestors()
    ensures Parent(Cwd) == ["t", "fixture", "a"]
    ensures Parent(["t", "fixture", "a"]) == ["t", "fixture"]
    ensures Parent(["t", "fixture"]) == ["t"]
  {
  }

  /** Neither `b` nor `a` holds any name searched for. */
  lemma NothingBelowFixture(m: Mode, names: seq<Name>, test: Test)
    requires forall i :: 0 <= i < |names| ==> names[i] in {"minions.jpg", "package.json"}
    ensures ProbeNames(m, Cwd, names, 0, Fixture(), test) == NotFound
    ensures ProbeNames(m, ["t", "fixture", "a"], names, 0, Fixture(), test) == NotFound
  {
    NothingIn(m, Cwd, names, 0, test);
    NothingIn(m, ["t", "fixture", "a"], names, 0, test);
  }

  lemma {:induction false} NothingIn(m: Mode, dir: Path, names: seq<Name>, i: nat, test: Test)
    requires i <= |names|
    requires |dir| > 2 && dir[..2] == ["t", "fixture"]
    ensures ProbeNames(m, dir, names, i, Fixture(), test) == NotFound
    decreases |names| - i
  {
    if i < |names| {
      var file := Join(dir, names[i]);
      assert file != Manifest && file != Picture && file != Outer by {
        assert |file| > 3;
      }
      NothingIn(m, dir, names, i + 1, test);
    }
  }

  /** The searched directories up to the fixture, in order. */
  lemma SearchReachesFixture(m: Mode, names: seq<Name>, test: Test)
    requires forall i :: 0 <= i < |names| ==> names[i] in {"minions.jpg", "package.json"}
    ensures Search(m, names, Cwd, [], Fixture(), test) == Search(m, names, ["t", "fixture"], [], Fixture(), test)
  {
    Ancestors();
    NothingBelowFixture(m, names, test);
  }

  /** `find(['minions.jpg', 'package.json'], { cwd })` returns the picture:
      the names are tried in the order given. */
  lemma FindMinions(processCwd: Path)
    ensures Find(Names(["minions.jpg", "package.json"]), From(NoTest), processCwd, Fixture()) == Found(Picture)
    ensures FindSync(Names(["minions.jpg", "package.json"]), From(NoTest), processCwd, Fixture()) == Found(Picture)
  {
    var names := ["minions.jpg", "package.json"];
    SearchReachesFixture(Awaiting, names, NoTest);
    SearchReachesFixture(Blocking, names, NoTest);
    assert Join(["t", "fixture"], "minions.jpg") == Picture;
  }

  /** `find('package.json', { cwd })` returns the nearest manifest, not the
      one at the root. */
  lemma FindManifest(processCwd: Path)
    ensures Find(Single("package.json"), From(NoTest), processCwd, Fixture()) == Found(Manifest)
    ensures FindSync(Single("package.json"), From(NoTest), processCwd, Fixture()) == Found(Manifest)
  {
    SearchReachesFixture(Awaiting, ["package.json"], NoTest);
    SearchReachesFixture(Blocking, ["package.json"], NoTest);
    assert Join(["t", "fixture"], "package.json") == Manifest;
  }

  /** With the version test as an `async` function, `find` awaits it and
      returns the manifest. */
  lemma FindWithAsyncVersionTest(processCwd: Path)
    ensures Find(Single("package.json"), From(AsyncTest(HasVersion())), processCwd, Fixture()) == Found(Manifest)
  {
    SearchReachesFixture(Awaiting, ["package.json"], AsyncTest(HasVersion()));
    assert Join(["t", "fixture"], "package.json") == Manifest;
  }

  /** `findSync` returns the manifest with the version test as a plain
      function. */
  lemma FindSyncWithVersionTest(processCwd: Path)
    ensures FindSync(Single("package.json"), From(SyncTest(HasVersion())), processCwd, Fixture()) == Found(Manifest)
  {
    SearchReachesFixture(Blocking, ["package.json"], SyncTest(HasVersion()));
    assert Join(["t", "fixture"], "package.json") == Manifest;
  }

  /** `findSync` throws the `TypeError` with the version test as an `async`
      function, at the first file that exists. */
  lemma FindSyncRefusesAsyncTest(processCwd: Path)
    ensures FindSync(Single("package.json"), From(AsyncTest(HasVersion())), processCwd, Fixture())
              == Failed(AsyncTestInSyncMode)
  {
    SearchReachesFixture(Blocking, ["package.json"], AsyncTest(HasVersion()));
    assert Join(["t", "fixture"], "package.json") == Manifest;
  }

  /** A boundary at the fixture directory hides its files: the search stops
      before probing it. */
  lemma StopAtFixture(processCwd: Path)
    ensures Find(Single("package.json"), FindOptions(Some(Cwd), Some(["t", "fixture"]), NoTest), processCwd, Fixture())
              == NotFound
  {
    Ancestors();
    NothingBelowFixture(Awaiting, ["package.json"], NoTest);
  }

  /** `find('config.json', { cwd: '/x/y/z', stop: '/x' })` with the only
      `config.json` at `/x/config.json`: the boundary hides it. */
  lemma ConfigAboveBoundary(processCwd: Path)
    ensures Find(Single("config.json"), FindOptions(Some(["x", "y", "z"]), Some(["x"]), NoTest), processCwd,
                 (p: Path) => if p == ["x", "config.json"] then Exists else StatFails(ENOENT))
            == NotFound
  {
    assert Parent(["x", "y", "z"]) == ["x", "y"];
    assert Parent(["x", "y"]) == ["x"];
    assert Join(["x", "y", "z"], "config.json") == ["x", "y", "z", "config.json"];
    assert Join(["x", "y"], "config.json") == ["x", "y", "config.json"];
  }
}
