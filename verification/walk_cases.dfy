/** The walk in particular situations: links followed or not, starts that
    are not directories or do not exist, depth limits, and the way `walk`
    and `walkSync` report the same failure. */
module WalkCases {
  import opened FsTree
  import opened TreeWalk
  import opened WalkProps

  /** An unfollowed link yields at most its own entry, typed only as a link,
      and what it points at is never looked at. */
  lemma UnfollowedLinkIsNotDescended(v: Variant, dir: Path, name: Name, target: Node, other: Node, o: WalkOptions)
    requires !o.followSymlinks && !o.maxDepth.Below(1)
    ensures var path := Join(dir, name);
            WalkChild(v, dir, Child(name, Symlink(target)), o)
            == if o.includeSymlinks && ShouldIncludePath(path, o.exclude)
               then Trace([Yield(LinkSite, WalkEntry(name, path, false, false, true))], None)
               else Empty
    ensures WalkChild(v, dir, Child(name, Symlink(target)), o) == WalkChild(v, dir, Child(name, Symlink(other)), o)
  {
  }

  /** Walking a link's path is walking what it resolves to: `stat` and
      `readdir` both follow it. */
  lemma {:induction false} LinkWalkIsTargetWalk(v: Variant, dir: Path, target: Node, o: WalkOptions)
    ensures Run(v, dir, Symlink(target), o) == Run(v, dir, target, o)
  {
    assert Stat(dir, Symlink(target)) == Stat(dir, target);
    if !o.maxDepth.Below(1) {
      assert Descend(v, dir, Symlink(target), o) == Descend(v, dir, target, o);
    }
  }

  /** A followed link to a file is re-classified: its entry keeps the link's
      name and path but reports a file, not a link. */
  lemma FollowedLinkToFile(v: Variant, dir: Path, name: Name, o: WalkOptions)
    requires o.followSymlinks && !o.maxDepth.Below(1)
    ensures var path := Join(dir, name);
            WalkChild(v, dir, Child(name, Symlink(File)), o)
            == if o.includeFiles && ShouldIncludePath(path, o.exclude)
               then Trace([Yield(FileSite, WalkEntry(name, path, true, false, false))], None)
               else Empty
  {
  }

  /** A followed link to a directory is walked, one level less deep, as a
      walk of its target started at the link's own path; that walk's first
      entry is the link, reported as a directory. */
  lemma FollowedLinkToDirectory(v: Variant, dir: Path, name: Name, cs: seq<Child>, o: WalkOptions)
    requires o.followSymlinks && !o.maxDepth.Below(1)
    ensures var path := Join(dir, name);
            WalkChild(v, dir, Child(name, Symlink(Dir(cs))), o) == Run(v, path, Dir(cs), o.Nested())
    ensures o.includeDirs ==>
              var t := WalkChild(v, dir, Child(name, Symlink(Dir(cs))), o);
              |t.items| > 0 && t.items[0].entry == WalkEntry(name, Join(dir, name), false, true, false)
  {
    LinkWalkIsTargetWalk(v, Join(dir, name), Dir(cs), o.Nested());
  }

  /** A followed link that dangles makes `realpath` throw ENOENT for it. */
  lemma FollowedDanglingLinkFails(v: Variant, dir: Path, name: Name, o: WalkOptions)
    requires o.followSymlinks && !o.maxDepth.Below(1)
    ensures WalkChild(v, dir, Child(name, Symlink(Missing)), o) == Fail(Raw(NoEntry(Join(dir, name))))
  {
  }

  /** A start that is a file (or socket, FIFO, device) with `maxDepth >= 1`:
      its own entry is yielded first, then listing it fails with ENOTDIR,
      wrapped once with the start's path, by both walks. */
  lemma NonDirectoryStartFails(v: Variant, dir: Path, node: Node, o: WalkOptions)
    requires node.File? || node.Special?
    requires !o.maxDepth.Below(1) && ShouldIncludePath(dir, o.exclude)
    ensures WalkWith(v, dir, node, o)
            == WalkResult(if o.includeDirs then [EntryOf(Basename(dir), dir, Lstat(node))] else [],
                          Some(Wrapped(dir, Raw(NotADirectory(dir)))))
  {
    RunIncluded(v, dir, node, o);
  }

  /** A start whose listing is refused: its own entry is yielded first,
      then the EACCES of `readdir` is thrown wrapped once with the start's
      path, by both walks, like any other listing error. */
  lemma UnreadableStartFails(v: Variant, dir: Path, o: WalkOptions)
    requires !o.maxDepth.Below(1) && ShouldIncludePath(dir, o.exclude)
    ensures WalkWith(v, dir, Sealed, o)
            == WalkResult(if o.includeDirs then [WalkEntry(Basename(dir), dir, false, true, false)] else [],
                          Some(Wrapped(dir, Raw(AccessDenied(dir)))))
  {
    RunIncluded(v, dir, Sealed, o);
  }

  /** A start that does not exist: the `stat` for its entry throws ENOENT
      unwrapped; with `includeDirs` off there is no `stat`, and the failing
      listing throws it wrapped instead. */
  lemma MissingStartFails(v: Variant, dir: Path, o: WalkOptions)
    requires !o.maxDepth.Below(1) && ShouldIncludePath(dir, o.exclude)
    ensures WalkWith(v, dir, Missing, o).entries == []
    ensures WalkWith(v, dir, Missing, o).error
            == Some(if o.includeDirs then Raw(NoEntry(dir)) else Wrapped(dir, Raw(NoEntry(dir))))
  {
    RunIncluded(v, dir, Missing, o);
  }

  /** With `maxDepth` 0 the start is never listed: its contents do not matter. */
  lemma DepthZeroDoesNotList(v: Variant, dir: Path, cs: seq<Child>, cs': seq<Child>, o: WalkOptions)
    requires o.maxDepth == Finite(0)
    ensures WalkWith(v, dir, Dir(cs), o) == WalkWith(v, dir, Dir(cs'), o)
    ensures WalkWith(v, dir, Dir(cs), o).error == None
  {
  }

  /** Without races the two entry points yield the same entries and fail
      for the same filesystem error. */
  lemma WalkSyncAgreesWithWalk(dir: Path, root: Node, o: WalkOptions)
    requires NoRaces(root)
    ensures Walk(dir, root, o).entries == WalkSync(dir, root, o).entries
    ensures SameCause(Walk(dir, root, o).error, WalkSync(dir, root, o).error)
  {
    VariantsAgree(dir, root, o);
  }

  // ---------------------------------------------------------------------
  // Concrete walks

  const Root: Path := ["r"]

  /** `r/{a.txt, b/{c.txt}}` walked with the defaults yields r, a.txt, b,
      c.txt, in that order, and nothing else. */
  lemma DefaultWalkScenario()
    ensures var tree := Dir([Child("a.txt", File), Child("b", Dir([Child("c.txt", File)]))]);
            Walk(Root, tree, Defaults) == WalkResult([
              WalkEntry("r", ["r"], false, true, false),
              WalkEntry("a.txt", ["r", "a.txt"], true, false, false),
              WalkEntry("b", ["r", "b"], false, true, false),
              WalkEntry("c.txt", ["r", "b", "c.txt"], true, false, false)], None)
  {
    var tree := Dir([Child("a.txt", File), Child("b", Dir([Child("c.txt", File)]))]);
    var cs := tree.children;
    var b := Dir([Child("c.txt", File)]);
    var c := [EntryOf("c.txt", ["r", "b", "c.txt"], Lstat(File))];
    assert Join(["r", "b"], "c.txt") == ["r", "b", "c.txt"];
    assert Join(Root, "b") == ["r", "b"] && Join(Root, "a.txt") == ["r", "a.txt"];
    assert Preorder(["r", "b", "c.txt"], File, Unbounded) == c;
    assert PreorderAll(["r", "b"], b.children, 1, Unbounded) == [];
    assert PreorderAll(["r", "b"], b.children, 0, Unbounded) == c;
    assert Preorder(["r", "b"], b, Unbounded) == [EntryOf("b", ["r", "b"], Lstat(b))] + c;
    assert PreorderAll(Root, cs, 2, Unbounded) == [];
    assert PreorderAll(Root, cs, 1, Unbounded) == [EntryOf("b", ["r", "b"], Lstat(b))] + c;
    assert Preorder(["r", "a.txt"], File, Unbounded) == [EntryOf("a.txt", ["r", "a.txt"], Lstat(File))];
    assert PreorderAll(Root, cs, 0, Unbounded)
        == [EntryOf("a.txt", ["r", "a.txt"], Lstat(File)), EntryOf("b", ["r", "b"], Lstat(b))] + c;
    var expected := [
      WalkEntry("r", ["r"], false, true, false),
      WalkEntry("a.txt", ["r", "a.txt"], true, false, false),
      WalkEntry("b", ["r", "b"], false, true, false),
      WalkEntry("c.txt", ["r", "b", "c.txt"], true, false, false)];
    assert Preorder(Root, tree, Unbounded) == expected;
    WalkIsPreorder(Async, Root, tree, Defaults);
    assert Walk(Root, tree, Defaults) == Strip(Run(Async, Root, tree, Defaults));
  }

  /** A dangling link followed two levels down: `walkSync` throws the ENOENT
      of `realpath` as it is, `walk` wraps it once per enclosing loop. */
  lemma NestedFailureWrapping()
    ensures var tree := Dir([Child("a", Dir([Child("l", Symlink(Missing))]))]);
            var o := Defaults.(followSymlinks := true);
            && WalkSync(Root, tree, o).error == Some(Raw(NoEntry(["r", "a", "l"])))
            && Walk(Root, tree, o).error == Some(Wrapped(["r"], Wrapped(["r", "a"], Raw(NoEntry(["r", "a", "l"])))))
  {
    var a := Dir([Child("l", Symlink(Missing))]);
    var tree := Dir([Child("a", a)]);
    var o := Defaults.(followSymlinks := true);
    var cause := Raw(NoEntry(["r", "a", "l"]));
    assert Join(["r", "a"], "l") == ["r", "a", "l"] && Join(Root, "a") == ["r", "a"];
    assert o.Nested() == o;
    assert ShouldIncludePath(["r"], []) && ShouldIncludePath(["r", "a"], []);
    FollowedDanglingLinkFails(Sync, ["r", "a"], "l", o);
    FollowedDanglingLinkFails(Async, ["r", "a"], "l", o);
    assert Children(Sync, ["r", "a"], a.children, 0, o).error == Some(cause);
    assert Children(Async, ["r", "a"], a.children, 0, o).error == Some(cause);
    assert Run(Sync, ["r", "a"], a, o).error == Some(cause);
    assert Run(Async, ["r", "a"], a, o).error == Some(Wrapped(["r", "a"], cause));
    assert Children(Sync, ["r"], tree.children, 0, o).error == Some(cause);
    assert Children(Async, ["r"], tree.children, 0, o).error == Some(Wrapped(["r", "a"], cause));
    assert Run(Sync, ["r"], tree, o).error == Some(cause);
  }

  /** An unreadable subdirectory: both walks yield it, then `walkSync`
      throws the EACCES wrapped once with its path, and `walk` wraps that
      again with the start's path. */
  lemma UnreadableSubdirectoryWrapping()
    ensures var tree := Dir([Child("s", Sealed)]);
            var entries := [WalkEntry("r", ["r"], false, true, false), WalkEntry("s", ["r", "s"], false, true, false)];
            var inner := Wrapped(["r", "s"], Raw(AccessDenied(["r", "s"])));
            && WalkSync(Root, tree, Defaults) == WalkResult(entries, Some(inner))
            && Walk(Root, tree, Defaults) == WalkResult(entries, Some(Wrapped(["r"], inner)))
  {
    var tree := Dir([Child("s", Sealed)]);
    var r := Yield(RootSite, WalkEntry("r", ["r"], false, true, false));
    var s := Yield(RootSite, WalkEntry("s", ["r", "s"], false, true, false));
    var inner := Wrapped(["r", "s"], Raw(AccessDenied(["r", "s"])));
    SealedChild(Sync);
    SealedChild(Async);
    assert ShouldIncludePath(Root, []);
    assert Stat(Root, tree) == Ok(Stats(false, true, false));
    assert Descend(Sync, Root, tree, Defaults) == Trace([s], Some(inner));
    assert Descend(Async, Root, tree, Defaults) == Trace([s], Some(Wrapped(["r"], inner)));
    assert Run(Sync, Root, tree, Defaults) == Trace([r, s], Some(inner));
    assert Run(Async, Root, tree, Defaults) == Trace([r, s], Some(Wrapped(["r"], inner)));
    assert Entries([r, s]) == [r.entry, s.entry];
  }

  /** The loop over `r`'s single unreadable entry, before `walk`'s `catch`. */
  lemma SealedChild(v: Variant)
    ensures Children(v, Root, [Child("s", Sealed)], 0, Defaults)
            == Trace([Yield(RootSite, WalkEntry("s", ["r", "s"], false, true, false))],
                     Some(Wrapped(["r", "s"], Raw(AccessDenied(["r", "s"])))))
  {
    var s := Yield(RootSite, WalkEntry("s", ["r", "s"], false, true, false));
    var inner := Wrapped(["r", "s"], Raw(AccessDenied(["r", "s"])));
    assert Join(Root, "s") == ["r", "s"];
    assert Defaults.Nested() == Defaults;
    assert ShouldIncludePath(["r", "s"], []);
    assert Run(v, ["r", "s"], Sealed, Defaults) == Trace([s], Some(inner));
    assert WalkChild(v, Root, Child("s", Sealed), Defaults) == Trace([s], Some(inner));
    assert Children(v, Root, [Child("s", Sealed)], 1, Defaults) == Empty;
  }

  /** A link whose real path is replaced by a link to a file between
      `realpath` and the re-classification: `walkSync` (`stat`) reports the
      file; `walk` (`lstat`) sees a link, walks it, and fails listing a file. */
  lemma RaceSeparatesVariants()
    ensures var tree := Dir([Child("l", Symlink(Symlink(File)))]);
            var o := Defaults.(followSymlinks := true);
            && WalkSync(Root, tree, o) == WalkResult([
                 WalkEntry("r", ["r"], false, true, false),
                 WalkEntry("l", ["r", "l"], true, false, false)], None)
            && Walk(Root, tree, o) == WalkResult([
                 WalkEntry("r", ["r"], false, true, false),
                 WalkEntry("l", ["r", "l"], true, false, false)],
                 Some(Wrapped(["r"], Wrapped(["r", "l"], Raw(NotADirectory(["r", "l"]))))))
  {
    var tree := Dir([Child("l", Symlink(Symlink(File)))]);
    var o := Defaults.(followSymlinks := true);
    var r := Yield(RootSite, WalkEntry("r", ["r"], false, true, false));
    var l := WalkEntry("l", ["r", "l"], true, false, false);
    RaceSync();
    RaceAsync();
    assert Run(Sync, ["r"], tree, o).items == [r, Yield(FileSite, l)];
    assert Run(Async, ["r"], tree, o).items == [r, Yield(RootSite, l)];
  }

  /** `walkSync`: `stat` follows both links to the file. */
  lemma RaceSync()
    ensures Run(Sync, ["r"], Dir([Child("l", Symlink(Symlink(File)))]), Defaults.(followSymlinks := true))
            == Trace([Yield(RootSite, WalkEntry("r", ["r"], false, true, false)),
                      Yield(FileSite, WalkEntry("l", ["r", "l"], true, false, false))], None)
  {
    var link := Symlink(Symlink(File));
    var tree := Dir([Child("l", link)]);
    var o := Defaults.(followSymlinks := true);
    assert ShouldIncludePath(["r"], []) && ShouldIncludePath(["r", "l"], []);
    var l := WalkEntry("l", ["r", "l"], true, false, false);
    assert Join(Root, "l") == ["r", "l"];
    assert Reclassify(Sync, ["r", "l"], link) == Ok(Stats(true, false, false));
    assert WalkChild(Sync, ["r"], Child("l", link), o) == Trace([Yield(FileSite, l)], None);
    assert Children(Sync, ["r"], tree.children, 1, o) == Empty;
    assert Children(Sync, ["r"], tree.children, 0, o) == Trace([Yield(FileSite, l)], None);
  }

  /** `walk`: `lstat` sees the second link, so the link is walked as a
      directory, and listing the file it leads to fails. */
  lemma RaceAsync()
    ensures Run(Async, ["r"], Dir([Child("l", Symlink(Symlink(File)))]), Defaults.(followSymlinks := true))
            == Trace([Yield(RootSite, WalkEntry("r", ["r"], false, true, false)),
                      Yield(RootSite, WalkEntry("l", ["r", "l"], true, false, false))],
                     Some(Wrapped(["r"], Wrapped(["r", "l"], Raw(NotADirectory(["r", "l"]))))))
  {
    var link := Symlink(Symlink(File));
    var tree := Dir([Child("l", link)]);
    var o := Defaults.(followSymlinks := true);
    assert o.Nested() == o;
    assert ShouldIncludePath(["r"], []) && ShouldIncludePath(["r", "l"], []);
    var l := WalkEntry("l", ["r", "l"], true, false, false);
    assert Join(Root, "l") == ["r", "l"];
    assert Reclassify(Async, ["r", "l"], link) == Ok(Stats(false, false, true));
    var failure := Wrapped(["r", "l"], Raw(NotADirectory(["r", "l"])));
    assert Descend(Async, ["r", "l"], File, o) == Fail(failure);
    assert Descend(Async, ["r", "l"], link, o) == Fail(failure);
    assert Run(Async, ["r", "l"], link, o) == Trace([Yield(RootSite, l)], Some(failure));
    assert WalkChild(Async, ["r"], Child("l", link), o) == Trace([Yield(RootSite, l)], Some(failure));
    assert Children(Async, ["r"], tree.children, 0, o) == Trace([Yield(RootSite, l)], Some(failure));
  }
}
