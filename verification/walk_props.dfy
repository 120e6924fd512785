/** Properties of the tree walk that relate several walks: what the include
    flags and the exclusion patterns change, how a plain tree is enumerated,
    and where `walk` and `walkSync` differ. */
module WalkProps {
  import opened FsTree
  import opened TreeWalk

  // ---------------------------------------------------------------------
  // Filtering traces

  function Filter(items: seq<Yield>, keep: Yield -> bool): (r: seq<Yield>)
    ensures |r| <= |items|
  {
    if |items| == 0 then []
    else (if keep(items[0]) then [items[0]] else []) + Filter(items[1..], keep)
  }

  function FilterTrace(t: Trace, keep: Yield -> bool): Trace
  {
    Trace(Filter(t.items, keep), t.error)
  }

  lemma {:induction false} FilterAppend(a: seq<Yield>, b: seq<Yield>, keep: Yield -> bool)
    ensures Filter(a + b, keep) == Filter(a, keep) + Filter(b, keep)
  {
    if |a| == 0 {
      assert a + b == b;
    } else {
      var head := if keep(a[0]) then [a[0]] else [];
      assert (a + b)[0] == a[0];
      assert (a + b)[1..] == a[1..] + b;
      assert Filter(a + b, keep) == head + Filter(a[1..] + b, keep);
      FilterAppend(a[1..], b, keep);
      assert head + (Filter(a[1..], keep) + Filter(b, keep)) == (head + Filter(a[1..], keep)) + Filter(b, keep);
    }
  }

  lemma {:induction false} FilterAll(items: seq<Yield>, keep: Yield -> bool)
    requires forall k :: 0 <= k < |items| ==> keep(items[k])
    ensures Filter(items, keep) == items
  {
    if |items| > 0 {
      FilterAll(items[1..], keep);
    }
  }

  lemma FilterThen(a: Trace, b: Trace, keep: Yield -> bool)
    ensures FilterTrace(Then(a, b), keep) == Then(FilterTrace(a, keep), FilterTrace(b, keep))
  {
    if a.error.None? {
      FilterAppend(a.items, b.items, keep);
    }
  }

  // ---------------------------------------------------------------------
  // Include flags only gate yields

  /** The same options with every include flag on. */
  function AllIncluded(o: WalkOptions): WalkOptions
  {
    o.(includeFiles := true, includeDirs := true, includeSymlinks := true)
  }

  /** The items a walk with options `o` keeps: those of the sites `o` enables. */
  function Enabled(o: WalkOptions): Yield -> bool
  {
    SitesOf(o.includeFiles, o.includeDirs, o.includeSymlinks, o.followSymlinks)
  }

  function SitesOf(files: bool, dirs: bool, links: bool, follow: bool): Yield -> bool
  {
    (y: Yield) =>
      match y.site
      case RootSite => dirs
      case LinkSite => links && !follow
      case FileSite => files
  }

  /** Turning include flags off removes exactly the entries of the
      corresponding yield sites and keeps the rest, and the error, as they
      were.  With `includeDirs` off, a start (or a followed directory) that
      does not resolve is excluded: only the walk that yields its entry
      `stat`s it, so the two walks would fail with different errors.  That
      rules out a missing start, and a followed link whose target is
      replaced by another link while the walk runs. */
  lemma {:induction false} FlagsOnlyGateYields(v: Variant, dir: Path, node: Node, o: WalkOptions)
    requires o.includeDirs || (Resolves(node) && NoRaces(node))
    ensures Run(v, dir, node, o) == FilterTrace(Run(v, dir, node, AllIncluded(o)), Enabled(o))
    decreases node, 2
  {
    var full := AllIncluded(o);
    var keep := Enabled(o);
    if o.maxDepth.Below(0) || !ShouldIncludePath(dir, o.exclude) {
      return;
    }
    var rest := if o.maxDepth.Below(1) then Empty else Descend(v, dir, node, o);
    var restFull := if o.maxDepth.Below(1) then Empty else Descend(v, dir, node, full);
    if !o.maxDepth.Below(1) {
      DescendGated(v, dir, node, o);
    }
    assert rest == FilterTrace(restFull, keep);
    RunIncluded(v, dir, node, o);
    RunIncluded(v, dir, node, full);
    if Stat(dir, node).Err? {
      if !o.includeDirs {
        assert false;
      }
    } else {
      var head := Trace([Yield(RootSite, EntryOf(Basename(dir), dir, Stat(dir, node).value))], None);
      FilterThen(head, restFull, keep);
      if !o.includeDirs {
        assert FilterTrace(head, keep) == Empty;
        assert Then(Empty, rest) == rest;
      } else {
        assert FilterTrace(head, keep) == head;
      }
    }
  }

  lemma {:induction false} DescendGated(v: Variant, dir: Path, node: Node, o: WalkOptions)
    requires !o.maxDepth.Below(1)
    requires o.includeDirs || NoRaces(node)
    ensures Descend(v, dir, node, o) == FilterTrace(Descend(v, dir, node, AllIncluded(o)), Enabled(o))
    decreases node, 1
  {
    match node
    case Dir(cs) =>
      ChildrenGated(v, dir, cs, 0, o);
    case Symlink(target) =>
      DescendGated(v, dir, target, o);
    case _ =>
  }

  lemma {:induction false} ChildrenGated(v: Variant, dir: Path, cs: seq<Child>, i: nat, o: WalkOptions)
    requires i <= |cs| && !o.maxDepth.Below(1)
    requires o.includeDirs || forall j :: 0 <= j < |cs| ==> NoRaces(cs[j].node)
    ensures Children(v, dir, cs, i, o) == FilterTrace(Children(v, dir, cs, i, AllIncluded(o)), Enabled(o))
    decreases cs, 0, |cs| - i
  {
    if i < |cs| {
      WalkChildGated(v, dir, cs[i], o);
      ChildrenGated(v, dir, cs, i + 1, o);
      FilterThen(WalkChild(v, dir, cs[i], AllIncluded(o)), Children(v, dir, cs, i + 1, AllIncluded(o)), Enabled(o));
    }
  }

  lemma {:induction false} WalkChildGated(v: Variant, dir: Path, c: Child, o: WalkOptions)
    requires !o.maxDepth.Below(1)
    requires o.includeDirs || NoRaces(c.node)
    ensures WalkChild(v, dir, c, o) == FilterTrace(WalkChild(v, dir, c, AllIncluded(o)), Enabled(o))
    decreases c
  {
    var full := AllIncluded(o);
    assert full.Nested() == AllIncluded(o.Nested());
    var path := Join(dir, c.name);
    var listed := Lstat(c.node);
    if listed.isSymlink && !o.followSymlinks {
    } else {
      match (if listed.isSymlink then Reclassify(v, path, c.node) else Ok(listed))
      case Err(e) =>
      case Ok(kind) =>
        if kind.isSymlink || kind.isDirectory {
          if !o.includeDirs {
            DescendedResolves(v, path, c.node, kind);
          }
          FlagsOnlyGateYields(v, path, c.node, o.Nested());
        }
    }
  }

  /** An entry the loop descends into resolves, unless a race replaced a
      link's target by another link. */
  lemma DescendedResolves(v: Variant, path: Path, node: Node, kind: Stats)
    requires NoRaces(node)
    requires (if Lstat(node).isSymlink then Reclassify(v, path, node) else Ok(Lstat(node))) == Ok(kind)
    requires kind.isSymlink || kind.isDirectory
    ensures Resolves(node)
  {
  }

  // ---------------------------------------------------------------------
  // Exclusion applies one level deep only

  /** Drops the entries the top-level loop tests against `exclude`: the
      link and file entries directly below `dir` whose path a pattern matches. */
  function TopLevelIncluded(dir: Path, exclude: seq<Pattern>): Yield -> bool
  {
    (y: Yield) => y.site == RootSite || |y.entry.path| != |dir| + 1 || ShouldIncludePath(y.entry.path, exclude)
  }

  /** With the start itself not excluded, a walk with exclusion patterns is
      the walk without them minus the link and file entries directly below the
      start that a pattern matches.  Excluded subdirectories are still yielded
      and walked, and nothing two or more levels down is ever filtered,
      because the recursive calls do not pass `exclude` on. */
  lemma {:induction false} ExclusionIsShallow(v: Variant, dir: Path, node: Node, o: WalkOptions)
    requires ShouldIncludePath(dir, o.exclude)
    ensures Run(v, dir, node, o) == FilterTrace(Run(v, dir, node, o.(exclude := [])), TopLevelIncluded(dir, o.exclude))
  {
    var o' := o.(exclude := []);
    var keep := TopLevelIncluded(dir, o.exclude);
    if o.maxDepth.Below(0) {
      return;
    }
    var rest := if o.maxDepth.Below(1) then Empty else Descend(v, dir, node, o);
    var rest' := if o.maxDepth.Below(1) then Empty else Descend(v, dir, node, o');
    if !o.maxDepth.Below(1) {
      DescendExcluding(v, dir, node, o);
    }
    assert rest == FilterTrace(rest', keep);
    RunIncluded(v, dir, node, o);
    RunIncluded(v, dir, node, o');
    if o.includeDirs && Stat(dir, node).Ok? {
      var head := Trace([Yield(RootSite, EntryOf(Basename(dir), dir, Stat(dir, node).value))], None);
      FilterThen(head, rest', keep);
      assert FilterTrace(head, keep) == head;
    }
  }

  /** `Run` once the start is known not to be excluded. */
  lemma RunIncluded(v: Variant, dir: Path, node: Node, o: WalkOptions)
    requires ShouldIncludePath(dir, o.exclude) && !o.maxDepth.Below(0)
    ensures var rest := if o.maxDepth.Below(1) then Empty else Descend(v, dir, node, o);
            Run(v, dir, node, o)
            == if !o.includeDirs then rest
               else if Stat(dir, node).Err? then Fail(Raw(Stat(dir, node).error))
               else Then(Trace([Yield(RootSite, EntryOf(Basename(dir), dir, Stat(dir, node).value))], None), rest)
  {
  }

  lemma {:induction false} DescendExcluding(v: Variant, dir: Path, node: Node, o: WalkOptions)
    requires !o.maxDepth.Below(1)
    ensures Descend(v, dir, node, o)
         == FilterTrace(Descend(v, dir, node, o.(exclude := [])), TopLevelIncluded(dir, o.exclude))
    decreases node
  {
    match node
    case Dir(cs) =>
      ChildrenExcluding(v, dir, cs, 0, o);
    case Symlink(target) =>
      DescendExcluding(v, dir, target, o);
    case _ =>
  }

  lemma {:induction false} ChildrenExcluding(v: Variant, dir: Path, cs: seq<Child>, i: nat, o: WalkOptions)
    requires i <= |cs| && !o.maxDepth.Below(1)
    ensures Children(v, dir, cs, i, o)
         == FilterTrace(Children(v, dir, cs, i, o.(exclude := [])), TopLevelIncluded(dir, o.exclude))
    decreases |cs| - i
  {
    if i < |cs| {
      var o' := o.(exclude := []);
      WalkChildExcluding(v, dir, cs[i], o);
      ChildrenExcluding(v, dir, cs, i + 1, o);
      FilterThen(WalkChild(v, dir, cs[i], o'), Children(v, dir, cs, i + 1, o'), TopLevelIncluded(dir, o.exclude));
    }
  }

  lemma WalkChildExcluding(v: Variant, dir: Path, c: Child, o: WalkOptions)
    requires !o.maxDepth.Below(1)
    ensures WalkChild(v, dir, c, o)
         == FilterTrace(WalkChild(v, dir, c, o.(exclude := [])), TopLevelIncluded(dir, o.exclude))
  {
    var o' := o.(exclude := []);
    var keep := TopLevelIncluded(dir, o.exclude);
    assert o'.Nested() == o.Nested();
    var path := Join(dir, c.name);
    var listed := Lstat(c.node);
    if listed.isSymlink && !o.followSymlinks {
    } else {
      match (if listed.isSymlink then Reclassify(v, path, c.node) else Ok(listed))
      case Err(e) =>
      case Ok(kind) =>
        if kind.isSymlink || kind.isDirectory {
          // the nested walk's own start is a root entry; the rest lies deeper
          var t := Run(v, path, c.node, o.Nested());
          forall k | 0 <= k < |t.items|
            ensures keep(t.items[k])
          {
            assert Placed(t.items[k], path, o.Nested());
          }
          FilterAll(t.items, keep);
        }
    }
  }

  // ---------------------------------------------------------------------
  // On a plain tree the walk is the textbook pre-order listing

  /** A node's entry, then each child's listing in listing order, down to
      `d` levels below `dir`. */
  function Preorder(dir: Path, node: Node, d: Depth): seq<WalkEntry>
    decreases node, 1
  {
    if d.Below(0) then []
    else [EntryOf(Basename(dir), dir, Lstat(node))]
         + (if node.Dir? && !d.Below(1) then PreorderAll(dir, node.children, 0, d.Minus1()) else [])
  }

  function PreorderAll(dir: Path, cs: seq<Child>, i: nat, d: Depth): seq<WalkEntry>
    requires i <= |cs|
    decreases cs, 0, |cs| - i
  {
    if i == |cs| then [] else Preorder(Join(dir, cs[i].name), cs[i].node, d) + PreorderAll(dir, cs, i + 1, d)
  }

  lemma EntriesAppend(a: seq<Yield>, b: seq<Yield>)
    ensures Entries(a + b) == Entries(a) + Entries(b)
  {
  }

  /** With files and directories included and no exclusion patterns, both
      walks of a plain tree (no links, nothing missing) whose start is a
      directory yield exactly its pre-order listing, in listing order, and
      throw nothing. */
  lemma {:induction false} WalkIsPreorder(v: Variant, dir: Path, node: Node, o: WalkOptions)
    requires Plain(node) && (node.Dir? || o.maxDepth.Below(1))
    requires o.includeFiles && o.includeDirs && |o.exclude| == 0
    ensures Strip(Run(v, dir, node, o)) == WalkResult(Preorder(dir, node, o.maxDepth), None)
    decreases node, 2
  {
    if o.maxDepth.Below(0) {
      return;
    }
    RunIncluded(v, dir, node, o);
    var head := Trace([Yield(RootSite, EntryOf(Basename(dir), dir, Lstat(node)))], None);
    if o.maxDepth.Below(1) {
      assert Then(head, Empty).items == head.items;
    } else {
      var cs := node.children;
      ChildrenPreorder(v, dir, cs, 0, o);
      var kids := Children(v, dir, cs, 0, o);
      assert Descend(v, dir, node, o) == kids;
      EntriesAppend(head.items, kids.items);
    }
  }

  lemma {:induction false} ChildrenPreorder(v: Variant, dir: Path, cs: seq<Child>, i: nat, o: WalkOptions)
    requires i <= |cs| && !o.maxDepth.Below(1)
    requires forall j :: 0 <= j < |cs| ==> Plain(cs[j].node)
    requires o.includeFiles && o.includeDirs && |o.exclude| == 0
    ensures Strip(Children(v, dir, cs, i, o)) == WalkResult(PreorderAll(dir, cs, i, o.maxDepth.Minus1()), None)
    decreases cs, 0, |cs| - i
  {
    if i < |cs| {
      var first := WalkChild(v, dir, cs[i], o);
      var others := Children(v, dir, cs, i + 1, o);
      WalkChildPreorder(v, dir, cs[i], o);
      ChildrenPreorder(v, dir, cs, i + 1, o);
      assert Children(v, dir, cs, i, o) == Trace(first.items + others.items, others.error);
      EntriesAppend(first.items, others.items);
    }
  }

  lemma {:induction false} WalkChildPreorder(v: Variant, dir: Path, c: Child, o: WalkOptions)
    requires !o.maxDepth.Below(1) && Plain(c.node)
    requires o.includeFiles && o.includeDirs && |o.exclude| == 0
    ensures Strip(WalkChild(v, dir, c, o)) == WalkResult(Preorder(Join(dir, c.name), c.node, o.maxDepth.Minus1()), None)
    decreases c
  {
    var path := Join(dir, c.name);
    if c.node.Dir? {
      WalkIsPreorder(v, path, c.node, o.Nested());
    } else {
      assert WalkChild(v, dir, c, o) == Trace([Yield(FileSite, EntryOf(c.name, path, Lstat(c.node)))], None);
    }
  }

  // ---------------------------------------------------------------------
  // walk and walkSync differ only in how they wrap errors, unless a link's
  // target is replaced by another link while the walk runs

  /** Both or neither threw, and about the same filesystem error. */
  predicate SameCause(a: Option<WalkError>, b: Option<WalkError>)
  {
    a.Some? == b.Some? && (a.Some? ==> a.value.Cause() == b.value.Cause())
  }

  lemma {:induction false} VariantsAgree(dir: Path, node: Node, o: WalkOptions)
    requires NoRaces(node)
    ensures Run(Async, dir, node, o).items == Run(Sync, dir, node, o).items
    ensures SameCause(Run(Async, dir, node, o).error, Run(Sync, dir, node, o).error)
    decreases node, 2
  {
    if !o.maxDepth.Below(1) && ShouldIncludePath(dir, o.exclude) {
      DescendAgree(dir, node, o);
    }
  }

  lemma {:induction false} DescendAgree(dir: Path, node: Node, o: WalkOptions)
    requires NoRaces(node) && !o.maxDepth.Below(1)
    ensures Descend(Async, dir, node, o).items == Descend(Sync, dir, node, o).items
    ensures SameCause(Descend(Async, dir, node, o).error, Descend(Sync, dir, node, o).error)
    decreases node, 1
  {
    match node
    case Dir(cs) =>
      ChildrenAgree(dir, cs, 0, o);
    case Symlink(target) =>
      DescendAgree(dir, target, o);
    case _ =>
  }

  lemma {:induction false} ChildrenAgree(dir: Path, cs: seq<Child>, i: nat, o: WalkOptions)
    requires i <= |cs| && !o.maxDepth.Below(1)
    requires forall j :: 0 <= j < |cs| ==> NoRaces(cs[j].node)
    ensures Children(Async, dir, cs, i, o).items == Children(Sync, dir, cs, i, o).items
    ensures SameCause(Children(Async, dir, cs, i, o).error, Children(Sync, dir, cs, i, o).error)
    decreases cs, 0, |cs| - i
  {
    if i < |cs| {
      WalkChildAgree(dir, cs[i], o);
      ChildrenAgree(dir, cs, i + 1, o);
    }
  }

  lemma {:induction false} WalkChildAgree(dir: Path, c: Child, o: WalkOptions)
    requires NoRaces(c.node) && !o.maxDepth.Below(1)
    ensures WalkChild(Async, dir, c, o).items == WalkChild(Sync, dir, c, o).items
    ensures SameCause(WalkChild(Async, dir, c, o).error, WalkChild(Sync, dir, c, o).error)
    decreases c
  {
    var path := Join(dir, c.name);
    if c.node.Symlink? && o.followSymlinks {
      assert Reclassify(Async, path, c.node) == Reclassify(Sync, path, c.node);
    }
    if c.node.Symlink? || c.node.Dir? || c.node.Sealed? {
      VariantsAgree(path, c.node, o.Nested());
    }
  }
}
