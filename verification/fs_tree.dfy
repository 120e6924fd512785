/** An abstract, finite, acyclic filesystem standing in for the `node:fs` and
    `node:path` calls that the walk and the ancestor search make.

    Paths are sequences of segments: the filesystem root is the empty
    sequence, `join(dir, name)` appends one segment, `basename` is the last
    segment and the parent of a path drops its last segment (the parent of
    the root is the root itself, as `path.parse` reports it).
 */
module FsTree {

  datatype Option<+T> = None | Some(value: T)

  datatype Result<+T, +E> = Ok(value: T) | Err(error: E)

  type Name = string

  type Path = seq<Name>

  /** `join(dir, name)` for a single-segment name. */
  function Join(dir: Path, name: Name): (p: Path)
    ensures |p| == |dir| + 1
    ensures IsPrefix(dir, p) && Basename(p) == name && Parent(p) == dir
  {
    dir + [name]
  }

  /** `basename(path)`: the last segment; the root has the empty name. */
  function Basename(p: Path): Name
  {
    if |p| == 0 then "" else p[|p| - 1]
  }

  /** `parse(path).dir`: the containing directory; the root is its own parent. */
  function Parent(p: Path): Path
  {
    if |p| == 0 then p else p[..|p| - 1]
  }

  predicate IsPrefix(a: Path, b: Path)
  {
    |a| <= |b| && b[..|a|] == a
  }

  /** An entity of the filesystem.

      `Symlink(target)`: `target` is the entity found at the link's resolved
      real path when it is examined.  In a quiescent tree that entity is not
      itself a link; a `Symlink` target stands for an entity replaced by a link
      between `realpath` and the following `stat`/`lstat`.
      `Missing`: no entity at all (a walk root that does not exist, or the
      target of a dangling link).  A directory listing never contains it.
      `Special`: a socket, FIFO or device, which is neither file nor directory.
      `Sealed`: a directory whose listing is refused (EACCES, for want of
      read permission); `stat` and `lstat` still report a directory. */
  datatype Node =
    | File
    | Special
    | Dir(children: seq<Child>)
    | Sealed
    | Symlink(target: Node)
    | Missing

  /** One directory-listing entry, in listing order. */
  datatype Child = Child(name: Name, node: Node)

  /** The three type tests of a `Stats` or `Dirent` object. */
  datatype Stats = Stats(isFile: bool, isDirectory: bool, isSymlink: bool)

  /** The filesystem errors the model distinguishes, with the path they name. */
  datatype FsError =
    | NoEntry(path: Path)        // ENOENT
    | NotADirectory(path: Path)  // ENOTDIR
    | AccessDenied(path: Path)   // EACCES

  /** The type an `lstat` (or a `readdir` dirent) reports: links are not followed. */
  function Lstat(node: Node): (s: Stats)
    ensures s.isSymlink <==> node.Symlink?
    ensures s.isDirectory <==> node.Dir? || node.Sealed?
    ensures s.isFile <==> node.File?
  {
    match node
    case File => Stats(true, false, false)
    case Dir(_) => Stats(false, true, false)
    case Sealed => Stats(false, true, false)
    case Symlink(_) => Stats(false, false, true)
    case _ => Stats(false, false, false)
  }

  /** `stat(path)`: follows links to the entity at the end of the chain. */
  function Stat(path: Path, node: Node): (r: Result<Stats, FsError>)
    ensures r.Ok? ==> !r.value.isSymlink
    ensures r.Err? ==> r.error == NoEntry(path)
    ensures r.Ok? <==> Resolves(node)
  {
    match node
    case Symlink(t) => Stat(path, t)
    case Missing => Err(NoEntry(path))
    case _ => Ok(Lstat(node))
  }

  /** True when following links from `node` ends at an existing entity. */
  predicate Resolves(node: Node)
  {
    match node
    case Symlink(t) => Resolves(t)
    case Missing => false
    case _ => true
  }

  /** `realpath(path)` for a link: fails with ENOENT when the link dangles,
      otherwise yields the entity at the real path. */
  function RealPath(path: Path, link: Node): (r: Result<Node, FsError>)
    requires link.Symlink?
    ensures r.Err? <==> link.target.Missing?
    ensures r.Err? ==> r.error == NoEntry(path)
    ensures r.Ok? ==> r.value == link.target
  {
    if link.target.Missing? then Err(NoEntry(path)) else Ok(link.target)
  }

  /** No link anywhere, nothing missing and nothing unreadable: a plain tree
      of directories and leaves. */
  predicate Plain(node: Node)
  {
    match node
    case Missing => false
    case Symlink(_) => false
    case Sealed => false
    case Dir(cs) => forall i :: 0 <= i < |cs| ==> Plain(cs[i].node)
    case _ => true
  }

  /** No link points straight at another link: the quiescent case, where
      `realpath` has already resolved every chain. */
  predicate NoRaces(node: Node)
  {
    match node
    case Symlink(t) => !t.Symlink? && NoRaces(t)
    case Dir(cs) => forall i :: 0 <= i < |cs| ==> NoRaces(cs[i].node)
    case _ => true
  }
}
