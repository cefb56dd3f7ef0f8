/** The file system as the egg writer sees it from its working directory:
    a tree of directories and files, plus the `os.path` queries it makes
    (`join`, `getsize`, `islink`). */
module FileTree {
  import opened PyStrings

  /** A file-system object. `size` is what `os.path.getsize` reports. A
      directory lists its entries in the order `os.listdir` returns them;
      `link` says that the entry naming this directory is a symbolic link to
      it (its entries are then the link target's). A symbolic link to a file
      is modelled as the file. */
  datatype Node =
    | File(size: nat)
    | Dir(link: bool, size: nat, entries: seq<Entry>)

  datatype Entry = Entry(name: string, node: Node)

  /** `os.path.join(a, b)` (posixpath): an absolute `b` replaces `a`;
      otherwise a "/" separates the two unless `a` is empty or already ends
      in "/". */
  function Join(a: string, b: string): (r: string)
    ensures |b| > 0 && b[0] == '/' ==> r == b
  {
    if |b| > 0 && b[0] == '/' then b
    else if a == [] || a[|a| - 1] == '/' then a + b
    else a + "/" + b
  }

  /** A joined path always ends with its last component. */
  lemma JoinEndsWith(a: string, b: string)
    ensures EndsWith(Join(a, b), b)
  {
    var r := Join(a, b);
    if !(|b| > 0 && b[0] == '/') {
      if a == [] || a[|a| - 1] == '/' {
        assert r == a + b;
      } else {
        assert r == (a + "/") + b;
      }
    }
  }

  /** `os.path.exists(os.path.join(d, '__init__.py'))`: the directory is a
      Python package. */
  predicate IsPackage(d: Node)
    requires d.Dir?
  {
    exists i :: 0 <= i < |d.entries| && d.entries[i].name == "__init__.py"
  }

  /** The first entry of a directory listing with the given name. */
  function Child(entries: seq<Entry>, name: string): (r: Option<Node>)
    ensures r.Some? <==> exists i :: 0 <= i < |entries| && entries[i].name == name
  {
    if entries == [] then None
    else if entries[0].name == name then Some(entries[0].node)
    else Child(entries[1..], name)
  }

  /** Follows the path components `comps` from `n`, through symbolic links;
      empty and "." components stay where they are, and nothing can be
      looked up below a file. */
  function Resolve(n: Node, comps: seq<string>): Option<Node>
    decreases |comps|
  {
    if comps == [] then Some(n)
    else if n.File? then None
    else if comps[0] == "" || comps[0] == "." then Resolve(n, comps[1..])
    else match Child(n.entries, comps[0])
      case None => None
      case Some(c) => Resolve(c, comps[1..])
  }

  /** The object a relative path names under the working directory `root`.
      Absolute paths lie outside the modelled tree. */
  function Lookup(root: Node, path: string): Option<Node>
  {
    if |path| > 0 && path[0] == '/' then None else Resolve(root, Split(path, '/'))
  }

  /** `os.path.getsize(path)`; None where Python raises `os.error`. */
  function GetSize(root: Node, path: string): Option<nat>
  {
    match Lookup(root, path)
    case None => None
    case Some(n) => Some(n.size)
  }

  /** `os.path.getsize` as a query the writer can call. */
  function SizeQuery(root: Node): string -> Option<nat>
  {
    path => GetSize(root, path)
  }

  /** The last component of `path`: what `os.path.islink` asks about. */
  function LastComponent(path: string): string
  {
    var comps := Split(path, '/');
    comps[|comps| - 1]
  }

  /** The directory `path` names when `os.path.islink(path)` holds and the
      link leads to a directory (a link to a file gives `os.walk` nothing to
      list, as does a path that is not a link). A path ending in "/" or "."
      names the directory itself, never the link to it. */
  function LinkedDir(root: Node, path: string): (r: Option<Node>)
    ensures r.Some? ==> r.value.Dir? && r.value.link && Lookup(root, path) == r
    ensures LastComponent(path) == "" || LastComponent(path) == "." ==> r.None?
    ensures LastComponent(path) != "" && LastComponent(path) != "." ==>
      (r.Some? <==> Lookup(root, path).Some? && Lookup(root, path).value.Dir? && Lookup(root, path).value.link)
  {
    var last := LastComponent(path);
    if last == "" || last == "." then None
    else match Lookup(root, path)
      case Some(n) => if n.Dir? && n.link then Some(n) else None
      case None => None
  }

  /** `os.path.islink("pkg/")` is false even where `pkg` is a link. */
  lemma {:induction false} LinkedDirTrailingSlash(root: Node, path: string)
    ensures LinkedDir(root, path + "/") == None
  {
    assert path + "/" == path + ['/'] + "";
    SplitAround(path, "", '/');
  }
}
