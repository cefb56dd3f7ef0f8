/** `write` in eggwriter.py: collect the component's files, format the
    metadata, then write the eggsecutable prefix followed by a zip archive of
    the seven EGG-INFO entries and the collected files. */
module EggWriter {
  import opened PyStrings
  import opened Sorting
  import opened FileTree
  import opened PackageWalk
  import opened EggInfo

  /** The arguments of `write`; the logger is left out. */
  datatype Request = Request(
    name: string,
    doc: string,
    version: string,
    loader: string,
    srcFiles: seq<string>,
    distributions: seq<Distribution>,
    dstDir: string,
    compress: bool)

  /** What `write` reads from the running interpreter: `sys.version` and
      `zipfile.ZIP64_LIMIT`. */
  datatype Runtime = Runtime(sysVersion: string, zip64Limit: nat)

  /** `zipfile.ZIP_STORED` or `zipfile.ZIP_DEFLATED`. */
  datatype Compression = Stored | Deflated

  /** The data of an archive member: a text given by the writer
      (`writestr`), or the contents of the file at a path (`write`). */
  datatype Payload = Text(text: string) | FileContents(path: string)

  datatype ZipEntry = ZipEntry(arcname: string, payload: Payload)

  /** `os.path.getsize` raised `os.error` for an explicit source file. */
  datatype WriteError = MissingSource(path: string)

  datatype Result<T> = Ok(value: T) | Err(error: WriteError)

  /** The egg file goes through three states: the shell prefix has been
      written and the plain file closed; it is open as a zip archive in
      append mode; the archive is closed. */
  datatype Phase = PrefixWritten | ZipOpen | Closed

  /** The egg file on disk: the bytes of the prefix, then the archive. */
  class EggArchive {
    const path: string
    const prefix: string
    var phase: Phase
    var compression: Compression
    var zip64: bool
    var entries: seq<ZipEntry>

    /** `open(egg_path, 'w')`, write the prefix, close the file. */
    constructor Create(path: string, prefix: string)
      ensures this.path == path && this.prefix == prefix
      ensures phase == PrefixWritten && entries == []
    {
      this.path := path;
      this.prefix := prefix;
      phase := PrefixWritten;
      compression := Stored;
      zip64 := false;
      entries := [];
    }

    /** `zipfile.ZipFile(egg_path, 'a', compression, zip64)`: the archive
        starts after the prefix already in the file. */
    method Open(compression: Compression, zip64: bool)
      requires phase == PrefixWritten
      modifies this
      ensures phase == ZipOpen && this.compression == compression && this.zip64 == zip64
      ensures entries == old(entries)
    {
      phase := ZipOpen;
      this.compression := compression;
      this.zip64 := zip64;
    }

    /** `egg.writestr(arcname, text)` */
    method WriteStr(arcname: string, text: string)
      requires phase == ZipOpen
      modifies this
      ensures entries == old(entries) + [ZipEntry(arcname, Text(text))]
      ensures phase == old(phase) && compression == old(compression) && zip64 == old(zip64)
    {
      entries := entries + [ZipEntry(arcname, Text(text))];
    }

    /** `egg.write(path)`: the file is stored under its own path. */
    method Write(path: string)
      requires phase == ZipOpen
      modifies this
      ensures entries == old(entries) + [ZipEntry(path, FileContents(path))]
      ensures phase == old(phase) && compression == old(compression) && zip64 == old(zip64)
    {
      entries := entries + [ZipEntry(path, FileContents(path))];
    }

    /** `egg.close()` */
    method Close()
      requires phase == ZipOpen
      modifies this
      ensures phase == Closed
      ensures entries == old(entries) && compression == old(compression) && zip64 == old(zip64)
    {
      phase := Closed;
    }
  }

  /** `_write_info`: a metadata text goes under EGG-INFO/. */
  method WriteInfo(egg: EggArchive, name: string, info: string)
    requires egg.phase == ZipOpen
    modifies egg
    ensures egg.entries == old(egg.entries) + [ZipEntry(Join("EGG-INFO", name), Text(info))]
    ensures egg.phase == ZipOpen && egg.compression == old(egg.compression) && egg.zip64 == old(egg.zip64)
  {
    var path := Join("EGG-INFO", name);
    egg.WriteStr(path, info);
  }

  /** `_write_file`: a collected file goes in under its collected path. */
  method WriteFile(egg: EggArchive, path: string)
    requires egg.phase == ZipOpen
    modifies egg
    ensures egg.entries == old(egg.entries) + [ZipEntry(path, FileContents(path))]
    ensures egg.phase == ZipOpen && egg.compression == old(egg.compression) && egg.zip64 == old(egg.zip64)
  {
    egg.Write(path);
  }

  // ----- Specification: what `write` collects -----

  /** The explicit source files, each joined to the component's name. */
  function ExplicitPaths(name: string, srcFiles: seq<string>): (r: seq<string>)
    ensures |r| == |srcFiles|
    ensures forall i :: 0 <= i < |srcFiles| ==> r[i] == Join(name, srcFiles[i])
  {
    seq(|srcFiles|, i requires 0 <= i < |srcFiles| => Join(name, srcFiles[i]))
  }

  /** The answers of the size query `getsize` for each path. */
  function Lookups(getsize: string -> Option<nat>, paths: seq<string>): (r: seq<Option<nat>>)
    ensures |r| == |paths|
  {
    if paths == [] then [] else Lookups(getsize, paths[..|paths| - 1]) + [getsize(paths[|paths| - 1])]
  }

  lemma {:induction false} LookupsAt(getsize: string -> Option<nat>, paths: seq<string>, i: nat)
    requires i < |paths|
    ensures Lookups(getsize, paths)[i] == getsize(paths[i])
    decreases |paths|
  {
    if i < |paths| - 1 {
      assert paths[..|paths| - 1][i] == paths[i];
      LookupsAt(getsize, paths[..|paths| - 1], i);
    }
  }

  lemma LookupsAll(getsize: string -> Option<nat>, paths: seq<string>)
    ensures forall i :: 0 <= i < |paths| ==> Lookups(getsize, paths)[i] == getsize(paths[i])
  {
    forall i | 0 <= i < |paths| {
      LookupsAt(getsize, paths, i);
    }
  }

  /** The size lookups of the first `n` paths, in order: the first one that
      fails stops with that path; otherwise the sizes add up. */
  function SizesTo(paths: seq<string>, sizes: seq<Option<nat>>, n: nat): Result<nat>
    requires n <= |paths| == |sizes|
  {
    if n == 0 then Ok(0)
    else
      var r := SizesTo(paths, sizes, n - 1);
      if r.Err? then r
      else match sizes[n - 1]
        case None => Err(MissingSource(paths[n - 1]))
        case Some(size) => Ok(r.value + size)
  }

  /** The size lookups of the explicit source files, each joined to the
      component's name. */
  function ExplicitSizes(root: Node, name: string, srcFiles: seq<string>): Result<nat>
  {
    var paths := ExplicitPaths(name, srcFiles);
    SizesTo(paths, Lookups(SizeQuery(root), paths), |paths|)
  }

  lemma {:induction false} SizesToOk(paths: seq<string>, sizes: seq<Option<nat>>, n: nat)
    requires n <= |paths| == |sizes|
    ensures SizesTo(paths, sizes, n).Ok? <==> forall i :: 0 <= i < n ==> sizes[i].Some?
  {
    if n > 0 {
      SizesToOk(paths, sizes, n - 1);
    }
  }

  /** The `i`-th lookup is the first that fails. */
  predicate FirstFailing(sizes: seq<Option<nat>>, i: nat)
  {
    i < |sizes| && sizes[i].None? && forall k :: 0 <= k < i ==> sizes[k].Some?
  }

  lemma {:induction false} SizesToError(paths: seq<string>, sizes: seq<Option<nat>>, n: nat)
    requires n <= |paths| == |sizes| && SizesTo(paths, sizes, n).Err?
    ensures exists i: nat ::
      && i < n && FirstFailing(sizes, i)
      && SizesTo(paths, sizes, n).error == MissingSource(paths[i])
  {
    if SizesTo(paths, sizes, n - 1).Err? {
      SizesToError(paths, sizes, n - 1);
    } else {
      SizesToOk(paths, sizes, n - 1);
      assert FirstFailing(sizes, n - 1);
    }
  }

  /** Once the first `k` lookups have failed, every longer prefix fails
      with the same error. */
  lemma {:induction false} SizesFailFast(paths: seq<string>, sizes: seq<Option<nat>>, k: nat, n: nat)
    requires k <= n <= |paths| == |sizes| && SizesTo(paths, sizes, k).Err?
    ensures SizesTo(paths, sizes, n) == SizesTo(paths, sizes, k)
    decreases n
  {
    if k < n {
      SizesFailFast(paths, sizes, k, n - 1);
    }
  }

  /** The explicit files pass exactly when every one of them exists. */
  lemma ExplicitSizesOk(root: Node, name: string, srcFiles: seq<string>)
    ensures ExplicitSizes(root, name, srcFiles).Ok?
      <==> forall i :: 0 <= i < |srcFiles| ==> GetSize(root, Join(name, srcFiles[i])).Some?
  {
    var paths := ExplicitPaths(name, srcFiles);
    LookupsAll(SizeQuery(root), paths);
    SizesToOk(paths, Lookups(SizeQuery(root), paths), |paths|);
  }

  /** The `i`-th explicit file is the first whose size cannot be read. */
  predicate FirstMissing(root: Node, name: string, srcFiles: seq<string>, i: nat)
  {
    && i < |srcFiles|
    && GetSize(root, Join(name, srcFiles[i])).None?
    && forall k :: 0 <= k < i ==> GetSize(root, Join(name, srcFiles[k])).Some?
  }

  /** A failure names the first explicit file that does not exist. */
  lemma ExplicitSizesError(root: Node, name: string, srcFiles: seq<string>)
    requires ExplicitSizes(root, name, srcFiles).Err?
    ensures exists i: nat ::
      && FirstMissing(root, name, srcFiles, i)
      && ExplicitSizes(root, name, srcFiles).error == MissingSource(Join(name, srcFiles[i]))
  {
    var paths := ExplicitPaths(name, srcFiles);
    var sizes := Lookups(SizeQuery(root), paths);
    LookupsAll(SizeQuery(root), paths);
    SizesToError(paths, sizes, |paths|);
    var i: nat :| i < |paths| && FirstFailing(sizes, i)
      && SizesTo(paths, sizes, |paths|).error == MissingSource(paths[i]);
    assert FirstMissing(root, name, srcFiles, i);
  }

  /** Everything both passes of the walk collect: the walk of the working
      directory, then, when `name` is a symbolic link to a directory, the
      walk of that directory under the path `name`. */
  function Walked(name: string, root: Node): seq<Found>
    requires root.Dir?
  {
    Walk(".", root) + match LinkedDir(root, name) { case Some(target) => Walk(name, target) case None => [] }
  }

  /** The `files` list: explicit source files first, then the walked
      modules. */
  function Collected(req: Request, root: Node): seq<string>
    requires root.Dir?
  {
    ExplicitPaths(req.name, req.srcFiles) + Paths(Walked(req.name, root))
  }

  // ----- Specification: what `write` formats -----

  function EggName(req: Request, rt: Runtime): string
  {
    EggFilename(req.name, req.version, PyTag(rt.sysVersion))
  }

  /** SOURCES.txt: the sorted concatenation of the walked modules' lines
      and the seven self entries. */
  function SourcesText(name: string, walkedLines: seq<string>): string
  {
    Concat(SortStrings(walkedLines + SelfEntries(name)))
  }

  /** The seven metadata texts, in the order of `InfoNames`. */
  function InfoTexts(req: Request, walkedLines: seq<string>): (r: seq<string>)
    ensures |r| == |InfoNames|
  {
    [ PkgInfo(req.name, req.version, req.doc),
      DependencyLinks,
      EntryPoints(req.name, req.loader),
      NotZipSafe,
      Requirements(req.distributions),
      TopLevel(req.name),
      SourcesText(req.name, walkedLines) ]
  }

  /** What the metadata adds to the size estimate, as the source counts it:
      the length of dependency_links.txt is added in place of the length of
      entry_points.txt. */
  function InfoBytes(req: Request, walkedLines: seq<string>): nat
  {
    |PkgInfo(req.name, req.version, req.doc)|
      + |DependencyLinks|
      + |DependencyLinks|
      + |NotZipSafe|
      + |Requirements(req.distributions)|
      + |TopLevel(req.name)|
      + |SourcesText(req.name, walkedLines)|
  }

  /** The sum of the lengths of the seven metadata texts. */
  function SumLengthsOf(texts: seq<string>): nat
  {
    if texts == [] then 0 else |texts[0]| + SumLengthsOf(texts[1..])
  }

  /** The uncompressed size estimate that decides the Zip64 flag. */
  function ByteTotal(req: Request, root: Node, rt: Runtime): nat
    requires root.Dir? && ExplicitSizes(root, req.name, req.srcFiles).Ok?
  {
    var walked := Walked(req.name, root);
    ExplicitSizes(root, req.name, req.srcFiles).value
      + TotalSize(walked)
      + |ShPrefix(EggName(req, rt), PyTag(rt.sysVersion))|
      + InfoBytes(req, Lines(walked))
  }

  /** The estimate with every text counted once: what the size total is
      meant to be. */
  function IntendedTotal(req: Request, root: Node, rt: Runtime): nat
    requires root.Dir? && ExplicitSizes(root, req.name, req.srcFiles).Ok?
  {
    var walked := Walked(req.name, root);
    ExplicitSizes(root, req.name, req.srcFiles).value
      + TotalSize(walked)
      + |ShPrefix(EggName(req, rt), PyTag(rt.sysVersion))|
      + SumLengthsOf(InfoTexts(req, Lines(walked)))
  }

  /** The seven EGG-INFO members, in the order `write` adds them. */
  function InfoEntries(infos: seq<string>): (r: seq<ZipEntry>)
    requires |infos| == |InfoNames|
    ensures |r| == |InfoNames|
  {
    [ ZipEntry(Join("EGG-INFO", "PKG-INFO"), Text(infos[0])),
      ZipEntry(Join("EGG-INFO", "dependency_links.txt"), Text(infos[1])),
      ZipEntry(Join("EGG-INFO", "entry_points.txt"), Text(infos[2])),
      ZipEntry(Join("EGG-INFO", "not-zip-safe"), Text(infos[3])),
      ZipEntry(Join("EGG-INFO", "requires.txt"), Text(infos[4])),
      ZipEntry(Join("EGG-INFO", "top_level.txt"), Text(infos[5])),
      ZipEntry(Join("EGG-INFO", "SOURCES.txt"), Text(infos[6])) ]
  }

  /** One member per collected file, stored under the file's path. */
  function FileEntries(paths: seq<string>): (r: seq<ZipEntry>)
    ensures |r| == |paths|
    ensures forall i :: 0 <= i < |paths| ==> r[i] == ZipEntry(paths[i], FileContents(paths[i]))
  {
    seq(|paths|, i requires 0 <= i < |paths| => ZipEntry(paths[i], FileContents(paths[i])))
  }

  /** The members of the finished archive. */
  function ArchiveEntries(req: Request, root: Node): seq<ZipEntry>
    requires root.Dir?
  {
    InfoEntries(InfoTexts(req, Lines(Walked(req.name, root))))
      + FileEntries(SortStrings(Collected(req, root)))
  }

  /** The member names of a list of archive members. */
  function Arcnames(es: seq<ZipEntry>): (r: seq<string>)
    ensures |r| == |es|
    ensures forall i :: 0 <= i < |es| ==> r[i] == es[i].arcname
  {
    seq(|es|, i requires 0 <= i < |es| => es[i].arcname)
  }

  // ----- Properties of what `write` produces -----

  /** The `i`-th metadata member is `EGG-INFO/` followed by the `i`-th
      metadata file name, holding the `i`-th text. */
  lemma InfoEntriesNamed(infos: seq<string>)
    requires |infos| == |InfoNames|
    ensures forall i :: 0 <= i < |InfoNames| ==>
      InfoEntries(infos)[i] == ZipEntry(Join("EGG-INFO", InfoNames[i]), Text(infos[i]))
  {
    var es := InfoEntries(infos);
    forall i | 0 <= i < |InfoNames|
      ensures es[i] == ZipEntry(Join("EGG-INFO", InfoNames[i]), Text(infos[i]))
    {
      if i == 0 { assert InfoNames[0] == "PKG-INFO"; }
      else if i == 1 { assert InfoNames[1] == "dependency_links.txt"; }
      else if i == 2 { assert InfoNames[2] == "entry_points.txt"; }
      else if i == 3 { assert InfoNames[3] == "not-zip-safe"; }
      else if i == 4 { assert InfoNames[4] == "requires.txt"; }
      else if i == 5 { assert InfoNames[5] == "top_level.txt"; }
      else { assert InfoNames[6] == "SOURCES.txt"; }
    }
  }

  /** The archive holds the seven metadata members first, then one member
      per collected file, stored under its own path, the paths in ascending
      order and each collected path as often as it was collected. */
  lemma ArchiveLayout(req: Request, root: Node)
    requires root.Dir?
    ensures var es := ArchiveEntries(req, root);
      var texts := InfoTexts(req, Lines(Walked(req.name, root)));
      var stored := Arcnames(es[|InfoNames|..]);
      && |es| == |InfoNames| + |Collected(req, root)|
      && (forall i :: 0 <= i < |InfoNames| ==> es[i] == ZipEntry(Join("EGG-INFO", InfoNames[i]), Text(texts[i])))
      && multiset(stored) == multiset(Collected(req, root))
      && (forall i, j :: 0 <= i < j < |stored| ==> LessEq(stored[i], stored[j]))
      && (forall i :: |InfoNames| <= i < |es| ==> es[i].payload == FileContents(es[i].arcname))
  {
    LayoutOf(InfoTexts(req, Lines(Walked(req.name, root))), Collected(req, root));
  }

  /** The layout of an archive written from any seven texts and any list
      of files. */
  lemma LayoutOf(texts: seq<string>, files: seq<string>)
    requires |texts| == |InfoNames|
    ensures var es := InfoEntries(texts) + FileEntries(SortStrings(files));
      var stored := Arcnames(es[|InfoNames|..]);
      && |es| == |InfoNames| + |files|
      && (forall i :: 0 <= i < |InfoNames| ==> es[i] == ZipEntry(Join("EGG-INFO", InfoNames[i]), Text(texts[i])))
      && multiset(stored) == multiset(files)
      && (forall i, j :: 0 <= i < j < |stored| ==> LessEq(stored[i], stored[j]))
      && (forall i :: |InfoNames| <= i < |es| ==> es[i].payload == FileContents(es[i].arcname))
  {
    var sorted := SortStrings(files);
    var es := InfoEntries(texts) + FileEntries(sorted);
    InfoEntriesNamed(texts);
    assert es[|InfoNames|..] == FileEntries(sorted);
    assert Arcnames(FileEntries(sorted)) == sorted;
  }

  /** The explicit source files come first in `files`, each joined to the
      component's name; every later path is a walked module's. */
  lemma ExplicitFilesFirst(req: Request, root: Node)
    requires root.Dir?
    ensures var files := Collected(req, root);
      && |files| == |req.srcFiles| + |Walked(req.name, root)|
      && (forall i :: 0 <= i < |req.srcFiles| ==> files[i] == Join(req.name, req.srcFiles[i]))
      && (forall i :: |req.srcFiles| <= i < |files| ==>
            files[i] == Walked(req.name, root)[i - |req.srcFiles|].path
            && EndsWith(files[i], ".py"))
  {
    var walked := Walked(req.name, root);
    var files := Collected(req, root);
    var n := |req.srcFiles|;
    forall i | n <= i < |files|
      ensures files[i] == walked[i - n].path && EndsWith(files[i], ".py")
    {
      PathsIndex(walked, i - n);
      WalkedOnlyModules(req.name, root, walked[i - n]);
    }
  }

  /** A module is collected by the two walks exactly when the first walk
      finds it under the working directory, or `name` is a symbolic link to
      a directory and the second walk finds it there. */
  lemma WalkedMembers(name: string, root: Node, f: Found)
    requires root.Dir?
    ensures f in Walked(name, root) <==>
      || Collects(".", root, f)
      || (LinkedDir(root, name).Some? && Collects(name, LinkedDir(root, name).value, f))
  {
    WalkMembers(".", root, f);
    if LinkedDir(root, name).Some? {
      WalkMembers(name, LinkedDir(root, name).value, f);
    }
  }

  /** Whatever the two walks collect is a Python module. */
  lemma WalkedOnlyModules(name: string, root: Node, f: Found)
    requires root.Dir? && f in Walked(name, root)
    ensures EndsWith(f.path, ".py")
  {
    WalkedMembers(name, root, f);
    if Collects(".", root, f) {
      CollectsOnlyModules(".", root, f);
    } else {
      CollectsOnlyModules(name, LinkedDir(root, name).value, f);
    }
  }

  /** SOURCES.txt lists, in ascending order, one line per walked module
      (its path) and one per metadata file; the explicit source files are
      not in it. */
  lemma SourcesListing(req: Request, root: Node)
    requires root.Dir?
    ensures var walked := Walked(req.name, root);
      var listing := SortStrings(Lines(walked) + SelfEntries(req.name));
      && SourcesText(req.name, Lines(walked)) == Concat(listing)
      && |listing| == |walked| + |InfoNames|
      && (forall i, j :: 0 <= i < j < |listing| ==> LessEq(listing[i], listing[j]))
      && (forall l :: l in listing <==>
            l in SelfEntries(req.name) || exists f :: f in walked && l == f.path + "\n")
  {
    var walked := Walked(req.name, root);
    var all := Lines(walked) + SelfEntries(req.name);
    var listing := SortStrings(all);
    assert |listing| == |all| by {
      assert |multiset(listing)| == |multiset(all)|;
    }
    forall l
      ensures l in listing <==> l in SelfEntries(req.name) || exists f :: f in walked && l == f.path + "\n"
    {
      ListingMember(walked, SelfEntries(req.name), l);
    }
  }

  lemma ListingMember(walked: seq<Found>, selfs: seq<string>, l: string)
    ensures l in SortStrings(Lines(walked) + selfs) <==> l in selfs || exists f :: f in walked && l == f.path + "\n"
  {
    assert l in SortStrings(Lines(walked) + selfs) <==> l in multiset(Lines(walked) + selfs);
    LinesMembers(walked, l);
  }

  /** Every line of SOURCES.txt other than the metadata files' names a
      Python module. */
  lemma SourcesModules(req: Request, root: Node, l: string)
    requires root.Dir?
    requires l in SortStrings(Lines(Walked(req.name, root)) + SelfEntries(req.name))
    requires l !in SelfEntries(req.name)
    ensures EndsWith(l, ".py\n")
  {
    var walked := Walked(req.name, root);
    ListingMember(walked, SelfEntries(req.name), l);
    var f :| f in walked && l == f.path + "\n";
    WalkedOnlyModules(req.name, root, f);
  }

  lemma {:induction false} SumSeven(texts: seq<string>)
    requires |texts| == 7
    ensures SumLengthsOf(texts) == |texts[0]| + |texts[1]| + |texts[2]| + |texts[3]|
      + |texts[4]| + |texts[5]| + |texts[6]|
  {
    forall k | 0 <= k < 7
      ensures SumLengthsOf(texts[k..]) == |texts[k]| + SumLengthsOf(texts[k + 1..])
    {
      assert texts[k..][1..] == texts[k + 1..];
    }
    assert texts[7..] == [];
  }

  /** The metadata's share of the estimate counts dependency_links.txt in
      place of entry_points.txt. */
  lemma InfoBytesShort(req: Request, walkedLines: seq<string>)
    ensures InfoBytes(req, walkedLines) + |EntryPoints(req.name, req.loader)|
         == SumLengthsOf(InfoTexts(req, walkedLines)) + |DependencyLinks|
  {
    SumSeven(InfoTexts(req, walkedLines));
  }

  /** The size estimate counts dependency_links.txt a second time where it
      means to count entry_points.txt: it falls short of the intended total
      by the difference of the two lengths. */
  lemma SizeQuirk(req: Request, root: Node, rt: Runtime)
    requires root.Dir? && ExplicitSizes(root, req.name, req.srcFiles).Ok?
    ensures ByteTotal(req, root, rt) + |EntryPoints(req.name, req.loader)|
         == IntendedTotal(req, root, rt) + |DependencyLinks|
    ensures IntendedTotal(req, root, rt) - ByteTotal(req, root, rt)
         == 2 * |req.name| + 2 * |req.loader| + 139
  {
    InfoBytesShort(req, Lines(Walked(req.name, root)));
    EntryPointsLength(req.name, req.loader);
  }

  /** Because of the short count, `write` can leave the Zip64 extensions
      off for an archive whose intended size estimate exceeds the limit:
      exactly when the limit lies between the two totals. */
  lemma Zip64Missed(req: Request, root: Node, rt: Runtime)
    requires root.Dir? && ExplicitSizes(root, req.name, req.srcFiles).Ok?
    ensures (ByteTotal(req, root, rt) > rt.zip64Limit) != (IntendedTotal(req, root, rt) > rt.zip64Limit)
      <==> ByteTotal(req, root, rt) <= rt.zip64Limit < IntendedTotal(req, root, rt)
  {
    SizeQuirk(req, root, rt);
  }

  // ----- The writer -----

  /** What the collection phase accumulates. */
  datatype Collection = Collection(files: seq<string>, sources: seq<string>, bytes: nat)

  /** Lines 41-44: each explicit source file is joined to the component's
      name, listed in `files` and its size added up; the first one that does
      not exist ends the collection with that path. */
  method CollectExplicit(name: string, srcFiles: seq<string>, getsize: string -> Option<nat>)
    returns (r: Result<nat>, files: seq<string>)
    ensures var paths := ExplicitPaths(name, srcFiles);
      r == SizesTo(paths, Lookups(getsize, paths), |paths|)
    ensures r.Ok? ==> files == ExplicitPaths(name, srcFiles)
  {
    ghost var paths := ExplicitPaths(name, srcFiles);
    ghost var sizes := Lookups(getsize, paths);
    files := [];
    var bytes: nat := 0;
    var i := 0;
    while i < |srcFiles|
      invariant 0 <= i <= |srcFiles|
      invariant files == paths[..i]
      invariant SizesTo(paths, sizes, i) == Ok(bytes)
    {
      var path := Join(name, srcFiles[i]);
      assert path == paths[i];
      PrefixSnoc(paths, i);
      files := files + [path];
      var size := getsize(path);
      LookupsAt(getsize, paths, i);
      SizesToNext(paths, sizes, i, bytes, size);
      if size.None? {
        SizesFailFast(paths, sizes, i + 1, |paths|);
        return Err(MissingSource(path)), files;
      }
      bytes := bytes + size.value;
      i := i + 1;
    }
    assert paths[..i] == paths;
    r := Ok(bytes);
  }

  lemma SizesToNext(paths: seq<string>, sizes: seq<Option<nat>>, n: nat, total: nat, size: Option<nat>)
    requires n < |paths| == |sizes| && SizesTo(paths, sizes, n) == Ok(total) && sizes[n] == size
    ensures SizesTo(paths, sizes, n + 1) == if size.None? then Err(MissingSource(paths[n])) else Ok(total + size.value)
  {
  }

  lemma PrefixSnoc<T>(s: seq<T>, i: nat)
    requires i < |s|
    ensures s[..i + 1] == s[..i] + [s[i]]
  {
  }

  /** Lines 46-71: the walk of the working directory, then the walk of
      `name` when it is a symbolic link. */
  method WalkSources(name: string, root: Node, files: seq<string>, sources: seq<string>, bytes: nat)
    returns (files': seq<string>, sources': seq<string>, bytes': nat)
    requires root.Dir?
    ensures files' == files + Paths(Walked(name, root))
    ensures sources' == sources + Lines(Walked(name, root))
    ensures bytes' == bytes + TotalSize(Walked(name, root))
  {
    files', sources', bytes' := WalkPackages(".", root, files, sources, bytes);
    var link := LinkedDir(root, name);
    ghost var second: seq<Found> := [];
    if link.Some? {
      second := Walk(name, link.value);
      files', sources', bytes' := WalkPackages(name, link.value, files', sources', bytes');
    } else {
      assert files' == files' + Paths(second) && sources' == sources' + Lines(second);
    }
    CollectedAppend(Walk(".", root), second);
    Assoc(files, Paths(Walk(".", root)), Paths(second));
    Assoc(sources, Lines(Walk(".", root)), Lines(second));
  }

  /** Lines 36-71: the explicit source files, then the walked modules. */
  method CollectFiles(req: Request, root: Node) returns (r: Result<Collection>)
    requires root.Dir?
    ensures r.Ok? <==> ExplicitSizes(root, req.name, req.srcFiles).Ok?
    ensures r.Err? ==> r.error == ExplicitSizes(root, req.name, req.srcFiles).error
    ensures r.Ok? ==>
      && r.value.files == Collected(req, root)
      && r.value.sources == Lines(Walked(req.name, root))
      && r.value.bytes == ExplicitSizes(root, req.name, req.srcFiles).value + TotalSize(Walked(req.name, root))
  {
    var explicit, files := CollectExplicit(req.name, req.srcFiles, SizeQuery(root));
    if explicit.Err? {
      return Err(explicit.error);
    }
    var sources, bytes;
    files, sources, bytes := WalkSources(req.name, root, files, [], explicit.value);
    r := Ok(Collection(files, sources, bytes));
  }

  /** Lines 74-142: the prefix, the seven metadata texts and their share of
      the size estimate. `sources` holds the walked modules' lines. */
  method FormatInfo(req: Request, eggName: string, tag: string, sources: seq<string>, bytes: nat)
    returns (shPrefix: string, infos: seq<string>, bytes': nat)
    ensures shPrefix == ShPrefix(eggName, tag)
    ensures infos == InfoTexts(req, sources)
    ensures bytes' == bytes + |shPrefix| + InfoBytes(req, sources)
  {
    var name := req.name;
    shPrefix := ShPrefix(eggName, tag);
    bytes' := bytes + |shPrefix|;

    var pkgInfo := PkgInfo(name, req.version, req.doc);
    var listing := sources + [SelfEntry(name, "PKG-INFO")];
    bytes' := bytes' + |pkgInfo|;

    var dependencyLinks := DependencyLinks;
    listing := listing + [SelfEntry(name, "dependency_links.txt")];
    bytes' := bytes' + |dependencyLinks|;

    var entryPoints := EntryPoints(name, req.loader);
    listing := listing + [SelfEntry(name, "entry_points.txt")];
    bytes' := bytes' + |dependencyLinks|;

    var notZipSafe := NotZipSafe;
    listing := listing + [SelfEntry(name, "not-zip-safe")];
    bytes' := bytes' + |notZipSafe|;

    var requirements := FormatRequirements(req.distributions);
    listing := listing + [SelfEntry(name, "requires.txt")];
    bytes' := bytes' + |requirements|;

    var topLevel := TopLevel(name);
    listing := listing + [SelfEntry(name, "top_level.txt")];
    bytes' := bytes' + |topLevel|;

    listing := listing + [SelfEntry(name, "SOURCES.txt")];
    SelfEntriesAppended(sources, name);
    var sourcesText := Concat(SortStrings(listing));
    bytes' := bytes' + |sourcesText|;

    infos := [pkgInfo, dependencyLinks, entryPoints, notZipSafe, requirements, topLevel, sourcesText];
  }

  /** Lines 144-168: write the prefix as a plain file, reopen it as a zip
      archive, add the seven metadata members and then every collected file
      in sorted order, and close it. */
  method WriteArchive(eggPath: string, shPrefix: string, compression: Compression, zip64: bool,
                      infos: seq<string>, files: seq<string>)
    returns (egg: EggArchive)
    requires |infos| == |InfoNames|
    ensures fresh(egg)
    ensures egg.path == eggPath && egg.prefix == shPrefix && egg.phase == Closed
    ensures egg.compression == compression && egg.zip64 == zip64
    ensures egg.entries == InfoEntries(infos) + FileEntries(SortStrings(files))
  {
    egg := new EggArchive.Create(eggPath, shPrefix);
    egg.Open(compression, zip64);
    WriteInfos(egg, infos);
    assert egg.entries == InfoEntries(infos);
    var sorted := SortStrings(files);
    WriteFiles(egg, sorted);
    egg.Close();
  }

  /** Lines 156-162: the seven metadata members, in their fixed order. */
  method WriteInfos(egg: EggArchive, infos: seq<string>)
    requires |infos| == |InfoNames| && egg.phase == ZipOpen
    modifies egg
    ensures egg.entries == old(egg.entries) + InfoEntries(infos)
    ensures egg.phase == ZipOpen && egg.compression == old(egg.compression) && egg.zip64 == old(egg.zip64)
  {
    WriteInfo(egg, "PKG-INFO", infos[0]);
    WriteInfo(egg, "dependency_links.txt", infos[1]);
    WriteInfo(egg, "entry_points.txt", infos[2]);
    WriteInfo(egg, "not-zip-safe", infos[3]);
    WriteInfo(egg, "requires.txt", infos[4]);
    WriteInfo(egg, "top_level.txt", infos[5]);
    WriteInfo(egg, "SOURCES.txt", infos[6]);
  }

  /** Lines 165-166: one member per path, in the given order. */
  method WriteFiles(egg: EggArchive, paths: seq<string>)
    requires egg.phase == ZipOpen
    modifies egg
    ensures egg.entries == old(egg.entries) + FileEntries(paths)
    ensures egg.phase == ZipOpen && egg.compression == old(egg.compression) && egg.zip64 == old(egg.zip64)
  {
    var j := 0;
    while j < |paths|
      invariant 0 <= j <= |paths|
      invariant egg.phase == ZipOpen && egg.compression == old(egg.compression) && egg.zip64 == old(egg.zip64)
      invariant egg.entries == old(egg.entries) + FileEntries(paths[..j])
    {
      assert FileEntries(paths[..j + 1]) == FileEntries(paths[..j]) + [ZipEntry(paths[j], FileContents(paths[j]))];
      Assoc(old(egg.entries), FileEntries(paths[..j]), [ZipEntry(paths[j], FileContents(paths[j]))]);
      WriteFile(egg, paths[j]);
      j := j + 1;
    }
    assert paths[..j] == paths;
  }

  /** `write`: the egg's file name, or the error of the first explicit
      source file that does not exist, in which case no file is written. */
  method Write(req: Request, root: Node, rt: Runtime) returns (r: Result<string>, egg: EggArchive?)
    requires root.Dir?
    ensures r.Ok? <==> ExplicitSizes(root, req.name, req.srcFiles).Ok?
    ensures r.Err? ==> r.error == ExplicitSizes(root, req.name, req.srcFiles).error && egg == null
    ensures r.Ok? ==>
      && r.value == EggName(req, rt) && egg != null && fresh(egg)
      && egg.path == Join(req.dstDir, r.value)
      && egg.prefix == ShPrefix(r.value, PyTag(rt.sysVersion))
      && egg.phase == Closed
      && egg.compression == (if req.compress then Deflated else Stored)
      && egg.zip64 == (ByteTotal(req, root, rt) > rt.zip64Limit)
      && egg.entries == ArchiveEntries(req, root)
  {
    var tag := PyTag(rt.sysVersion);
    var eggName := EggFilename(req.name, req.version, tag);
    var eggPath := Join(req.dstDir, eggName);
    var collected := CollectFiles(req, root);
    if collected.Err? {
      return Err(collected.error), null;
    }
    var files, sources, bytes := collected.value.files, collected.value.sources, collected.value.bytes;
    var shPrefix, infos, total := FormatInfo(req, eggName, tag, sources, bytes);
    var zip64 := total > rt.zip64Limit;
    var compression := if req.compress then Deflated else Stored;
    egg := WriteArchive(eggPath, shPrefix, compression, zip64, infos, files);
    r := Ok(eggName);
  }
}
