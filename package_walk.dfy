/** The module collection of the egg writer: `os.walk(top)` top-down, with
    the caller pruning from `dirnames` every sub-directory that has no
    `__init__.py`, and every `*.py` file of a visited directory collected
    (eggwriter.py, lines 48-58 and again 61-71). */
module PackageWalk {
  import opened PyStrings
  import opened FileTree

  /** A collected module: the path the walk produced and its size. */
  datatype Found = Found(path: string, size: nat)

  /** A non-directory entry whose name ends in ".py". */
  predicate IsModule(e: Entry)
  {
    e.node.File? && EndsWith(e.name, ".py")
  }

  /** A sub-directory the pruning leaves in `dirnames`. */
  predicate IsKept(e: Entry)
  {
    e.node.Dir? && IsPackage(e.node)
  }

  /** A kept sub-directory that `os.walk` then enters: it does not follow
      symbolic links to directories (followlinks is False). */
  predicate IsEntered(e: Entry)
  {
    IsKept(e) && !e.node.link
  }

  // ----- Specification -----

  /** What the collection loop records for a module listed in `top`. */
  function ModuleFound(top: string, e: Entry): Found
  {
    Found(Join(top, e.name), e.node.size)
  }

  /** `ks` are positions in the listing of `d`. */
  predicate Positions(d: Node, ks: seq<nat>)
    requires d.Dir?
  {
    forall j :: 0 <= j < |ks| ==> ks[j] < |d.entries|
  }

  /** The modules listed directly in a directory, in listing order, with
      their paths joined to `top`. */
  function ModulesIn(top: string, es: seq<Entry>): seq<Found>
    decreases |es|
  {
    if es == [] then []
    else
      var e := es[|es| - 1];
      ModulesIn(top, es[..|es| - 1]) + (if IsModule(e) then [ModuleFound(top, e)] else [])
  }

  /** Positions of the sub-directories that survive the pruning, in order. */
  function KeptDirs(es: seq<Entry>): (ks: seq<nat>)
    ensures forall j :: 0 <= j < |ks| ==> ks[j] < |es| && IsKept(es[ks[j]])
    decreases |es|
  {
    if es == [] then []
    else KeptDirs(es[..|es| - 1]) + (if IsKept(es[|es| - 1]) then [|es| - 1] else [])
  }

  /** Everything one pass collects below `d`, in the order of the walk:
      the directory's own modules, then each entered sub-directory's walk. */
  function Walk(top: string, d: Node): seq<Found>
    requires d.Dir?
    decreases d, 1
  {
    ModulesIn(top, d.entries) + Descend(top, d, KeptDirs(d.entries))
  }

  /** The walks below the kept sub-directories at positions `ks` of `d`. */
  function Descend(top: string, d: Node, ks: seq<nat>): seq<Found>
    requires d.Dir? && Positions(d, ks)
    decreases d, 0, |ks|
  {
    if ks == [] then [] else Descend(top, d, ks[..|ks| - 1]) + Below(top, d, ks[|ks| - 1])
  }

  /** What the walk collects below the sub-directory at position `k` of
      `d`: nothing unless it is entered. */
  function Below(top: string, d: Node, k: nat): seq<Found>
    requires d.Dir? && k < |d.entries|
    decreases d, 0, 0
  {
    var e := d.entries[k];
    if e.node.Dir? && !e.node.link then Walk(Join(top, e.name), e.node) else []
  }

  /** The `files` entries of collected modules. */
  function Paths(fs: seq<Found>): (r: seq<string>)
    ensures |r| == |fs|
    decreases |fs|
  {
    if fs == [] then [] else Paths(fs[..|fs| - 1]) + [fs[|fs| - 1].path]
  }

  /** The `sources` entries of collected modules: each path with a "\n". */
  function Lines(fs: seq<Found>): (r: seq<string>)
    ensures |r| == |fs|
    decreases |fs|
  {
    if fs == [] then [] else Lines(fs[..|fs| - 1]) + [fs[|fs| - 1].path + "\n"]
  }

  /** The bytes the collected modules add to the size estimate. */
  function TotalSize(fs: seq<Found>): nat
    decreases |fs|
  {
    if fs == [] then 0 else TotalSize(fs[..|fs| - 1]) + fs[|fs| - 1].size
  }

  lemma CollectedSnoc(a: seq<Found>, f: Found)
    ensures Paths(a + [f]) == Paths(a) + [f.path]
    ensures Lines(a + [f]) == Lines(a) + [f.path + "\n"]
    ensures TotalSize(a + [f]) == TotalSize(a) + f.size
  {
    assert (a + [f])[..|a|] == a;
  }

  lemma CollectedAppend(a: seq<Found>, b: seq<Found>)
    ensures Paths(a + b) == Paths(a) + Paths(b)
    ensures Lines(a + b) == Lines(a) + Lines(b)
    ensures TotalSize(a + b) == TotalSize(a) + TotalSize(b)
  {
    CollectedAppendInduction(a, b);
  }

  lemma {:induction false} CollectedAppendInduction(a: seq<Found>, b: seq<Found>)
    ensures Paths(a + b) == Paths(a) + Paths(b)
    ensures Lines(a + b) == Lines(a) + Lines(b)
    ensures TotalSize(a + b) == TotalSize(a) + TotalSize(b)
    decreases |b|
  {
    if b != [] {
      var n := |b| - 1;
      assert (a + b)[..|a + b| - 1] == a + b[..n];
      assert (a + b)[|a + b| - 1] == b[n];
      CollectedAppendInduction(a, b[..n]);
      assert Paths(a + b) == Paths(a + b[..n]) + [b[n].path];
      assert Paths(b) == Paths(b[..n]) + [b[n].path];
      assert Lines(a + b) == Lines(a + b[..n]) + [b[n].path + "\n"];
      assert Lines(b) == Lines(b[..n]) + [b[n].path + "\n"];
      assert TotalSize(a + b) == TotalSize(a + b[..n]) + b[n].size;
      assert TotalSize(b) == TotalSize(b[..n]) + b[n].size;
    } else {
      assert a + b == a;
    }
  }

  lemma {:induction false} PathsIndex(fs: seq<Found>, i: nat)
    requires i < |fs|
    ensures Paths(fs)[i] == fs[i].path
    decreases |fs|
  {
    if i < |fs| - 1 {
      PathsIndex(fs[..|fs| - 1], i);
    }
  }

  /** The lines listed for the collected modules are their paths, each
      ended by "\n". */
  lemma {:induction false} LinesMembers(fs: seq<Found>, l: string)
    ensures l in Lines(fs) <==> exists f :: f in fs && l == f.path + "\n"
    decreases |fs|
  {
    if fs != [] {
      var n := |fs| - 1;
      LinesMembers(fs[..n], l);
      assert fs == fs[..n] + [fs[n]];
      if exists f :: f in fs && l == f.path + "\n" {
        var f :| f in fs && l == f.path + "\n";
        if f != fs[n] {
          assert f in fs[..n];
        }
      }
    }
  }

  // ----- The walk as the source performs it -----

  /** The pruning of one visited directory: of its sub-directories, keep
      (in order) those that hold an `__init__.py`. The source removes the
      others from `dirnames` in place; what remains is this list. */
  method PruneDirs(entries: seq<Entry>) returns (dirnames: seq<nat>)
    ensures dirnames == KeptDirs(entries)
  {
    dirnames := [];
    var i := 0;
    while i < |entries|
      invariant 0 <= i <= |entries|
      invariant dirnames == KeptDirs(entries[..i])
    {
      assert entries[..i + 1][..i] == entries[..i];
      if entries[i].node.Dir? && IsPackage(entries[i].node) {
        dirnames := dirnames + [i];
      }
      i := i + 1;
    }
    assert entries[..|entries|] == entries;
  }

  /** The file loop of one visited directory: every name ending in ".py" is
      joined to `top` and appended to `files`, its size to `bytes` and the
      path with a "\n" to `sources`. */
  method CollectModules(top: string, entries: seq<Entry>, files: seq<string>, sources: seq<string>, bytes: nat)
    returns (files': seq<string>, sources': seq<string>, bytes': nat)
    ensures files' == files + Paths(ModulesIn(top, entries))
    ensures sources' == sources + Lines(ModulesIn(top, entries))
    ensures bytes' == bytes + TotalSize(ModulesIn(top, entries))
  {
    files', sources', bytes' := files, sources, bytes;
    var i := 0;
    while i < |entries|
      invariant 0 <= i <= |entries|
      invariant files' == files + Paths(ModulesIn(top, entries[..i]))
      invariant sources' == sources + Lines(ModulesIn(top, entries[..i]))
      invariant bytes' == bytes + TotalSize(ModulesIn(top, entries[..i]))
    {
      var e := entries[i];
      CollectStep(top, entries, i);
      if e.node.File? && EndsWith(e.name, ".py") {
        var path := Join(top, e.name);
        ghost var m := ModulesIn(top, entries[..i]);
        Assoc(files, Paths(m), [path]);
        Assoc(sources, Lines(m), [path + "\n"]);
        files' := files' + [path];
        bytes' := bytes' + e.node.size;
        sources' := sources' + [path + "\n"];
      }
      i := i + 1;
    }
    assert entries[..|entries|] == entries;
  }

  /** What one more listing entry adds to the collected modules. */
  lemma CollectStep(top: string, es: seq<Entry>, i: nat)
    requires i < |es|
    ensures var m := ModulesIn(top, es[..i]);
      var n := ModulesIn(top, es[..i + 1]);
      if IsModule(es[i]) then
        && Paths(n) == Paths(m) + [Join(top, es[i].name)]
        && Lines(n) == Lines(m) + [Join(top, es[i].name) + "\n"]
        && TotalSize(n) == TotalSize(m) + es[i].node.size
      else
        Paths(n) == Paths(m) && Lines(n) == Lines(m) && TotalSize(n) == TotalSize(m)
  {
    assert es[..i + 1][..i] == es[..i];
    var m := ModulesIn(top, es[..i]);
    if IsModule(es[i]) {
      CollectedSnoc(m, ModuleFound(top, es[i]));
    } else {
      assert m + [] == m;
    }
  }

  /** One pass of the collection loop over the directory `d`, whose path is
      `top`: prune its sub-directories, collect its modules, then let the
      walk go on into each kept sub-directory that is not a symbolic link. */
  method WalkPackages(top: string, d: Node, files: seq<string>, sources: seq<string>, bytes: nat)
    returns (files': seq<string>, sources': seq<string>, bytes': nat)
    requires d.Dir?
    ensures files' == files + Paths(Walk(top, d))
    ensures sources' == sources + Lines(Walk(top, d))
    ensures bytes' == bytes + TotalSize(Walk(top, d))
    decreases d
  {
    var dirnames := PruneDirs(d.entries);
    files', sources', bytes' := CollectModules(top, d.entries, files, sources, bytes);
    ghost var done := ModulesIn(top, d.entries);
    var j := 0;
    while j < |dirnames|
      invariant 0 <= j <= |dirnames|
      invariant done == ModulesIn(top, d.entries) + Descend(top, d, dirnames[..j])
      invariant files' == files + Paths(done)
      invariant sources' == sources + Lines(done)
      invariant bytes' == bytes + TotalSize(done)
    {
      DescendStep(top, d, dirnames, j);
      var e := d.entries[dirnames[j]];
      ghost var below := Below(top, d, dirnames[j]);
      CollectedAppend(done, below);
      if !e.node.link {
        assert below == Walk(Join(top, e.name), e.node);
        files', sources', bytes' := WalkPackages(Join(top, e.name), e.node, files', sources', bytes');
        Assoc(files, Paths(done), Paths(below));
        Assoc(sources, Lines(done), Lines(below));
      } else {
        assert below == [];
        assert done + below == done;
      }
      Assoc(ModulesIn(top, d.entries), Descend(top, d, dirnames[..j]), below);
      done := done + below;
      j := j + 1;
    }
    assert dirnames[..|dirnames|] == dirnames;
  }

  lemma DescendStep(top: string, d: Node, ks: seq<nat>, j: nat)
    requires d.Dir? && Positions(d, ks) && j < |ks|
    ensures Descend(top, d, ks[..j + 1]) == Descend(top, d, ks[..j]) + Below(top, d, ks[j])
  {
    assert ks[..j + 1][..j] == ks[..j];
  }

  // ----- What the walk collects -----

  /** `f` is one of the modules listed directly in `es`. */
  ghost predicate ListsModule(top: string, es: seq<Entry>, f: Found)
  {
    exists i :: 0 <= i < |es| && IsModule(es[i]) && f == ModuleFound(top, es[i])
  }

  /** An independent description of one pass: `f` is collected below `d`
      when it is a module listed in `d` itself (whether or not `d` is a
      package), or is collected below a sub-directory that holds an
      `__init__.py` and is not a symbolic link. */
  ghost predicate Collects(top: string, d: Node, f: Found)
    requires d.Dir?
    decreases d
  {
    || ListsModule(top, d.entries, f)
    || (exists i :: 0 <= i < |d.entries| && IsEntered(d.entries[i])
          && Collects(Join(top, d.entries[i].name), d.entries[i].node, f))
  }

  lemma {:induction false} ModulesInMembers(top: string, es: seq<Entry>, f: Found)
    ensures f in ModulesIn(top, es) <==> ListsModule(top, es, f)
  {
    if f in ModulesIn(top, es) {
      ModulesInSound(top, es, f);
    }
    if ListsModule(top, es, f) {
      var i :| 0 <= i < |es| && IsModule(es[i]) && f == ModuleFound(top, es[i]);
      ModulesInComplete(top, es, i);
    }
  }

  lemma {:induction false} ModulesInSound(top: string, es: seq<Entry>, f: Found)
    requires f in ModulesIn(top, es)
    ensures ListsModule(top, es, f)
    decreases |es|
  {
    var n := |es| - 1;
    var e := es[n];
    var prev := ModulesIn(top, es[..n]);
    assert ModulesIn(top, es) == prev + (if IsModule(e) then [ModuleFound(top, e)] else []);
    if f in prev {
      ModulesInSound(top, es[..n], f);
      var i :| 0 <= i < n && IsModule(es[..n][i]) && f == ModuleFound(top, es[..n][i]);
      assert es[..n][i] == es[i];
    } else {
      assert IsModule(e) && f == ModuleFound(top, e);
    }
  }

  lemma {:induction false} ModulesInComplete(top: string, es: seq<Entry>, i: nat)
    requires i < |es| && IsModule(es[i])
    ensures ModuleFound(top, es[i]) in ModulesIn(top, es)
    decreases |es|
  {
    var n := |es| - 1;
    var e := es[n];
    var prev := ModulesIn(top, es[..n]);
    assert ModulesIn(top, es) == prev + (if IsModule(e) then [ModuleFound(top, e)] else []);
    if i < n {
      assert es[..n][i] == es[i];
      ModulesInComplete(top, es[..n], i);
    }
  }

  lemma {:induction false} KeptDirsMembers(es: seq<Entry>, k: nat)
    ensures k in KeptDirs(es) <==> k < |es| && IsKept(es[k])
    decreases |es|
  {
    if es != [] {
      var n := |es| - 1;
      KeptDirsMembers(es[..n], k);
      if k < n {
        assert es[..n][k] == es[k];
      }
    }
  }

  lemma DescendMembers(top: string, d: Node, ks: seq<nat>, f: Found)
    requires d.Dir? && Positions(d, ks)
    ensures f in Descend(top, d, ks) <==> exists j :: 0 <= j < |ks| && f in Below(top, d, ks[j])
  {
    if f in Descend(top, d, ks) {
      DescendSound(top, d, ks, f);
    }
    if exists j :: 0 <= j < |ks| && f in Below(top, d, ks[j]) {
      var j :| 0 <= j < |ks| && f in Below(top, d, ks[j]);
      DescendComplete(top, d, ks, j, f);
    }
  }

  lemma {:induction false} DescendSound(top: string, d: Node, ks: seq<nat>, f: Found)
    requires d.Dir? && Positions(d, ks) && f in Descend(top, d, ks)
    ensures exists j :: 0 <= j < |ks| && f in Below(top, d, ks[j])
    decreases |ks|
  {
    var n := |ks| - 1;
    var prev := Descend(top, d, ks[..n]);
    assert Descend(top, d, ks) == prev + Below(top, d, ks[n]);
    if f in prev {
      DescendSound(top, d, ks[..n], f);
      var j :| 0 <= j < n && f in Below(top, d, ks[..n][j]);
      assert ks[..n][j] == ks[j];
    }
  }

  lemma {:induction false} DescendComplete(top: string, d: Node, ks: seq<nat>, j: nat, f: Found)
    requires d.Dir? && Positions(d, ks) && j < |ks| && f in Below(top, d, ks[j])
    ensures f in Descend(top, d, ks)
    decreases |ks|
  {
    var n := |ks| - 1;
    var prev := Descend(top, d, ks[..n]);
    assert Descend(top, d, ks) == prev + Below(top, d, ks[n]);
    if j < n {
      assert ks[..n][j] == ks[j];
      DescendComplete(top, d, ks[..n], j, f);
    }
  }

  /** A pass collects exactly what `Collects` describes. */
  lemma {:induction false} WalkMembers(top: string, d: Node, f: Found)
    requires d.Dir?
    ensures f in Walk(top, d) <==> Collects(top, d, f)
    decreases d
  {
    var es := d.entries;
    var ks := KeptDirs(es);
    ModulesInMembers(top, es, f);
    DescendMembers(top, d, ks, f);
    if f in Descend(top, d, ks) {
      var j :| 0 <= j < |ks| && f in Below(top, d, ks[j]);
      var i := ks[j];
      WalkMembers(Join(top, es[i].name), es[i].node, f);
      assert IsEntered(es[i]);
    }
    if exists i :: 0 <= i < |es| && IsEntered(es[i]) && Collects(Join(top, es[i].name), es[i].node, f) {
      var i :| 0 <= i < |es| && IsEntered(es[i]) && Collects(Join(top, es[i].name), es[i].node, f);
      WalkMembers(Join(top, es[i].name), es[i].node, f);
      KeptDirsMembers(es, i);
      var j :| 0 <= j < |ks| && ks[j] == i;
      assert f in Below(top, d, ks[j]);
    }
  }

  /** Every path a pass collects names a ".py" file. */
  lemma {:induction false} CollectsOnlyModules(top: string, d: Node, f: Found)
    requires d.Dir?
    requires Collects(top, d, f)
    ensures EndsWith(f.path, ".py")
    decreases d
  {
    var es := d.entries;
    if ListsModule(top, es, f) {
      var i :| 0 <= i < |es| && IsModule(es[i]) && f == ModuleFound(top, es[i]);
      JoinEndsWith(top, es[i].name);
      EndsWithTransitive(f.path, es[i].name, ".py");
    } else {
      var i :| 0 <= i < |es| && IsEntered(es[i]) && Collects(Join(top, es[i].name), es[i].node, f);
      CollectsOnlyModules(Join(top, es[i].name), es[i].node, f);
    }
  }

  lemma WalkOnlyModules(top: string, d: Node)
    requires d.Dir?
    ensures forall f :: f in Walk(top, d) ==> EndsWith(f.path, ".py")
  {
    forall f | f in Walk(top, d) ensures EndsWith(f.path, ".py") {
      WalkMembers(top, d, f);
      CollectsOnlyModules(top, d, f);
    }
  }

  /** The root of a pass is always visited: each of its own modules is
      collected, even when the root holds no `__init__.py`. */
  lemma RootModulesCollected(top: string, d: Node, i: nat)
    requires d.Dir? && i < |d.entries| && IsModule(d.entries[i])
    ensures ModuleFound(top, d.entries[i]) in Walk(top, d)
  {
    var f := ModuleFound(top, d.entries[i]);
    assert ListsModule(top, d.entries, f);
    WalkMembers(top, d, f);
  }

  // ----- The walk never looks inside what it does not enter -----

  lemma {:induction false} ModulesInAgree(top: string, es: seq<Entry>, es': seq<Entry>)
    requires |es| == |es'|
    requires forall k :: 0 <= k < |es| ==> IsModule(es[k]) == IsModule(es'[k])
    requires forall k :: 0 <= k < |es| && IsModule(es[k]) ==> es[k] == es'[k]
    ensures ModulesIn(top, es) == ModulesIn(top, es')
    decreases |es|
  {
    if es != [] {
      var n := |es| - 1;
      assert forall k :: 0 <= k < n ==> es[..n][k] == es[k] && es'[..n][k] == es'[k];
      ModulesInAgree(top, es[..n], es'[..n]);
    }
  }

  lemma {:induction false} KeptDirsAgree(es: seq<Entry>, es': seq<Entry>)
    requires |es| == |es'|
    requires forall k :: 0 <= k < |es| ==> IsKept(es[k]) == IsKept(es'[k])
    ensures KeptDirs(es) == KeptDirs(es')
    decreases |es|
  {
    if es != [] {
      var n := |es| - 1;
      assert forall k :: 0 <= k < n ==> es[..n][k] == es[k] && es'[..n][k] == es'[k];
      KeptDirsAgree(es[..n], es'[..n]);
    }
  }

  /** The entries at position `k` of `d` and `d'` are equal, or are both
      symbolic links to directories (which the walk does not enter). */
  predicate SameForWalk(d: Node, d': Node, k: nat)
    requires d.Dir? && d'.Dir? && k < |d.entries| && k < |d'.entries|
  {
    var e, e' := d.entries[k], d'.entries[k];
    e == e' || (e.node.Dir? && e.node.link && e'.node.Dir? && e'.node.link)
  }

  lemma {:induction false} DescendAgree(top: string, d: Node, d': Node, ks: seq<nat>)
    requires d.Dir? && d'.Dir? && |d.entries| == |d'.entries| && Positions(d, ks)
    requires forall j :: 0 <= j < |ks| ==> SameForWalk(d, d', ks[j])
    ensures Descend(top, d, ks) == Descend(top, d', ks)
    decreases |ks|
  {
    if ks != [] {
      var n := |ks| - 1;
      DescendAgree(top, d, d', ks[..n]);
    }
  }

  /** Replacing a sub-directory that the walk does not enter (it has no
      `__init__.py`, or it is a symbolic link) by any other directory that it
      would not enter either, and that is pruned exactly when the first one
      was, leaves the pass unchanged: nothing inside such a directory is ever
      collected. */
  lemma WalkIgnoresUnentered(top: string, d: Node, i: nat, e': Entry)
    requires d.Dir? && i < |d.entries|
    requires d.entries[i].node.Dir? && e'.node.Dir?
    requires IsKept(d.entries[i]) == IsKept(e')
    requires !IsEntered(d.entries[i]) && !IsEntered(e')
    ensures Walk(top, d) == Walk(top, d.(entries := d.entries[i := e']))
  {
    var d' := d.(entries := d.entries[i := e']);
    ModulesInAgree(top, d.entries, d'.entries);
    KeptDirsAgree(d.entries, d'.entries);
    var ks := KeptDirs(d.entries);
    forall j | 0 <= j < |ks| ensures SameForWalk(d, d', ks[j]) {
      if ks[j] == i {
        assert IsKept(d.entries[i]) && IsKept(e');
      }
    }
    DescendAgree(top, d, d', ks);
  }
}
