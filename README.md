# Direct egg writer, modelled in Dafny

This project models the direct egg writer of OpenMDAO's utility package
(`openmdao/util/eggwriter.py`): `egg_filename`, `write` and its two helpers
`_write_info` and `_write_file`. `write` packs a component into a
setuptools-style Python egg. It does six things:

1. It names the egg `<name>-<version>-py<X.Y>.egg`.
2. It collects the component's explicit source files (each joined to `name`).
3. It walks the working directory with `os.walk('.')`. It prunes every
   sub-directory that has no `__init__.py` and collects every `*.py` file. When
   `name` is a symbolic link, it walks the link's target as a second pass.
4. It formats a shell-script prefix (the "eggsecutable") and seven EGG-INFO
   texts (PKG-INFO, dependency_links.txt, entry_points.txt, not-zip-safe,
   requires.txt, top_level.txt, SOURCES.txt).
5. It adds up an uncompressed size estimate, which decides the Zip64 flag.
6. It writes the prefix, then appends a zip archive. The archive holds the
   seven metadata members first and then every collected file, in sorted path
   order.

The modules follow that structure:

- `PyStrings` (`py_strings.dfy`): the Python `str` operations the writer
  relies on: string order, `startswith`/`endswith`, `split`, `strip`, `join`.
- `Sorting` (`sorting.dfy`): `sorted(s, key=...)`, proved to be a sorted
  permutation that keeps elements with equal keys in their input order (it is
  stable) and that depends only on the multiset of its input when keys are
  unique.
- `FileTree` (`file_tree.dfy`): the file system as a tree of directories and
  files with sizes. It provides `os.path.join`, `getsize` and `islink`.
  `getsize` also comes as a query function (`SizeQuery`). The loop over the
  explicit source files takes that query as a parameter and calls it per path.
- `PackageWalk` (`package_walk.dfy`): one pruned `os.walk` pass. The source's
  loops are recursive and iterative methods, proved against the function
  `Walk`. `Walk` is proved to collect exactly the modules that an
  independent description, `Collects`, describes. The order of the collected
  modules is fixed by `Walk`'s definition.
- `EggInfo` (`egg_info.dfy`): the file name, the shell prefix and the
  metadata texts, with the loop that builds requires.txt.
- `EggWriter` (`egg_writer.dfy`): the archive as a class whose methods append
  members. It also holds the collection, formatting and writing phases of
  `write`, and the lemmas about the finished archive.

The size estimate is modelled as written. At line 120 the source adds
`len(dependency_links)` where the surrounding code shows it means
`len(entry_points)`. So entry_points.txt is never counted and
dependency_links.txt is counted twice. `ByteTotal` is the estimate as the
code computes it and decides the Zip64 flag in `Write`. `IntendedTotal`
counts every text once. `SizeQuirk` proves the estimate falls short by
exactly `2*|name| + 2*|loader| + 139` bytes. `Zip64Missed` characterises the
inputs for which that shortfall changes the Zip64 decision.

## Model

| member | source | states |
|---|---|---|
| EggInfo.PyTag | openmdao.util/src/openmdao/util/eggwriter.py:18 | `sys.version[:3]` is the first three characters of the version string (all of it when shorter), a prefix of it |
| EggInfo.EggFilename | openmdao.util/src/openmdao/util/eggwriter.py:16-18 | the egg's file name starts with `name + "-"` and ends with ".egg" |
| EggInfo.EggFilenameInjective | openmdao.util/src/openmdao/util/eggwriter.py:16-18 | for dash-free names and versions, the file name determines the name and the version |
| EggInfo.ShPrefixEmbeds | openmdao.util/src/openmdao/util/eggwriter.py:74-83 | the prefix's first line is `#!/bin/sh`, its second compares `basename $0` with the egg's name, its third execs `python<tag> -c` |
| EggInfo.Dashed | openmdao.util/src/openmdao/util/eggwriter.py:98 | `name.replace('_', '-')` changes exactly the underscores to dashes, keeps the length, and leaves no underscore |
| EggInfo.FieldIn | openmdao.util/src/openmdao/util/eggwriter.py:87-98 | a header lookup in the PKG-INFO lines finds a value exactly when some line starts with `key: ` |
| EggInfo.ShPrefix | openmdao.util/src/openmdao/util/eggwriter.py:74-83 | the eggsecutable prefix: the shell script's lines with the egg name and the Python tag filled in; `ShPrefixEmbeds` and `ShPrefixOneLine` state what they say |
| EggInfo.PkgInfo | openmdao.util/src/openmdao/util/eggwriter.py:87-98 | PKG-INFO: the ten "key: value" header lines, each ended by "\n"; `PkgInfoSplitAt` and `PkgInfoFields` state how it reads back |
| EggInfo.PkgInfoSplit | openmdao.util/src/openmdao/util/eggwriter.py:87-98 | when the stripped doc string is a single line, PKG-INFO is its ten header lines, each ended by "\n" |
| EggInfo.PkgInfoSplitAt | openmdao.util/src/openmdao/util/eggwriter.py:87-98 | for any doc string, PKG-INFO split at "\n" is the header lines with the Summary line taking the doc string's first line and its other lines following as lines of their own |
| EggInfo.HeaderSplit | openmdao.util/src/openmdao/util/eggwriter.py:91 | a header whose value spans lines keeps the value's first line, and the value's other lines follow |
| EggInfo.PkgInfoFields | openmdao.util/src/openmdao/util/eggwriter.py:87-98 | PKG-INFO read back gives Metadata-Version 1.0, Name = name with `_` turned to `-`, Version = version, and Summary = the first line of the stripped doc string (all of it when it is one line), for names and versions that do not span lines |
| EggInfo.EntryPoints | openmdao.util/src/openmdao/util/eggwriter.py:108-118 | entry_points.txt: the component loader, the top-level loader and the eggsecutable entry, in three sections; `EntryPointsLength` states its length |
| EggInfo.TopLevel | openmdao.util/src/openmdao/util/eggwriter.py:135 | top_level.txt is the component name followed by "\n" |
| EggInfo.EntryPointsLength | openmdao.util/src/openmdao/util/eggwriter.py:108-118 | entry_points.txt is 140 fixed characters plus the name and the loader twice each |
| EggInfo.UnlinesLength | openmdao.util/src/openmdao/util/eggwriter.py:108-118 | a block of lines is as long as its lines plus one newline each |
| EggInfo.Requirements | openmdao.util/src/openmdao/util/eggwriter.py:128-130 | requires.txt: the requirement lines of the distributions sorted by project name; `FormatRequirements` is the loop that builds it and `RequirementsListing` states its lines |
| EggInfo.RequirementLines | openmdao.util/src/openmdao/util/eggwriter.py:130 | one `<project> == <version>` line per distribution, in the given order |
| EggInfo.FormatRequirements | openmdao.util/src/openmdao/util/eggwriter.py:128-130 | the loop builds requires.txt: the requirement lines of the distributions sorted by project name |
| EggInfo.RequirementLinesSnoc | openmdao.util/src/openmdao/util/eggwriter.py:129-130 | one more loop iteration appends exactly the next distribution's line |
| EggInfo.RequirementsListing | openmdao.util/src/openmdao/util/eggwriter.py:128-130 | requires.txt split at newlines is one line per distribution, a permutation of the input in ascending project-name order, and nothing else |
| EggInfo.RequirementsOrderIndependent | openmdao.util/src/openmdao/util/eggwriter.py:129 | requires.txt does not depend on the input order when no project is listed twice |
| EggWriter.EggArchive.Create | openmdao.util/src/openmdao/util/eggwriter.py:146-148 | the egg file at `egg_path` holds just the prefix, no archive members yet |
| EggWriter.EggArchive.Open | openmdao.util/src/openmdao/util/eggwriter.py:153 | the archive is opened for appending with the chosen compression and Zip64 flag; members unchanged |
| EggWriter.EggArchive.WriteStr | openmdao.util/src/openmdao/util/eggwriter.py:177 | `writestr` appends one text member and changes nothing else |
| EggWriter.EggArchive.Write | openmdao.util/src/openmdao/util/eggwriter.py:182 | `write(path)` appends one member holding the file, stored under its own path |
| EggWriter.EggArchive.Close | openmdao.util/src/openmdao/util/eggwriter.py:168 | closing keeps the members, compression and Zip64 flag |
| EggWriter.WriteInfo | openmdao.util/src/openmdao/util/eggwriter.py:173-177 | `_write_info` appends the text under `EGG-INFO/<name>` |
| EggWriter.WriteFile | openmdao.util/src/openmdao/util/eggwriter.py:179-182 | `_write_file` appends the file under its path |
| EggWriter.ExplicitSizesOk | openmdao.util/src/openmdao/util/eggwriter.py:41-44 | the explicit files pass exactly when every one of them exists |
| EggWriter.ExplicitSizesError | openmdao.util/src/openmdao/util/eggwriter.py:41-44 | a failure names the first explicit file that does not exist |
| EggWriter.SizesFailFast | openmdao.util/src/openmdao/util/eggwriter.py:41-44 | once the lookups of a prefix of the paths have failed, every longer run fails with the same error: the loop stops at the first missing file |
| EggWriter.SizesToOk | openmdao.util/src/openmdao/util/eggwriter.py:41-44 | a run of size lookups succeeds exactly when every lookup in it answers a size |
| EggWriter.SizesToError | openmdao.util/src/openmdao/util/eggwriter.py:41-44 | a failed run of size lookups names the path of its first failing lookup, every earlier one having succeeded |
| EggWriter.LookupsAt | openmdao.util/src/openmdao/util/eggwriter.py:44 | the i-th lookup is the size query's answer for the i-th path |
| EggWriter.CollectExplicit | openmdao.util/src/openmdao/util/eggwriter.py:41-44 | with `os.path.getsize` passed in as a query, the loop's result is the lookups' size sum or the first missing path, and on success `files` holds the joined paths in order |
| EggWriter.WalkSources | openmdao.util/src/openmdao/util/eggwriter.py:46-71 | the two passes append the walked modules' paths, lines and sizes |
| EggWriter.CollectFiles | openmdao.util/src/openmdao/util/eggwriter.py:36-71 | collection fails exactly when an explicit file is missing; otherwise `files` is explicit then walked paths, `sources` the walked lines, `bytes` their sizes |
| EggInfo.SelfEntriesAppended | openmdao.util/src/openmdao/util/eggwriter.py:99-139 | the seven `sources.append` calls add one `<name>.egg-info/<file>` line per metadata file, in the order of `InfoNames` |
| EggWriter.FormatInfo | openmdao.util/src/openmdao/util/eggwriter.py:74-142 | the prefix, the seven metadata texts, and the estimate grown by the prefix and by the texts as the code counts them |
| EggWriter.WriteArchive | openmdao.util/src/openmdao/util/eggwriter.py:144-168 | a fresh closed egg holding the prefix, the seven metadata members, then the files in sorted order |
| EggWriter.WriteInfos | openmdao.util/src/openmdao/util/eggwriter.py:156-162 | the seven metadata members are appended in their fixed order |
| EggWriter.WriteFiles | openmdao.util/src/openmdao/util/eggwriter.py:165-166 | one member per path is appended, in the given order |
| EggWriter.Write | openmdao.util/src/openmdao/util/eggwriter.py:21-171 | `write` fails exactly when an explicit file is missing, with that path, and then writes nothing. Otherwise it returns `egg_filename` and leaves a closed egg at `join(dst_dir, egg_name)` with the prefix, DEFLATED exactly when `compress`, Zip64 exactly when the estimate exceeds the limit, and the archive's members |
| EggWriter.InfoEntriesNamed | openmdao.util/src/openmdao/util/eggwriter.py:156-162 | the i-th metadata member is `EGG-INFO/<i-th file name>` holding the i-th text |
| EggWriter.LayoutOf | openmdao.util/src/openmdao/util/eggwriter.py:155-166 | for any seven texts and any file list, the archive written from them has the layout `ArchiveLayout` states |
| EggWriter.ArchiveLayout | openmdao.util/src/openmdao/util/eggwriter.py:155-166 | the archive has the seven metadata members, then one member per collected file: a permutation of `files`, in ascending order, each stored under its own path |
| EggWriter.ExplicitFilesFirst | openmdao.util/src/openmdao/util/eggwriter.py:41-71 | the explicit files come first in `files` in input order, joined to `name`; every later entry is a walked module's path ending in ".py" |
| EggWriter.WalkedMembers | openmdao.util/src/openmdao/util/eggwriter.py:48-71 | a module is collected exactly when the walk of "." finds it, or `name` is a link to a directory and the walk of `name` finds it there |
| EggWriter.WalkedOnlyModules | openmdao.util/src/openmdao/util/eggwriter.py:53-71 | both passes collect only ".py" files |
| EggWriter.SourcesText | openmdao.util/src/openmdao/util/eggwriter.py:139-141 | SOURCES.txt: the walked modules' lines and the seven self entries, sorted and joined; `SourcesListing` and `ListingMember` state its lines |
| EggWriter.SourcesListing | openmdao.util/src/openmdao/util/eggwriter.py:139-141 | SOURCES.txt joins a sorted list with one line per walked module (its path plus "\n") and one per metadata file, and nothing else |
| EggWriter.ListingMember | openmdao.util/src/openmdao/util/eggwriter.py:141 | a line is in the sorted listing exactly when it is a self entry or a walked module's line |
| EggWriter.SourcesModules | openmdao.util/src/openmdao/util/eggwriter.py:139-141 | every SOURCES.txt line other than the self entries names a ".py" file |
| EggWriter.InfoBytes | openmdao.util/src/openmdao/util/eggwriter.py:100-142 | the metadata's share of the estimate as the code adds it, with dependency_links.txt's length where entry_points.txt's belongs (line 120); `InfoBytesShort` and `SizeQuirk` state the shortfall |
| EggWriter.ByteTotal | openmdao.util/src/openmdao/util/eggwriter.py:38-142 | the estimate: explicit file sizes, walked module sizes, the prefix's length and the metadata's share; `Write` sets Zip64 from it and `Zip64Missed` states when it decides differently from the intended total |
| EggWriter.InfoBytesShort | openmdao.util/src/openmdao/util/eggwriter.py:100-142 | the metadata's share of the estimate counts dependency_links.txt in place of entry_points.txt |
| EggWriter.SizeQuirk | openmdao.util/src/openmdao/util/eggwriter.py:120 | the estimate plus entry_points.txt's length equals the every-text-once total plus dependency_links.txt's, so it falls short by `2*|name| + 2*|loader| + 139` |
| EggWriter.Zip64Missed | openmdao.util/src/openmdao/util/eggwriter.py:151 | the short count changes the Zip64 decision exactly when the limit lies between the estimate and the intended total |
| PackageWalk.Walk | openmdao.util/src/openmdao/util/eggwriter.py:48-58 | one pruned `os.walk` pass: the top directory's ".py" files, then the walks of its kept sub-directories; `WalkMembers` states what it collects and `WalkPackages` is the loop that computes it |
| PackageWalk.PruneDirs | openmdao.util/src/openmdao/util/eggwriter.py:49-52 | the pruning keeps exactly the sub-directories holding `__init__.py`, in order |
| PackageWalk.CollectModules | openmdao.util/src/openmdao/util/eggwriter.py:53-58 | the file loop appends each ".py" file's joined path, its line and its size |
| PackageWalk.WalkPackages | openmdao.util/src/openmdao/util/eggwriter.py:48-58 | one pass appends exactly the paths, lines and sizes of `Walk` |
| PackageWalk.KeptDirs | openmdao.util/src/openmdao/util/eggwriter.py:49-52 | every position kept is a sub-directory holding `__init__.py` |
| PackageWalk.KeptDirsMembers | openmdao.util/src/openmdao/util/eggwriter.py:49-52 | a position is kept exactly when it is such a sub-directory |
| PackageWalk.CollectStep | openmdao.util/src/openmdao/util/eggwriter.py:53-58 | one more listing entry adds its joined path, its line and its size exactly when it is a ".py" file, and nothing otherwise |
| PackageWalk.ModulesInSound | openmdao.util/src/openmdao/util/eggwriter.py:53-58 | every module listed for a directory is one of its ".py" files, joined to its path |
| PackageWalk.ModulesInComplete | openmdao.util/src/openmdao/util/eggwriter.py:53-58 | every ".py" file of a directory is listed, joined to its path |
| PackageWalk.ModulesInMembers | openmdao.util/src/openmdao/util/eggwriter.py:53-58 | the modules listed in a directory are exactly its ".py" files, joined to its path |
| PackageWalk.DescendMembers | openmdao.util/src/openmdao/util/eggwriter.py:48-52 | the walk below the kept sub-directories collects exactly what one of them collects |
| PackageWalk.DescendSound | openmdao.util/src/openmdao/util/eggwriter.py:48-52 | whatever the walk below the kept sub-directories collects, one of them collects |
| PackageWalk.DescendComplete | openmdao.util/src/openmdao/util/eggwriter.py:48-52 | whatever one kept sub-directory's walk collects, the walk below them all collects |
| PackageWalk.WalkMembers | openmdao.util/src/openmdao/util/eggwriter.py:48-58 | a pass collects exactly the ".py" files of the top directory and, recursively, of the kept sub-directories that are not links |
| PackageWalk.CollectsOnlyModules | openmdao.util/src/openmdao/util/eggwriter.py:54-55 | whatever a pass collects has a path ending in ".py" |
| PackageWalk.WalkOnlyModules | openmdao.util/src/openmdao/util/eggwriter.py:54-55 | every path of a pass ends in ".py" |
| PackageWalk.RootModulesCollected | openmdao.util/src/openmdao/util/eggwriter.py:48 | the top of a pass is always visited, package or not: its own ".py" files are collected |
| PackageWalk.WalkIgnoresUnentered | openmdao.util/src/openmdao/util/eggwriter.py:49-52 | replacing a directory the walk does not enter by another it would not enter leaves the pass unchanged |
| PackageWalk.ModulesInAgree | openmdao.util/src/openmdao/util/eggwriter.py:53-58 | listings that agree on their ".py" files list the same modules |
| PackageWalk.KeptDirsAgree | openmdao.util/src/openmdao/util/eggwriter.py:49-52 | listings that agree on which entries are packages keep the same positions |
| PackageWalk.DescendAgree | openmdao.util/src/openmdao/util/eggwriter.py:48-52 | directories that agree on their kept entries, up to links, descend the same way |
| PackageWalk.LinesMembers | openmdao.util/src/openmdao/util/eggwriter.py:58 | each `sources` line of the walk is a collected path followed by "\n" |
| PackageWalk.PathsIndex | openmdao.util/src/openmdao/util/eggwriter.py:56 | the i-th walked entry of `files` is the i-th collected module's path |
| PackageWalk.CollectedAppend | openmdao.util/src/openmdao/util/eggwriter.py:56-58 | the paths, lines and sizes of two consecutive runs of the walk add up |
| FileTree.Join | openmdao.util/src/openmdao/util/eggwriter.py:42 | `os.path.join` returns an absolute second part unchanged |
| FileTree.JoinEndsWith | openmdao.util/src/openmdao/util/eggwriter.py:55 | a joined path ends with its last component |
| FileTree.IsPackage | openmdao.util/src/openmdao/util/eggwriter.py:51 | a directory is a package when it has an entry named `__init__.py`; `KeptDirsMembers` states that exactly those are walked |
| FileTree.GetSize | openmdao.util/src/openmdao/util/eggwriter.py:44 | `os.path.getsize`: the size of the object the path names, None where Python raises `os.error`; `ExplicitSizesOk` and `ExplicitSizesError` state what the writer makes of it |
| FileTree.LinkedDir | openmdao.util/src/openmdao/util/eggwriter.py:60 | the second pass happens only for a symbolic link to a directory, named by a path whose last component is neither empty nor "." |
| FileTree.LinkedDirTrailingSlash | openmdao.util/src/openmdao/util/eggwriter.py:60 | a path ending in "/" never names the link, as `os.path.islink` says |
| FileTree.Child | openmdao.util/src/openmdao/util/eggwriter.py:51 | a name is found in a directory exactly when some entry has it |
| Sorting.SortStrings | openmdao.util/src/openmdao/util/eggwriter.py:141 | `sorted` gives a permutation of its input in ascending string order |
| Sorting.SortBy | openmdao.util/src/openmdao/util/eggwriter.py:129 | `sorted(key=...)` gives a permutation of its input in ascending key order |
| Sorting.SortByStable | openmdao.util/src/openmdao/util/eggwriter.py:129 | `sorted(key=...)` is stable: the elements with any given key appear in the output in their input order |
| Sorting.SortedByUnique | openmdao.util/src/openmdao/util/eggwriter.py:129 | two key-sorted arrangements of the same elements with unique keys are equal |
| Sorting.SortByOrderIndependent | openmdao.util/src/openmdao/util/eggwriter.py:129 | with unique keys, the sort depends only on the multiset of its input |
| PyStrings.LessEqTotal | openmdao.util/src/openmdao/util/eggwriter.py:165 | Python's string order is total |
| PyStrings.LessEqAntisymmetric | openmdao.util/src/openmdao/util/eggwriter.py:165 | Python's string order is antisymmetric |
| PyStrings.LessEqTransitive | openmdao.util/src/openmdao/util/eggwriter.py:165 | Python's string order is transitive |
| PyStrings.Strip | openmdao.util/src/openmdao/util/eggwriter.py:98 | `doc.strip()` is empty exactly when the doc string is all white space; otherwise it is the doc string between its first and last non-space characters |
| PyStrings.SplitUnlines | openmdao.util/src/openmdao/util/eggwriter.py:87-98 | splitting a block of newline-free lines at "\n" gives the lines back, followed by "" |

## Left out

- Logger calls (lines 145, 176, 181): they write diagnostics only.
- The zip file format, DEFLATE and the bytes actually written: an archive is
  its prefix, compression choice, Zip64 flag and ordered list of members.
  Each file member holds the contents of the file at its path, `FileContents(path)`.
- The final on-disk size check and its warning (lines 169-170): it reads the
  real file size after compression, which the model does not have.
- `write_via_setuptools` (lines 185-220) and `_write_setup_py`
  (lines 223-267): these run an external setuptools process and write its
  `setup.py`. They are not part of this model.
- `zipfile`'s normalisation of member names (it drops a leading "./" from the
  walked paths): member names are kept as `write` passes them.
- I/O errors other than a missing explicit source file, for example an
  unreadable walked file or a failure to create the egg file: the only error
  path modelled is `os.error` from `os.path.getsize` on an explicit file.
- FileTree.Lookup: absolute paths and ".." components are not resolved in
  the tree, so an explicit source file named that way is reported missing.
- EggWriter.Write: requires the working directory to be a directory, which
  `os.walk('.')` presumes.
- `os.walk`'s error handling (an unreadable directory is skipped silently) is
  not modelled: every directory of the tree can be listed.
- EggInfo.EggFilenameInjective: proved only for names and versions without
  a dash. With dashes two different pairs can share a file name, as
  setuptools' own naming allows.
