/** The egg's file name, its shell-script prefix and the seven EGG-INFO
    text blobs, as `egg_filename` and `write` in eggwriter.py format them.
    Every triple-quoted template is a block of lines, each ending in "\n". */
module EggInfo {
  import opened PyStrings
  import opened Sorting

  // ----- File name and eggsecutable prefix -----

  /** `sys.version[:3]`: the first three characters of the interpreter's
      version string, or all of it when it is shorter. */
  function PyTag(sysVersion: string): (tag: string)
    ensures |tag| == if |sysVersion| < 3 then |sysVersion| else 3
    ensures StartsWith(sysVersion, tag)
  {
    if |sysVersion| <= 3 then sysVersion else sysVersion[..3]
  }

  /** `egg_filename(name, version)`: "<name>-<version>-py<tag>.egg", the
      name setuptools gives the egg. */
  function EggFilename(name: string, version: string, tag: string): (r: string)
    ensures StartsWith(r, name + "-")
    ensures EndsWith(r, ".egg")
  {
    var r := name + "-" + version + "-py" + tag + ".egg";
    assert r == (name + "-") + (version + "-py" + tag + ".egg");
    r
  }

  /** Two dash-free words joined by a dash can be split back apart. */
  lemma {:induction false} DashSplit(a: string, x: string, b: string, y: string)
    requires '-' !in a && '-' !in b
    requires a + "-" + x == b + "-" + y
    ensures a == b && x == y
  {
    var s, t := a + "-" + x, b + "-" + y;
    assert s[|a|] == '-' && t[|b|] == '-';
    assert forall k :: 0 <= k < |a| ==> s[k] == a[k];
    assert forall k :: 0 <= k < |b| ==> t[k] == b[k];
    assert |a| == |b|;
    assert a == s[..|a|] && b == t[..|b|];
    assert x == s[|a| + 1..] && y == t[|b| + 1..];
  }

  /** For names and versions without a dash (setuptools' safe names), the
      egg file name determines both: two components can never share an egg
      file under the same interpreter. */
  lemma EggFilenameInjective(n1: string, v1: string, n2: string, v2: string, tag: string)
    requires '-' !in n1 && '-' !in n2 && '-' !in v1 && '-' !in v2
    requires EggFilename(n1, v1, tag) == EggFilename(n2, v2, tag)
    ensures n1 == n2 && v1 == v2
  {
    var rest1, rest2 := "py" + tag + ".egg", "py" + tag + ".egg";
    assert EggFilename(n1, v1, tag) == n1 + "-" + (v1 + "-" + rest1);
    assert EggFilename(n2, v2, tag) == n2 + "-" + (v2 + "-" + rest2);
    DashSplit(n1, v1 + "-" + rest1, n2, v2 + "-" + rest2);
    DashSplit(v1, rest1, v2, rest2);
  }

  /** The lines of the "eggsecutable" shell prefix: run as a script under
      the egg's own name, it starts the component through Python. */
  function ShPrefixLines(eggName: string, tag: string): seq<string>
  {
    [ "#!/bin/sh",
      "if [ `basename $0` = \"" + eggName + "\" ]",
      "then exec python" + tag + " -c " + Command,
      "else",
      "  echo $0 is not the correct name for this egg file.",
      "  echo Please rename it back to " + eggName + " and try again.",
      "  exec false",
      "fi" ]
  }

  /** The command line the prefix hands to the interpreter. */
  const Command: string :=
    "\"import sys, os; sys.path.insert(0, os.path.abspath('$0')); from openmdao.main.component import eggsecutable; sys.exit(eggsecutable())\" \"$@\""

  function ShPrefix(eggName: string, tag: string): string
  {
    Unlines(ShPrefixLines(eggName, tag))
  }

  /** Read line by line, the prefix is a shell script whose second line
      compares the script's name with the egg name and whose third runs the
      interpreter of the given version. */
  lemma ShPrefixEmbeds(eggName: string, tag: string)
    requires '\n' !in eggName && '\n' !in tag
    ensures |Split(ShPrefix(eggName, tag), '\n')| >= 3
    ensures Split(ShPrefix(eggName, tag), '\n')[0] == "#!/bin/sh"
    ensures Split(ShPrefix(eggName, tag), '\n')[1] == "if [ `basename $0` = \"" + eggName + "\" ]"
    ensures StartsWith(Split(ShPrefix(eggName, tag), '\n')[2], "then exec python" + tag + " -c ")
  {
    var lines := ShPrefixLines(eggName, tag);
    var head := "then exec python" + tag + " -c ";
    var rest := Unlines(lines[3..]);
    ShPrefixOneLine(eggName, tag);
    SplitFirstLines(lines);
    ExecLine(head, Command, rest);
    SplitHead(head, Command + "\n" + rest);
  }

  /** Neither of the first two lines of the prefix, nor the start of the
      third, holds a newline. */
  lemma ShPrefixOneLine(eggName: string, tag: string)
    requires '\n' !in eggName && '\n' !in tag
    ensures '\n' !in ShPrefixLines(eggName, tag)[0]
    ensures '\n' !in ShPrefixLines(eggName, tag)[1]
    ensures '\n' !in "then exec python" + tag + " -c "
    ensures ShPrefixLines(eggName, tag)[2] == ("then exec python" + tag + " -c ") + Command
  {
  }

  lemma ExecLine(head: string, command: string, rest: string)
    ensures (head + command) + "\n" + rest == head + (command + "\n" + rest)
  {
  }

  /** The first two pieces of a block of lines split at "\n" are its first
      two lines; the third starts where its third line does. */
  lemma SplitFirstLines(lines: seq<string>)
    requires |lines| >= 3 && '\n' !in lines[0] && '\n' !in lines[1]
    ensures |Split(Unlines(lines), '\n')| >= 3
    ensures Split(Unlines(lines), '\n')[0] == lines[0]
    ensures Split(Unlines(lines), '\n')[1] == lines[1]
    ensures Split(Unlines(lines), '\n')[2] == Split(lines[2] + "\n" + Unlines(lines[3..]), '\n')[0]
  {
    var rest := Unlines(lines[3..]);
    assert lines[1..][1..][1..] == lines[3..];
    assert Unlines(lines[1..][1..]) == lines[2] + "\n" + rest;
    assert Unlines(lines[1..]) == lines[1] + "\n" + Unlines(lines[1..][1..]);
    SplitAfterLine(lines[0], Unlines(lines[1..]));
    SplitAfterLine(lines[1], lines[2] + "\n" + rest);
  }

  /** The first line of `a + b` starts with `a` when `a` holds no newline. */
  lemma {:induction false} SplitHead(a: string, b: string)
    requires '\n' !in a
    ensures StartsWith(Split(a + b, '\n')[0], a)
    decreases |a|
  {
    if a != [] {
      SplitHead(a[1..], b);
      assert (a + b)[1..] == a[1..] + b;
      var first := Split(a + b, '\n')[0];
      assert first == [a[0]] + Split(a[1..] + b, '\n')[0];
      assert first[..|a|] == [a[0]] + Split(a[1..] + b, '\n')[0][..|a| - 1];
      assert a == [a[0]] + a[1..];
    }
  }

  // ----- EGG-INFO/PKG-INFO -----

  /** `name.replace('_', '-')` */
  function Dashed(name: string): (r: string)
    ensures |r| == |name|
    ensures forall i :: 0 <= i < |name| ==> r[i] == if name[i] == '_' then '-' else name[i]
    ensures '_' !in r
  {
    if name == [] then ""
    else [if name[0] == '_' then '-' else name[0]] + Dashed(name[1..])
  }

  /** The ten header keys of PKG-INFO, Metadata-Version 1.0 (PEP 241). */
  const PkgInfoKeys: seq<string> := ["Metadata-Version", "Name", "Version", "Summary", "Home-page",
    "Author", "Author-email", "License", "Description", "Platform"]

  /** The values `write` gives those keys: the name with its underscores
      dashed, the version, the stripped docstring, and UNKNOWN for the rest. */
  function PkgInfoValues(name: string, version: string, doc: string): seq<string>
  {
    ["1.0", Dashed(name), version, Strip(doc), "UNKNOWN", "UNKNOWN", "UNKNOWN", "UNKNOWN", "UNKNOWN", "UNKNOWN"]
  }

  /** One header line per key, in order. */
  function Headers(keys: seq<string>, values: seq<string>): (r: seq<string>)
    requires |keys| == |values|
    ensures |r| == |keys|
    ensures forall i :: 0 <= i < |keys| ==> r[i] == Header(keys[i], values[i])
  {
    seq(|keys|, i requires 0 <= i < |keys| => Header(keys[i], values[i]))
  }

  /** The ten header lines of PKG-INFO. */
  function PkgInfoLines(name: string, version: string, doc: string): seq<string>
  {
    Headers(PkgInfoKeys, PkgInfoValues(name, version, doc))
  }

  /** One "<key>: <value>" header line. */
  function Header(key: string, value: string): string
  {
    key + ": " + value
  }

  lemma HeaderOneLine(key: string, value: string)
    requires '\n' !in key && '\n' !in value
    ensures '\n' !in Header(key, value)
  {
    assert Header(key, value) == key + ": " + value;
  }

  lemma PkgInfoKeysOneLine()
    ensures forall i :: 0 <= i < |PkgInfoKeys| ==> '\n' !in PkgInfoKeys[i]
  {
  }

  function PkgInfo(name: string, version: string, doc: string): string
  {
    Unlines(PkgInfoLines(name, version, doc))
  }

  /** The value of the first header line "<key>: <value>" of `lines`. */
  function FieldIn(lines: seq<string>, key: string): (r: Option<string>)
    ensures r.Some? <==> exists i :: 0 <= i < |lines| && StartsWith(lines[i], key + ": ")
  {
    if lines == [] then None
    else if StartsWith(lines[0], key + ": ") then Some(lines[0][|key| + 2..])
    else
      var r := FieldIn(lines[1..], key);
      assert forall i :: 1 <= i < |lines| ==> lines[i] == lines[1..][i - 1];
      r
  }

  /** The value a reader of the metadata file finds under `key`. */
  function Field(text: string, key: string): Option<string>
  {
    FieldIn(Split(text, '\n'), key)
  }

  /** `s` does not start with `p`: they differ at position `k`. */
  lemma DiffersAt(s: string, p: string, k: nat)
    requires k < |p| && (k >= |s| || s[k] != p[k])
    ensures !StartsWith(s, p)
  {
    if |p| <= |s| {
      assert s[..|p|][k] == s[k];
    }
  }

  /** A header line carrying the key gives its value. */
  lemma FieldHere(lines: seq<string>, key: string, value: string)
    requires lines != [] && lines[0] == Header(key, value)
    ensures FieldIn(lines, key) == Some(value)
  {
    assert lines[0][..|key + ": "|] == key + ": ";
    assert lines[0][|key| + 2..] == value;
  }

  /** A line whose first character differs from the key's is passed over. */
  lemma FieldSkip(lines: seq<string>, key: string)
    requires lines != [] && key != [] && lines[0] != [] && lines[0][0] != key[0]
    ensures FieldIn(lines, key) == FieldIn(lines[1..], key)
  {
    DiffersAt(lines[0], key + ": ", 0);
  }

  /** PKG-INFO split at its line ends gives its ten header lines back. */
  lemma PkgInfoSplit(name: string, version: string, doc: string)
    requires '\n' !in name && '\n' !in version && '\n' !in Strip(doc)
    ensures Split(PkgInfo(name, version, doc), '\n') == PkgInfoLines(name, version, doc) + [""]
  {
    var lines := PkgInfoLines(name, version, doc);
    var values := PkgInfoValues(name, version, doc);
    PkgInfoKeysOneLine();
    assert '\n' !in Dashed(name) by {
      assert forall i :: 0 <= i < |Dashed(name)| ==> Dashed(name)[i] != '\n';
    }
    assert '\n' !in "UNKNOWN";
    assert forall i :: 0 <= i < |values| ==> '\n' !in values[i];
    forall i | 0 <= i < |lines| ensures '\n' !in lines[i] {
      HeaderOneLine(PkgInfoKeys[i], values[i]);
    }
    SplitUnlines(lines);
  }

  /** Header lines in the order PKG-INFO writes them give each value
      under its key. */
  lemma LeadingFields(lines: seq<string>, metadata: string, name: string, version: string, summary: string)
    requires |lines| >= 4
    requires lines[0] == Header("Metadata-Version", metadata) && lines[1] == Header("Name", name)
    requires lines[2] == Header("Version", version) && lines[3] == Header("Summary", summary)
    ensures FieldIn(lines, "Metadata-Version") == Some(metadata)
    ensures FieldIn(lines, "Name") == Some(name)
    ensures FieldIn(lines, "Version") == Some(version)
    ensures FieldIn(lines, "Summary") == Some(summary)
  {
    var from1, from2, from3 := lines[1..], lines[1..][1..], lines[1..][1..][1..];
    assert lines[0][0] == 'M' && from1[0][0] == 'N' && from2[0][0] == 'V';
    FieldHere(lines, "Metadata-Version", metadata);
    FieldSkip(lines, "Name");
    FieldHere(from1, "Name", name);
    FieldSkip(lines, "Version");
    FieldSkip(from1, "Version");
    FieldHere(from2, "Version", version);
    FieldSkip(lines, "Summary");
    FieldSkip(from1, "Summary");
    FieldSkip(from2, "Summary");
    FieldHere(from3, "Summary", summary);
  }

  /** PKG-INFO split at its line ends when only the Summary may span lines:
      the Summary header takes the docstring's first line, and its other
      lines follow as lines of their own. */
  lemma PkgInfoSplitAt(name: string, version: string, doc: string)
    requires '\n' !in name && '\n' !in version
    ensures var lines := PkgInfoLines(name, version, doc);
      var pieces := Split(Strip(doc), '\n');
      Split(PkgInfo(name, version, doc), '\n')
        == lines[..3] + [Header("Summary", pieces[0])] + pieces[1..] + lines[4..] + [""]
  {
    var lines := PkgInfoLines(name, version, doc);
    var pieces := Split(Strip(doc), '\n');
    OtherLinesOneLine(name, version, doc);
    SplitUnlinesAt(lines, 3);
    HeaderSplit("Summary", Strip(doc));
    Assoc(lines[..3], [Header("Summary", pieces[0])], pieces[1..]);
  }

  /** Every header line of PKG-INFO but the Summary is a single line. */
  lemma OtherLinesOneLine(name: string, version: string, doc: string)
    requires '\n' !in name && '\n' !in version
    ensures var lines := PkgInfoLines(name, version, doc);
      forall i :: 0 <= i < |lines| && i != 3 ==> '\n' !in lines[i]
  {
    var lines := PkgInfoLines(name, version, doc);
    var values := PkgInfoValues(name, version, doc);
    PkgInfoKeysOneLine();
    assert '\n' !in Dashed(name) by {
      assert forall i :: 0 <= i < |Dashed(name)| ==> Dashed(name)[i] != '\n';
    }
    assert '\n' !in "UNKNOWN";
    assert forall i :: 0 <= i < |values| && i != 3 ==> '\n' !in values[i];
    forall i | 0 <= i < |lines| && i != 3 ensures '\n' !in lines[i] {
      HeaderOneLine(PkgInfoKeys[i], values[i]);
    }
  }

  /** A header whose value spans lines keeps the value's first line; the
      others follow it. */
  lemma HeaderSplit(key: string, value: string)
    requires '\n' !in key
    ensures var pieces := Split(value, '\n');
      Split(Header(key, value), '\n') == [Header(key, pieces[0])] + pieces[1..]
  {
    var pieces := Split(value, '\n');
    assert '\n' !in key + ": ";
    SplitPrefix(key + ": ", value, '\n');
  }

  /** Reading PKG-INFO back gives the metadata version, the dashed name and
      the version, and as Summary the first line of the stripped docstring
      (all of it when it is a single line), provided the name and the
      version do not span lines. */
  lemma PkgInfoFields(name: string, version: string, doc: string)
    requires '\n' !in name && '\n' !in version
    ensures Field(PkgInfo(name, version, doc), "Metadata-Version") == Some("1.0")
    ensures Field(PkgInfo(name, version, doc), "Name") == Some(Dashed(name))
    ensures Field(PkgInfo(name, version, doc), "Version") == Some(version)
    ensures Field(PkgInfo(name, version, doc), "Summary") == Some(Split(Strip(doc), '\n')[0])
    ensures '\n' !in Strip(doc) ==> Field(PkgInfo(name, version, doc), "Summary") == Some(Strip(doc))
  {
    var pieces := Split(Strip(doc), '\n');
    PkgInfoReadLines(name, version, doc);
    LeadingFields(Split(PkgInfo(name, version, doc), '\n'), "1.0", Dashed(name), version, pieces[0]);
    if '\n' !in Strip(doc) {
      SplitPrefix(Strip(doc), "", '\n');
      assert Strip(doc) + "" == Strip(doc);
    }
  }

  /** The first four lines PKG-INFO reads back as. */
  lemma PkgInfoReadLines(name: string, version: string, doc: string)
    requires '\n' !in name && '\n' !in version
    ensures var read := Split(PkgInfo(name, version, doc), '\n');
      && |read| >= 4
      && read[0] == Header("Metadata-Version", "1.0")
      && read[1] == Header("Name", Dashed(name))
      && read[2] == Header("Version", version)
      && read[3] == Header("Summary", Split(Strip(doc), '\n')[0])
  {
    var lines := PkgInfoLines(name, version, doc);
    var pieces := Split(Strip(doc), '\n');
    PkgInfoSplitAt(name, version, doc);
    assert lines[0] == Header("Metadata-Version", "1.0");
    assert lines[1] == Header("Name", Dashed(name));
    assert lines[2] == Header("Version", version);
  }

  // ----- The other fixed blobs -----

  /** EGG-INFO/dependency_links.txt */
  const DependencyLinks: string := "\n"

  /** EGG-INFO/not-zip-safe */
  const NotZipSafe: string := "\n"

  /** The lines of EGG-INFO/entry_points.txt: the component's loader, the
      top-level loader and the eggsecutable entry. */
  function EntryPointsLines(name: string, loader: string): seq<string>
  {
    [ "[openmdao.components]",
      name + " = " + name + "." + loader + ":load",
      "",
      "[openmdao.top]",
      "top = " + loader + ":load",
      "",
      "[setuptools.installation]",
      "eggsecutable = openmdao.main.component:eggsecutable",
      "" ]
  }

  function EntryPoints(name: string, loader: string): string
  {
    Unlines(EntryPointsLines(name, loader))
  }

  /** The entry points text is its 140 fixed characters plus the name and
      the loader twice each: always longer than the one byte of
      dependency_links.txt. */
  lemma EntryPointsLength(name: string, loader: string)
    ensures |EntryPoints(name, loader)| == 2 * |name| + 2 * |loader| + 140
  {
    var lines := EntryPointsLines(name, loader);
    UnlinesLength(lines);
    assert SumLengths(lines[8..]) == 0;
    assert SumLengths(lines[7..]) == 51;
    assert SumLengths(lines[6..]) == 76;
    assert SumLengths(lines[5..]) == 76;
    assert SumLengths(lines[4..]) == |loader| + 87;
    assert SumLengths(lines[3..]) == |loader| + 101;
    assert SumLengths(lines[2..]) == |loader| + 101;
    assert SumLengths(lines[1..]) == 2 * |name| + 2 * |loader| + 110;
  }

  function SumLengths(lines: seq<string>): nat
  {
    if lines == [] then 0 else |lines[0]| + SumLengths(lines[1..])
  }

  lemma {:induction false} UnlinesLength(lines: seq<string>)
    ensures |Unlines(lines)| == SumLengths(lines) + |lines|
  {
    if lines != [] {
      UnlinesLength(lines[1..]);
    }
  }

  /** EGG-INFO/top_level.txt: the component's package name on one line. */
  function TopLevel(name: string): string
  {
    name + "\n"
  }

  // ----- EGG-INFO/requires.txt -----

  /** A distribution the component requires: `dist.project_name` and
      `dist.version`. */
  datatype Distribution = Distribution(projectName: string, version: string)

  function ProjectName(d: Distribution): string
  {
    d.projectName
  }

  /** One "<project> == <version>" line per distribution, in order. */
  function RequirementLines(ds: seq<Distribution>): (r: seq<string>)
    ensures |r| == |ds|
    ensures forall i :: 0 <= i < |ds| ==> r[i] == ds[i].projectName + " == " + ds[i].version
  {
    if ds == [] then [] else [ds[0].projectName + " == " + ds[0].version] + RequirementLines(ds[1..])
  }

  /** requires.txt: the requirement lines of the distributions sorted by
      project name. */
  function Requirements(ds: seq<Distribution>): string
  {
    Unlines(RequirementLines(SortBy(ds, ProjectName)))
  }

  /** The requirements loop: one line per distribution, in project-name
      order, appended to a growing string. */
  method FormatRequirements(distributions: seq<Distribution>) returns (requirements: string)
    ensures requirements == Requirements(distributions)
  {
    var sorted := SortBy(distributions, ProjectName);
    requirements := "";
    var i := 0;
    while i < |sorted|
      invariant 0 <= i <= |sorted|
      invariant requirements == Unlines(RequirementLines(sorted[..i]))
    {
      var dist := sorted[i];
      var line := dist.projectName + " == " + dist.version;
      RequirementLinesSnoc(sorted, i);
      UnlinesAppend(RequirementLines(sorted[..i]), line);
      requirements := requirements + (line + "\n");
      i := i + 1;
    }
    assert sorted[..|sorted|] == sorted;
  }

  lemma RequirementLinesSnoc(ds: seq<Distribution>, i: nat)
    requires i < |ds|
    ensures RequirementLines(ds[..i + 1]) == RequirementLines(ds[..i]) + [ds[i].projectName + " == " + ds[i].version]
  {
    var a, b := RequirementLines(ds[..i + 1]), RequirementLines(ds[..i]) + [ds[i].projectName + " == " + ds[i].version];
    assert |a| == |b|;
    forall k | 0 <= k < |a| ensures a[k] == b[k] {
      assert ds[..i + 1][k] == ds[k];
      if k < i {
        assert ds[..i][k] == ds[k];
      }
    }
  }

  /** requires.txt read back line by line lists one requirement per
      distribution, in ascending project-name order, and nothing else. */
  lemma RequirementsListing(ds: seq<Distribution>)
    requires forall i :: 0 <= i < |ds| ==> '\n' !in ds[i].projectName && '\n' !in ds[i].version
    ensures var sorted := SortBy(ds, ProjectName);
      && multiset(sorted) == multiset(ds)
      && (forall i, j :: 0 <= i < j < |sorted| ==> LessEq(sorted[i].projectName, sorted[j].projectName))
      && Split(Requirements(ds), '\n') == RequirementLines(sorted) + [""]
  {
    var sorted := SortBy(ds, ProjectName);
    var lines := RequirementLines(sorted);
    forall i | 0 <= i < |lines| ensures '\n' !in lines[i] {
      assert sorted[i] in multiset(ds);
      assert sorted[i] in ds;
    }
    SplitUnlines(lines);
  }

  /** requires.txt does not depend on the order in which the distributions
      are given, as long as no project is listed twice. */
  lemma RequirementsOrderIndependent(ds: seq<Distribution>, es: seq<Distribution>)
    requires multiset(ds) == multiset(es)
    requires KeyInjective(ds, ProjectName)
    ensures Requirements(ds) == Requirements(es)
  {
    SortByOrderIndependent(ds, es, ProjectName);
  }

  // ----- EGG-INFO/SOURCES.txt -----

  /** The names of the seven metadata files, in the order they are written. */
  const InfoNames: seq<string> := ["PKG-INFO", "dependency_links.txt", "entry_points.txt",
    "not-zip-safe", "requires.txt", "top_level.txt", "SOURCES.txt"]

  /** The line SOURCES.txt lists for one of the metadata files. */
  function SelfEntry(name: string, file: string): string
  {
    name + ".egg-info/" + file + "\n"
  }

  /** The lines SOURCES.txt lists for the metadata files themselves, one per
      file, SOURCES.txt included. */
  function SelfEntries(name: string): (r: seq<string>)
    ensures |r| == |InfoNames|
    ensures forall i :: 0 <= i < |r| ==> r[i] == SelfEntry(name, InfoNames[i])
  {
    seq(|InfoNames|, i requires 0 <= i < |InfoNames| => SelfEntry(name, InfoNames[i]))
  }

  /** The self entries as the writer appends them, one per metadata file. */
  lemma SelfEntriesAppended(lines: seq<string>, name: string)
    ensures lines + [SelfEntry(name, "PKG-INFO")] + [SelfEntry(name, "dependency_links.txt")]
      + [SelfEntry(name, "entry_points.txt")] + [SelfEntry(name, "not-zip-safe")]
      + [SelfEntry(name, "requires.txt")] + [SelfEntry(name, "top_level.txt")]
      + [SelfEntry(name, "SOURCES.txt")] == lines + SelfEntries(name)
  {
    var e := SelfEntries(name);
    assert e == [e[0], e[1], e[2], e[3], e[4], e[5], e[6]];
  }
}
