/**
 * The outcome the packaging test expects (test/run-test.js): with the target
 * folder python/lib/python3.12/site-packages, every file of the repackaged
 * layer lies under that folder, and the requests package's `__init__.py`
 * is found there.
 */
module PackagingTest {
  import opened PosixPath
  import opened Zip
  import opened Repackage

  /** The folder the test expects every file of the layer under. */
  const SitePackages: string := "python/lib/python3.12/site-packages"

  /** The segments of the site-packages folder. */
  const SitePackagesSegments: seq<string> := ["python", "lib", "python3.12", "site-packages"]

  lemma SitePackagesIsCanonical()
    ensures SitePackages == JoinWith(SitePackagesSegments)
    ensures Canonical(SitePackagesSegments, true)
  {
    var segs := SitePackagesSegments;
    JoinWithFour(segs[0], segs[1], segs[2], segs[3]);
    assert segs == [segs[0], segs[1], segs[2], segs[3]];
    assert SitePackages == segs[0] + "/" + (segs[1] + "/" + (segs[2] + "/" + segs[3]));
    SitePackagesSegmentsArePlain();
    PlainFour(segs[0], segs[1], segs[2], segs[3]);
  }

  /** Each segment of the site-packages folder is a plain name. */
  lemma SitePackagesSegmentsArePlain()
    ensures forall i :: 0 <= i < |SitePackagesSegments| ==> PlainSegment(SitePackagesSegments[i])
  {
  }

  /** Four plain names form a normal segment list. */
  lemma PlainFour(a: string, b: string, c: string, d: string)
    requires PlainSegment(a) && PlainSegment(b) && PlainSegment(c) && PlainSegment(d)
    ensures Canonical([a, b, c, d], true)
  {
    var segs := [a, b, c, d];
    forall i | 0 <= i < 4 ensures PlainSegment(segs[i]) {
    }
  }

  /** Four pieces glued with '/'. */
  lemma JoinWithFour(a: string, b: string, c: string, d: string)
    ensures JoinWith([a, b, c, d]) == a + "/" + (b + "/" + (c + "/" + d))
  {
    assert [c, d][1..] == [d];
    assert JoinWith([c, d]) == c + "/" + d;
    assert [b, c, d][1..] == [c, d];
    assert JoinWith([b, c, d]) == b + "/" + JoinWith([c, d]);
    assert [a, b, c, d][1..] == [b, c, d];
  }

  /** With the site-packages folder as target path and no layer path, the
      target folder is that folder, and files go right under it. */
  lemma SitePackagesTarget()
    ensures TargetFolder(SitePackages, "") == SitePackages
    ensures DirPrefix(TargetFolder(SitePackages, "")) == SitePackages + "/"
  {
    SitePackagesIsCanonical();
    CanonicalTarget(SitePackagesSegments);
  }

  /** A target path made of normal relative segments is its own target folder. */
  lemma CanonicalTarget(segs: seq<string>)
    requires segs != [] && Canonical(segs, true)
    ensures TargetFolder(JoinWith(segs), "") == JoinWith(segs)
    ensures DirPrefix(TargetFolder(JoinWith(segs), "")) == JoinWith(segs) + "/"
  {
    var folder := JoinWith(segs);
    assert Render(false, segs, false) == folder;
    JoinWithFirst(segs);
    TargetFolderWithoutLayerPath(folder);
    assert TargetFolder(folder, "") == Normalize(folder);
    RenderIsFixed(segs, false, false);
    assert Normalize(folder) == folder;
    DirPrefixOfRender(segs, false, false);
  }

  /** Every file lands under python/lib/python3.12/site-packages/, whatever
      the layer's entries are, as long as none climbs with "..". */
  lemma AllFilesUnderSitePackages(original: Archive, files: FileTable)
    requires IsRepackaging(original, TargetFolder(SitePackages, ""), files)
    requires forall i :: 0 <= i < |original| && !original[i].isDir ==> Descends(CleanPath(original[i].path))
    ensures forall path :: path in files ==> StartsWith(path, SitePackages + "/")
  {
    SitePackagesTarget();
    RepackagingUnderTarget(original, SitePackages, "", files);
  }

  /** The requests package's `__init__.py`, packaged as
      python/requests/__init__.py, is moved to requests/__init__.py right
      under the target folder, whatever the target path. */
  lemma RequestsInitMoved(targetPath: string, entryPath: string)
    requires entryPath == "python/requests/__init__.py"
    ensures NewPath(TargetFolder(targetPath, ""), entryPath)
            == DirPrefix(TargetFolder(targetPath, "")) + "requests/__init__.py"
  {
    RequestsInitPath();
    PythonFileUnderTarget(targetPath, "requests", "__init__.py");
  }

  /** The entry's path is the "python/" prefix followed by two plain names. */
  lemma RequestsInitPath()
    ensures "python/requests/__init__.py" == PythonPrefix + ("requests" + "/" + "__init__.py")
    ensures "requests" + "/" + "__init__.py" == "requests/__init__.py"
  {
  }

  /** A file python/<dir>/<file> of the layer is moved to <dir>/<file> under
      the target folder. */
  lemma PythonFileUnderTarget(targetPath: string, dir: string, file: string)
    requires PlainSegment(dir)
    requires PlainSegment(file)
    ensures NewPath(TargetFolder(targetPath, ""), PythonPrefix + (dir + "/" + file))
            == DirPrefix(TargetFolder(targetPath, "")) + (dir + "/" + file)
  {
    var clean := dir + "/" + file;
    TwoNames(dir, file);
    CleanPathAfterPrefix(clean);
    NewPathUnderTarget(targetPath, "", PythonPrefix + clean);
    assert DirPrefix(TargetFolder(targetPath, "")) + clean + "" == DirPrefix(TargetFolder(targetPath, "")) + clean;
  }

  /** A path of two plain names splits into those names and glues back. */
  lemma TwoNames(dir: string, file: string)
    requires PlainSegment(dir)
    requires PlainSegment(file)
    ensures var p := dir + "/" + file;
            Descends(p) && !EndsWithSlash(p) && JoinWith(Plain(Split(p))) == p
  {
    var p := dir + "/" + file;
    SplitAround(dir, file);
    SplitNoSlash(dir);
    SplitNoSlash(file);
    assert Split(p) == [dir, file];
    assert [dir, file][1..] == [file];
    assert Plain([file]) == [file] + Plain([]);
    assert Plain([dir, file]) == [dir, file];
  }

  /** With that target, a repackaged layer holding python/requests/__init__.py
      has a file at the path the test reads it from. */
  lemma RequestsInitWritten(original: Archive, files: FileTable, i: nat)
    requires IsRepackaging(original, TargetFolder(SitePackages, ""), files)
    requires i < |original| && original[i] == Entry("python/requests/__init__.py", false, original[i].content)
    ensures "python/lib/python3.12/site-packages/requests/__init__.py" in files
  {
    var folder := TargetFolder(SitePackages, "");
    var path := NewPath(folder, original[i].path);
    SitePackagesTarget();
    RequestsInitMoved(SitePackages, original[i].path);
    RequestsInitUnderSitePackages();
    assert path == "python/lib/python3.12/site-packages/requests/__init__.py";
  }

  /** When no other file entry lands on the same path, the file there holds
      the entry's bytes. */
  lemma RequestsInitIntact(original: Archive, files: FileTable, i: nat)
    requires IsRepackaging(original, TargetFolder(SitePackages, ""), files)
    requires i < |original| && original[i] == Entry("python/requests/__init__.py", false, original[i].content)
    requires AloneAtNewPath(original, TargetFolder(SitePackages, ""), i)
    ensures "python/lib/python3.12/site-packages/requests/__init__.py" in files
    ensures files["python/lib/python3.12/site-packages/requests/__init__.py"] == original[i].content
  {
    var folder := TargetFolder(SitePackages, "");
    var path := NewPath(folder, original[i].path);
    RequestsInitWritten(original, files, i);
    SitePackagesTarget();
    RequestsInitMoved(SitePackages, original[i].path);
    RequestsInitUnderSitePackages();
    assert path == "python/lib/python3.12/site-packages/requests/__init__.py";
    EntryContents(original, folder, files, i);
  }

  /** The path the test reads the file from. */
  lemma RequestsInitUnderSitePackages()
    ensures SitePackages + "/" + "requests/__init__.py" == "python/lib/python3.12/site-packages/requests/__init__.py"
  {
  }
}
