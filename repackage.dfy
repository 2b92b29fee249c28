/**
 * Repackaging one layer archive: every file entry is moved under the target
 * folder `path.join(targetPath, layerPath)`, after a leading "python/" is
 * stripped from its path, with its bytes copied unchanged; folder entries are
 * dropped (index.js, `_repackageSingleLayer`).
 */
module Repackage {
  import opened PosixPath
  import opened Zip

  /** The folder that the Python requirements packager puts every file under. */
  const PythonPrefix: string := "python/"

  /** The entry path with one leading "python/" removed, if it has one. */
  function CleanPath(relativePath: string): (cleanPath: string)
    ensures relativePath == (if StartsWith(relativePath, PythonPrefix) then PythonPrefix else "") + cleanPath
  {
    if StartsWith(relativePath, PythonPrefix) then relativePath[|PythonPrefix|..] else relativePath
  }

  /** The folder that every file of the layer is moved under. */
  function TargetFolder(targetPath: string, layerPath: string): string
  {
    Join([targetPath, layerPath])
  }

  /** Where an entry of the original archive is written in the new one. */
  function NewPath(targetFolder: string, relativePath: string): string
  {
    Join([targetFolder, CleanPath(relativePath)])
  }

  /** A path whose segments neither climb with ".." nor are all empty or ".". */
  predicate Descends(relativePath: string)
  {
    ".." !in Split(relativePath) && Plain(Split(relativePath)) != []
  }

  // ---------------------------------------------------------------------------
  // The path rewrite
  // ---------------------------------------------------------------------------

  /** Stripping is the inverse of putting "python/" in front: exactly that
      prefix is removed, once. */
  lemma CleanPathAfterPrefix(rest: string)
    ensures CleanPath(PythonPrefix + rest) == rest
  {
    assert (PythonPrefix + rest)[..|PythonPrefix|] == PythonPrefix;
  }

  /** With no layer path the target folder is the normalised target path alone. */
  lemma TargetFolderWithoutLayerPath(targetPath: string)
    ensures TargetFolder(targetPath, "") == Join([targetPath])
    ensures TargetFolder(targetPath, "") == Normalize(targetPath)
  {
    assert Joined([targetPath, ""]) == Joined([targetPath]) by {
      assert [targetPath, ""][..1] == [targetPath];
    }
    assert Joined([targetPath]) == targetPath by {
      assert [targetPath][..0] == [];
    }
  }

  /** The new path is the single join `path.join(targetPath, layerPath,
      cleanPath)`, unless both the target path and the layer path are empty
      and the stripped path starts with '/' (the nested join then makes it
      relative). */
  lemma NewPathIsOneJoin(targetPath: string, layerPath: string, relativePath: string)
    requires targetPath != "" || layerPath != "" || !StartsWith(CleanPath(relativePath), "/")
    ensures NewPath(TargetFolder(targetPath, layerPath), relativePath) ==
            Join([targetPath, layerPath, CleanPath(relativePath)])
  {
    var parts := [targetPath, layerPath];
    assert parts[..1] == [targetPath] && [targetPath][..0] == [];
    assert Joined([targetPath]) == targetPath;
    assert Joined(parts) != "" || !StartsWith(CleanPath(relativePath), "/");
    JoinNested(parts, CleanPath(relativePath));
    assert parts + [CleanPath(relativePath)] == [targetPath, layerPath, CleanPath(relativePath)];
  }

  /** A file whose stripped path descends lands right under the target folder:
      the new path is the folder's directory prefix followed by the plain
      segments of the stripped path. */
  lemma NewPathUnderTarget(targetPath: string, layerPath: string, relativePath: string)
    requires Descends(CleanPath(relativePath))
    ensures var clean := CleanPath(relativePath);
            NewPath(TargetFolder(targetPath, layerPath), relativePath) ==
            DirPrefix(TargetFolder(targetPath, layerPath)) + JoinWith(Plain(Split(clean)))
              + (if EndsWithSlash(clean) then "/" else "")
  {
    var folder := TargetFolder(targetPath, layerPath);
    JoinIdempotent([targetPath, layerPath]);
    JoinNotEmpty([targetPath, layerPath]);
    assert [folder][..0] == [];
    assert Joined([folder]) == folder;
    assert [folder] + [CleanPath(relativePath)] == [folder, CleanPath(relativePath)];
    JoinAppend([folder], CleanPath(relativePath));
  }

  /** The property the packaging test checks for every file: the new path
      starts with the target folder, as a directory. */
  lemma NewPathStartsWithTarget(targetPath: string, layerPath: string, relativePath: string)
    requires Descends(CleanPath(relativePath))
    ensures StartsWith(NewPath(TargetFolder(targetPath, layerPath), relativePath),
                       DirPrefix(TargetFolder(targetPath, layerPath)))
  {
    NewPathUnderTarget(targetPath, layerPath, relativePath);
    var folder := TargetFolder(targetPath, layerPath);
    var p := NewPath(folder, relativePath);
    assert p[..|DirPrefix(folder)|] == DirPrefix(folder);
  }

  // ---------------------------------------------------------------------------
  // The archive rewrite
  // ---------------------------------------------------------------------------

  /** What repackaging promises of the new archive's files: every file entry
      of the original has its new path among them, and every file written is
      a file entry of the original (never a folder), at that entry's new path,
      with that entry's bytes. When two entries share a new path, which of them
      is kept is not promised. */
  ghost predicate IsRepackaging(original: Archive, targetFolder: string, files: FileTable)
  {
    && (forall i :: 0 <= i < |original| && !original[i].isDir ==>
          NewPath(targetFolder, original[i].path) in files)
    && (forall path :: path in files ==>
          exists i :: 0 <= i < |original| && !original[i].isDir &&
            NewPath(targetFolder, original[i].path) == path && original[i].content == files[path])
  }

  /** The new paths of the file entries. */
  ghost function NewPaths(original: Archive, targetFolder: string): set<string>
  {
    if original == [] then {}
    else
      (if original[0].isDir then {} else {NewPath(targetFolder, original[0].path)})
        + NewPaths(original[1..], targetFolder)
  }

  /** True when no two file entries are given the same new path. */
  ghost predicate DistinctNewPaths(original: Archive, targetFolder: string)
  {
    forall i, j :: 0 <= i < j < |original| && !original[i].isDir && !original[j].isDir ==>
      NewPath(targetFolder, original[i].path) != NewPath(targetFolder, original[j].path)
  }

  /** A path is a new path of the archive exactly when some file entry is given it. */
  lemma {:induction false} InNewPaths(original: Archive, targetFolder: string, path: string)
    ensures path in NewPaths(original, targetFolder) <==>
            exists i :: 0 <= i < |original| && !original[i].isDir && NewPath(targetFolder, original[i].path) == path
    decreases |original|
  {
    if original != [] {
      InNewPaths(original[1..], targetFolder, path);
      if exists i :: 0 <= i < |original[1..]| && !original[1..][i].isDir &&
                     NewPath(targetFolder, original[1..][i].path) == path {
        var i :| 0 <= i < |original[1..]| && !original[1..][i].isDir &&
                 NewPath(targetFolder, original[1..][i].path) == path;
        assert original[i + 1] == original[1..][i];
      }
      if exists i :: 0 <= i < |original| && !original[i].isDir && NewPath(targetFolder, original[i].path) == path {
        var i :| 0 <= i < |original| && !original[i].isDir && NewPath(targetFolder, original[i].path) == path;
        if i > 0 {
          assert original[1..][i - 1] == original[i];
        }
      }
    }
  }

  /** There are never more new paths than file entries, and exactly as many
      when the new paths are pairwise distinct. */
  lemma {:induction false} NewPathsSize(original: Archive, targetFolder: string)
    ensures |NewPaths(original, targetFolder)| <= FileCount(original)
    ensures DistinctNewPaths(original, targetFolder) ==> |NewPaths(original, targetFolder)| == FileCount(original)
    decreases |original|
  {
    if original != [] {
      var rest := original[1..];
      NewPathsSize(rest, targetFolder);
      if DistinctNewPaths(original, targetFolder) {
        assert DistinctNewPaths(rest, targetFolder) by {
          forall i, j | 0 <= i < j < |rest| && !rest[i].isDir && !rest[j].isDir
            ensures NewPath(targetFolder, rest[i].path) != NewPath(targetFolder, rest[j].path)
          {
            assert rest[i] == original[i + 1] && rest[j] == original[j + 1];
          }
        }
        if !original[0].isDir {
          var first := NewPath(targetFolder, original[0].path);
          InNewPaths(rest, targetFolder, first);
          assert first !in NewPaths(rest, targetFolder) by {
            forall i | 0 <= i < |rest| && !rest[i].isDir
              ensures NewPath(targetFolder, rest[i].path) != first
            {
              assert original[i + 1] == rest[i];
            }
          }
        }
      }
    }
  }

  /** The files of a repackaging are exactly at the new paths of the file entries. */
  lemma RepackagingPaths(original: Archive, targetFolder: string, files: FileTable)
    requires IsRepackaging(original, targetFolder, files)
    ensures files.Keys == NewPaths(original, targetFolder)
  {
    forall path ensures path in files <==> path in NewPaths(original, targetFolder) {
      InNewPaths(original, targetFolder, path);
    }
  }

  /** Nothing is invented: a repackaging never holds more files than the
      original has file entries, and holds as many when no two of them are
      given the same new path. */
  lemma RepackagingSize(original: Archive, targetFolder: string, files: FileTable)
    requires IsRepackaging(original, targetFolder, files)
    ensures |files| <= FileCount(original)
    ensures DistinctNewPaths(original, targetFolder) ==> |files| == FileCount(original)
  {
    RepackagingPaths(original, targetFolder, files);
    NewPathsSize(original, targetFolder);
  }

  /** An archive of folder entries only repackages to an empty archive. */
  lemma FoldersOnly(original: Archive, targetFolder: string, files: FileTable)
    requires IsRepackaging(original, targetFolder, files)
    requires forall i :: 0 <= i < |original| ==> original[i].isDir
    ensures files == map[]
  {
    RepackagingSize(original, targetFolder, files);
  }

  /** True when no file entry other than the i-th is given the i-th entry's new path. */
  ghost predicate AloneAtNewPath(original: Archive, targetFolder: string, i: nat)
    requires i < |original|
  {
    forall j :: 0 <= j < |original| && j != i && !original[j].isDir ==>
      NewPath(targetFolder, original[j].path) != NewPath(targetFolder, original[i].path)
  }

  /** A file entry that no other file entry collides with keeps its bytes,
      unchanged, at its new path. */
  lemma EntryContents(original: Archive, targetFolder: string, files: FileTable, i: nat)
    requires IsRepackaging(original, targetFolder, files)
    requires i < |original| && !original[i].isDir && AloneAtNewPath(original, targetFolder, i)
    ensures NewPath(targetFolder, original[i].path) in files
    ensures files[NewPath(targetFolder, original[i].path)] == original[i].content
  {
    var path := NewPath(targetFolder, original[i].path);
    var j :| 0 <= j < |original| && !original[j].isDir &&
             NewPath(targetFolder, original[j].path) == path && original[j].content == files[path];
    assert i == j;
  }

  /** Contents are intact: when no two file entries share a new path, each
      entry's bytes are found, unchanged, at its new path. */
  lemma RepackagingContents(original: Archive, targetFolder: string, files: FileTable, i: nat)
    requires IsRepackaging(original, targetFolder, files)
    requires DistinctNewPaths(original, targetFolder)
    requires i < |original| && !original[i].isDir
    ensures files[NewPath(targetFolder, original[i].path)] == original[i].content
  {
    forall j | 0 <= j < |original| && j != i && !original[j].isDir
      ensures NewPath(targetFolder, original[j].path) != NewPath(targetFolder, original[i].path)
    {
      if j < i {
        assert NewPath(targetFolder, original[j].path) != NewPath(targetFolder, original[i].path);
      }
    }
    EntryContents(original, targetFolder, files, i);
  }

  /** The repackaging is determined by the archive and the target folder: any
      two have the same paths, and, when no two file entries share a new path,
      the same bytes at each. */
  lemma RepackagingDetermined(original: Archive, targetFolder: string, files1: FileTable, files2: FileTable)
    requires IsRepackaging(original, targetFolder, files1)
    requires IsRepackaging(original, targetFolder, files2)
    ensures files1.Keys == files2.Keys
    ensures DistinctNewPaths(original, targetFolder) ==> files1 == files2
  {
    RepackagingPaths(original, targetFolder, files1);
    RepackagingPaths(original, targetFolder, files2);
    if DistinctNewPaths(original, targetFolder) {
      forall path | path in files1 ensures files1[path] == files2[path] {
        SameBytes(original, targetFolder, files1, files2, path);
      }
    }
  }

  /** Two repackagings agree on the bytes at a path of the first, when no two
      file entries share a new path. */
  lemma SameBytes(original: Archive, targetFolder: string, files1: FileTable, files2: FileTable, path: string)
    requires IsRepackaging(original, targetFolder, files1)
    requires IsRepackaging(original, targetFolder, files2)
    requires DistinctNewPaths(original, targetFolder)
    requires path in files1
    ensures path in files2 && files1[path] == files2[path]
  {
    var i :| 0 <= i < |original| && !original[i].isDir &&
             NewPath(targetFolder, original[i].path) == path && original[i].content == files1[path];
    RepackagingContents(original, targetFolder, files2, i);
  }

  /** Every file of a repackaged layer lies under the target folder, provided
      no stripped entry path climbs with "..". */
  lemma RepackagingUnderTarget(original: Archive, targetPath: string, layerPath: string, files: FileTable)
    requires IsRepackaging(original, TargetFolder(targetPath, layerPath), files)
    requires forall i :: 0 <= i < |original| && !original[i].isDir ==> Descends(CleanPath(original[i].path))
    ensures forall path :: path in files ==> StartsWith(path, DirPrefix(TargetFolder(targetPath, layerPath)))
  {
    forall path | path in files ensures StartsWith(path, DirPrefix(TargetFolder(targetPath, layerPath))) {
      var i :| 0 <= i < |original| && !original[i].isDir &&
               NewPath(TargetFolder(targetPath, layerPath), original[i].path) == path &&
               original[i].content == files[path];
      NewPathStartsWithTarget(targetPath, layerPath, original[i].path);
    }
  }

  /** `_repackageSingleLayer` on a loaded archive: the target folder is the
      target path joined with the layer path, and the entries are copied
      under it. */
  method RepackageSingleLayer(original: Archive, targetPath: string, layerPath: string := "")
    returns (files: FileTable)
    ensures IsRepackaging(original, TargetFolder(targetPath, layerPath), files)
  {
    var targetFolder := TargetFolder(targetPath, layerPath);
    files := RepackageEntries(original, targetFolder);
  }

  /** The entry loop of `_repackageSingleLayer`: every file entry of the
      original is written, under its new path, into a fresh archive. */
  method RepackageEntries(original: Archive, targetFolder: string) returns (files: FileTable)
    ensures IsRepackaging(original, targetFolder, files)
  {
    ghost var dests := NewPathList(original, targetFolder);
    files := map[];
    ghost var source: map<string, nat> := map[];
    for i := 0 to |original|
      invariant WrittenUpTo(original, dests, i, files, source)
    {
      var entry := original[i];
      if !entry.isDir {
        // strip "python/" and join the rest onto the target folder
        var newPath := NewPath(targetFolder, entry.path);
        assert newPath == dests[i];
        WrittenNext(original, dests, i, files, source);
        files := files[newPath := entry.content];
        source := source[newPath := i];
      }
    }
    WrittenAll(original, targetFolder, dests, files, source);
  }

  /** The new path of each entry, in order. */
  ghost function NewPathList(original: Archive, targetFolder: string): (dests: seq<string>)
    ensures |dests| == |original|
    ensures forall j :: 0 <= j < |original| ==> dests[j] == NewPath(targetFolder, original[j].path)
  {
    seq(|original|, j requires 0 <= j < |original| => NewPath(targetFolder, original[j].path))
  }

  /** The loop's invariant after the first n entries, with `dests` the new
      path of each entry: each file entry among them has its new path
      written, and each written path records (in `source`) the file entry it
      was last written from. */
  ghost predicate WrittenUpTo(original: Archive, dests: seq<string>, n: nat, files: FileTable, source: map<string, nat>)
  {
    && n <= |original| == |dests|
    && (forall j :: 0 <= j < n && !original[j].isDir ==> dests[j] in files)
    && files.Keys == source.Keys
    && (forall path :: path in source ==>
          source[path] < n && !original[source[path]].isDir &&
          dests[source[path]] == path && original[source[path]].content == files[path])
  }

  /** Writing the n-th entry, a file, keeps the invariant for one more entry. */
  lemma WrittenNext(original: Archive, dests: seq<string>, n: nat, files: FileTable, source: map<string, nat>)
    requires WrittenUpTo(original, dests, n, files, source)
    requires n < |original| && !original[n].isDir
    ensures WrittenUpTo(original, dests, n + 1, files[dests[n] := original[n].content], source[dests[n] := n])
  {
  }

  /** After the last entry the invariant is the specification. */
  lemma WrittenAll(original: Archive, targetFolder: string, dests: seq<string>, files: FileTable, source: map<string, nat>)
    requires WrittenUpTo(original, dests, |original|, files, source)
    requires dests == NewPathList(original, targetFolder)
    ensures IsRepackaging(original, targetFolder, files)
  {
    forall path | path in files
      ensures exists j :: 0 <= j < |original| && !original[j].isDir &&
                NewPath(targetFolder, original[j].path) == path && original[j].content == files[path]
    {
      var j := source[path];
      assert NewPath(targetFolder, original[j].path) == path && original[j].content == files[path];
    }
  }
}
