# serverless-plugin-package-path, modelled in Dafny

The plugin runs before Serverless finalises packaging. It rewrites each layer
archive so that every file sits under a configured folder, `custom.packagePath.path`
(the *target path*), optionally followed by the layer's own `path`. A leading
`python/`, which serverless-python-requirements puts in front of every file,
is removed first.

This project models the plugin's logic in `index.js` and proves what it
promises:

- `posix_path.dfy` (module `PosixPath`) is Node's `path.join` on POSIX (`path.posix.join`), which the plugin calls.
  - `Joined` glues the non-empty arguments with '/'.
  - `Normalize` is `path.normalize`. It splits at '/' and folds the segments left to right like Node's `normalizeString`: empty and "." segments vanish, and ".." removes the segment before it. A ".." with nothing to remove is kept only in a relative path. A leading and a trailing '/' are kept. A relative path with no segments left becomes "." or "./".
- `zip.dfy` (module `Zip`) is the decoded archive: the entries in `forEach` order, each with its path, its folder flag and its bytes. The archive under construction is a map from path to bytes, because JSZip keys its files by name.
- `repackage.dfy` (module `Repackage`) is `_repackageSingleLayer`, whose entry loop is a method (`RepackageEntries`) filling that map.
  - The rewrite of one entry path is the function `NewPath`: strip `python/`, then `path.join(targetFolder, cleanPath)`.
  - What the loop achieves is the specification `IsRepackaging`:
    - every file entry's new path is present;
    - every file present is some file entry's new path, with that entry's bytes.
- `layers.dfy` (module `Layers`) covers the rest of `index.js`:
  - `_artifactFilePath`;
  - the choice of archives in `repackageLayer`, as a function returning jobs (artifact path, layer path);
  - a driver that loads each job's archive from a modelled disk and repackages it.
- `packaging_test.dfy` (module `PackagingTest`) states the outcomes the integration test checks, for its target folder `python/lib/python3.12/site-packages`:
  - every file lands under that folder;
  - `requests/__init__.py` is found there with its bytes.

Entries that collide on a new path overwrite each other without an error, and the repackaged archive is written straight over the original.

## Model

| member | source | states |
|---|---|---|
| Repackage.CleanPath | index.js:87-89 | the entry path is exactly "python/" followed by the clean path when it starts with "python/", and is the clean path itself otherwise |
| Repackage.CleanPathAfterPrefix | index.js:87-89 | stripping undoes putting "python/" in front: exactly that 7-character prefix is removed, once |
| Repackage.TargetFolderWithoutLayerPath | index.js:80 | with the layer path left at its default "" the target folder is `path.join(targetPath)`, the normalised target path, for every target path ("." for the empty one) |
| Repackage.NewPathIsOneJoin | index.js:80-91 | the new path equals the single join `path.join(targetPath, layerPath, cleanPath)`, except when both paths are empty and the clean path starts with '/' |
| Repackage.NewPathUnderTarget | index.js:91 | for a clean path without ".." and with a real segment, the new path is the target folder as a directory, then the plain segments of the clean path, then its trailing '/' |
| Repackage.NewPathStartsWithTarget | index.js:80-91 | such a new path starts with the target folder as a directory |
| Repackage.RepackageSingleLayer | index.js:80-103 | with the target folder `path.join(targetPath, layerPath)`, the new archive is a repackaging of the loaded one under that folder |
| Repackage.RepackageEntries | index.js:83-101 | the loop over the entries builds a repackaging: each file entry is at its new path; each file present comes from a file entry (never a folder) with that new path and those bytes |
| Repackage.RepackagingPaths | index.js:83-101 | the paths of the new archive are exactly the new paths of the file entries |
| Repackage.RepackagingSize | index.js:83-103 | the new archive never has more files than the original has file entries, and has exactly as many when no two entries share a new path |
| Repackage.FoldersOnly | index.js:84-85 | an archive of folder entries only repackages to an empty archive |
| Repackage.EntryContents | index.js:91-95 | a file entry whose new path no other file entry is given is written at that path with its bytes unchanged |
| Repackage.RepackagingContents | index.js:93-95 | when no two entries share a new path, each file entry's bytes are found unchanged at its new path |
| Repackage.RepackagingDetermined | index.js:80-91 | two repackagings of the same archive for the same target folder have the same paths, and are equal when no two entries share a new path |
| Repackage.RepackagingUnderTarget | index.js:80-91 | when every file entry's clean path has a real segment (not empty, "." or '/' only) and no ".." segment, every file of the new archive lies under the target folder, as a directory |
| Zip.FileCount | index.js:84-85 | the number of file entries is at most the number of entries, and zero exactly when every entry is a folder |
| PosixPath.JoinNested | index.js:91 | joining onto the result of a join equals one join over all the arguments, unless every earlier argument is empty and the last one starts with '/' |
| PosixPath.JoinAppend | index.js:91 | for a name with a real segment and no ".." segment, and either some non-empty earlier argument or a name not starting with '/', joining the name puts its plain segments right after the directory that the other arguments name, keeping the name's trailing '/' |
| PosixPath.JoinIdempotent | index.js:80 | joining the result of a join alone changes nothing |
| PosixPath.NormalizeIdempotent | index.js:80 | normalising a normalised path changes nothing |
| PosixPath.JoinNotEmpty | index.js:80 | `path.join` never returns the empty string |
| PosixPath.Resolve | index.js:91 | folding segments onto a normal list leaves a normal list: no empty, "." or '/' segment, ".." only at the front, and none in an absolute path |
| Layers.ArtifactFilePathShape | index.js:109-117 | for a layer name without '/', the layer's archive is `<name>.zip` directly inside the service's `.serverless` folder |
| Layers.ArtifactFilePathInjective | index.js:109-117 | layers whose names differ (and have no '/') have different archive paths |
| Layers.ServerlessDirShape | index.js:27-30 | the build-output folder is ".serverless" right under the normalised service path |
| Layers.PythonRequirementsZipShape | index.js:31 | the Python requirements archive is `pythonRequirements.zip` directly inside the build-output folder |
| Layers.PythonRequirementsIsArtifact | index.js:27-31 | the Python requirements archive is where a layer named "pythonRequirements" keeps its archive |
| Layers.LayerJobs | index.js:23-51 | one job per declared layer, in the order `Object.keys` lists the layers, on that layer's archive with that layer's path (or "" when it has none) |
| Layers.RepackageJobs | index.js:23-52 | with no declared layer, one job on `pythonRequirements.zip` with layer path "" if that file exists, and none otherwise; with declared layers, one job per layer |
| Layers.JobsTouchDistinctArchives | index.js:46-51 | with distinct layer names without '/', no two jobs use the same archive |
| Layers.Load | index.js:74-76 | loading gives the stored archive exactly when the file exists and decodes, and otherwise an error naming the path |
| Layers.RunJobs | index.js:46-52 | each job whose archive loads writes there the repackaging of that archive with its own layer path; no other path is written; the failure is none exactly when every archive loads, and otherwise the error of one that does not |
| Layers.RepackageLayer | index.js:20-53 | the jobs are exactly the archives the selection picks for the declared layers and the disk; each job whose archive loads has its repackaging written there, and the failure is none exactly when every archive loads |
| PackagingTest.SitePackagesTarget | test/run-test.js:19 | with target path `python/lib/python3.12/site-packages` and no layer path, the target folder is that path and files go right under it |
| PackagingTest.AllFilesUnderSitePackages | test/run-test.js:104-115 | with that target, every file of a repackaged layer starts with `python/lib/python3.12/site-packages/`, provided every file entry's clean path has a real segment and no ".." segment |
| PackagingTest.RequestsInitMoved | test/run-test.js:141-143 | `python/requests/__init__.py` is moved to `requests/__init__.py` right under the target folder |
| PackagingTest.RequestsInitWritten | test/run-test.js:141-143 | with that target, any repackaged layer holding `python/requests/__init__.py` has a file at `python/lib/python3.12/site-packages/requests/__init__.py` |
| PackagingTest.RequestsInitIntact | test/run-test.js:141-149 | with that target, when no other file entry of the layer lands on the same path, that file holds the original entry's bytes (otherwise either entry's bytes may be there) |

## Left out

- The replacement of a symbolic link by a real file (index.js:58-72) is left out. These are file-system effects; the modelled disk holds what a read through the link returns.
- Reading the file, decoding it with JSZip, encoding the new archive and DEFLATE level-9 compression are foreign library calls (index.js:75-76, 94-97, 119-135). The model works on decoded entries and on the map of files written.
- JSZip's `file()` also creates folder entries for the parent folders of each path it is given. These are library behaviour outside the loop's logic, so the new archive is modelled as the files the loop writes.
- The write stream in `_writeZipToFile` (index.js:119-135) is not modelled. The written archive is the result of `RunJobs`.
- The `Promise.all` fan-out over entries and layers (index.js:46, 103) is modelled as sequential loops. The order in which writes complete is not modelled.
- Repackage.IsRepackaging: when two entries share a new path, JSZip keeps one of them, and which one depends on the order in which the reads resolve. The specification therefore does not say which is kept. RepackageEntries itself keeps the later entry.
- Layers.RunJobs: when several jobs fail, `Promise.all` rejects with whichever error comes first. The model promises only that the failure is the error of some failing job.
- Layers.RunJobs: two jobs on the same archive would race. The sequential model lets the later job win. Declared layer names are distinct, and JobsTouchDistinctArchives shows that, for names without '/', their archives then differ.
- A missing `custom.packagePath` makes the source throw a TypeError (index.js:56). The model takes the target path as a parameter instead.
- A layer `path` set to `null` makes `path.join` throw. The model's `Option` covers only a path that is set and one that is absent.
- Only POSIX `path` is modelled. index.js:5 loads the platform's `path`, which on Windows is `path.win32`; it joins with `\` and treats drive letters, and is not part of this model.
- Hook registration, the provider lookup and the CLI log messages (index.js:8-21, 41) are not modelled.
- `test/run-test.js` is not modelled as a script: installing packages, running the packager and printing are left out. Only the outcomes it checks are stated, in PackagingTest.
- The sample Python handler and utilities of the test project are not part of this model.
