/**
 * Which archives get repackaged (index.js, `repackageLayer` and
 * `_artifactFilePath`), and the driver that repackages each of them.
 */
module Layers {
  import opened PosixPath
  import opened Zip
  import opened Repackage

  datatype Option<T> = None | Some(value: T)

  datatype Result<T, E> = Ok(value: T) | Err(error: E)

  /** A layer declared by the service: its name and its `path` setting, which
      may be absent. */
  datatype Layer = Layer(name: string, path: Option<string>)

  /** One repackaging to run: the artifact file and the layer path inside the
      target folder. */
  datatype Job = Job(artifactFilePath: string, layerPath: string)

  /** The build-output folder of a service, relative to the service path. */
  const ServerlessDirName: string := ".serverless"

  /** The archive that the Python requirements packager leaves when it
      builds its own layer. */
  const PythonRequirementsZipName: string := "pythonRequirements.zip"

  /** The service's build-output folder. */
  function ServerlessDir(servicePath: string): string
  {
    Join([servicePath, ServerlessDirName])
  }

  /** Where the Python requirements archive is looked for. */
  function PythonRequirementsZip(servicePath: string): string
  {
    Join([ServerlessDir(servicePath), PythonRequirementsZipName])
  }

  /** Where the packaged archive of a declared layer lies. */
  function ArtifactFilePath(servicePath: string, layerName: string): string
  {
    Join([servicePath, ServerlessDirName, layerName + ".zip"])
  }

  /** The layer path handed on for a declared layer: its `path`, or the
      empty string when it has none (the parameter's default). */
  function LayerPathOf(layer: Layer): string
  {
    match layer.path
    case Some(p) => p
    case None => ""
  }

  /** One job per declared layer, in the order `Object.keys` lists the layers. */
  function LayerJobs(servicePath: string, layers: seq<Layer>): (jobs: seq<Job>)
    ensures |jobs| == |layers|
    ensures forall i :: 0 <= i < |layers| ==>
              jobs[i] == Job(ArtifactFilePath(servicePath, layers[i].name), LayerPathOf(layers[i]))
    decreases |layers|
  {
    if layers == [] then []
    else [Job(ArtifactFilePath(servicePath, layers[0].name), LayerPathOf(layers[0]))]
         + LayerJobs(servicePath, layers[1..])
  }

  /** The choice of what to repackage. With no declared layer, the Python
      requirements archive is repackaged with an empty layer path if it
      exists, and nothing otherwise; with declared layers, each is
      repackaged from its own archive with its own path. */
  function RepackageJobs(servicePath: string, layers: seq<Layer>, pythonRequirementsExists: bool): (jobs: seq<Job>)
    ensures layers == [] && pythonRequirementsExists ==> jobs == [Job(PythonRequirementsZip(servicePath), "")]
    ensures layers == [] && !pythonRequirementsExists ==> jobs == []
    ensures layers != [] ==> |jobs| == |layers|
    ensures layers != [] ==> forall i :: 0 <= i < |layers| ==>
              jobs[i].artifactFilePath == ArtifactFilePath(servicePath, layers[i].name) &&
              jobs[i].layerPath == LayerPathOf(layers[i])
  {
    if layers == [] then
      (if pythonRequirementsExists then [Job(PythonRequirementsZip(servicePath), "")] else [])
    else LayerJobs(servicePath, layers)
  }

  // ---------------------------------------------------------------------------
  // Where the artifacts lie
  // ---------------------------------------------------------------------------

  /** A name without '/' that is not "", "." or ".." is one plain segment. */
  lemma PlainName(name: string)
    requires PlainSegment(name)
    ensures Split(name) == [name] && Plain(Split(name)) == [name] && ".." !in Split(name)
    ensures !EndsWithSlash(name) && !StartsWith(name, "/")
  {
    SplitNoSlash(name);
    assert Plain([name]) == [name] + Plain([]);
    assert name[..1] == [name[0]];
  }

  /** The build-output folder is ".serverless" right under the service path. */
  lemma ServerlessDirShape(servicePath: string)
    ensures ServerlessDir(servicePath) == DirPrefix(Join([servicePath])) + ServerlessDirName
  {
    ServerlessDirNameIsPlain();
    NameAfter(servicePath, ServerlessDirName);
  }

  /** ".serverless" is one plain segment, starting with '.'. */
  lemma ServerlessDirNameIsPlain()
    ensures PlainSegment(ServerlessDirName)
    ensures ServerlessDirName[0] == '.' && ServerlessDirName[|ServerlessDirName| - 1] == 's'
  {
  }

  /** A plain name joined after a path lies directly under it. */
  lemma NameAfter(path: string, name: string)
    requires PlainSegment(name)
    ensures Join([path, name]) == DirPrefix(Join([path])) + name
  {
    PlainName(name);
    assert [path] + [name] == [path, name];
    JoinAppend([path], name);
    assert JoinWith([name]) == name;
  }

  /** The build-output folder is a real folder, named without a final '/'. */
  lemma ServerlessDirPrefix(servicePath: string)
    ensures DirPrefix(ServerlessDir(servicePath)) == ServerlessDir(servicePath) + "/"
  {
    ServerlessDirShape(servicePath);
    ServerlessDirNameIsPlain();
    var d := ServerlessDir(servicePath);
    assert d[|d| - 1] == 's';
  }

  /** A layer's archive is `<name>.zip` directly inside the build-output folder. */
  lemma ArtifactFilePathShape(servicePath: string, layerName: string)
    requires '/' !in layerName
    ensures ArtifactFilePath(servicePath, layerName) == ServerlessDir(servicePath) + "/" + layerName + ".zip"
  {
    var file := layerName + ".zip";
    ZipFileName(layerName);
    PlainName(file);
    var parts := [servicePath, ServerlessDirName];
    assert parts + [file] == [servicePath, ServerlessDirName, file];
    JoinAppend(parts, file);
    ServerlessDirPrefix(servicePath);
    assert JoinWith([file]) == file;
  }

  /** `<name>.zip` is one plain segment when the name has no '/'. */
  lemma ZipFileName(layerName: string)
    requires '/' !in layerName
    ensures var file := layerName + ".zip";
            PlainSegment(file)
  {
    var file := layerName + ".zip";
    assert forall k :: 0 <= k < |layerName| ==> file[k] == layerName[k];
    assert file[|layerName|..] == ".zip";
  }

  /** A file named by one plain segment, joined to the build-output folder,
      lies directly inside it. */
  lemma FileInServerlessDir(servicePath: string, file: string)
    requires PlainSegment(file)
    ensures Join([ServerlessDir(servicePath), file]) == ServerlessDir(servicePath) + "/" + file
  {
    var d := ServerlessDir(servicePath);
    PlainName(file);
    JoinIdempotent([servicePath, ServerlessDirName]);
    JoinNotEmpty([servicePath, ServerlessDirName]);
    assert [d][..0] == [];
    assert Joined([d]) == d;
    assert [d] + [file] == [d, file];
    JoinAppend([d], file);
    ServerlessDirPrefix(servicePath);
    assert JoinWith([file]) == file;
  }

  /** The name of the Python requirements archive is one plain segment, the
      name "pythonRequirements" with the ".zip" extension. */
  lemma PythonRequirementsZipNameIsPlain()
    ensures PlainSegment(PythonRequirementsZipName)
    ensures PythonRequirementsZipName == "pythonRequirements" + ".zip" && '/' !in "pythonRequirements"
  {
  }

  /** The Python requirements archive lies directly inside the build-output folder. */
  lemma PythonRequirementsZipShape(servicePath: string)
    ensures PythonRequirementsZip(servicePath) == ServerlessDir(servicePath) + "/" + PythonRequirementsZipName
  {
    PythonRequirementsZipNameIsPlain();
    FileInServerlessDir(servicePath, PythonRequirementsZipName);
  }

  /** The Python requirements archive is where a layer named
      "pythonRequirements" would have its archive. */
  lemma PythonRequirementsIsArtifact(servicePath: string)
    ensures PythonRequirementsZip(servicePath) == ArtifactFilePath(servicePath, "pythonRequirements")
  {
    PythonRequirementsZipNameIsPlain();
    PythonRequirementsZipShape(servicePath);
    ArtifactFilePathShape(servicePath, "pythonRequirements");
  }

  /** Layers with different names (without '/') have different archives. */
  lemma ArtifactFilePathInjective(servicePath: string, name1: string, name2: string)
    requires '/' !in name1 && '/' !in name2
    ensures ArtifactFilePath(servicePath, name1) == ArtifactFilePath(servicePath, name2) <==> name1 == name2
  {
    ArtifactFilePathShape(servicePath, name1);
    ArtifactFilePathShape(servicePath, name2);
    var front := ServerlessDir(servicePath) + "/";
    var p1 := front + name1 + ".zip";
    var p2 := front + name2 + ".zip";
    if p1 == p2 {
      assert |name1| == |name2|;
      assert p1[|front|..|front| + |name1|] == name1;
      assert p2[|front|..|front| + |name2|] == name2;
    }
  }

  /** With declared layers whose names are distinct and free of '/', no two
      jobs touch the same archive. */
  lemma JobsTouchDistinctArchives(servicePath: string, layers: seq<Layer>, pythonRequirementsExists: bool)
    requires forall i :: 0 <= i < |layers| ==> '/' !in layers[i].name
    requires forall i, j :: 0 <= i < j < |layers| ==> layers[i].name != layers[j].name
    ensures var jobs := RepackageJobs(servicePath, layers, pythonRequirementsExists);
            forall i, j :: 0 <= i < j < |jobs| ==> jobs[i].artifactFilePath != jobs[j].artifactFilePath
  {
    var jobs := RepackageJobs(servicePath, layers, pythonRequirementsExists);
    forall i, j | 0 <= i < j < |jobs| ensures jobs[i].artifactFilePath != jobs[j].artifactFilePath {
      ArtifactFilePathInjective(servicePath, layers[i].name, layers[j].name);
    }
  }

  // ---------------------------------------------------------------------------
  // Running the jobs
  // ---------------------------------------------------------------------------

  /** What lies on disk at an artifact path: an archive JSZip can decode, or
      bytes it cannot. */
  datatype StoredFile = ZipFile(archive: Archive) | Undecodable

  /** Why a job fails: its archive is missing, or it does not decode. */
  datatype Failure = NotFound(path: string) | CorruptArchive(path: string)

  /** Reading and decoding the archive at `path`. */
  function Load(disk: map<string, StoredFile>, path: string): (loaded: Result<Archive, Failure>)
    ensures loaded.Ok? <==> path in disk && disk[path].ZipFile?
    ensures loaded.Ok? ==> loaded.value == disk[path].archive
    ensures loaded.Err? ==> loaded.error.path == path
  {
    if path !in disk then Err(NotFound(path))
    else match disk[path]
      case ZipFile(archive) => Ok(archive)
      case Undecodable => Err(CorruptArchive(path))
  }

  /** What the first `n` jobs leave behind: every job among them whose archive
      loads has written there, and what is written at a path is the
      repackaging, with its layer path, of the archive loaded from that path
      by the job `source` names. */
  ghost predicate WrittenBy(jobs: seq<Job>, n: nat, targetPath: string, disk: map<string, StoredFile>,
                            written: map<string, FileTable>, source: map<string, nat>)
  {
    && written.Keys == source.Keys
    && (forall path :: path in source ==>
          && source[path] < n && source[path] < |jobs|
          && jobs[source[path]].artifactFilePath == path
          && Load(disk, path).Ok?
          && IsRepackaging(Load(disk, path).value, TargetFolder(targetPath, jobs[source[path]].layerPath), written[path]))
    && (forall m :: 0 <= m < n && m < |jobs| && Load(disk, jobs[m].artifactFilePath).Ok? ==>
          jobs[m].artifactFilePath in written)
  }

  /** One more job whose archive loads and is repackaged keeps WrittenBy. */
  lemma WrittenByNext(jobs: seq<Job>, k: nat, targetPath: string, disk: map<string, StoredFile>,
                      written: map<string, FileTable>, source: map<string, nat>, files: FileTable)
    requires k < |jobs| && WrittenBy(jobs, k, targetPath, disk, written, source)
    requires Load(disk, jobs[k].artifactFilePath).Ok?
    requires IsRepackaging(Load(disk, jobs[k].artifactFilePath).value, TargetFolder(targetPath, jobs[k].layerPath), files)
    ensures WrittenBy(jobs, k + 1, targetPath, disk,
                      written[jobs[k].artifactFilePath := files], source[jobs[k].artifactFilePath := k])
  {
    var p := jobs[k].artifactFilePath;
    var written', source' := written[p := files], source[p := k];
    forall path | path in source'
      ensures && source'[path] < k + 1 && source'[path] < |jobs|
              && jobs[source'[path]].artifactFilePath == path
              && Load(disk, path).Ok?
              && IsRepackaging(Load(disk, path).value, TargetFolder(targetPath, jobs[source'[path]].layerPath), written'[path])
    {
      if path != p {
        assert source'[path] == source[path] && written'[path] == written[path];
      }
    }
  }

  /** One more job whose archive does not load leaves WrittenBy as it was. */
  lemma WrittenBySkip(jobs: seq<Job>, k: nat, targetPath: string, disk: map<string, StoredFile>,
                      written: map<string, FileTable>, source: map<string, nat>)
    requires k < |jobs| && WrittenBy(jobs, k, targetPath, disk, written, source)
    requires !Load(disk, jobs[k].artifactFilePath).Ok?
    ensures WrittenBy(jobs, k + 1, targetPath, disk, written, source)
  {
  }

  /** The failure reported after the first `n` jobs: none exactly when all
      their archives load, and otherwise the error of one of them. */
  ghost predicate Reported(jobs: seq<Job>, n: nat, disk: map<string, StoredFile>, failure: Option<Failure>)
  {
    && (failure == None <==> forall m :: 0 <= m < n && m < |jobs| ==> Load(disk, jobs[m].artifactFilePath).Ok?)
    && (failure.Some? ==> exists m :: 0 <= m < n && m < |jobs| && Load(disk, jobs[m].artifactFilePath) == Err(failure.value))
  }

  /** One more job keeps Reported: a first error is reported, a later one is not. */
  lemma ReportedNext(jobs: seq<Job>, k: nat, disk: map<string, StoredFile>, failure: Option<Failure>)
    requires k < |jobs| && Reported(jobs, k, disk, failure)
    ensures var loaded := Load(disk, jobs[k].artifactFilePath);
            Reported(jobs, k + 1, disk, if loaded.Err? && failure == None then Some(loaded.error) else failure)
  {
    var loaded := Load(disk, jobs[k].artifactFilePath);
    if failure.Some? {
      var m :| 0 <= m < k && m < |jobs| && Load(disk, jobs[m].artifactFilePath) == Err(failure.value);
      assert m < k + 1;
    }
  }

  /** The jobs run side by side: each loads its archive and, when that
      works, writes the repackaged archive back to the same path. `written`
      holds, per artifact path, the files written there, and `source` names
      the job that wrote them; `failure` is an error of a job that could not
      load its archive, if there is one. Jobs do not wait for one another, so
      the loadable ones are written even when another fails. */
  method RunJobs(jobs: seq<Job>, targetPath: string, disk: map<string, StoredFile>)
    returns (written: map<string, FileTable>, failure: Option<Failure>, ghost source: map<string, nat>)
    ensures WrittenBy(jobs, |jobs|, targetPath, disk, written, source)
    ensures failure == None <==> forall k :: 0 <= k < |jobs| ==> Load(disk, jobs[k].artifactFilePath).Ok?
    ensures failure.Some? ==> exists k :: 0 <= k < |jobs| && Load(disk, jobs[k].artifactFilePath) == Err(failure.value)
  {
    written, failure, source := map[], None, map[];
    for k := 0 to |jobs|
      invariant WrittenBy(jobs, k, targetPath, disk, written, source)
      invariant Reported(jobs, k, disk, failure)
    {
      var job := jobs[k];
      var loaded := Load(disk, job.artifactFilePath);
      ReportedNext(jobs, k, disk, failure);
      match loaded
      case Ok(archive) =>
        var files := RepackageSingleLayer(archive, targetPath, job.layerPath);
        WrittenByNext(jobs, k, targetPath, disk, written, source, files);
        written := written[job.artifactFilePath := files];
        source := source[job.artifactFilePath := k];
      case Err(e) =>
        WrittenBySkip(jobs, k, targetPath, disk, written, source);
        if failure == None {
          failure := Some(e);
        }
    }
  }

  /** The plugin's hook: choose the jobs and run them. `disk` holds the files
      of the build-output folder (a symbolic link read through); the Python
      requirements archive counts as present when `disk` has it. */
  method RepackageLayer(servicePath: string, targetPath: string, layers: seq<Layer>, disk: map<string, StoredFile>)
    returns (jobs: seq<Job>, written: map<string, FileTable>, failure: Option<Failure>, ghost source: map<string, nat>)
    ensures jobs == RepackageJobs(servicePath, layers, PythonRequirementsZip(servicePath) in disk)
    ensures WrittenBy(jobs, |jobs|, targetPath, disk, written, source)
    ensures failure == None <==> forall k :: 0 <= k < |jobs| ==> Load(disk, jobs[k].artifactFilePath).Ok?
    ensures failure.Some? ==> exists k :: 0 <= k < |jobs| && Load(disk, jobs[k].artifactFilePath) == Err(failure.value)
  {
    jobs := RepackageJobs(servicePath, layers, PythonRequirementsZip(servicePath) in disk);
    written, failure, source := RunJobs(jobs, targetPath, disk);
  }
}
