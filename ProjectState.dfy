/** The three project-state files built on the JSON store: the context lock,
    the deployment file and the project info file. */
module ProjectState {
  import opened Wrappers
  import opened Json
  import opened FileSystem
  import opened JsonStore

  const DbxPath: Path := [".dbx"]
  const InfoFilePath: Path := [".dbx", "project.json"]
  const LockFilePath: Path := [".dbx", "lock.json"]
  const ConfPath: Path := ["conf"]
  const DefaultDeploymentFilePath: Path := ["conf", "deployment.json"]

  /** The project file `initialize` writes: `{"environments": {}}`. */
  const InitialInfo: Doc := map["environments" := JObject(map[])]

  /** The context lock: `{"context_id": ...}` in `.dbx/lock.json`. */
  class ContextLockFile {

    /** `get_context()`: the stored context id, `None` when the lock file does not exist. */
    static function GetContext(fs: Tree): (r: Result<Option<Json>, Error>)
      ensures !Exists(fs, LockFilePath) ==> r == Success(None)
      ensures Exists(fs, LockFilePath) && IsDir(fs, LockFilePath) ==> r == Failure(IsADirectory(LockFilePath))
      ensures Exists(fs, LockFilePath) && IsFile(fs, LockFilePath) ==>
        r.Success? && (r.value.Some? <==> "context_id" in fs[LockFilePath].doc)
        && (r.value.Some? ==> r.value.value == fs[LockFilePath].doc["context_id"])
    {
      if !Exists(fs, LockFilePath) then Success(None)
      else
        match Read(fs, LockFilePath)
        case Failure(e) => Failure(e)
        case Success(d) => Success(Lookup(d, "context_id"))
    }

    /** `set_context(contextId)`: `update_json({"context_id": contextId}, LOCK_FILE_PATH)`. */
    static method SetContext(disk: Disk, contextId: string) returns (r: Outcome<Error>)
      modifies disk
      ensures Commits(old(disk.fs), disk.fs, r, Updated(old(disk.fs), LockFilePath, map["context_id" := JString(contextId)]))
      ensures WellFormed(old(disk.fs)) ==> WellFormed(disk.fs)
    {
      r := disk.UpdateJson(map["context_id" := JString(contextId)], LockFilePath);
    }

    /** Without a lock file there is no context. */
    static lemma NoLockNoContext(fs: Tree)
      requires !Exists(fs, LockFilePath)
      ensures GetContext(fs) == Success(None)
    {
    }

    /** Setting the context succeeds exactly when `.dbx` is a directory and the
      lock path is not one. */
    static lemma SetContextSucceeds(fs: Tree, contextId: string)
      ensures Updated(fs, LockFilePath, map["context_id" := JString(contextId)]).Success?
          <==> IsDir(fs, DbxPath) && !IsDir(fs, LockFilePath)
    {
      var patch := map["context_id" := JString(contextId)];
      UpdatedContents(fs, LockFilePath, patch);
      assert LockFilePath[..1] == DbxPath;
    }

    /** After `set_context(id)` the context read back is `id`, every other key of
      the lock file is kept, and no other file changes. */
    static lemma SetThenGet(fs: Tree, contextId: string)
      requires Updated(fs, LockFilePath, map["context_id" := JString(contextId)]).Success?
      ensures var t := Updated(fs, LockFilePath, map["context_id" := JString(contextId)]).value;
        && GetContext(t) == Success(Some(JString(contextId)))
        && (forall k :: k != "context_id" ==> Lookup(Read(t, LockFilePath).value, k) == Lookup(Base(fs, LockFilePath), k))
        && forall q :: q != LockFilePath ==> (q in t <==> q in fs) && (q in fs ==> t[q] == fs[q])
    {
      var patch := map["context_id" := JString(contextId)];
      UpdatedContents(fs, LockFilePath, patch);
      ReadAfterUpdate(fs, LockFilePath, patch);
      var t := Updated(fs, LockFilePath, patch).value;
      assert Exists(t, LockFilePath) by {
        assert Read(t, LockFilePath).Success?;
      }
    }
  }

  /** The deployment file: one JSON blob per environment name. */
  class DeploymentFile {
    const path: Path

    constructor (path: Path)
      ensures this.path == path
    {
      this.path := path;
    }

    /** `get_environment(environment)`: the blob of `environment`, or `None`. */
    function GetEnvironment(fs: Tree, environment: string): (r: Result<Option<Json>, Error>)
      ensures r.Success? <==> path != [] && IsFile(fs, path) && AncestorsAreDirs(fs, path, 1)
      ensures r.Success? ==> (r.value.Some? <==> environment in fs[path].doc)
      ensures r.Success? && r.value.Some? ==> r.value.value == fs[path].doc[environment]
    {
      match Read(fs, path)
      case Failure(e) => Failure(e)
      case Success(d) => Success(Lookup(d, environment))
    }

    /** `update_environment(environment, content)`: fetch the blob, merge
      `content` into it, and `update_json` it back under `environment`. A missing
      file fails as the read does; a missing (or non-object) blob has no `update`. */
    function EnvironmentUpdated(fs: Tree, environment: string, content: Doc): Result<Tree, Error>
    {
      match GetEnvironment(fs, environment)
      case Failure(e) => Failure(e)
      case Success(blob) =>
        if blob.Some? && blob.value.JObject? then
          Updated(fs, path, map[environment := JObject(Update(blob.value.fields, content))])
        else Failure(AttributeError(environment))
    }

    /** `update_environment(environment, content)` on the disk. */
    method UpdateEnvironment(disk: Disk, environment: string, content: Doc) returns (r: Outcome<Error>)
      modifies disk
      ensures Commits(old(disk.fs), disk.fs, r, EnvironmentUpdated(old(disk.fs), environment, content))
      ensures WellFormed(old(disk.fs)) ==> WellFormed(disk.fs)
    {
      var environmentData := GetEnvironment(disk.fs, environment);
      if environmentData.Failure? {
        return Fail(environmentData.error);
      }
      if environmentData.value.None? || !environmentData.value.value.JObject? {
        return Fail(AttributeError(environment));
      }
      var merged := Update(environmentData.value.value.fields, content);
      r := disk.UpdateJson(map[environment := JObject(merged)], path);
    }

    /** The update succeeds exactly when the file can be read and holds an
      object under `environment`; otherwise it fails with the read's error
      (`FileNotFound` for a missing file) or with `AttributeError`. */
    lemma UpdateEnvironmentOutcome(fs: Tree, environment: string, content: Doc)
      ensures EnvironmentUpdated(fs, environment, content).Success?
          <==> Read(fs, path).Success? && environment in Read(fs, path).value
               && Read(fs, path).value[environment].JObject?
      ensures Read(fs, path).Failure? ==> EnvironmentUpdated(fs, environment, content) == Failure(Read(fs, path).error)
      ensures Read(fs, path).Success? && environment !in Read(fs, path).value ==>
        EnvironmentUpdated(fs, environment, content) == Failure(AttributeError(environment))
    {
      match GetEnvironment(fs, environment)
      case Failure(e) =>
      case Success(blob) =>
        if blob.Some? && blob.value.JObject? {
          var patch := map[environment := JObject(Update(blob.value.fields, content))];
          UpdatedContents(fs, path, patch);
        }
    }

    /** After the update the environment's blob is the old blob shallow-merged
      with `content`, every other environment reads as before, and no other
      file changes. */
    lemma UpdateEnvironmentEffect(fs: Tree, environment: string, content: Doc, blob: Doc)
      requires GetEnvironment(fs, environment) == Success(Some(JObject(blob)))
      ensures EnvironmentUpdated(fs, environment, content).Success?
      ensures var t := EnvironmentUpdated(fs, environment, content).value;
        && GetEnvironment(t, environment) == Success(Some(JObject(Update(blob, content))))
        && (forall other :: other != environment ==> GetEnvironment(t, other) == GetEnvironment(fs, other))
        && forall q :: q != path ==> (q in t <==> q in fs) && (q in fs ==> t[q] == fs[q])
    {
      var patch := map[environment := JObject(Update(blob, content))];
      UpdateEnvironmentOutcome(fs, environment, content);
      UpdatedContents(fs, path, patch);
      ReadAfterUpdate(fs, path, patch);
    }
  }

  /** `initialize` with every step's outcome: `(tree, Pass)` when it ran to the
      end, or the tree as the failing step left it and that step's error. */
  function Apply(fs: Tree, step: Result<Tree, Error>): (Tree, Outcome<Error>)
  {
    match step
    case Success(t) => (t, Pass)
    case Failure(e) => (fs, Fail(e))
  }

  /** A step that runs only when its path does not exist yet. */
  function Unless(present: bool, fs: Tree, step: Result<Tree, Error>): (Tree, Outcome<Error>)
  {
    if present then (fs, Pass) else Apply(fs, step)
  }

  /** `if not exists(p): os.mkdir(p)`. */
  function MakeDirStep(fs: Tree, p: Path): (Tree, Outcome<Error>)
  {
    Unless(Exists(fs, p), fs, WithDir(fs, p))
  }

  /** `if not exists(p): <create p holding doc>`. */
  function CreateFileStep(fs: Tree, p: Path, doc: Doc): (Tree, Outcome<Error>)
  {
    Unless(Exists(fs, p), fs, Written(fs, p, doc))
  }

  /** Making a top-level directory when absent never fails; a file already
      there is left in place. */
  lemma MakeDirStepFacts(fs: Tree, p: Path)
    requires |p| == 1
    ensures MakeDirStep(fs, p) == (if p in fs then fs else fs[p := Dir], Pass)
  {
  }

  /** Creating a file one level down when absent succeeds exactly when its
      directory is a directory, and leaves an existing file as it is. */
  lemma CreateFileStepFacts(fs: Tree, p: Path, doc: Doc)
    requires |p| == 2
    ensures CreateFileStep(fs, p, doc).1 == Pass <==> IsDir(fs, p[..1])
    ensures CreateFileStep(fs, p, doc).1 == Pass ==>
      CreateFileStep(fs, p, doc).0 == if p in fs then fs else fs[p := File(doc)]
    ensures CreateFileStep(fs, p, doc).1.Fail? ==> CreateFileStep(fs, p, doc).0 == fs
  {
  }

  /** Writing a file one level down succeeds exactly when its directory is a
      directory and the path itself is not one. */
  lemma WriteStepFacts(fs: Tree, p: Path, doc: Doc)
    requires |p| == 2
    ensures Apply(fs, Written(fs, p, doc)).1 == Pass <==> IsDir(fs, p[..1]) && !IsDir(fs, p)
    ensures Apply(fs, Written(fs, p, doc)).0 == if Apply(fs, Written(fs, p, doc)).1 == Pass then fs[p := File(doc)] else fs
  {
  }

  /** The project info file `.dbx/project.json`. */
  class InfoFile {

    /** `get(item)`: fails when the project is not configured, otherwise the value or `None`. */
    static function Get(fs: Tree, item: string): (r: Result<Option<Json>, Error>)
      ensures r == Failure(NotConfigured) <==> !Exists(fs, InfoFilePath)
      ensures Exists(fs, InfoFilePath) && IsDir(fs, InfoFilePath) ==> r == Failure(IsADirectory(InfoFilePath))
      ensures Exists(fs, InfoFilePath) && IsFile(fs, InfoFilePath) ==>
        r.Success? && (r.value.Some? <==> item in fs[InfoFilePath].doc)
        && (r.value.Some? ==> r.value.value == fs[InfoFilePath].doc[item])
    {
      if !Exists(fs, InfoFilePath) then Failure(NotConfigured)
      else
        match Read(fs, InfoFilePath)
        case Failure(e) => Failure(e)
        case Success(d) => Success(Lookup(d, item))
    }

    /** `update(content)`: `update_json(content, INFO_FILE_PATH)`. */
    static method Update(disk: Disk, content: Doc) returns (r: Outcome<Error>)
      modifies disk
      ensures Commits(old(disk.fs), disk.fs, r, Updated(old(disk.fs), InfoFilePath, content))
      ensures WellFormed(old(disk.fs)) ==> WellFormed(disk.fs)
    {
      r := disk.UpdateJson(content, InfoFilePath);
    }

    /** `initialize()`: make `.dbx` and `conf` if absent, copy the deployment
      template if absent, create an empty lock file if absent, then always
      write `{"environments": {}}` to the project file. */
    static function Initialized(fs: Tree, template: Doc): (Tree, Outcome<Error>)
    {
      var (fs1, r1) := MakeDirStep(fs, DbxPath);
      if r1.Fail? then (fs1, r1) else
      var (fs2, r2) := MakeDirStep(fs1, ConfPath);
      if r2.Fail? then (fs2, r2) else
      var (fs3, r3) := CreateFileStep(fs2, DefaultDeploymentFilePath, template);
      if r3.Fail? then (fs3, r3) else
      var (fs4, r4) := CreateFileStep(fs3, LockFilePath, map[]);
      if r4.Fail? then (fs4, r4) else
      Apply(fs4, Written(fs4, InfoFilePath, InitialInfo))
    }

    /** `if not exists(p): os.mkdir(p)` on the disk. */
    static method MakeDirIfAbsent(disk: Disk, p: Path) returns (r: Outcome<Error>)
      modifies disk
      ensures (disk.fs, r) == MakeDirStep(old(disk.fs), p)
      ensures WellFormed(old(disk.fs)) ==> WellFormed(disk.fs)
    {
      r := Pass;
      if !Exists(disk.fs, p) {
        r := disk.Mkdir(p);
      }
    }

    /** `if not exists(p): <write doc to p>` on the disk. */
    static method CreateFileIfAbsent(disk: Disk, p: Path, doc: Doc) returns (r: Outcome<Error>)
      modifies disk
      ensures (disk.fs, r) == CreateFileStep(old(disk.fs), p, doc)
      ensures WellFormed(old(disk.fs)) ==> WellFormed(disk.fs)
    {
      r := Pass;
      if !Exists(disk.fs, p) {
        r := disk.WriteJson(doc, p);
      }
    }

    /** `initialize()` on the disk; `template` is what the bundled deployment template holds. */
    static method Initialize(disk: Disk, template: Doc) returns (r: Outcome<Error>)
      modifies disk
      ensures (disk.fs, r) == Initialized(old(disk.fs), template)
      ensures WellFormed(old(disk.fs)) ==> WellFormed(disk.fs)
    {
      r := MakeDirIfAbsent(disk, DbxPath);
      if r.Pass? {
        r := MakeDirIfAbsent(disk, ConfPath);
      }
      if r.Pass? {
        r := CreateFileIfAbsent(disk, DefaultDeploymentFilePath, template);
      }
      if r.Pass? {
        r := CreateFileIfAbsent(disk, LockFilePath, map[]);
      }
      if r.Pass? {
        r := disk.WriteJson(InitialInfo, InfoFilePath);
      }
    }

    /** `initialize` runs to the end exactly when `.dbx` and `conf` are not
      files and the project file path is not a directory. */
    static lemma InitializeSucceeds(fs: Tree, template: Doc)
      ensures Initialized(fs, template).1 == Pass
          <==> !IsFile(fs, DbxPath) && !IsFile(fs, ConfPath) && !IsDir(fs, InfoFilePath)
    {
      var (fs1, r1) := MakeDirStep(fs, DbxPath);
      MakeDirStepFacts(fs, DbxPath);
      if r1.Pass? {
        var (fs2, r2) := MakeDirStep(fs1, ConfPath);
        MakeDirStepFacts(fs1, ConfPath);
        if r2.Pass? {
          var (fs3, r3) := CreateFileStep(fs2, DefaultDeploymentFilePath, template);
          CreateFileStepFacts(fs2, DefaultDeploymentFilePath, template);
          assert DefaultDeploymentFilePath[..1] == ConfPath;
          if r3.Pass? {
            var (fs4, r4) := CreateFileStep(fs3, LockFilePath, map[]);
            CreateFileStepFacts(fs3, LockFilePath, map[]);
            assert LockFilePath[..1] == DbxPath && InfoFilePath[..1] == DbxPath;
            if r4.Pass? {
              WriteStepFacts(fs4, InfoFilePath, InitialInfo);
              assert (InfoFilePath in fs4 <==> InfoFilePath in fs)
                && (InfoFilePath in fs ==> fs4[InfoFilePath] == fs[InfoFilePath]);
            }
          }
        }
      }
    }

    /** After a successful `initialize` the project file is `{"environments": {}}`
      whatever it held before, `.dbx` and `conf` are directories, an existing
      lock file and deployment file are untouched and missing ones hold `{}`
      and the template, and no other path changes. */
    static lemma InitializeEffect(fs: Tree, template: Doc)
      requires Initialized(fs, template).1 == Pass
      ensures var t := Initialized(fs, template).0;
        && IsFile(t, InfoFilePath) && t[InfoFilePath].doc == InitialInfo
        && IsDir(t, DbxPath) && IsDir(t, ConfPath)
        && LockFilePath in t && t[LockFilePath] == (if LockFilePath in fs then fs[LockFilePath] else File(map[]))
        && DefaultDeploymentFilePath in t
        && t[DefaultDeploymentFilePath] == (if DefaultDeploymentFilePath in fs then fs[DefaultDeploymentFilePath] else File(template))
        && forall q :: q !in {DbxPath, ConfPath, DefaultDeploymentFilePath, LockFilePath, InfoFilePath} ==>
             (q in t <==> q in fs) && (q in fs ==> t[q] == fs[q])
    {
      var (fs1, r1) := MakeDirStep(fs, DbxPath);
      MakeDirStepFacts(fs, DbxPath);
      var (fs2, r2) := MakeDirStep(fs1, ConfPath);
      MakeDirStepFacts(fs1, ConfPath);
      var (fs3, r3) := CreateFileStep(fs2, DefaultDeploymentFilePath, template);
      CreateFileStepFacts(fs2, DefaultDeploymentFilePath, template);
      var (fs4, r4) := CreateFileStep(fs3, LockFilePath, map[]);
      CreateFileStepFacts(fs3, LockFilePath, map[]);
      assert r3 == Pass && r4 == Pass;
      assert DefaultDeploymentFilePath[..1] == ConfPath;
      assert Initialized(fs, template) == Apply(fs4, Written(fs4, InfoFilePath, InitialInfo));
      assert LockFilePath[..1] == DbxPath && InfoFilePath[..1] == DbxPath;
      WriteStepFacts(fs4, InfoFilePath, InitialInfo);
    }

    /** A second `initialize` right after a successful one changes nothing. */
    static lemma InitializeIdempotent(fs: Tree, template: Doc)
      requires Initialized(fs, template).1 == Pass
      ensures var t := Initialized(fs, template).0;
        Initialized(t, template) == (t, Pass)
    {
      var t := Initialized(fs, template).0;
      InitializeEffect(fs, template);
      InitializeSucceeds(t, template);
      assert LockFilePath[..1] == DbxPath && InfoFilePath[..1] == DbxPath;
      assert DefaultDeploymentFilePath[..1] == ConfPath;
      assert t[InfoFilePath := File(InitialInfo)] == t;
    }

    /** After `initialize`, `get("environments")` is the empty object and every
      other key is absent. */
    static lemma GetAfterInitialize(fs: Tree, template: Doc, item: string)
      requires Initialized(fs, template).1 == Pass
      ensures Get(Initialized(fs, template).0, item)
           == Success(if item == "environments" then Some(JObject(map[])) else None)
    {
      InitializeEffect(fs, template);
      assert InfoFilePath[..1] == DbxPath;
    }

    /** Without the project file every `get` fails with `NotConfigured`. */
    static lemma GetUnconfigured(fs: Tree, item: string)
      requires !Exists(fs, InfoFilePath)
      ensures Get(fs, item) == Failure(NotConfigured)
    {
    }

    /** After `update(content)` every key of `content` reads back with its new
      value, and every other key as it was (nothing, when there was no file). */
    static lemma UpdateThenGet(fs: Tree, content: Doc, item: string)
      requires Updated(fs, InfoFilePath, content).Success?
      ensures var t := Updated(fs, InfoFilePath, content).value;
        Get(t, item) == Success(if item in content then Some(content[item]) else Lookup(Base(fs, InfoFilePath), item))
    {
      ReadAfterUpdate(fs, InfoFilePath, content);
    }
  }
}
