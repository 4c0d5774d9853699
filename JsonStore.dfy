/** The JSON document store: `read_json`, `write_json` and `update_json`
    over the filesystem, which the class `Disk` holds as mutable state. */
module JsonStore {
  import opened Wrappers
  import opened Json
  import opened FileSystem

  /** `update_json(patch, path)`: read the document, or start from `{}` when
      reading raises `FileNotFoundError`, shallow-merge `patch` into it and
      write it back. Any other error of the read propagates. */
  function Updated(fs: Tree, path: Path, patch: Doc): (r: Result<Tree, Error>)
    ensures r.Success? <==> path != [] && AncestorsAreDirs(fs, path, 1) && !IsDir(fs, path)
    ensures r.Failure? && !AncestorsAreDirs(fs, path, 1) ==> r.error == FileNotFound(path) || r.error == NotADirectory(path)
    ensures r.Failure? && AncestorsAreDirs(fs, path, 1) && path != [] ==> r.error == IsADirectory(path)
  {
    match Read(fs, path)
    case Success(content) => Written(fs, path, Update(content, patch))
    case Failure(e) => if e.FileNotFound? then Written(fs, path, Update(map[], patch)) else Failure(e)
  }

  /** The document `update_json` merges into: what `read_json` gives, or `{}`. */
  function Base(fs: Tree, path: Path): Doc
  {
    if Read(fs, path).Success? then Read(fs, path).value else map[]
  }

  /** `update_json` succeeds exactly when `write_json` would, and then only
      `path` changes: it holds every key of `patch` with its new value and
      every other key of the old document with its old value. */
  lemma UpdatedContents(fs: Tree, path: Path, patch: Doc)
    ensures Updated(fs, path, patch).Success? <==> Written(fs, path, patch).Success?
    ensures Updated(fs, path, patch).Success? ==>
      var t := Updated(fs, path, patch).value;
      && t == fs[path := File(Update(Base(fs, path), patch))]
      && t[path].doc.Keys == Base(fs, path).Keys + patch.Keys
      && (forall k :: k in patch ==> t[path].doc[k] == patch[k])
      && (forall k :: k in Base(fs, path) && k !in patch ==> t[path].doc[k] == Base(fs, path)[k])
  {
  }

  /** `update_json` on a path that cannot be read, in particular one with no
      file, is `write_json` of the patch: same result, same error. */
  lemma UpdateMissingIsWrite(fs: Tree, path: Path, patch: Doc)
    requires Read(fs, path).Failure?
    ensures Updated(fs, path, patch) == Written(fs, path, patch)
  {
    UpdateEmpty(patch);
    match ParentError(fs, path)
    case Some(e) =>
    case None =>
  }

  /** After a successful `update_json`, `read_json` gives the merged document. */
  lemma ReadAfterUpdate(fs: Tree, path: Path, patch: Doc)
    requires Updated(fs, path, patch).Success?
    ensures Read(Updated(fs, path, patch).value, path) == Success(Update(Base(fs, path), patch))
  {
    UpdatedContents(fs, path, patch);
    ReadAfterWrite(fs, path, Update(Base(fs, path), patch));
  }

  /** How a method's outcome and new state follow a step of the specification:
      on success the new tree and `Pass`, on failure the old tree and the error. */
  predicate Commits(before: Tree, after: Tree, r: Outcome<Error>, step: Result<Tree, Error>)
  {
    match step
    case Success(t) => r == Pass && after == t
    case Failure(e) => r == Fail(e) && after == before
  }

  /** The filesystem of the working directory. */
  class Disk {
    var fs: Tree

    constructor (fs0: Tree)
      ensures fs == fs0
    {
      fs := fs0;
    }

    /** `write_json(content, path)`. */
    method WriteJson(content: Doc, path: Path) returns (r: Outcome<Error>)
      modifies this
      ensures Commits(old(fs), fs, r, Written(old(fs), path, content))
      ensures WellFormed(old(fs)) ==> WellFormed(fs)
    {
      var step := Written(fs, path, content);
      if step.Success? {
        if WellFormed(fs) {
          WrittenWellFormed(fs, path, content);
        }
        fs := step.value;
        r := Pass;
      } else {
        r := Fail(step.error);
      }
    }

    /** `os.mkdir(path)`. */
    method Mkdir(path: Path) returns (r: Outcome<Error>)
      modifies this
      ensures Commits(old(fs), fs, r, WithDir(old(fs), path))
      ensures WellFormed(old(fs)) ==> WellFormed(fs)
    {
      var step := WithDir(fs, path);
      if step.Success? {
        if WellFormed(fs) {
          WithDirWellFormed(fs, path);
        }
        fs := step.value;
        r := Pass;
      } else {
        r := Fail(step.error);
      }
    }

    /** `update_json(newContent, path)`: read, merge in place, write back. */
    method UpdateJson(newContent: Doc, path: Path) returns (r: Outcome<Error>)
      modifies this
      ensures Commits(old(fs), fs, r, Updated(old(fs), path, newContent))
      ensures WellFormed(old(fs)) ==> WellFormed(fs)
    {
      var content: Doc;
      var read := Read(fs, path);
      if read.Success? {
        content := read.value;
      } else if read.error.FileNotFound? {
        content := map[];
      } else {
        return Fail(read.error);
      }
      content := Update(content, newContent);
      r := WriteJson(content, path);
    }
  }
}
