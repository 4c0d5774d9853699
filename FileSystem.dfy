/** The local filesystem the project-state files live in: directories and
    JSON documents under the current directory, and the errors Python's
    `open`, `os.mkdir` and `pathlib.Path.exists` give on it. */
module FileSystem {
  import opened Wrappers
  import opened Json

  /** A path relative to the current directory, as its parts: `.dbx/lock.json`
      is `[".dbx", "lock.json"]`. The empty path is the current directory. */
  type Path = seq<string>

  /** What is stored at a path. A file always holds a JSON object. */
  datatype Node = Dir | File(doc: Doc)

  type Tree = map<Path, Node>

  /** The exceptions the modelled code raises. */
  datatype Error =
    | FileNotFound(path: Path)     // FileNotFoundError: the path or one of its parents is missing
    | NotADirectory(path: Path)    // NotADirectoryError: a parent of the path is a file
    | IsADirectory(path: Path)     // IsADirectoryError: a file operation on a directory
    | FileExists(path: Path)       // FileExistsError: `os.mkdir` on a path that exists
    | NotConfigured                // the project file is missing ("project is not yet configured")
    | AttributeError(key: string)  // `.update` on what the document holds under `key` (absent or not an object)

  predicate IsDir(fs: Tree, p: Path)
  {
    p in fs && fs[p].Dir?
  }

  predicate IsFile(fs: Tree, p: Path)
  {
    p in fs && fs[p].File?
  }

  /** Every proper ancestor of `p` from the `k`-th part on is a directory. */
  ghost predicate AncestorsAreDirs(fs: Tree, p: Path, k: nat)
  {
    forall j :: k <= j < |p| ==> IsDir(fs, p[..j])
  }

  /** The error resolving the parents of `p` gives, looking at them from the
      top down starting with `p[..k]`: the first missing one (ENOENT) or the
      first that is a file (ENOTDIR); `None` when they are all directories. */
  function AncestorError(fs: Tree, p: Path, k: nat): (r: Option<Error>)
    ensures r.None? <==> AncestorsAreDirs(fs, p, k)
    ensures r.Some? ==> r.value == FileNotFound(p) || r.value == NotADirectory(p)
    decreases |p| - k
  {
    if k >= |p| then None
    else if p[..k] !in fs then Some(FileNotFound(p))
    else if fs[p[..k]].File? then Some(NotADirectory(p))
    else AncestorError(fs, p, k + 1)
  }

  /** The errors of resolving the parents of `p`, from the first part down. */
  function ParentError(fs: Tree, p: Path): Option<Error>
  {
    AncestorError(fs, p, 1)
  }

  /** `pathlib.Path(p).exists()`: the path resolves to a file or a directory. */
  predicate Exists(fs: Tree, p: Path)
  {
    p in fs && ParentError(fs, p).None?
  }

  /** A filesystem in which every stored path's parents are directories. */
  ghost predicate WellFormed(fs: Tree)
  {
    [] !in fs && forall p :: p in fs ==> AncestorsAreDirs(fs, p, 1)
  }

  /** `read_json(p)`: open `p` for reading and load the object it holds. */
  function Read(fs: Tree, p: Path): (r: Result<Doc, Error>)
    ensures r.Success? <==> p != [] && IsFile(fs, p) && AncestorsAreDirs(fs, p, 1)
    ensures r.Success? ==> r.value == fs[p].doc
    ensures !AncestorsAreDirs(fs, p, 1) ==> r.Failure? && (r.error == FileNotFound(p) || r.error == NotADirectory(p))
    ensures AncestorsAreDirs(fs, p, 1) && (p == [] || p !in fs) ==> r == Failure(FileNotFound(p))
    ensures AncestorsAreDirs(fs, p, 1) && p != [] && IsDir(fs, p) ==> r == Failure(IsADirectory(p))
  {
    match ParentError(fs, p)
    case Some(e) => Failure(e)
    case None =>
      if p == [] || p !in fs then Failure(FileNotFound(p))
      else match fs[p]
        case Dir => Failure(IsADirectory(p))
        case File(d) => Success(d)
  }

  /** Open `p` for writing and store `doc` in it: the tree afterwards, or the
      error. This is `write_json`, and also `Path.write_text("{}")` and the
      template copy, whose contents the model takes as documents. */
  function Written(fs: Tree, p: Path, doc: Doc): (r: Result<Tree, Error>)
    ensures r.Success? <==> p != [] && AncestorsAreDirs(fs, p, 1) && !IsDir(fs, p)
    ensures r.Success? ==> r.value == fs[p := File(doc)]
    ensures !AncestorsAreDirs(fs, p, 1) ==> r.Failure? && (r.error == FileNotFound(p) || r.error == NotADirectory(p))
    ensures AncestorsAreDirs(fs, p, 1) && p == [] ==> r == Failure(FileNotFound(p))
    ensures AncestorsAreDirs(fs, p, 1) && p != [] && IsDir(fs, p) ==> r == Failure(IsADirectory(p))
  {
    match ParentError(fs, p)
    case Some(e) => Failure(e)
    case None =>
      if p == [] then Failure(FileNotFound(p))
      else if IsDir(fs, p) then Failure(IsADirectory(p))
      else Success(fs[p := File(doc)])
  }

  /** `os.mkdir(p)`: the tree afterwards, or the error. */
  function WithDir(fs: Tree, p: Path): (r: Result<Tree, Error>)
    ensures r.Success? <==> p != [] && AncestorsAreDirs(fs, p, 1) && p !in fs
    ensures r.Success? ==> r.value == fs[p := Dir]
    ensures !AncestorsAreDirs(fs, p, 1) ==> r.Failure? && (r.error == FileNotFound(p) || r.error == NotADirectory(p))
    ensures AncestorsAreDirs(fs, p, 1) && p == [] ==> r == Failure(FileNotFound(p))
    ensures AncestorsAreDirs(fs, p, 1) && p != [] && p in fs ==> r == Failure(FileExists(p))
  {
    match ParentError(fs, p)
    case Some(e) => Failure(e)
    case None =>
      if p == [] then Failure(FileNotFound(p))
      else if p in fs then Failure(FileExists(p))
      else Success(fs[p := Dir])
  }

  /** What `read_json` gives back right after `write_json` is what was written. */
  lemma ReadAfterWrite(fs: Tree, p: Path, doc: Doc)
    requires Written(fs, p, doc).Success?
    ensures Read(Written(fs, p, doc).value, p) == Success(doc)
  {
    var t := Written(fs, p, doc).value;
    forall j | 1 <= j < |p| ensures IsDir(t, p[..j]) {
      assert |p[..j]| < |p|;
    }
  }

  /** Resolving the parents of `q` gives the same answer in two trees that
      agree on those parents. */
  lemma {:induction false} AncestorErrorFrame(fs: Tree, t: Tree, q: Path, k: nat)
    requires forall j :: k <= j < |q| ==> (q[..j] in fs <==> q[..j] in t)
    requires forall j :: k <= j < |q| && q[..j] in fs ==> fs[q[..j]] == t[q[..j]]
    ensures AncestorError(t, q, k) == AncestorError(fs, q, k)
    decreases |q| - k
  {
    if k < |q| {
      AncestorErrorFrame(fs, t, q, k + 1);
    }
  }

  /** Storing a file at `p` changes what `read_json` gives only at `p` and
      below it. */
  lemma ReadFrame(fs: Tree, p: Path, doc: Doc, q: Path)
    requires Written(fs, p, doc).Success?
    requires q != p && !(p < q)
    ensures Read(Written(fs, p, doc).value, q) == Read(fs, q)
  {
    var t := Written(fs, p, doc).value;
    AncestorErrorFrame(fs, t, q, 1);
  }

  /** Writing a file keeps the filesystem well formed. */
  lemma WrittenWellFormed(fs: Tree, p: Path, doc: Doc)
    requires WellFormed(fs) && Written(fs, p, doc).Success?
    ensures WellFormed(Written(fs, p, doc).value)
  {
    var t := Written(fs, p, doc).value;
    forall q | q in t ensures AncestorsAreDirs(t, q, 1) {
      forall j | 1 <= j < |q| ensures IsDir(t, q[..j]) {
        if q == p {
          assert |q[..j]| < |p|;
        } else {
          assert IsDir(fs, q[..j]);
        }
      }
    }
  }

  /** Making a directory keeps the filesystem well formed. */
  lemma WithDirWellFormed(fs: Tree, p: Path)
    requires WellFormed(fs) && WithDir(fs, p).Success?
    ensures WellFormed(WithDir(fs, p).value)
  {
    var t := WithDir(fs, p).value;
    forall q | q in t ensures AncestorsAreDirs(t, q, 1) {
      forall j | 1 <= j < |q| ensures IsDir(t, q[..j]) {
        if q == p {
          assert |q[..j]| < |p|;
        } else {
          assert IsDir(fs, q[..j]);
        }
      }
    }
  }

  /** In a well-formed filesystem `exists()` is membership in the tree. */
  lemma ExistsInWellFormed(fs: Tree, p: Path)
    requires WellFormed(fs)
    ensures Exists(fs, p) <==> p in fs
  {
  }
}
