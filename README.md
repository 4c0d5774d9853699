# dbx project-state store and tag helpers, in Dafny

This project models the self-contained core of `dbx/utils/common.py` from the
`dbx` deployment CLI:

- the local JSON project-state store: `read_json`, `write_json` and `update_json`
  (read, overwrite, shallow merge), and the three files built on it:
  - the context lock `.dbx/lock.json` (`ContextLockFile`);
  - the per-environment deployment file (`DeploymentFile`);
  - the project info file `.dbx/project.json` (`InfoFile`: `get`, `update`, `initialize`);
- the pure string helpers: `parse_multiple` (`k=v` tokens to a dict), `generate_filter_string`
  (the tag filter for earlier deployment runs) and the `GITHUB_REF` branch of
  `get_current_branch_name`.

Layout, one module per file:

| file | module | what it holds |
|---|---|---|
| `Wrappers.dfy` | `Wrappers` | `Option`, `Result`, `Outcome` for Python's `None` and raised exceptions |
| `Json.dfy` | `Json` | JSON values, `dict.get` and the shallow `dict.update` merge |
| `Strings.dfy` | `Strings` | `str.split` on one character, `str.join`, and their round trips |
| `Tags.dfy` | `Tags` | `parse_multiple`, `generate_filter_string`, the branch name |
| `FileSystem.dfy` | `FileSystem` | the working directory as a tree of directories and JSON files; `open` for reading and writing, `os.mkdir`, `Path.exists` |
| `JsonStore.dfy` | `JsonStore` | `update_json`, and the class `Disk` whose methods change the tree |
| `ProjectState.dfy` | `ProjectState` | `ContextLockFile`, `DeploymentFile`, `InfoFile` |

How the model is put together:

- **The filesystem.** It is a map from paths to nodes. A path is a sequence of
  parts, as `pathlib` splits it: `.dbx/lock.json` is `[".dbx", "lock.json"]`.
  A node is a directory or a file holding a JSON object. The errors are Python's:
  - a missing parent gives `FileNotFoundError`;
  - a parent that is a file gives `NotADirectoryError`;
  - a file operation on a directory gives `IsADirectoryError`;
  - `os.mkdir` on an existing path gives `FileExistsError`.
  Parents are checked from the top down, as the operating system resolves a path.
  `Path.exists()` is true when the path is stored and all its parents are directories.
- **Readers and writers.** Operations that only read (`read_json`, `get_context`,
  `get_environment`, `InfoFile.get`) are functions of the tree. Operations that
  change it are methods of the class `Disk` or static methods taking a `Disk`,
  with `modifies`:
  - `write_json`, `os.mkdir`, `update_json`;
  - `set_context`, `update_environment`;
  - `InfoFile.update`, `InfoFile.initialize`.
  Each method's `ensures` ties its outcome and the new tree to a function of the
  old tree: `Written`, `WithDir`, `Updated`, `EnvironmentUpdated`, `Initialized`.
  The lemmas state the source's promises about those functions. Every mutating
  method also keeps a well-formed tree well formed (every stored path's parents
  are directories).
- **A Python dict of strings** (tags) is a sequence of pairs in insertion order.
  `parse_multiple`'s dict comprehension keeps a key where it first appeared and
  gives it the last value. `generate_filter_string` emits tag clauses in that
  order.
- **Things read from outside are parameters.** The current branch name, the
  `GITHUB_REF` variable (`None` when unset) and the repository's branch
  (`None` for a detached head or no repository) are passed in. So is the
  content of the bundled deployment template.

Notes on the code's behaviour:

- `read_json` (dbx/utils/common.py:38-39) opens the path, so it fails on a
  directory and on a path under a file, as well as on a missing path.
  `update_json` (common.py:49-52) swallows only `FileNotFoundError`, so
  `IsADirectoryError` and `NotADirectoryError` reach its caller.
- `content.update(new_content)` (common.py:53) is a shallow merge. Documents
  are modelled with nested objects, and a nested object under a key of the
  patch is replaced whole.
- `update_environment` (common.py:79-80) calls `.update` on whatever
  `get_environment` returned. For an absent environment that is `None`, and
  for a value that is not an object there is no dict `update`: both raise
  `AttributeError`, which the model keeps as an error outcome.

## Model

| member | source | states |
|---|---|---|
| Json.Lookup | dbx/utils/common.py:66 | `d.get(key)`: a value exactly when the key is stored, and then the stored value |
| Json.Update | dbx/utils/common.py:53 | `content.update(new_content)`: the keys are the old keys plus the new ones; every key of the patch has the patch's value; every other old key keeps its value |
| Json.UpdateIsShallow | dbx/utils/common.py:53 | when both sides hold an object under a key, the result holds the patch's object as is, and a nested key only the old object had is gone |
| Json.UpdateEmpty | dbx/utils/common.py:52-53 | merging into `{}` gives exactly the patch |
| Json.UpdateIdempotent | dbx/utils/common.py:48-54 | applying the same update twice equals applying it once |
| Json.UpdateTwice | dbx/utils/common.py:48-54 | two successive updates equal one update with the second patch merged over the first |
| Strings.Split | dbx/utils/common.py:33 | `str.split` on one character gives at least one piece, and no piece holds the separator |
| Strings.Join | dbx/utils/common.py:180 | `sep.join(parts)`; its contract is in JoinSnoc, JoinSplit and SplitJoin |
| Strings.JoinSplit | dbx/utils/common.py:33 | joining the pieces of a split with the separator gives back the string |
| Strings.SplitJoin | dbx/utils/common.py:282 | splitting a join of separator-free parts gives back the parts |
| Strings.SplitHasTwo | dbx/utils/common.py:33-34 | a split has a second piece exactly when the separator occurs |
| Strings.JoinSnoc | dbx/utils/common.py:180 | `" and ".join` of one more part appends the separator and the part |
| Strings.LastSegment | dbx/utils/common.py:282-283 | `s.split(sep)[-1]` holds no separator; LastSegmentIsSuffix fixes it as a suffix |
| Strings.LastSegmentIsSuffix | dbx/utils/common.py:282-283 | `split("/")[-1]` is a suffix without the separator; it is preceded by the separator, or it is the whole string exactly when there is none |
| Tags.Assign | dbx/utils/common.py:34 | `d[k] = v` adds one item exactly when `k` is new and otherwise keeps the size |
| Tags.AssignLookup | dbx/utils/common.py:34 | after `d[k] = v`, `k` reads `v` and every other key reads as before |
| Tags.AssignKeys | dbx/utils/common.py:34 | after `d[k] = v` a present key keeps its place and a new key goes last |
| Tags.AssignDistinct | dbx/utils/common.py:34 | `d[k] = v` keeps the keys distinct |
| Tags.EntryOfToken | dbx/utils/common.py:33-34 | a token gives an entry exactly when it holds `=`, and the entry is its first and second segment; otherwise it raises `IndexError` for that token |
| Tags.TokenParts | dbx/utils/common.py:33-34 | a token is key, `=`, value, then nothing or a dropped `=`-segment; key and value hold no `=` |
| Tags.Entries | dbx/utils/common.py:33-34 | the `(t[0], t[1])` pairs of the split tokens: one per token on success; a failure names a token without `=`; EntriesSucceed and EntriesFirstError give the rest |
| Tags.DictOf | dbx/utils/common.py:34 | the dict comprehension over the pairs: distinct keys, at most one item per pair; DictOfKeys, DictOfLastWins and DictOfOrder give keys, values and order |
| Tags.EntriesSucceed | dbx/utils/common.py:33-34 | the split tokens all yield `(t[0], t[1])` exactly when each holds `=`, one pair per token, each the token's entry |
| Tags.EntriesFirstError | dbx/utils/common.py:33-34 | the comprehension raises `IndexError` for the first token without `=` |
| Tags.DictOfKeys | dbx/utils/common.py:34 | the dict comprehension gives distinct keys, and a key is present exactly when some pair names it |
| Tags.DictOfLastWins | dbx/utils/common.py:34 | a key's value in the dict is that of the last pair naming it |
| Tags.DictOfOrder | dbx/utils/common.py:34 | the dict's keys come in the order the pairs first name them, each once |
| Tags.EntriesOfTokens | dbx/utils/common.py:33-34 | when every token holds `=`, the pairs are the tokens' keys and values, in order |
| Tags.ParseMultiple | dbx/utils/common.py:32-35 | `parse_multiple`: on success distinct keys and at most one item per token; a failure names a token without `=`; ParseMultipleSucceeds, ParseMultipleFails, ParseMultipleKeys and ParseMultipleLastWins pin it down |
| Tags.ParseMultipleSucceeds | dbx/utils/common.py:32-35 | `parse_multiple` succeeds exactly when every token holds `=` |
| Tags.ParseMultipleFails | dbx/utils/common.py:32-35 | a failing `parse_multiple` raises `IndexError` for the first token without `=` |
| Tags.ParseMultipleKeys | dbx/utils/common.py:32-35 | on success the keys are distinct, come in the order the tokens first name them, and a key is present exactly when some token names it |
| Tags.ParseMultipleLastWins | dbx/utils/common.py:32-35 | on success each key's value is the second `=`-segment of the last token with that key |
| Tags.GenerateFilterString | dbx/utils/common.py:167-181 | `generate_filter_string` with the branch name passed in; its contract is in FilterStringShape, FilterStringWithoutTags, AddTag and EmptyBranchIgnored |
| Tags.AddTag | dbx/utils/common.py:178-180 | one more tag appends exactly `" and "` and its clause `tags.k="v"` to the filter string |
| Tags.FilterStringWithoutTags | dbx/utils/common.py:168-176 | without tags the filter is the environment, status and deploy clauses, plus the branch clause only for a non-empty branch name |
| Tags.FilterStringShape | dbx/utils/common.py:167-181 | the filter string is the three fixed clauses, then the branch clause if the branch name is non-empty, then one clause per tag in order, joined by `" and "` |
| Tags.EmptyBranchIgnored | dbx/utils/common.py:175-176 | an empty branch name gives the same filter as no branch name |
| Tags.CurrentBranchName | dbx/utils/common.py:280-286 | with `GITHUB_REF` set, a branch name with no `/` no longer than the variable; otherwise the repository's answer; BranchFromRef fixes it as the last segment |
| Tags.BranchFromRef | dbx/utils/common.py:281-283 | with `GITHUB_REF` set, the branch name is its last `/`-segment, characterised as a suffix |
| Tags.BranchOfHeadsRef | dbx/utils/common.py:281-283 | `GITHUB_REF=refs/heads/main` gives `main` |
| FileSystem.AncestorError | dbx/utils/common.py:39 | resolving a path's parents fails exactly when one is missing or a file |
| FileSystem.Read | dbx/utils/common.py:38-40 | `read_json` succeeds exactly on a stored file whose parents are directories, and returns its document; a bad parent raises `FileNotFoundError` or `NotADirectoryError`, a missing path `FileNotFoundError`, a directory `IsADirectoryError` |
| FileSystem.Written | dbx/utils/common.py:43-45 | `write_json` succeeds exactly when the parents are directories and the path is not a directory; then only the path changes, to the document; a bad parent raises `FileNotFoundError` or `NotADirectoryError`, a directory `IsADirectoryError` |
| FileSystem.WithDir | dbx/utils/common.py:90 | `os.mkdir` succeeds exactly on an absent path whose parents are directories, and adds that directory; a bad parent raises `FileNotFoundError` or `NotADirectoryError`, an existing path `FileExistsError` |
| FileSystem.Exists | dbx/utils/common.py:65 | `Path.exists()`: the path is stored and resolves; ExistsInWellFormed reduces it to membership in a well-formed tree |
| FileSystem.ReadAfterWrite | dbx/utils/common.py:38-45 | `read_json` right after `write_json` gives the written document |
| FileSystem.ReadFrame | dbx/utils/common.py:43-45 | writing a file changes what `read_json` gives only at that path and below it |
| FileSystem.WrittenWellFormed | dbx/utils/common.py:43-45 | writing a file keeps every stored path's parents directories |
| FileSystem.WithDirWellFormed | dbx/utils/common.py:90 | making a directory keeps every stored path's parents directories |
| FileSystem.ExistsInWellFormed | dbx/utils/common.py:65 | in a well-formed tree `exists()` is membership |
| JsonStore.Updated | dbx/utils/common.py:48-54 | `update_json` succeeds exactly when the parents are directories and the path is not a directory; a failure is the parents' error or `IsADirectoryError`; UpdatedContents gives the new tree |
| JsonStore.UpdatedContents | dbx/utils/common.py:48-54 | `update_json` succeeds exactly when `write_json` would; the file then holds the old document (or `{}`) shallow-merged with the patch, and nothing else changes |
| JsonStore.UpdateMissingIsWrite | dbx/utils/common.py:49-52 | on a path with no readable file, `update_json` is `write_json`, with the same result or error |
| JsonStore.ReadAfterUpdate | dbx/utils/common.py:48-54 | after `update_json`, `read_json` gives the merged document |
| JsonStore.Disk.WriteJson | dbx/utils/common.py:43-45 | the new tree and outcome are those of `Written`; well-formedness is kept |
| JsonStore.Disk.Mkdir | dbx/utils/common.py:90 | the new tree and outcome are those of `WithDir`; well-formedness is kept |
| JsonStore.Disk.UpdateJson | dbx/utils/common.py:48-54 | read or start from `{}` on `FileNotFoundError`, merge, write back: the new tree and outcome are those of `Updated` |
| ProjectState.ContextLockFile.GetContext | dbx/utils/common.py:64-68 | `get_context`: `None` without a lock file, `IsADirectoryError` for a directory, otherwise the stored `context_id` or `None` |
| ProjectState.ContextLockFile.SetContext | dbx/utils/common.py:60-61 | the lock file is shallow-updated with `{"context_id": id}` |
| ProjectState.ContextLockFile.NoLockNoContext | dbx/utils/common.py:64-68 | without a lock file `get_context` returns `None` |
| ProjectState.ContextLockFile.SetContextSucceeds | dbx/utils/common.py:60-61 | `set_context` succeeds exactly when `.dbx` is a directory and the lock path is not one |
| ProjectState.ContextLockFile.SetThenGet | dbx/utils/common.py:60-68 | after `set_context(id)`, `get_context` returns `id`; other keys of the lock file are kept and no other file changes |
| ProjectState.DeploymentFile.constructor | dbx/utils/common.py:72-73 | the deployment file remembers its path |
| ProjectState.DeploymentFile.GetEnvironment | dbx/utils/common.py:75-76 | `get_environment` succeeds exactly when the file reads, and gives the environment's blob or `None` |
| ProjectState.DeploymentFile.EnvironmentUpdated | dbx/utils/common.py:78-81 | `update_environment` as a step on the tree; its contract is in UpdateEnvironmentOutcome and UpdateEnvironmentEffect |
| ProjectState.DeploymentFile.UpdateEnvironment | dbx/utils/common.py:78-81 | the new tree and outcome are those of `EnvironmentUpdated` |
| ProjectState.DeploymentFile.UpdateEnvironmentOutcome | dbx/utils/common.py:75-81 | succeeds exactly when the file reads and holds an object under the environment; a failed read propagates (`FileNotFoundError` for a missing file); an absent environment raises `AttributeError` |
| ProjectState.DeploymentFile.UpdateEnvironmentEffect | dbx/utils/common.py:78-81 | the environment's blob becomes the old blob shallow-merged with the content; other environments and other files are unchanged |
| ProjectState.MakeDirStepFacts | dbx/utils/common.py:86-90 | creating the directory when absent never fails; a file already there is left in place |
| ProjectState.CreateFileStepFacts | dbx/utils/common.py:92-103 | creating a file when absent succeeds exactly when its directory is a directory; an existing one is left as it is |
| ProjectState.WriteStepFacts | dbx/utils/common.py:113 | writing a file one level down succeeds exactly when its directory is a directory and the path is not one; then only that path changes, and a failure changes nothing |
| ProjectState.InfoFile.Initialized | dbx/utils/common.py:105-113 | `initialize` as steps on the tree; its contract is in InitializeSucceeds, InitializeEffect and InitializeIdempotent |
| ProjectState.InfoFile.MakeDirIfAbsent | dbx/utils/common.py:86-90 | `if not exists: os.mkdir`: the new tree and outcome are those of `MakeDirStep` |
| ProjectState.InfoFile.CreateFileIfAbsent | dbx/utils/common.py:92-103 | `if not exists: <create the file>`: the new tree and outcome are those of `CreateFileStep` |
| ProjectState.InfoFile.Initialize | dbx/utils/common.py:105-113 | the new tree and outcome are those of `Initialized`, step by step, partial effects of a failed step included |
| ProjectState.InfoFile.InitializeSucceeds | dbx/utils/common.py:86-113 | `initialize` completes exactly when `.dbx` and `conf` are not files and the project file path is not a directory |
| ProjectState.InfoFile.InitializeEffect | dbx/utils/common.py:105-113 | the project file becomes `{"environments": {}}` whatever it held; an existing lock or deployment file is untouched, a missing one holds `{}` or the template; nothing else changes |
| ProjectState.InfoFile.InitializeIdempotent | dbx/utils/common.py:105-113 | a second `initialize` right after a successful one changes nothing |
| ProjectState.InfoFile.GetAfterInitialize | dbx/utils/common.py:112-123 | after `initialize`, `get("environments")` is `{}` and every other key is `None` |
| ProjectState.InfoFile.GetUnconfigured | dbx/utils/common.py:120-122 | without the project file `get` raises the "not yet configured" error |
| ProjectState.InfoFile.Get | dbx/utils/common.py:120-123 | `get` raises the not-configured error exactly when the project file does not exist, `IsADirectoryError` for a directory, otherwise the item or `None` |
| ProjectState.InfoFile.Update | dbx/utils/common.py:116-117 | the project file is shallow-updated with the content |
| ProjectState.InfoFile.UpdateThenGet | dbx/utils/common.py:116-123 | after `update(content)` each key of `content` reads its new value, every other key its old value |

## Left out

- A JSON `null` stored under a key reads as `Some(JNull)`, an absent key as `None`; Python's `.get` returns `None` for both, so `Some(JNull)` and `None` both stand for Python's `None` in `GetContext`, `GetEnvironment`, `InfoFile.Get` and `Json.Lookup`.
- `prepare_environment` and `_prepare_workspace_dir`: credential providers, REST client construction, workspace `mkdirs` and mlflow tracking are library and network calls.
- `ApiV1Client`: HTTP queries and the `@retry` decorator with blocking sleeps; its transport and timing cannot be stated without the library.
- `FileUploader`: DBFS status calls, mlflow artifact upload, its broad `except` and its retry.
- `handle_package` and `get_package_file`: the setuptools sandbox build and directory globbing.
- `dbx_echo` (wall clock and console output), and the `click` option decorators `environment_option` and `profile_option`.
- The git half of `get_current_branch_name` (GitPython repository state): its answer is the parameter `repositoryBranch`.
- The JSON text format: `json.dump` with `indent=4`, parsing, malformed files, and files whose top level is not an object. A file holds a document. The lock file's `"{}"` text is the empty document.
- JSON floating-point numbers: numbers are integers.
- The location of the bundled deployment template (`pkg_resources`) and the byte copy of `shutil.copy`: the template's document is the parameter `template`.
- Path normalisation (`.`, `..`, repeated or trailing `/`, absolute paths), symbolic links and permissions: paths are relative sequences of parts.
- Concurrent processes racing on the files: every operation is atomic in the model.
