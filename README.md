# create-astro-modular, modelled in Dafny

`create-astro-modular` is a one-shot scaffolder for Astro Modular blogs
(`cli/src/index.mjs`). It works out a project name from its argument or from a
prompt. It refuses a target directory that already has entries. It downloads
the blog template into that directory and deletes the template repository's
own files (`cli`, `.github`, `.ref`, `AGENTS.md`). It then runs
`<pm> install` with the package manager that launched it, and prints the
next steps.

This project models the logic under that plumbing, with one module per
concern:

- `JsString` (`js_string.dfy`): `startsWith` and `trim`. `trim` strips the
  ECMAScript WhiteSpace and LineTerminator characters.
- `Paths` (`paths.dfy`): a path is its sequence of segments. The module gives
  `basename` and `resolve` of a one-segment name.
- `PackageManager` (`package_manager.dfy`): `detectPackageManager`, a pure
  classifier of `npm_config_user_agent`.
- `FileSystem` (`file_system.dfy`): the filesystem is a class `Disk` holding
  the set of existing paths, which is always a tree. Its members model
  `existsSync`, `readdirSync`, `isEmpty` and `rmSync`, the template extraction,
  and the cleanup loop. The loop is a `for` loop with invariants, proved
  against the specification function `Swept`. Lemmas state that cleanup
  removes every listed entry with its subtree, changes nothing else, skips
  absent entries, and is idempotent.
- `Scaffold` (`scaffold.dfy`): `main` as the method `Run` over a `Disk`. The
  prompt answer, the download outcome and the install outcome are its inputs.
  It returns a `Report` with the stages passed, the exit code, the failure,
  the download target and the commands printed. The stages form the state
  machine `Start → NameResolved → Downloaded → Cleaned → (Installed |
  InstallSkipped) → Done`, with a `Failed` exit. Lemmas show that this
  machine only moves forward and admits exactly four runs.

Two behaviours of the code are kept as written:

- A non-empty command-line name is used untrimmed, so a whitespace-only
  argument is accepted. Only a prompted answer is trimmed. See
  `Scaffold.ProjectName`.
- The `cd` hint compares basenames only. A project named after the current
  directory's own basename is announced as `cd .`, although it is a new
  sub-directory. `Scaffold.CdPathSameBasename` proves this.

## Model

| member | source | states |
|---|---|---|
| `JsString.Trim` | cli/src/index.mjs:49 | the trimmed name is no longer than the answer and neither starts nor ends with white space |
| `JsString.TrimStripsOnlyWhiteSpace` | cli/src/index.mjs:49 | the answer is the trimmed name with a blank prefix and a blank suffix around it, so trim removes white space and nothing else |
| `JsString.TrimEmptyIffBlank` | cli/src/index.mjs:49 | trimming gives "" exactly when the answer is all white space |
| `Paths.Resolve` | cli/src/index.mjs:60 | `resolve(cwd, name)` is the working directory itself exactly for ".", otherwise its entry whose basename is the name |
| `PackageManager.UserAgent` | cli/src/index.mjs:24 | the user agent read is "" exactly when the variable is unset or empty, and the variable's value otherwise |
| `PackageManager.Detect` | cli/src/index.mjs:23-29 | the manager is pnpm, yarn or bun exactly when the user agent starts with that name, and npm exactly when it starts with none of them |
| `PackageManager.DetectedNameStartsUserAgent` | cli/src/index.mjs:23-29 | a detected manager other than npm has its own name as a prefix of the user agent; npm is returned only when no other manager's name is one |
| `PackageManager.AbsentMeansNpm` | cli/src/index.mjs:24 | an unset and an empty `npm_config_user_agent` both give npm |
| `FileSystem.Disk.Exists` | cli/src/index.mjs:32 | `existsSync(p)` holds exactly when `p` exists, and then every ancestor of `p` exists too |
| `FileSystem.Disk.ReadDir` | cli/src/index.mjs:33 | `readdirSync(dir)` lists exactly the names `n` for which `dir/n` exists |
| `FileSystem.Disk.IsEmpty` | cli/src/index.mjs:31-35 | `isEmpty(dir)` holds when `dir` is absent or has zero entries, which in a tree means nothing lies beneath it |
| `FileSystem.Disk.Remove` | cli/src/index.mjs:86 | `rmSync(target, {recursive, force})` removes the target and its subtree and keeps the tree well formed |
| `FileSystem.Disk.Extract` | cli/src/index.mjs:72-76 | the download adds the archive's paths beneath the target and changes nothing outside it |
| `FileSystem.Disk.Cleanup` | cli/src/index.mjs:83-88 | after the loop the filesystem is `Swept(old, targetDir, CLEANUP)` and is still a tree |
| `FileSystem.Swept` | cli/src/index.mjs:83-88 | no listed entry and nothing beneath it remains in `targetDir`; every other existing path stays |
| `FileSystem.SweptStaysInside` | cli/src/index.mjs:83-88 | cleanup changes nothing outside the target directory |
| `FileSystem.SweptStep` | cli/src/index.mjs:83-88 | one loop iteration deletes the subtree of the next listed entry |
| `FileSystem.AbsentHasNoSubtree` | cli/src/index.mjs:85 | skipping an absent entry deletes the same as removing it would, since nothing lies beneath it |
| `FileSystem.SweptAbsentEntries` | cli/src/index.mjs:84-87 | when none of the listed entries exists, cleanup leaves the tree unchanged |
| `FileSystem.SweptIdempotent` | cli/src/index.mjs:83-88 | cleaning up twice leaves the same tree as cleaning up once |
| `FileSystem.PrunedIsTree` | cli/src/index.mjs:86 | deleting a subtree leaves a tree |
| `FileSystem.SweptIsTree` | cli/src/index.mjs:83-88 | the cleaned-up filesystem is still a tree |
| `FileSystem.CleanedTemplate` | cli/src/index.mjs:72-88 | after download and cleanup the project holds every archive path outside the listed entries and none inside them |
| `Scaffold.PathMovesForward` | cli/src/index.mjs:55-116 | along the stage machine the stage rank strictly increases, so no stage is re-entered |
| `Scaffold.RunShapes` | cli/src/index.mjs:55-116 | the complete runs are exactly: fail at the name or target check, fail at the download, or finish with the install done or skipped |
| `Scaffold.ExitZeroIffDownloaded` | cli/src/index.mjs:55-80 | a run exits 0 exactly when it got past the download, whatever the install did |
| `Scaffold.ReadProjectName` | cli/src/index.mjs:42-53 | the reassigned `projectName` ends as `ProjectName(argv[2], answer)`, and the prompt runs exactly when `argv[2]` is missing or empty |
| `Scaffold.ProjectName` | cli/src/index.mjs:42-55 | a non-empty argument is used verbatim; otherwise the trimmed answer; the name is empty exactly when the prompt ran and the answer was blank |
| `Scaffold.CdPath` | cli/src/index.mjs:107-109 | the hint is "." or the project name, and it is "." exactly when the basenames of target and working directory agree or the name itself is "." |
| `Scaffold.Command` | cli/src/index.mjs:97 | the command line is the manager's name, one space, then the verb (`install`, or `dev` for the hint at line 116) |
| `Scaffold.CdPathForName` | cli/src/index.mjs:107-109 | the hint is "." exactly when the name is "." or the working directory's basename, and the name otherwise |
| `Scaffold.CdPathSameBasename` | cli/src/index.mjs:107-109 | a sub-directory named like the working directory gets the hint "." although it is not the working directory |
| `Scaffold.Run` | cli/src/index.mjs:37-120 | a missing name fails with `MissingName` and an occupied target with `TargetNotEmpty(name)`, both with exit 1 before any download and with the disk unchanged; only a completed run installs and prints next steps; a failed download fails with exit 1 before cleanup and install; otherwise the run ends at `Done` with exit 0 even when the install fails, the disk is the cleaned template, nothing outside the target changes, and one package manager names both the install and the dev command |

## Left out

- The readline prompt, `console.log` output, the ANSI colour helpers (cli/src/index.mjs:8-12) and `process.exit`. A run's outcome is its `Report`: stages, exit code and failure kind.
- `giget`'s `downloadTemplate` is a foreign network library. Its outcome is an input: the archive's relative paths on success, or the partial paths left behind and the error message on failure. The template reference and `force: true` are not modelled; the target is absent or empty, so there is nothing to overwrite. The library's own writes outside the target, such as its tarball cache, are not modelled either, so the frame conditions of `FileSystem.Disk.Extract` and `Scaffold.Run` hold of the modelled download, not of the whole program.
- `execSync` of `<pm> install` is a child process. Its success is a boolean input. The report records the command line but not its working directory.
- `path.resolve` and `path.basename` in full: `..`, absolute names, names containing a separator, trailing slashes and platform separators. Names are single segments, and "." resolves to the working directory.
- Files and directories are not told apart. `readdirSync` on a target that is a regular file throws in the source; the model reads such a target as empty.
- Filesystem permission errors, a failing `rmSync`, and interruption partway through a run.
- File contents: the filesystem is the set of paths that exist.
- FileSystem.Disk.Extract: it requires the target's parent to exist. In a run the parent is the working directory, which exists. Parent creation by the download library is not modelled.
