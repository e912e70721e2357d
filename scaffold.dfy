/**
 * The control flow of the scaffolder's `main`: resolve the project name,
 * check the target directory, download the template, clean it up, install
 * dependencies and print the next steps. The prompt, the download and the
 * install child process are collaborators whose outcomes are given as inputs.
 */
module Scaffold {
  import opened Wrappers
  import opened JsString
  import opened Paths
  import opened PackageManager
  import opened FileSystem

  /** The stages a run passes through. */
  datatype Stage = Start | NameResolved | Downloaded | Cleaned | Installed | InstallSkipped | Done | Failed

  /** The transitions of the run: strictly forward, with two ways into `Failed`. */
  predicate Step(from: Stage, to: Stage) {
    match from
    case Start => to == NameResolved || to == Failed
    case NameResolved => to == Downloaded || to == Failed
    case Downloaded => to == Cleaned
    case Cleaned => to == Installed || to == InstallSkipped
    case Installed => to == Done
    case InstallSkipped => to == Done
    case Done => false
    case Failed => false
  }

  /** Consecutive stages are joined by transitions. */
  predicate IsPath(stages: seq<Stage>) {
    forall i :: 0 <= i < |stages| - 1 ==> Step(stages[i], stages[i + 1])
  }

  /** A complete run: from `Start` along transitions to `Done` or `Failed`. */
  predicate IsRun(stages: seq<Stage>) {
    && |stages| >= 2
    && stages[0] == Start
    && (stages[|stages| - 1] == Done || stages[|stages| - 1] == Failed)
    && IsPath(stages)
  }

  /** The process exit code of a run: 0 when it reached `Done`, otherwise 1. */
  function ExitCode(stages: seq<Stage>): int
    requires stages != []
  {
    if stages[|stages| - 1] == Done then 0 else 1
  }

  /** Position of a stage along the pipeline. */
  function Rank(s: Stage): nat {
    match s
    case Start => 0
    case NameResolved => 1
    case Downloaded => 2
    case Cleaned => 3
    case Installed => 4
    case InstallSkipped => 4
    case Done => 5
    case Failed => 6
  }

  /** Control never re-enters an earlier stage: ranks strictly increase along a path. */
  lemma {:induction false} PathMovesForward(stages: seq<Stage>, i: nat, j: nat)
    requires IsPath(stages) && i < j < |stages|
    ensures Rank(stages[i]) < Rank(stages[j])
    decreases j - i
  {
    assert Step(stages[i], stages[i + 1]);
    if i + 1 < j {
      PathMovesForward(stages, i + 1, j);
    }
  }

  /**
   * Every run is one of four: a failure before the download (missing name or
   * occupied directory), a failed download, or a completed run whose install
   * either succeeded or was skipped.
   */
  lemma RunShapes(stages: seq<Stage>)
    ensures IsRun(stages) <==>
            || stages == [Start, Failed]
            || stages == [Start, NameResolved, Failed]
            || stages == [Start, NameResolved, Downloaded, Cleaned, Installed, Done]
            || stages == [Start, NameResolved, Downloaded, Cleaned, InstallSkipped, Done]
  {
    if !IsRun(stages) {
      assert IsPath([Start, NameResolved, Downloaded, Cleaned, Installed, Done]);
      assert IsPath([Start, NameResolved, Downloaded, Cleaned, InstallSkipped, Done]);
      return;
    }
    // `Done` and `Failed` have no successor, so they can only come last.
    forall i | 0 <= i < |stages| - 1 ensures stages[i] != Done && stages[i] != Failed {
      assert Step(stages[i], stages[i + 1]);
    }
    assert Step(stages[0], stages[1]);
    if stages[1] == NameResolved {
      assert Step(stages[1], stages[2]);
      if stages[2] == Downloaded {
        assert Step(stages[2], stages[3]);
        assert Step(stages[3], stages[4]);
        assert Step(stages[4], stages[5]);
        assert |stages| == 6;
      } else {
        assert |stages| == 3;
      }
    } else {
      assert |stages| == 2;
    }
  }

  /** A run exits with 0 exactly when it got past the download, whatever the install did. */
  lemma ExitZeroIffDownloaded(stages: seq<Stage>)
    requires IsRun(stages)
    ensures ExitCode(stages) == 0 <==> Downloaded in stages
    ensures ExitCode(stages) == 0 <==> Cleaned in stages
  {
    RunShapes(stages);
  }

  /** `!projectName`: `argv[2]` missing or empty, so the name must be prompted for. */
  predicate NeedsPrompt(arg: Option<string>) {
    arg == None || arg == Some("")
  }

  /**
   * The name the run uses: the command-line argument exactly as given when
   * it is non-empty, otherwise the prompted answer, trimmed.
   */
  function ProjectName(arg: Option<string>, answer: string): (name: string)
    ensures !NeedsPrompt(arg) ==> name == arg.value
    ensures NeedsPrompt(arg) ==> |name| <= |answer|
    ensures NeedsPrompt(arg) && name != "" ==> !IsWhiteSpace(name[0]) && !IsWhiteSpace(name[|name| - 1])
    ensures name == "" <==> NeedsPrompt(arg) && IsBlank(answer)
  {
    if NeedsPrompt(arg) then
      TrimEmptyIffBlank(answer);
      Trim(answer)
    else arg.value
  }

  /** The directory hint of the next steps: "." when the basenames agree, else the name. */
  function CdPath(targetDir: Path, cwd: Path, projectName: string): (hint: string)
    ensures hint == "." || hint == projectName
    ensures hint == "." <==> Basename(targetDir) == Basename(cwd) || projectName == "."
  {
    if Basename(targetDir) == Basename(cwd) then "." else projectName
  }

  /**
   * For the target the run computes, the hint is "." when the name is "."
   * or is the current directory's own basename, and the name otherwise.
   */
  lemma CdPathForName(cwd: Path, name: string)
    requires name != ""
    ensures var hint := CdPath(Resolve(cwd, name), cwd, name);
            && (hint == "." <==> name == "." || name == Basename(cwd))
            && (hint != "." ==> hint == name)
  {
  }

  /**
   * The basename comparison tells "." for a new sub-directory that happens to
   * share the current directory's name, although it is not the current directory.
   */
  lemma CdPathSameBasename(cwd: Path)
    requires cwd != [] && Basename(cwd) !in {"", "."}
    ensures Resolve(cwd, Basename(cwd)) != cwd
    ensures CdPath(Resolve(cwd, Basename(cwd)), cwd, Basename(cwd)) == "."
  {
  }

  /** What the run reports on failing. */
  datatype Failure = MissingName | TargetNotEmpty(name: string) | DownloadError(message: string)

  /** The template download's outcome; a failed one may leave part of the archive behind. */
  datatype Download = Fetched(tree: set<Path>) | FetchFailed(partial: set<Path>, message: string)

  /** What the process is started with: `argv[2]`, the working directory, the user agent. */
  datatype Invocation = Invocation(arg: Option<string>, cwd: Path, userAgent: Option<string>)

  /** The outcomes of the collaborators: the prompt's answer, the download, the install. */
  datatype Collaborators = Collaborators(answer: string, download: Download, installSucceeds: bool)

  /** The "Next steps" lines: the directory to change to and the dev command. */
  datatype NextSteps = NextSteps(cd: string, dev: string)

  /**
   * What one run did: its stages, exit code, failure, whether it prompted,
   * the directory a download was attempted into, and the commands it printed.
   */
  datatype Report = Report(
    stages: seq<Stage>,
    exitCode: int,
    failure: Option<Failure>,
    prompted: bool,
    downloadTarget: Option<Path>,
    installCommand: Option<string>,
    nextSteps: Option<NextSteps>)

  /** The shell command line for running `verb` with the package manager. */
  function Command(pm: Manager, verb: string): (line: string)
    ensures StartsWith(line, pm.Name())
    ensures |line| == |pm.Name()| + 1 + |verb|
    ensures line[|pm.Name()|] == ' ' && line[|pm.Name()| + 1..] == verb
  {
    pm.Name() + " " + verb
  }

  /** The target directory of a run whose name is non-empty. */
  function TargetDir(inv: Invocation, ext: Collaborators): Path
    requires ProjectName(inv.arg, ext.answer) != ""
  {
    Resolve(inv.cwd, ProjectName(inv.arg, ext.answer))
  }

  /**
   * The mutable `projectName` of `main`: `argv[2]`, replaced by the trimmed
   * answer to the prompt when it is missing or empty.
   */
  method ReadProjectName(arg: Option<string>, answer: string) returns (projectName: string, prompted: bool)
    ensures projectName == ProjectName(arg, answer)
    ensures prompted == NeedsPrompt(arg)
  {
    prompted := false;
    projectName := if arg.Some? then arg.value else "";
    if projectName == "" {
      prompted := true;
      projectName := answer;
      projectName := Trim(projectName);
    }
  }

  /**
   * `main`: take the name from `argv[2]` or the prompt, refuse a missing name
   * or an occupied target, download into the target, delete the listed
   * entries, install with the detected package manager (a failed install is
   * only reported) and print the next steps.
   */
  method Run(inv: Invocation, ext: Collaborators, disk: Disk) returns (r: Report)
    requires disk.Valid() && inv.cwd in disk.paths
    modifies disk
    ensures disk.Valid()
    ensures IsRun(r.stages) && r.exitCode == ExitCode(r.stages)
    ensures r.prompted == NeedsPrompt(inv.arg)
    // name resolution and the target check come before anything is written
    ensures ProjectName(inv.arg, ext.answer) == "" ==>
              r.failure == Some(MissingName) && r.downloadTarget == None
    ensures r.downloadTarget.Some? <==>
              ProjectName(inv.arg, ext.answer) != "" && old(disk.IsEmpty(TargetDir(inv, ext)))
    ensures r.downloadTarget.None? ==>
              && r.stages == [Start, Failed]
              && r.failure.Some? && !r.failure.value.DownloadError?
              && disk.paths == old(disk.paths)
    ensures ProjectName(inv.arg, ext.answer) != "" && !old(disk.IsEmpty(TargetDir(inv, ext))) ==>
              r.failure == Some(TargetNotEmpty(ProjectName(inv.arg, ext.answer)))
    ensures r.downloadTarget.Some? ==> r.downloadTarget.value == TargetDir(inv, ext)
    // only a completed run installs and prints the next steps
    ensures !(Done in r.stages) ==> r.installCommand == None && r.nextSteps == None
    // nothing outside the target directory is touched
    ensures r.downloadTarget.Some? ==>
              forall p :: !IsPrefix(r.downloadTarget.value, p) ==> (p in disk.paths <==> p in old(disk.paths))
    // a failed download stops the run before cleanup and install
    ensures r.downloadTarget.Some? && ext.download.FetchFailed? ==>
              && r.stages == [Start, NameResolved, Failed]
              && r.failure == Some(DownloadError(ext.download.message))
              && r.installCommand == None
              && disk.paths == old(disk.paths) + Grafted(TargetDir(inv, ext), ext.download.partial)
    // a completed run: cleaned tree, one package manager for install and dev, exit 0
    ensures Done in r.stages <==> r.downloadTarget.Some? && ext.download.Fetched?
    ensures Done in r.stages ==>
              && r.exitCode == 0
              && r.failure == None
              && r.stages == [Start, NameResolved, Downloaded, Cleaned,
                              if ext.installSucceeds then Installed else InstallSkipped, Done]
              && disk.paths == Swept(old(disk.paths) + Grafted(TargetDir(inv, ext), ext.download.tree),
                                     TargetDir(inv, ext), CLEANUP)
              && r.installCommand == Some(Command(Detect(inv.userAgent), "install"))
              && r.nextSteps == Some(NextSteps(CdPath(TargetDir(inv, ext), inv.cwd, ProjectName(inv.arg, ext.answer)),
                                               Command(Detect(inv.userAgent), "dev")))
  {
    var projectName, prompted := ReadProjectName(inv.arg, ext.answer);

    RunShapes([Start, Failed]);
    RunShapes([Start, NameResolved, Failed]);
    if projectName == "" {
      return Report([Start, Failed], 1, Some(MissingName), prompted, None, None, None);
    }

    var targetDir := Resolve(inv.cwd, projectName);
    if !disk.IsEmpty(targetDir) {
      return Report([Start, Failed], 1, Some(TargetNotEmpty(projectName)), prompted, None, None, None);
    }

    // The parent of the target is the working directory, or the target is that directory.
    assert inv.cwd != [] ==> inv.cwd[..|inv.cwd| - 1] in disk.paths;
    assert targetDir != inv.cwd ==> targetDir[..|targetDir| - 1] == inv.cwd;
    var tree: set<Path>;
    match ext.download {
      case FetchFailed(partial, message) =>
        disk.Extract(targetDir, partial);
        return Report([Start, NameResolved, Failed], 1, Some(DownloadError(message)), prompted,
                      Some(targetDir), None, None);
      case Fetched(t) =>
        disk.Extract(targetDir, t);
        tree := t;
    }

    ghost var extracted := disk.paths;
    disk.Cleanup(targetDir);
    SweptStaysInside(extracted, targetDir, CLEANUP);

    RunShapes([Start, NameResolved, Downloaded, Cleaned, Installed, Done]);
    RunShapes([Start, NameResolved, Downloaded, Cleaned, InstallSkipped, Done]);
    var pm := Detect(inv.userAgent);
    var install := if ext.installSucceeds then Installed else InstallSkipped;
    var cdPath := CdPath(targetDir, inv.cwd, projectName);
    r := Report([Start, NameResolved, Downloaded, Cleaned, install, Done], 0, None, prompted,
                Some(targetDir), Some(Command(pm, "install")), Some(NextSteps(cdPath, Command(pm, "dev"))));
  }
}
