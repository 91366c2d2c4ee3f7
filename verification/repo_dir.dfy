/** `RepoDir`: what three `git rev-parse` probes say about a directory. The
    probes' outcomes are inputs: each printed some text or failed (git exited
    with an error, or could not be started). */
module RepoDir {
  import opened Results
  import opened Text

  /** The two failures each probe catches. */
  datatype ProbeError = CalledProcessError | GitNotFound

  datatype Probe = Printed(stdout: string) | Failed(error: ProbeError)

  /** The outcomes of `--absolute-git-dir`, `--is-bare-repository` and
      `--show-toplevel`, in that order. */
  datatype Probes = Probes(gitDir: Probe, isBare: Probe, toplevel: Probe)

  /** The six fields a `RepoDir` is left with. */
  datatype RepoDir = RepoDir(
    absoluteGitDir: Option<string>, toplevelDir: Option<string>, isBare: Option<bool>,
    absoluteGitDirError: Option<ProbeError>, isBareError: Option<ProbeError>, toplevelDirError: Option<ProbeError>)

  /** What `os.chdir(repo_path)` did: entered the directory, raised
      FileNotFoundError, or raised another OSError (NotADirectoryError for a
      file, PermissionError, ...), named by its class. Only the second is
      caught and re-raised with its own message; the others propagate as
      they are. */
  datatype Chdir = Entered | NotFound | OtherOSError(kind: string)

  /** Whether a path was passed: Python treats `None` and `''` alike. */
  predicate PathGiven(repoPath: Option<string>) {
    repoPath.Some? && repoPath.value != []
  }

  /** A probe's value, from its trimmed output. */
  function ValueOf(p: Probe): Option<string>
  {
    if p.Printed? then Some(Strip(p.stdout)) else None
  }

  /** A probe's error. */
  function ErrorOf(p: Probe): Option<ProbeError>
  {
    if p.Failed? then Some(p.error) else None
  }

  /** `RepoDir(repo_path)`: when a path is given and entering it fails, the
      constructor raises before any probe — FileNotFoundError with its own
      message for a missing path, any other OSError as it came. Otherwise the
      git-dir and bare probes always run, and the top-level probe runs unless
      the repository was found to be bare. Without a path, `chdir` is not
      called and its outcome does not matter. */
  function NewRepoDir(repoPath: Option<string>, chdir: Chdir, probes: Probes): (r: Result<RepoDir>)
    ensures r.Err? <==> PathGiven(repoPath) && chdir != Entered
    ensures r.Err? && chdir == NotFound ==>
              r.error == Raised("FileNotFoundError", "Repository path not found: " + repoPath.value)
    ensures r.Err? && chdir.OtherOSError? ==> r.error.Raised? && r.error.kind == chdir.kind
  {
    if PathGiven(repoPath) && chdir == NotFound then
      Err(Raised("FileNotFoundError", "Repository path not found: " + repoPath.value))
    else if PathGiven(repoPath) && chdir.OtherOSError? then
      Err(Raised(chdir.kind, repoPath.value))
    else
      var isBare := if probes.isBare.Printed? then Some(Strip(probes.isBare.stdout) == "true") else None;
      var runToplevel := isBare != Some(true);
      Ok(RepoDir(
        ValueOf(probes.gitDir),
        if runToplevel then ValueOf(probes.toplevel) else None,
        isBare,
        ErrorOf(probes.gitDir),
        ErrorOf(probes.isBare),
        if runToplevel then ErrorOf(probes.toplevel) else None))
  }

  /** Without a path nothing is entered: whatever `chdir` would have done,
      the result is the one of a directory entered. */
  lemma ChdirIgnoredWithoutPath(repoPath: Option<string>, chdir: Chdir, probes: Probes)
    requires !PathGiven(repoPath)
    ensures NewRepoDir(repoPath, chdir, probes) == NewRepoDir(repoPath, Entered, probes)
    ensures NewRepoDir(repoPath, chdir, probes).Ok?
  {
  }

  /** Each probe leaves exactly one of its value and its error set, except
      that a skipped top-level probe leaves both unset. */
  predicate OneOutcomeEach(d: RepoDir) {
    && (d.absoluteGitDir.Some? != d.absoluteGitDirError.Some?)
    && (d.isBare.Some? != d.isBareError.Some?)
    && (if d.isBare == Some(true) then d.toplevelDir.None? && d.toplevelDirError.None?
        else d.toplevelDir.Some? != d.toplevelDirError.Some?)
  }

  /** Whatever the probes say, construction leaves one outcome per probe,
      with the values and errors the probes gave. */
  lemma ConstructedFields(repoPath: Option<string>, chdir: Chdir, probes: Probes)
    requires NewRepoDir(repoPath, chdir, probes).Ok?
    ensures var d := NewRepoDir(repoPath, chdir, probes).value;
            && OneOutcomeEach(d)
            && (probes.gitDir.Printed? ==> d.absoluteGitDir == Some(Strip(probes.gitDir.stdout)))
            && (probes.gitDir.Failed? ==> d.absoluteGitDirError == Some(probes.gitDir.error))
            && (probes.isBare.Failed? ==> d.isBareError == Some(probes.isBare.error))
            && (d.isBare != Some(true) && probes.toplevel.Printed? ==> d.toplevelDir == Some(Strip(probes.toplevel.stdout)))
  {
  }

  /** The bare flag is set exactly when the bare probe printed something, and
      it is true exactly when that output, trimmed, is `true`. */
  lemma BareFlag(repoPath: Option<string>, chdir: Chdir, probes: Probes)
    requires NewRepoDir(repoPath, chdir, probes).Ok?
    ensures var d := NewRepoDir(repoPath, chdir, probes).value;
            && (d.isBare.Some? <==> probes.isBare.Printed?)
            && (d.isBare == Some(true) <==> probes.isBare.Printed? && Strip(probes.isBare.stdout) == "true")
  {
  }

  /** A bare repository has no top-level directory, whatever the top-level
      probe would have said: it is not run. */
  lemma BareSkipsToplevel(repoPath: Option<string>, chdir: Chdir, probes: Probes, other: Probe)
    requires NewRepoDir(repoPath, chdir, probes).Ok?
    requires NewRepoDir(repoPath, chdir, probes).value.isBare == Some(true)
    ensures NewRepoDir(repoPath, chdir, probes).value.toplevelDir.None?
    ensures NewRepoDir(repoPath, chdir, probes.(toplevel := other)) == NewRepoDir(repoPath, chdir, probes)
  {
  }

  /** `is_inside_working_tree`: false when the bare probe failed, else
      whether the repository is not bare. */
  predicate IsInsideWorkingTree(d: RepoDir) {
    d.isBare == Some(false)
  }

  /** `get_toplevel_dir`: fails with RuntimeError for a bare repository or
      when there is no top-level directory, else returns it. */
  function GetToplevelDir(d: RepoDir): (r: Result<string>)
    ensures r.Ok? <==> d.isBare != Some(true) && d.toplevelDir.Some?
    ensures r.Ok? ==> r.value == d.toplevelDir.value
  {
    if d.isBare == Some(true) || d.toplevelDir.None? then
      Err(Raised("RuntimeError", "Cannot get top-level directory for a bare repository."))
    else Ok(d.toplevelDir.value)
  }

  /** Inside a working tree with the top-level probe answered, the
      top-level directory is that answer, trimmed. */
  lemma InsideHasToplevel(repoPath: Option<string>, chdir: Chdir, probes: Probes)
    requires NewRepoDir(repoPath, chdir, probes).Ok?
    requires IsInsideWorkingTree(NewRepoDir(repoPath, chdir, probes).value)
    requires probes.toplevel.Printed?
    ensures GetToplevelDir(NewRepoDir(repoPath, chdir, probes).value) == Ok(Strip(probes.toplevel.stdout))
  {
  }

  /** Inside a working tree, asking for the top-level directory succeeds
      exactly when the top-level probe succeeded. */
  lemma InsideToplevelIff(d: RepoDir)
    requires OneOutcomeEach(d) && IsInsideWorkingTree(d)
    ensures GetToplevelDir(d).Ok? <==> d.toplevelDirError.None?
  {
  }

  /** A bare repository never yields a top-level directory and is never
      inside a working tree. */
  lemma BareHasNoToplevel(d: RepoDir)
    requires d.isBare == Some(true)
    ensures GetToplevelDir(d).Err? && !IsInsideWorkingTree(d)
  {
  }

  /** When the bare probe fails but the top-level probe answers, the
      directory is reported as outside a working tree, and still its
      top-level directory is returned. */
  lemma UnknownBareStillHasToplevel(repoPath: Option<string>, chdir: Chdir, probes: Probes)
    requires NewRepoDir(repoPath, chdir, probes).Ok?
    requires probes.isBare.Failed? && probes.toplevel.Printed?
    ensures !IsInsideWorkingTree(NewRepoDir(repoPath, chdir, probes).value)
    ensures GetToplevelDir(NewRepoDir(repoPath, chdir, probes).value) == Ok(Strip(probes.toplevel.stdout))
  {
  }
}
