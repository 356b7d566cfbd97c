/**
 * The build tool's entry point: where the project root is taken from when none is given, and the
 * exit status of a run.
 */
module CommandLine {
  import opened Wrappers
  import opened Files
  import opened Configuration
  import opened ImportResolution
  import opened BuildManagement

  /** The nearest proper ancestor of `p` whose name is `n`, searching `p.parents` nearest first. */
  function NearestAncestorNamed(p: Path, n: string): (r: Option<Path>)
    ensures r.Some? ==> IsPrefix(r.value, p) && |r.value| < |p| && Name(r.value) == n
    ensures r.Some? ==> forall j :: |r.value| < j < |p| ==> Name(p[..j]) != n
    ensures r.None? ==> forall j :: 0 <= j < |p| ==> Name(p[..j]) != n
    decreases |p|
  {
    if p == [] then None
    else
      var q := Parent(p);
      assert forall j :: 0 <= j <= |q| ==> p[..j] == q[..j];
      if Name(q) == n then Some(q) else NearestAncestorNamed(q, n)
  }

  /**
   * `_detect_project_root()` from the working directory `cwd`: its parent inside `builder`, itself
   * inside `backend`, else the nearest ancestor named `backend`, else `cwd` itself.
   */
  function DetectProjectRoot(cwd: Path): (r: Path)
    ensures IsPrefix(r, cwd)
    ensures Name(cwd) == "builder" ==> r == Parent(cwd)
    ensures Name(cwd) == "backend" ==> r == cwd
    ensures Name(cwd) != "builder" && Name(cwd) != "backend" ==>
      (r == cwd <==> forall j :: 0 <= j < |cwd| ==> Name(cwd[..j]) != "backend")
    ensures Name(cwd) != "builder" && Name(cwd) != "backend" && r != cwd ==>
      Name(r) == "backend" && forall j :: |r| < j <= |cwd| ==> Name(cwd[..j]) != "backend"
  {
    if Name(cwd) == "builder" then
      assert cwd[..|Parent(cwd)|] == Parent(cwd);
      Parent(cwd)
    else if Name(cwd) == "backend" then
      assert cwd[..|cwd|] == cwd;
      cwd
    else
      match NearestAncestorNamed(cwd, "backend")
      case Some(q) =>
        assert cwd[..|cwd|] == cwd;
        q
      case None =>
        assert cwd[..|cwd|] == cwd;
        cwd
  }

  /** The directory handed to `BuilderManager`: `--project-root` taken relative to `cwd`, or the detected root. */
  function ProjectRoot(cwd: Path, projectRootArg: Option<string>): Path {
    match projectRootArg
    case Some(arg) => JoinPath(cwd, arg)
    case None => DetectProjectRoot(cwd)
  }

  /**
   * `main()` after argument parsing, returning the exit status. An invalid project structure gives 1
   * whatever the flags. With `--clean` the artifacts are cleaned and the status is 0 unless that raised;
   * otherwise the status is 0 exactly when `build_all()` returned true.
   */
  method Run(cwd: Path, projectRootArg: Option<string>, clean: bool, disk: Disk, parse: string -> Option<seq<ImportNode>>)
    returns (code: int)
    modifies disk
    ensures code == 0 || code == 1
    ensures var config := Config(Canonical(ProjectRoot(cwd, projectRootArg)));
      !config.Validate(old(disk.fs)) ==> code == 1 && disk.fs == old(disk.fs)
    ensures var config := Config(Canonical(ProjectRoot(cwd, projectRootArg)));
      config.Validate(old(disk.fs)) && clean ==>
        (code == 0, disk.fs) == CleanArtifacts(config, old(disk.fs))
    ensures var config := Config(Canonical(ProjectRoot(cwd, projectRootArg)));
      config.Validate(old(disk.fs)) && !clean ==>
        exists r, summary, stages, states :: BuildAllRun(config, parse, old(disk.fs), r, summary, stages, states, disk.fs)
          && (code == 0 <==> r == Some(true))
  {
    var root := ProjectRoot(cwd, projectRootArg);
    var created := BuilderManager.Create(root, disk, parse);
    if created.None? {
      return 1;
    }
    var manager := created.value;
    if clean {
      var cleaned := manager.CleanBuildArtifacts();
      return if cleaned then 0 else 1;
    }
    var r, summary, stages, states := manager.BuildAll();
    assert BuildAllRun(manager.config, parse, old(disk.fs), r, summary, stages, states, disk.fs);
    code := if r == Some(true) then 0 else 1;
  }
}
