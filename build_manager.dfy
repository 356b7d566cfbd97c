/**
 * `BuilderManager`, the build orchestrator: it checks the project structure, cleans the build
 * artifacts, prepares the build directories and then runs three stages (layers, functions,
 * schemas). Each stage discovers its items and builds every one of them, and the build succeeds
 * when all three stages do.
 */
module BuildManagement {
  import opened Wrappers
  import opened Strings
  import opened Files
  import opened Ordering
  import opened Configuration
  import opened ImportResolution
  import Collections
  import LambdaBuilding
  import LayerBuilding
  import AppSyncBuilding

  /** `project_root / "devops" / "infrastructure" / "local" / ".extracted"` */
  function ExtractedDir(config: Config): Path {
    config.projectRoot + ["devops", "infrastructure", "local", ".extracted"]
  }

  /**
   * `_clean_build_artifacts()`: the build directory and the local extraction directory are each
   * removed when they exist. The flag is false when `rmtree` raised, and the disk is then as that
   * `rmtree` left it.
   */
  function CleanArtifacts(config: Config, fs: FileSystem): (bool, FileSystem) {
    match CleanupDirectory(fs, config.Build())
    case None => (false, fs)
    case Some(cleaned) =>
      match CleanupDirectory(cleaned, ExtractedDir(config))
      case None => (false, cleaned)
      case Some(done) => (true, done)
  }

  /** The two directories `CleanArtifacts` removes lie apart: neither holds the other. */
  lemma ArtifactDirsApart(config: Config)
    ensures Apart(config.Build(), ExtractedDir(config))
  {
    var b := config.Build();
    var e := ExtractedDir(config);
    var n := |config.projectRoot|;
    assert b[n] != e[n];
    PrefixAgrees(b, e, n);
    PrefixAgrees(e, b, n);
  }

  /** A path agrees with each of its ancestors on the ancestor's segments. */
  lemma PrefixAgrees(a: Path, b: Path, k: nat)
    ensures IsPrefix(a, b) && k < |a| ==> b[k] == a[k]
  {
    if IsPrefix(a, b) && k < |a| {
      assert b[..|a|][k] == b[k];
    }
  }

  /**
   * Cleaning fails exactly when one of the two directories is a file. Otherwise neither remains,
   * everything outside them is kept, and when neither existed the disk is unchanged.
   */
  lemma CleanArtifactsOutcome(config: Config, fs: FileSystem)
    ensures var (ok, after) := CleanArtifacts(config, fs);
      (ok <==> config.Build() !in fs.files && ExtractedDir(config) !in fs.files)
      && (ok ==> !(config.Build() in after.files || config.Build() in after.dirs))
      && (ok ==> !(ExtractedDir(config) in after.files || ExtractedDir(config) in after.dirs))
      && (forall q :: !IsPrefix(config.Build(), q) && !IsPrefix(ExtractedDir(config), q) ==>
            (q in after.files <==> q in fs.files) && (q in after.dirs <==> q in fs.dirs))
      && (!fs.Exists(config.Build()) && !fs.Exists(ExtractedDir(config)) ==> ok && after == fs)
  {
    ArtifactDirsApart(config);
    var b := config.Build();
    var e := ExtractedDir(config);
    assert IsPrefix(b, b) && IsPrefix(e, e);
    var c := CleanupDirectory(fs, b);
    if c.Some? {
      assert e in c.value.files <==> e in fs.files;
    }
  }

  /** The three stages of `build_all`, one per builder. */
  datatype Component = Layers | Functions | Schemas

  /** What each builder's `discover()` returns on the disk `fs`. */
  ghost predicate Discovered(kind: Component, config: Config, fs: FileSystem, items: seq<string>) {
    match kind
    case Layers =>
      StrictlySorted(items) && forall n :: n in items <==> n in {"adapters", "utils"} && fs.Exists(config.Src() + [n])
    case Functions =>
      StrictlySorted(items) && forall n :: n in items <==> n in LambdaBuilding.HandlerStems(fs, config.Handlers())
    case Schemas =>
      Sorted(items) && forall n :: multiset(items)[n] == |AppSyncBuilding.SchemasNamed(fs, config.GraphQL(), n)|
  }

  /** `builder.build(name)` took the disk from `fs` to `after` and returned `ok`. */
  ghost predicate Built(kind: Component, config: Config, parse: string -> Option<seq<ImportNode>>,
                        fs: FileSystem, name: string, ok: bool, after: FileSystem) {
    match kind
    case Layers => (ok, after) == LayerBuilding.LayerBuild(config, fs, name)
    case Functions =>
      exists order: seq<Path> {:trigger LambdaBuilding.LambdaBuild(config, parse, fs, name, order)} ::
        Collections.Enumerates(order, LambdaBuilding.LambdaDependencies(config, parse, fs, name))
        && (ok, after) == LambdaBuilding.LambdaBuild(config, parse, fs, name, order)
    case Schemas => (ok, after) == AppSyncBuilding.AppSyncBuild(config, fs, name)
  }

  /** The items whose build returned false, in the order they were built: the `failed` list. */
  function Failures(items: seq<string>, results: seq<bool>): (r: seq<string>)
    requires |results| == |items|
  {
    if items == [] then []
    else (if results[0] then [] else [items[0]]) + Failures(items[1..], results[1..])
  }

  /** The `failed` list is empty exactly when every build returned true. */
  lemma {:induction false} FailuresEmpty(items: seq<string>, results: seq<bool>)
    requires |results| == |items|
    ensures Failures(items, results) == [] <==> forall i :: 0 <= i < |results| ==> results[i]
    decreases |items|
  {
    if items != [] {
      FailuresEmpty(items[1..], results[1..]);
      assert forall i :: 1 <= i < |results| ==> results[1..][i - 1] == results[i];
    }
  }

  /** The `failed` list names exactly the items whose build returned false. */
  lemma {:induction false} FailuresNamed(items: seq<string>, results: seq<bool>, n: string)
    requires |results| == |items|
    ensures n in Failures(items, results) <==> exists i :: 0 <= i < |items| && items[i] == n && !results[i]
    decreases |items|
  {
    if items != [] {
      FailuresNamed(items[1..], results[1..], n);
      if n in Failures(items[1..], results[1..]) {
        var i :| 0 <= i < |items[1..]| && items[1..][i] == n && !results[1..][i];
        assert items[i + 1] == n && !results[i + 1];
      }
      if exists i :: 0 <= i < |items| && items[i] == n && !results[i] {
        var i :| 0 <= i < |items| && items[i] == n && !results[i];
        if i > 0 {
          assert items[1..][i - 1] == n && !results[1..][i - 1];
        }
      }
    }
  }

  /** Appending one more build to the record appends its item when that build failed. */
  lemma FailuresSnoc(items: seq<string>, results: seq<bool>, item: string, result: bool)
    requires |results| == |items|
    ensures Failures(items + [item], results + [result]) == Failures(items, results) + (if result then [] else [item])
    decreases |items|
  {
    if items == [] {
      assert items + [item] == [item] && results + [result] == [result];
    } else {
      assert (items + [item])[1..] == items[1..] + [item];
      assert (results + [result])[1..] == results[1..] + [result];
      FailuresSnoc(items[1..], results[1..], item, result);
    }
  }

  /**
   * The record of one stage: the items discovered, each build's result and the disk before each
   * build and after the last one.
   */
  datatype Stage = Stage(items: seq<string>, results: seq<bool>, states: seq<FileSystem>)

  /** Whether the stage's `failed` list came out empty. */
  function Succeeded(stage: Stage): bool {
    |stage.results| == |stage.items| && Failures(stage.items, stage.results) == []
  }

  /** What one builder's `build` does, as a relation between the disk before, the item, the result and the disk after. */
  type BuildRelation = (FileSystem, string, bool, FileSystem) -> bool

  /** The relation `Built` for one kind of component. */
  ghost function BuildOf(kind: Component, config: Config, parse: string -> Option<seq<ImportNode>>): BuildRelation {
    (fs: FileSystem, name: string, ok: bool, after: FileSystem) => Built(kind, config, parse, fs, name, ok, after)
  }

  /** The first `n` items were each built, by `build`, from the disk the previous build left. */
  ghost predicate BuiltPrefix(build: BuildRelation, items: seq<string>, results: seq<bool>, states: seq<FileSystem>, n: nat) {
    n <= |items| && n <= |results| && n < |states|
    && forall k :: 0 <= k < n ==> build(states[k], items[k], results[k], states[k + 1])
  }

  /**
   * The loop of `_build_components`: every item was built in turn from `fs` on, the last build left
   * `after`, and `ok` holds when the `failed` list is empty.
   */
  ghost predicate BuiltAll(build: BuildRelation, fs: FileSystem, stage: Stage, ok: bool, after: FileSystem) {
    |stage.results| == |stage.items| && |stage.states| == |stage.items| + 1
    && stage.states[0] == fs && stage.states[|stage.items|] == after
    && BuiltPrefix(build, stage.items, stage.results, stage.states, |stage.items|)
    && ok == (Failures(stage.items, stage.results) == [])
  }

  /**
   * `_build_components(builder)` ran from `fs` to `after` and returned `ok`: the items are what
   * `discover()` returned and each of them was built by that builder.
   */
  ghost predicate StageRun(kind: Component, config: Config, parse: string -> Option<seq<ImportNode>>,
                           fs: FileSystem, stage: Stage, ok: bool, after: FileSystem) {
    Discovered(kind, config, fs, stage.items) && BuiltAll(BuildOf(kind, config, parse), fs, stage, ok, after)
  }

  /** One more build extends the record of a stage and its `failed` list. */
  lemma BuiltPrefixStep(build: BuildRelation, items: seq<string>, results: seq<bool>, states: seq<FileSystem>, i: nat,
                        built: bool, after: FileSystem)
    requires i < |items| && |results| == i && |states| == i + 1
    requires BuiltPrefix(build, items, results, states, i)
    requires build(states[i], items[i], built, after)
    ensures BuiltPrefix(build, items, results + [built], states + [after], i + 1)
    ensures Failures(items[..i + 1], results + [built]) == Failures(items[..i], results) + (if built then [] else [items[i]])
  {
    FailuresSnoc(items[..i], results, items[i], built);
    assert items[..i + 1] == items[..i] + [items[i]];
  }

  /** A stage with nothing to build succeeds and leaves the disk alone. */
  lemma EmptyStage(build: BuildRelation, fs: FileSystem, stage: Stage, ok: bool, after: FileSystem)
    requires BuiltAll(build, fs, stage, ok, after) && stage.items == []
    ensures ok && after == fs
  {
  }

  /** A stage succeeds exactly when every one of its builds returned true. */
  lemma StageSucceeds(build: BuildRelation, fs: FileSystem, stage: Stage, ok: bool, after: FileSystem)
    requires BuiltAll(build, fs, stage, ok, after)
    ensures ok <==> forall i :: 0 <= i < |stage.results| ==> stage.results[i]
  {
    FailuresEmpty(stage.items, stage.results);
  }

  /** The counts `_print_build_summary()` reports, and the build directory. */
  datatype Summary = Summary(lambdas: nat, layers: nat, schemas: nat, buildDir: Path)

  /** `len(list(dir.glob("*" + ext)))` when `dir` exists, else 0. */
  function CountMatching(fs: FileSystem, dir: Path, ext: string): nat {
    if fs.Exists(dir) then |set n | n in Children(fs, dir) && EndsWith(n, ext)| else 0
  }

  /** `_print_build_summary()`, without the printing. */
  function BuildSummary(config: Config, fs: FileSystem): Summary {
    Summary(CountMatching(fs, config.Lambdas(), ".zip"), CountMatching(fs, config.Layers(), ".zip"),
            CountMatching(fs, config.AppSync(), ".graphql"), config.Build())
  }

  /** The disk once the first two steps of `build_all` are over, or as they left it when one raised. */
  datatype Preparation = Ready(prepared: FileSystem) | Raised(left: FileSystem)

  /** Steps 1 and 2 of `build_all()`: clean the artifacts, then create the build directories. */
  function Prepare(config: Config, fs: FileSystem): Preparation {
    var (cleanedOk, cleaned) := CleanArtifacts(config, fs);
    if !cleanedOk then Raised(cleaned)
    else match config.EnsureBuildDirs(cleaned)
      case None => Raised(cleaned)
      case Some(prepared) => Ready(prepared)
  }

  /**
   * Steps 3 to 5 of `build_all()`: the layers, functions and schemas stages ran one after the other
   * from `prepared` to `after`, and `ok` is the conjunction of their results.
   */
  ghost predicate StagesRun(config: Config, parse: string -> Option<seq<ImportNode>>, prepared: FileSystem,
                            ok: bool, stages: seq<Stage>, states: seq<FileSystem>, after: FileSystem) {
    |stages| == 3 && |states| == 4 && states[0] == prepared && states[3] == after
    && StageRun(Layers, config, parse, states[0], stages[0], Succeeded(stages[0]), states[1])
    && StageRun(Functions, config, parse, states[1], stages[1], Succeeded(stages[1]), states[2])
    && StageRun(Schemas, config, parse, states[2], stages[2], Succeeded(stages[2]), states[3])
    && ok == (Succeeded(stages[0]) && Succeeded(stages[1]) && Succeeded(stages[2]))
  }

  /**
   * `build_all()` ran from `fs` to `after`: `None` when cleaning or preparing raised. Otherwise the
   * three stages ran, the result is their conjunction, and a summary is produced exactly when it is true.
   */
  ghost predicate BuildAllRun(config: Config, parse: string -> Option<seq<ImportNode>>, fs: FileSystem,
                              r: Option<bool>, summary: Option<Summary>, stages: seq<Stage>, states: seq<FileSystem>, after: FileSystem) {
    match Prepare(config, fs)
    case Raised(left) => r.None? && summary.None? && after == left
    case Ready(prepared) =>
      r.Some? && StagesRun(config, parse, prepared, r.value, stages, states, after)
      && (summary.Some? <==> r.value) && (summary.Some? ==> summary.value == BuildSummary(config, after))
  }

  class BuilderManager {
    const config: Config
    const disk: Disk
    const parse: string -> Option<seq<ImportNode>>
    const lambdaBuilder: LambdaBuilding.LambdaBuilder
    const layerBuilder: LayerBuilding.LayerBuilder
    const appsyncBuilder: AppSyncBuilding.AppSyncBuilder

    /** The three builders share the manager's configuration and disk. */
    ghost predicate Valid() {
      lambdaBuilder.config == config && lambdaBuilder.disk == disk && lambdaBuilder.parse == parse
      && layerBuilder.config == config && layerBuilder.disk == disk
      && appsyncBuilder.config == config && appsyncBuilder.disk == disk
    }

    /** `__init__` once the structure check has passed: the builders are created. */
    constructor (config: Config, disk: Disk, parse: string -> Option<seq<ImportNode>>)
      requires config.Validate(disk.fs)
      ensures this.config == config && this.disk == disk && this.parse == parse && Valid()
    {
      this.config := config;
      this.disk := disk;
      this.parse := parse;
      lambdaBuilder := new LambdaBuilding.LambdaBuilder(config, disk, parse);
      layerBuilder := new LayerBuilding.LayerBuilder(config, disk);
      appsyncBuilder := new AppSyncBuilding.AppSyncBuilder(config, disk);
    }

    /** `BuilderManager(project_root)`: `None` is the `ValueError` for an invalid project structure. */
    static method Create(projectRoot: Path, disk: Disk, parse: string -> Option<seq<ImportNode>>)
      returns (m: Option<BuilderManager>)
      ensures m.Some? <==> Config(Canonical(projectRoot)).Validate(disk.fs)
      ensures m.Some? ==> fresh(m.value) && m.value.Valid() && m.value.disk == disk && m.value.parse == parse
      ensures m.Some? ==> m.value.config == Config(Canonical(projectRoot))
    {
      var config := Config(Canonical(projectRoot));
      if !config.Validate(disk.fs) {
        return None;
      }
      var manager := new BuilderManager(config, disk, parse);
      return Some(manager);
    }

    /** `_clean_build_artifacts()`; `ok` is false when `rmtree` raised. */
    method CleanBuildArtifacts() returns (ok: bool)
      modifies disk
      ensures (ok, disk.fs) == CleanArtifacts(config, old(disk.fs))
    {
      var cleaned := CleanupDirectory(disk.fs, config.Build());
      if cleaned.None? {
        return false;
      }
      disk.fs := cleaned.value;
      var done := CleanupDirectory(disk.fs, ExtractedDir(config));
      if done.None? {
        return false;
      }
      disk.fs := done.value;
      return true;
    }

    /** Steps 1 and 2 of `build_all()`: false when one of them raised. */
    method PrepareBuild() returns (ready: bool)
      modifies disk
      ensures Prepare(config, old(disk.fs)) == if ready then Ready(disk.fs) else Raised(disk.fs)
    {
      var cleaned := CleanBuildArtifacts();
      if !cleaned {
        return false;
      }
      var prepared := config.EnsureBuildDirs(disk.fs);
      if prepared.None? {
        return false;
      }
      disk.fs := prepared.value;
      return true;
    }

    /** One builder's `discover()`. */
    method DiscoverItems(kind: Component) returns (items: seq<string>)
      requires Valid()
      ensures Discovered(kind, config, disk.fs, items)
    {
      match kind
      case Layers => items := layerBuilder.Discover();
      case Functions => items := lambdaBuilder.Discover();
      case Schemas => items := appsyncBuilder.Discover();
    }

    /** One builder's `build(name)`. */
    method BuildItem(kind: Component, name: string) returns (ok: bool)
      requires Valid()
      modifies disk
      ensures BuildOf(kind, config, parse)(old(disk.fs), name, ok, disk.fs)
    {
      match kind
      case Layers => ok := layerBuilder.Build(name);
      case Functions =>
        ghost var order;
        ok, order := lambdaBuilder.Build(name);
        assert Collections.Enumerates(order, LambdaBuilding.LambdaDependencies(config, parse, old(disk.fs), name))
          && (ok, disk.fs) == LambdaBuilding.LambdaBuild(config, parse, old(disk.fs), name, order);
      case Schemas => ok := appsyncBuilder.Build(name);
    }

    /** `_build_components(builder)`: every discovered item is built, and any failure makes it false. */
    method BuildComponents(kind: Component) returns (ok: bool, ghost stage: Stage)
      requires Valid()
      modifies disk
      ensures StageRun(kind, config, parse, old(disk.fs), stage, ok, disk.fs)
    {
      var items := DiscoverItems(kind);
      if items == [] {
        return true, Stage([], [], [disk.fs]);
      }
      var failed: seq<string> := [];
      ghost var results: seq<bool> := [];
      ghost var states: seq<FileSystem> := [disk.fs];
      ghost var build := BuildOf(kind, config, parse);
      for i := 0 to |items|
        invariant |results| == i && |states| == i + 1
        invariant states[0] == old(disk.fs) && states[i] == disk.fs
        invariant BuiltPrefix(build, items, results, states, i)
        invariant failed == Failures(items[..i], results)
      {
        var built := BuildItem(kind, items[i]);
        if !built {
          failed := failed + [items[i]];
        }
        BuiltPrefixStep(build, items, results, states, i, built, disk.fs);
        results := results + [built];
        states := states + [disk.fs];
      }
      assert items[..|items|] == items;
      ok := failed == [];
      stage := Stage(items, results, states);
    }
    /** Steps 3 to 5 of `build_all()`: the three stages, each run whatever the one before returned. */
    method BuildStages() returns (allSuccess: bool, ghost stages: seq<Stage>, ghost states: seq<FileSystem>)
      requires Valid()
      modifies disk
      ensures StagesRun(config, parse, old(disk.fs), allSuccess, stages, states, disk.fs)
    {
      ghost var s0 := disk.fs;
      allSuccess := true;
      var layersOk, layers := BuildComponents(Layers);
      if !layersOk {
        allSuccess := false;
      }
      ghost var s1 := disk.fs;
      var functionsOk, functions := BuildComponents(Functions);
      if !functionsOk {
        allSuccess := false;
      }
      ghost var s2 := disk.fs;
      var schemasOk, schemas := BuildComponents(Schemas);
      if !schemasOk {
        allSuccess := false;
      }
      stages := [layers, functions, schemas];
      states := [s0, s1, s2, disk.fs];
      assert layersOk == Succeeded(layers) && functionsOk == Succeeded(functions) && schemasOk == Succeeded(schemas);
    }

    /** `build_all()`: `None` when cleaning or preparing the build directories raised. */
    method BuildAll() returns (r: Option<bool>, summary: Option<Summary>, ghost stages: seq<Stage>, ghost states: seq<FileSystem>)
      requires Valid()
      modifies disk
      ensures BuildAllRun(config, parse, old(disk.fs), r, summary, stages, states, disk.fs)
    {
      stages, states := [], [];
      var ready := PrepareBuild();
      if !ready {
        return None, None, stages, states;
      }
      var allSuccess;
      allSuccess, stages, states := BuildStages();
      summary := if allSuccess then Some(BuildSummary(config, disk.fs)) else None;
      r := Some(allSuccess);
    }
  }

  /** Inside `build_all`, a failing stage does not stop the later ones: all three always run. */
  lemma StagesAllRun(config: Config, parse: string -> Option<seq<ImportNode>>, prepared: FileSystem,
                     ok: bool, stages: seq<Stage>, states: seq<FileSystem>, after: FileSystem)
    requires StagesRun(config, parse, prepared, ok, stages, states, after)
    ensures |stages| == 3
    ensures Discovered(Layers, config, states[0], stages[0].items)
    ensures Discovered(Functions, config, states[1], stages[1].items)
    ensures Discovered(Schemas, config, states[2], stages[2].items)
    ensures ok <==> forall s, i :: 0 <= s < 3 && 0 <= i < |stages[s].results| ==> stages[s].results[i]
  {
    StageSucceeds(BuildOf(Layers, config, parse), states[0], stages[0], Succeeded(stages[0]), states[1]);
    StageSucceeds(BuildOf(Functions, config, parse), states[1], stages[1], Succeeded(stages[1]), states[2]);
    StageSucceeds(BuildOf(Schemas, config, parse), states[2], stages[2], Succeeded(stages[2]), states[3]);
  }

  /**
   * What `build_all()` returns: an exception exactly when cleaning or preparing raised, and otherwise
   * true exactly when every build of every stage returned true, with a summary only then.
   */
  lemma BuildAllOutcome(config: Config, parse: string -> Option<seq<ImportNode>>, fs: FileSystem,
                        r: Option<bool>, summary: Option<Summary>, stages: seq<Stage>, states: seq<FileSystem>, after: FileSystem)
    requires BuildAllRun(config, parse, fs, r, summary, stages, states, after)
    ensures r.None? <==> Prepare(config, fs).Raised?
    ensures r.None? ==> summary.None?
    ensures r.Some? ==> |stages| == 3
    ensures r.Some? ==> (r.value <==> forall s, i :: 0 <= s < 3 && 0 <= i < |stages[s].results| ==> stages[s].results[i])
    ensures summary.Some? <==> r == Some(true)
  {
    if r.Some? {
      StagesAllRun(config, parse, Prepare(config, fs).prepared, r.value, stages, states, after);
    }
  }
}
