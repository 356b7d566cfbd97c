/**
 * The dependency-tree analysis of `LambdaBuilder`: starting from a handler file, every Python file
 * is parsed for imports, each import is resolved to a file, and resolved files are walked in turn.
 * A shared `visited` set is consulted and extended before a file is read, so every path is processed
 * at most once and cycles end the walk. The two mutually recursive methods thread the `visited`
 * and `dependencies` sets that the source passes by reference.
 */
module DependencyWalker {
  import opened Wrappers
  import opened Strings
  import opened Files
  import opened Collections
  import opened ImportResolution

  /**
   * What the walk reads: the filesystem, the source root, the parser (`None` on a syntax error) and
   * the resolver that maps a module name imported from a file to a candidate path.
   */
  datatype Env = Env(fs: FileSystem, src: Path, parse: string -> Option<seq<ImportNode>>,
                     resolve: (ModuleName, Path) -> Option<Path>)

  /** The resolver is `_resolve_import`'s: standard library skipped, then relative or absolute resolution. */
  ghost predicate Resolves(env: Env) {
    forall name, f {:trigger ResolveTarget(env.fs, env.src, name, f)} ::
      env.resolve(name, f) == ResolveTarget(env.fs, env.src, name, f)
  }

  /** The environment of a walk over `fs` with source root `src`. */
  function WalkEnv(fs: FileSystem, src: Path, parse: string -> Option<seq<ImportNode>>): (env: Env)
    ensures Resolves(env) && env.fs == fs && env.src == src && env.parse == parse
  {
    Env(fs, src, parse, (name: ModuleName, f: Path) => ResolveTarget(fs, src, name, f))
  }

  /**
   * The module names a file's imports mention: none when the file is missing, is not a `.py` file,
   * cannot be read as text or does not parse (the source logs and swallows those errors).
   */
  function ImportNames(env: Env, f: Path): seq<ModuleName> {
    if !env.fs.Exists(f) || Suffix(Name(f)) != ".py" then []
    else match ReadText(env.fs, f)
      case None => []
      case Some(text) =>
        match env.parse(text)
        case None => []
        case Some(nodes) => ModuleNames(nodes)
  }

  /** The file an import of `name` from `f` adds to the dependencies, if any: a resolved target that exists. */
  function TargetOf(env: Env, name: ModuleName, f: Path): (r: Option<Path>)
    ensures r.Some? ==> env.fs.Exists(r.value)
  {
    var resolved := env.resolve(name, f);
    if resolved.Some? && env.fs.Exists(resolved.value) then resolved else None
  }

  /** The path an optional target contributes: itself, or nothing. */
  function Found(o: Option<Path>): set<Path> {
    match o
    case Some(t) => {t}
    case None => {}
  }

  /** The targets of the first `n` names imported from `f`. */
  function TargetsOf(env: Env, f: Path, names: seq<ModuleName>, n: nat): set<Path>
    requires n <= |names|
  {
    if n == 0 then {} else TargetsOf(env, f, names, n - 1) + Found(TargetOf(env, names[n - 1], f))
  }

  /** A path is a target of the first `n` imports iff one of them resolves to it. */
  lemma {:induction false} TargetsOfMembers(env: Env, f: Path, names: seq<ModuleName>, n: nat)
    requires n <= |names|
    ensures forall t :: t in TargetsOf(env, f, names, n) <==> exists i :: 0 <= i < n && TargetOf(env, names[i], f) == Some(t)
  {
    if n > 0 {
      TargetsOfMembers(env, f, names, n - 1);
    }
  }

  lemma TargetsOfCovered(env: Env, f: Path, names: seq<ModuleName>, i: nat, a: set<Path>)
    requires i < |names| && TargetsOf(env, f, names, i) <= a
    requires TargetOf(env, names[i], f).Some? ==> TargetOf(env, names[i], f).value in a
    ensures TargetsOf(env, f, names, i + 1) <= a
  {
  }

  /** The existing files that `f` imports. */
  function Targets(env: Env, f: Path): set<Path> {
    TargetsOf(env, f, ImportNames(env, f), |ImportNames(env, f)|)
  }

  /** The import graph: each file to the existing files it imports. */
  function Imports(env: Env): Path -> set<Path> {
    f => Targets(env, f)
  }

  /** A chain of files, each imported by the one before it. */
  ghost predicate IsWalk(g: Path -> set<Path>, p: seq<Path>) {
    |p| >= 1 && forall i :: 0 <= i < |p| - 1 ==> p[i + 1] in g(p[i])
  }

  /** `f` can be reached from `entry` through imports. */
  ghost predicate Reachable(env: Env, entry: Path, f: Path) {
    exists p :: IsWalk(Imports(env), p) && p[0] == entry && p[|p| - 1] == f
  }

  /** `t` is imported by some file reachable from `entry`. */
  ghost predicate ReachableTarget(env: Env, entry: Path, t: Path) {
    exists f :: Reachable(env, entry, f) && t in Targets(env, f)
  }

  lemma ReachableEntry(env: Env, entry: Path)
    ensures Reachable(env, entry, entry)
  {
    assert IsWalk(Imports(env), [entry]);
  }

  lemma WalkExtends(g: Path -> set<Path>, p: seq<Path>, t: Path)
    requires IsWalk(g, p) && t in g(p[|p| - 1])
    ensures IsWalk(g, p + [t])
  {
    var q := p + [t];
    forall i | 0 <= i < |q| - 1 ensures q[i + 1] in g(q[i]) {
      if i < |p| - 1 {
        assert q[i] == p[i] && q[i + 1] == p[i + 1];
      } else {
        assert q[i] == p[|p| - 1] && q[i + 1] == t;
      }
    }
  }

  lemma ReachableStep(env: Env, entry: Path, f: Path, t: Path)
    requires Reachable(env, entry, f) && t in Targets(env, f)
    ensures Reachable(env, entry, t)
  {
    var p :| IsWalk(Imports(env), p) && p[0] == entry && p[|p| - 1] == f;
    assert t in Imports(env)(f);
    WalkExtends(Imports(env), p, t);
    var q := p + [t];
    assert q[0] == entry && q[|q| - 1] == t;
  }

  /** Every file on a walk from a member of an import-closed set is in the set. */
  lemma {:induction false} WalkStaysInside(g: Path -> set<Path>, s: set<Path>, p: seq<Path>)
    requires IsWalk(g, p) && p[0] in s
    requires forall f :: f in s ==> g(f) <= s
    ensures p[|p| - 1] in s
  {
    if |p| > 1 {
      var q := p[..|p| - 1];
      assert forall i :: 0 <= i < |q| ==> q[i] == p[i];
      assert IsWalk(g, q);
      WalkStaysInside(g, s, q);
      assert p[|p| - 1] in g(p[|p| - 2]);
    }
  }

  /** Every path the walk can add to `visited`: the existing paths and the entry. */
  function Universe(env: Env, entry: Path): set<Path> {
    env.fs.files.Keys + env.fs.dirs + {entry, []}
  }

  /** What has been found so far is reachable from the entry. */
  ghost predicate Sound(env: Env, entry: Path, visited: set<Path>, dependencies: set<Path>) {
    visited <= ReachableFiles(env, entry) && dependencies <= ReachableTargets(env, entry)
  }

  ghost function ReachableFiles(env: Env, entry: Path): set<Path> {
    set f | f in Universe(env, entry) && Reachable(env, entry, f)
  }

  ghost function ReachableTargets(env: Env, entry: Path): set<Path> {
    set t | t in Universe(env, entry) && ReachableTarget(env, entry, t)
  }

  /** Every visited file whose processing has finished has its targets visited and recorded. */
  ghost predicate ClosedExcept(env: Env, visited: set<Path>, dependencies: set<Path>, pending: set<Path>) {
    forall f :: f in visited && f !in pending ==> Targets(env, f) <= dependencies && Targets(env, f) <= visited
  }

  /**
   * `_resolve_dependencies_recursive(file_path, visited, dependencies)`. `pending` (ghost) holds the
   * files further up the call stack, whose imports are still being walked; `processed` (ghost) lists the
   * files this call added to `visited`, each once.
   */
  method ResolveDependenciesRecursive(env: Env, file: Path, visited: set<Path>, dependencies: set<Path>,
                                      ghost entry: Path, ghost pending: set<Path>)
    returns (outVisited: set<Path>, outDependencies: set<Path>, ghost processed: seq<Path>)
    requires Resolves(env) && file in Universe(env, entry) && Reachable(env, entry, file)
    requires visited <= Universe(env, entry) && pending <= visited
    requires dependencies <= visited + {file}
    requires Sound(env, entry, visited, dependencies) && ClosedExcept(env, visited, dependencies, pending)
    ensures visited <= outVisited <= Universe(env, entry) && file in outVisited
    ensures dependencies <= outDependencies <= outVisited
    ensures Sound(env, entry, outVisited, outDependencies) && ClosedExcept(env, outVisited, outDependencies, pending)
    ensures NoDuplicates(processed) && forall p :: p in processed <==> p in outVisited && p !in visited
    decreases |Universe(env, entry) - visited|, 0
  {
    if file in visited {
      return visited, dependencies, [];
    }
    outVisited := visited + {file};
    outDependencies := dependencies;
    processed := [file];
    if !env.fs.Exists(file) || Suffix(Name(file)) != ".py" {
      return;
    }
    var content := ReadText(env.fs, file);
    if content.None? {
      return;
    }
    var tree := env.parse(content.value);
    if tree.None? {
      return;
    }
    var names := ModuleNames(tree.value);
    assert names == ImportNames(env, file);
    ghost var inner := pending + {file};
    var i := 0;
    while i < |names|
      invariant 0 <= i <= |names|
      invariant visited + {file} <= outVisited <= Universe(env, entry)
      invariant dependencies <= outDependencies <= outVisited
      invariant Sound(env, entry, outVisited, outDependencies)
      invariant ClosedExcept(env, outVisited, outDependencies, inner)
      invariant TargetsOf(env, file, names, i) <= outDependencies && TargetsOf(env, file, names, i) <= outVisited
      invariant NoDuplicates(processed) && forall p :: p in processed <==> p in outVisited && p !in visited
    {
      ShrinkingRemainder(Universe(env, entry), visited, outVisited, file);
      ghost var more: seq<Path>;
      assert names[i] in ImportNames(env, file);
      outVisited, outDependencies, more := ResolveImport(env, names[i], file, outVisited, outDependencies, entry, inner);
      NoDuplicatesConcat(processed, more);
      processed := processed + more;
      TargetsOfCovered(env, file, names, i, outDependencies);
      TargetsOfCovered(env, file, names, i, outVisited);
      i := i + 1;
    }
  }

  /** `_resolve_import(module_name, current_file, visited, dependencies)`. */
  method ResolveImport(env: Env, name: ModuleName, current: Path, visited: set<Path>, dependencies: set<Path>,
                       ghost entry: Path, ghost pending: set<Path>)
    returns (outVisited: set<Path>, outDependencies: set<Path>, ghost processed: seq<Path>)
    requires Resolves(env) && Reachable(env, entry, current) && name in ImportNames(env, current)
    requires visited <= Universe(env, entry) && pending <= visited
    requires dependencies <= visited
    requires Sound(env, entry, visited, dependencies) && ClosedExcept(env, visited, dependencies, pending)
    ensures visited <= outVisited <= Universe(env, entry)
    ensures dependencies <= outDependencies <= outVisited
    ensures Sound(env, entry, outVisited, outDependencies) && ClosedExcept(env, outVisited, outDependencies, pending)
    ensures TargetOf(env, name, current).Some? ==>
              TargetOf(env, name, current).value in outDependencies && TargetOf(env, name, current).value in outVisited
    ensures NoDuplicates(processed) && forall p :: p in processed <==> p in outVisited && p !in visited
    decreases |Universe(env, entry) - visited|, 1
  {
    outVisited, outDependencies, processed := visited, dependencies, [];
    var resolved := ClassifyImport(env, name, current);
    if resolved.Some? && env.fs.Exists(resolved.value) {
      var target := resolved.value;
      assert TargetOf(env, name, current) == Some(target);
      var names := ImportNames(env, current);
      var k :| 0 <= k < |names| && names[k] == name;
      TargetsOfMembers(env, current, names, |names|);
      assert target in Targets(env, current);
      ReachableStep(env, entry, current, target);
      outVisited, outDependencies, processed :=
        ResolveDependenciesRecursive(env, target, visited, dependencies + {target}, entry, pending);
    }
  }

  /**
   * The first half of `_resolve_import`: a standard-library name resolves to nothing, a name with a
   * leading dot goes to `_resolve_relative_import`, and any other to `_resolve_absolute_import`.
   */
  method ClassifyImport(env: Env, name: ModuleName, current: Path) returns (resolved: Option<Path>)
    requires Resolves(env)
    ensures resolved == env.resolve(name, current)
  {
    if IsStandardLibrary(name) {
      resolved := None;
    } else if StartsWith(name, ".") {
      resolved := ResolveRelativeImport(env.fs, name, current);
    } else {
      resolved := AbsoluteTarget(env.fs, env.src, name);
    }
    assert resolved == ResolveTarget(env.fs, env.src, name, current);
  }

  /**
   * `_analyze_dependency_tree(handler_file)`: the dependencies are exactly the existing files imported
   * by some file reachable from the handler (the handler itself only when such a file imports it back).
   */
  method AnalyzeDependencyTree(env: Env, handlerFile: Path) returns (r: set<Path>)
    requires Resolves(env)
    ensures forall t :: t in r <==> ReachableTarget(env, handlerFile, t)
    ensures forall t :: t in r ==> env.fs.Exists(t)
    ensures r == ReachableTargets(env, handlerFile)
  {
    ReachableEntry(env, handlerFile);
    var visited, dependencies;
    ghost var processed;
    visited, dependencies, processed := ResolveDependenciesRecursive(env, handlerFile, {}, {}, handlerFile, {});
    forall t | ReachableTarget(env, handlerFile, t) ensures t in dependencies {
      var f :| Reachable(env, handlerFile, f) && t in Targets(env, f);
      var p :| IsWalk(Imports(env), p) && p[0] == handlerFile && p[|p| - 1] == f;
      WalkStaysInside(Imports(env), visited, p);
    }
    ReachableTargetsExist(env, handlerFile);
    r := dependencies;
  }

  /** Every dependency is an existing path, since only existing targets are recorded. */
  lemma ReachableTargetsExist(env: Env, entry: Path)
    ensures forall t :: t in ReachableTargets(env, entry) ==> env.fs.Exists(t)
  {
    forall t | t in ReachableTargets(env, entry) ensures env.fs.Exists(t) {
      var f :| Reachable(env, entry, f) && t in Targets(env, f);
      TargetsOfMembers(env, f, ImportNames(env, f), |ImportNames(env, f)|);
      var i :| 0 <= i < |ImportNames(env, f)| && TargetOf(env, ImportNames(env, f)[i], f) == Some(t);
    }
  }

  /** Every target of a file exists. */
  lemma TargetExists(env: Env, f: Path, t: Path)
    requires t in Targets(env, f)
    ensures env.fs.Exists(t)
  {
    TargetsOfMembers(env, f, ImportNames(env, f), |ImportNames(env, f)|);
  }

  /** The targets of the first `n` names agree when each name's target does. */
  lemma {:induction false} TargetsOfAgree(ea: Env, eb: Env, f: Path, names: seq<ModuleName>, n: nat)
    requires n <= |names|
    requires forall i :: 0 <= i < n ==> TargetOf(ea, names[i], f) == TargetOf(eb, names[i], f)
    ensures TargetsOf(ea, f, names, n) == TargetsOf(eb, f, names, n)
  {
    if n > 0 {
      TargetsOfAgree(ea, eb, f, names, n - 1);
    }
  }

  /** On disks that agree besides a path that is neither a directory nor a `.py` file, each file has the same targets. */
  lemma TargetsAgree(a: FileSystem, b: FileSystem, z: Path, src: Path, parse: string -> Option<seq<ImportNode>>, f: Path)
    requires AgreeBesides(a, b, z)
    ensures Targets(WalkEnv(a, src, parse), f) == Targets(WalkEnv(b, src, parse), f)
  {
    var ea := WalkEnv(a, src, parse);
    var eb := WalkEnv(b, src, parse);
    if Suffix(Name(f)) == ".py" {
      PySuffix(Name(f));
      AgreeOnSources(a, b, z, f);
    }
    assert ImportNames(ea, f) == ImportNames(eb, f);
    var names := ImportNames(ea, f);
    forall i | 0 <= i < |names| ensures TargetOf(ea, names[i], f) == TargetOf(eb, names[i], f) {
      ResolveTargetAgrees(a, b, z, src, names[i], f);
      var r := ResolveTarget(a, src, names[i], f);
      if r.Some? {
        AgreeOnSources(a, b, z, r.value);
      }
    }
    TargetsOfAgree(ea, eb, f, names, |names|);
  }

  /**
   * The dependency analysis cannot see a path that is neither a directory nor a `.py` file: disks
   * that differ only there give the same dependencies.
   */
  lemma ReachableTargetsAgree(a: FileSystem, b: FileSystem, z: Path, src: Path, parse: string -> Option<seq<ImportNode>>,
                              entry: Path)
    requires AgreeBesides(a, b, z)
    ensures ReachableTargets(WalkEnv(a, src, parse), entry) == ReachableTargets(WalkEnv(b, src, parse), entry)
  {
    var ea := WalkEnv(a, src, parse);
    var eb := WalkEnv(b, src, parse);
    forall f ensures Targets(ea, f) == Targets(eb, f) {
      TargetsAgree(a, b, z, src, parse, f);
    }
    forall p ensures IsWalk(Imports(ea), p) <==> IsWalk(Imports(eb), p) {
    }
    forall t ensures ReachableTarget(ea, entry, t) <==> ReachableTarget(eb, entry, t) {
      forall f ensures Reachable(ea, entry, f) <==> Reachable(eb, entry, f) {
      }
    }
    forall t | t in ReachableTargets(ea, entry) ensures t in ReachableTargets(eb, entry) {
      var f :| Reachable(eb, entry, f) && t in Targets(eb, f);
      TargetExists(eb, f, t);
    }
    forall t | t in ReachableTargets(eb, entry) ensures t in ReachableTargets(ea, entry) {
      var f :| Reachable(ea, entry, f) && t in Targets(ea, f);
      TargetExists(ea, f, t);
    }
  }
}
