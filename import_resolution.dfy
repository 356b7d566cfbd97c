/**
 * How `LambdaBuilder` turns one imported module name into a file: standard-library names are
 * skipped, a leading dot selects relative resolution from the importing file, and anything
 * else is looked up below the source directory through a fixed list of candidates.
 */
module ImportResolution {
  import opened Wrappers
  import opened Strings
  import opened Files

  /** A dotted module name as the parser reports it; it never holds a path separator. */
  type ModuleName = s: string | '/' !in s

  /**
   * One import statement of a parsed module, in `ast.walk` order: `import a.b, c` or
   * `from <module> import …` with its count of leading dots (`level`), whose `moduleName` is
   * absent for `from . import x`.
   */
  datatype ImportNode = Import(names: seq<ModuleName>) | ImportFrom(moduleName: Option<ModuleName>, level: nat)

  /** The module names the walker resolves, in order: every `import` alias and every named `from` module. */
  function ModuleNames(nodes: seq<ImportNode>): seq<ModuleName> {
    if nodes == [] then [] else NodeNames(nodes[0]) + ModuleNames(nodes[1..])
  }

  /** A name is resolved iff some statement of the module contributes it. */
  lemma {:induction false} ModuleNamesMembers(nodes: seq<ImportNode>)
    ensures forall n :: n in ModuleNames(nodes) <==> exists k :: 0 <= k < |nodes| && n in NodeNames(nodes[k])
  {
    if nodes != [] {
      ModuleNamesMembers(nodes[1..]);
      forall n | n in ModuleNames(nodes[1..]) ensures exists k :: 1 <= k < |nodes| && n in NodeNames(nodes[k]) {
        var k :| 0 <= k < |nodes[1..]| && n in NodeNames(nodes[1..][k]);
        assert nodes[1..][k] == nodes[k + 1];
      }
      forall n, k | 1 <= k < |nodes| && n in NodeNames(nodes[k]) ensures n in ModuleNames(nodes[1..]) {
        assert nodes[1..][k - 1] == nodes[k];
      }
    }
  }

  /** The names one statement contributes; a `from` without a module name contributes none. */
  function NodeNames(node: ImportNode): seq<ModuleName> {
    match node
    case Import(names) => names
    case ImportFrom(moduleName, _) => if moduleName.Some? && moduleName.value != "" then [moduleName.value] else []
  }

  /** `from .x import y` reaches the resolver as the bare name `x`: the parser keeps the dots in `level`, which is not consulted. */
  lemma FromImportDropsLevel(m: ModuleName, level: nat)
    requires m != ""
    ensures ModuleNames([ImportFrom(Some(m), level)]) == [m]
    ensures ModuleNames([ImportFrom(None, level)]) == []
  {
    assert ModuleNames([ImportFrom(Some(m), level)]) == NodeNames(ImportFrom(Some(m), level)) + ModuleNames([]);
    assert ModuleNames([ImportFrom(None, level)]) == NodeNames(ImportFrom(None, level)) + ModuleNames([]);
  }

  const StandardLibraries: set<string> := {
    "json", "datetime", "typing", "pathlib", "os", "sys", "re", "ast",
    "shutil", "zipfile", "collections", "itertools", "functools",
    "asyncio", "threading", "multiprocessing", "logging", "unittest"
  }

  /** `_is_standard_library`: the part before the first dot is one of the listed modules. */
  predicate IsStandardLibrary(name: string) {
    Split(name, '.')[0] in StandardLibraries
  }

  lemma {:induction false} SplitHead(s: string, c: char)
    ensures c !in s ==> Split(s, c)[0] == s
    ensures c in s ==> StartsWith(s, Split(s, c)[0] + [c])
  {
    if s != [] {
      SplitHead(s[1..], c);
      assert s == [s[0]] + s[1..];
      if s[0] != c && c in s {
        assert c in s[1..];
      }
    }
  }

  lemma CharOfPrefix(s: string, p: string, i: int)
    ensures StartsWith(s, p) && 0 <= i < |p| ==> s[i] == p[i]
  {
    if StartsWith(s, p) && 0 <= i < |p| {
      assert s[..|p|][i] == p[i];
    }
  }

  lemma SameHead(s: string, a: string, b: string, c: char)
    requires c !in a && c !in b
    requires StartsWith(s, a + [c]) && StartsWith(s, b + [c])
    ensures a == b
  {
    CharOfPrefix(s, a + [c], |b|);
    CharOfPrefix(s, b + [c], |a|);
    if |a| < |b| {
      assert false;
    } else if |b| < |a| {
      assert false;
    } else {
      assert a == s[..|a|] == b;
    }
  }

  /** A name is skipped as standard library iff it is a listed module or a dotted name below one. */
  lemma StandardLibraryRoot(name: string)
    ensures IsStandardLibrary(name) <==> exists r :: r in StandardLibraries && (name == r || StartsWith(name, r + "."))
  {
    LibrariesUndotted();
    RootIn(name, StandardLibraries);
  }

  lemma RootIn(name: string, roots: set<string>)
    requires forall r :: r in roots ==> '.' !in r
    ensures Split(name, '.')[0] in roots <==> exists r :: r in roots && (name == r || StartsWith(name, r + "."))
  {
    var h := Split(name, '.')[0];
    SplitHead(name, '.');
    if h in roots {
      if '.' in name {
        assert StartsWith(name, h + ".");
      }
    }
    forall r | r in roots && (name == r || StartsWith(name, r + ".")) ensures h in roots {
      if name == r {
        assert h == name;
      } else {
        CharOfPrefix(name, r + ".", |r|);
        SameHead(name, h, r, '.');
      }
    }
  }

  lemma LibrariesUndotted()
    ensures forall r :: r in StandardLibraries ==> '.' !in r
  {
  }

  /** The number of leading dots of a name. */
  function LeadingDots(s: string): (n: nat)
    ensures n <= |s|
    ensures forall k :: 0 <= k < n ==> s[k] == '.'
    ensures n < |s| ==> s[n] != '.'
  {
    if s != [] && s[0] == '.' then 1 + LeadingDots(s[1..]) else 0
  }

  /** Going up `n` directories. */
  function Ascend(p: Path, n: nat): Path {
    if n == 0 then p else Parent(Ascend(p, n - 1))
  }

  /** Going up `n` directories keeps all but the last `n` segments. */
  lemma {:induction false} AscendDropsSegments(p: Path, n: nat)
    ensures Ascend(p, n) == p[..if n <= |p| then |p| - n else 0]
  {
    if n > 0 {
      AscendDropsSegments(p, n - 1);
    }
  }

  /**
   * `_resolve_relative_import`: strip the leading dots, go up one directory less than there were
   * dots from the importing file's directory, then prefer `<m>.py` over the package `<m>/__init__.py`.
   */
  function RelativeTarget(fs: FileSystem, name: ModuleName, current: Path): Option<Path> {
    var m := name[LeadingDots(name)..];
    if m == "" then None else ModuleLookup(fs, RelativeBase(name, current), m)
  }

  /** The lookup of module `m` in directory `dir`: the file `<m>.py`, else the package's `__init__.py`. */
  function ModuleLookup(fs: FileSystem, dir: Path, m: string): Option<Path> {
    var moduleFile := JoinPath(dir, m + ".py");
    if fs.Exists(moduleFile) then Some(moduleFile)
    else
      var package := JoinPath(dir, m);
      var init := JoinPath(package, "__init__.py");
      if fs.Exists(package) && fs.IsDir(package) && fs.Exists(init) then Some(init) else None
  }

  /** For a plain segment `m`: the file `<m>.py` wins, and failing it the package is found iff `<m>` is a directory holding `__init__.py`. */
  lemma ModuleLookupCharacterization(fs: FileSystem, dir: Path, m: string)
    requires '/' !in m && m != "" && m != "." && m[0] != '.'
    ensures fs.Exists(dir + [m + ".py"]) ==> ModuleLookup(fs, dir, m) == Some(dir + [m + ".py"])
    ensures !fs.Exists(dir + [m + ".py"]) ==>
              (ModuleLookup(fs, dir, m).Some? <==> fs.IsDir(dir + [m]) && fs.Exists(dir + [m, "__init__.py"])) &&
              (ModuleLookup(fs, dir, m).Some? ==> ModuleLookup(fs, dir, m).value == dir + [m, "__init__.py"])
  {
    LookupPaths(dir, m);
  }

  /** The three places `_resolve_relative_import` looks at, as paths. */
  lemma LookupPaths(dir: Path, m: string)
    requires '/' !in m && m != "" && m != "." && m[0] != '.'
    ensures JoinPath(dir, m + ".py") == dir + [m + ".py"]
    ensures JoinPath(dir, m) == dir + [m]
    ensures JoinPath(dir + [m], "__init__.py") == dir + [m, "__init__.py"]
  {
    JoinSuffixed(dir, m, ".py");
    JoinSegment(dir, m);
    InitCandidate(dir + [m]);
    assert dir + [m] + ["__init__.py"] == dir + [m, "__init__.py"];
  }

  /** The directory a relative name is looked up in: one level above the importing file per leading dot. */
  function RelativeBase(name: string, current: Path): Path {
    var dots := LeadingDots(name);
    Ascend(Parent(current), if dots == 0 then 0 else dots - 1)
  }

  /** With `n` leading dots the base directory is the one `n` levels above the importing file. */
  lemma RelativeBaseAscends(name: string, current: Path)
    requires StartsWith(name, ".")
    ensures var n := LeadingDots(name); RelativeBase(name, current) == current[..if n <= |current| then |current| - n else 0]
  {
    assert name[0] == '.';
    AscendDropsSegments(Parent(current), LeadingDots(name) - 1);
  }

  /** A name made only of dots resolves to nothing. */
  lemma RelativeDotsOnly(fs: FileSystem, name: ModuleName, current: Path)
    requires StartsWith(name, ".") && LeadingDots(name) == |name|
    ensures RelativeTarget(fs, name, current).None?
  {
  }

  /**
   * Relative resolution in plain path terms: below the base directory the module file `<m>.py` wins;
   * failing that, the package `<m>/__init__.py` is found iff `<m>` is a directory holding it.
   */
  lemma RelativeTargetCharacterization(fs: FileSystem, name: ModuleName, current: Path)
    requires StartsWith(name, ".") && LeadingDots(name) < |name|
    ensures var m := name[LeadingDots(name)..];
            var dir := RelativeBase(name, current);
            var r := RelativeTarget(fs, name, current);
            && (fs.Exists(dir + [m + ".py"]) ==> r == Some(dir + [m + ".py"]))
            && (!fs.Exists(dir + [m + ".py"]) ==>
                  (r.Some? <==> fs.IsDir(dir + [m]) && fs.Exists(dir + [m, "__init__.py"])) &&
                  (r.Some? ==> r.value == dir + [m, "__init__.py"]))
  {
    var n := LeadingDots(name);
    RemainderIsSegment(name, n);
    ModuleLookupCharacterization(fs, RelativeBase(name, current), name[n..]);
  }

  lemma RemainderIsSegment(name: ModuleName, n: nat)
    requires n == LeadingDots(name) && n < |name|
    ensures '/' !in name[n..]
    ensures name[n..] != "" && name[n..][0] != '.' && name[n..] != "."
  {
    var m := name[n..];
    forall k | 0 <= k < |m| ensures m[k] != '/' { assert m[k] == name[n + k]; }
    assert m[0] != '.';
  }

  /** `_resolve_relative_import` as written: count and strip the dots, climb, then look for the module file or package. */
  method ResolveRelativeImport(fs: FileSystem, moduleName: ModuleName, current: Path) returns (r: Option<Path>)
    ensures r == RelativeTarget(fs, moduleName, current)
  {
    var dots := 0;
    var rest: string := moduleName;
    while StartsWith(rest, ".")
      invariant 0 <= dots <= |moduleName| && rest == moduleName[dots..]
      invariant forall k :: 0 <= k < dots ==> moduleName[k] == '.'
      decreases |rest|
    {
      dots := dots + 1;
      rest := rest[1..];
    }
    LeadingDotsUnique(moduleName, dots);
    if rest == "" {
      return None;
    }
    var targetDir := Parent(current);
    var i := 0;
    while i < dots - 1
      invariant 0 <= i && (dots >= 1 ==> i <= dots - 1) && (dots == 0 ==> i == 0)
      invariant targetDir == Ascend(Parent(current), i)
    {
      targetDir := Parent(targetDir);
      i := i + 1;
    }
    assert targetDir == RelativeBase(moduleName, current);
    var moduleFile := JoinPath(targetDir, rest + ".py");
    if fs.Exists(moduleFile) {
      return Some(moduleFile);
    }
    var packageDir := JoinPath(targetDir, rest);
    if fs.Exists(packageDir) && fs.IsDir(packageDir) {
      var initFile := JoinPath(packageDir, "__init__.py");
      if fs.Exists(initFile) {
        return Some(initFile);
      }
    }
    return None;
  }

  /** The dot count is determined by the dots it covers and the character after them. */
  lemma {:induction false} LeadingDotsUnique(s: string, n: nat)
    requires n <= |s| && (forall k :: 0 <= k < n ==> s[k] == '.')
    requires !StartsWith(s[n..], ".")
    ensures LeadingDots(s) == n
  {
    if n == 0 {
      if s != [] { assert s[0..][0] == s[0]; }
    } else {
      assert s[1..][n - 1..] == s[n..];
      LeadingDotsUnique(s[1..], n - 1);
    }
  }

  /** The first candidate that exists. */
  function FirstExisting(fs: FileSystem, candidates: seq<Path>): (r: Option<Path>)
    ensures r.None? <==> forall i :: 0 <= i < |candidates| ==> !fs.Exists(candidates[i])
    ensures r.Some? ==> exists i :: 0 <= i < |candidates| && candidates[i] == r.value && fs.Exists(r.value) &&
                          forall j :: 0 <= j < i ==> !fs.Exists(candidates[j])
  {
    if candidates == [] then None
    else if fs.Exists(candidates[0]) then Some(candidates[0])
    else
      var r := FirstExisting(fs, candidates[1..]);
      assert r.Some? ==> exists i :: 0 <= i < |candidates| && candidates[i] == r.value && fs.Exists(r.value) &&
                           forall j :: 0 <= j < i ==> !fs.Exists(candidates[j]) by {
        if r.Some? {
          var i :| 0 <= i < |candidates[1..]| && candidates[1..][i] == r.value && fs.Exists(r.value) &&
                   forall j :: 0 <= j < i ==> !fs.Exists(candidates[1..][j]);
          assert candidates[i + 1] == r.value;
          forall j | 1 <= j < i + 1 ensures !fs.Exists(candidates[j]) { assert candidates[j] == candidates[1..][j - 1]; }
        }
      }
      assert r.None? ==> forall i :: 1 <= i < |candidates| ==> !fs.Exists(candidates[i]) by {
        if r.None? {
          forall i | 1 <= i < |candidates| ensures !fs.Exists(candidates[i]) { assert candidates[i] == candidates[1..][i - 1]; }
        }
      }
      r
  }

  /** `src / a / b / …` for the dotted parts of a name. */
  function PackagePath(base: Path, parts: seq<string>): Path
    decreases |parts|
  {
    if parts == [] then base else PackagePath(JoinPath(base, parts[0]), parts[1..])
  }

  /** `Path(str(p) + suffix)`: the suffix is glued onto the last segment. */
  function WithSuffix(p: Path, suffix: string): Path {
    if p == [] then [suffix] else Parent(p) + [Name(p) + suffix]
  }

  /** The five places `_resolve_absolute_import` looks, in order. */
  function AbsoluteCandidates(src: Path, name: ModuleName): seq<Path> {
    var parts := Split(name, '.');
    var last := parts[|parts| - 1];
    var package := PackagePath(src, parts);
    var file := JoinPath(src, name + ".py");
    var init := JoinPath(package, "__init__.py");
    var sibling := WithSuffix(package, ".py");
    if |parts| > 1 then
      [file, JoinPath(JoinPath(src, parts[0]), last + ".py"),
       JoinPath(JoinPath(src, Strings.Join(parts[..|parts| - 1], "/")), last + ".py"), init, sibling]
    else
      [file, init, sibling]
  }

  /** `_resolve_absolute_import`: the first existing candidate. */
  function AbsoluteTarget(fs: FileSystem, src: Path, name: ModuleName): Option<Path> {
    FirstExisting(fs, AbsoluteCandidates(src, name))
  }

  /** `_resolve_import`'s choice of rule, before it checks that the target exists. */
  function ResolveTarget(fs: FileSystem, src: Path, name: ModuleName, current: Path): Option<Path> {
    if IsStandardLibrary(name) then None
    else if StartsWith(name, ".") then RelativeTarget(fs, name, current)
    else AbsoluteTarget(fs, src, name)
  }

  lemma {:induction false} SplitAfterPrefix(x: string, y: string, c: char)
    requires c !in x
    ensures Split(x + [c] + y, c) == [x] + Split(y, c)
  {
    var s := x + [c] + y;
    if x == [] {
      assert s[1..] == y;
    } else {
      assert s[1..] == x[1..] + [c] + y;
      assert c !in x[1..] by { forall k | 0 <= k < |x[1..]| ensures x[1..][k] != c { assert x[1..][k] == x[k + 1]; } }
      SplitAfterPrefix(x[1..], y, c);
      assert [x[0]] + x[1..] == x;
    }
  }

  /** Splitting a join of separator-free pieces gives the pieces back. */
  lemma {:induction false} SplitJoin(parts: seq<string>, c: char)
    requires |parts| >= 1
    requires forall i :: 0 <= i < |parts| ==> c !in parts[i]
    ensures Split(Strings.Join(parts, [c]), c) == parts
  {
    if |parts| == 1 {
      SplitWithoutSeparator(parts[0], c);
    } else {
      SplitJoin(parts[1..], c);
      assert Strings.Join(parts, [c]) == parts[0] + [c] + Strings.Join(parts[1..], [c]);
      SplitAfterPrefix(parts[0], Strings.Join(parts[1..], [c]), c);
    }
  }

  lemma {:induction false} ProperOfPlain(parts: seq<string>)
    requires forall i :: 0 <= i < |parts| ==> parts[i] != "" && parts[i] != "."
    ensures Proper(parts) == parts
  {
    if parts != [] {
      ProperOfPlain(parts[1..]);
    }
  }

  lemma {:induction false} PackagePathPlain(base: Path, parts: seq<string>)
    requires forall i :: 0 <= i < |parts| ==> parts[i] != "" && '.' !in parts[i] && '/' !in parts[i]
    ensures PackagePath(base, parts) == base + parts
    decreases |parts|
  {
    if parts != [] {
      JoinSegment(base, parts[0]);
      assert parts[0] != "." by { assert "."[0] == '.'; }
      PackagePathPlain(base + [parts[0]], parts[1..]);
      assert base + [parts[0]] + parts[1..] == base + parts;
    }
  }

  /** The pieces of a module name split at its dots hold neither dots nor slashes. */
  lemma {:induction false} NameParts(name: ModuleName)
    ensures forall i :: 0 <= i < |Split(name, '.')| ==> '/' !in Split(name, '.')[i] && '.' !in Split(name, '.')[i]
  {
    var parts := Split(name, '.');
    JoinSplit(name, '.');
    forall i | 0 <= i < |parts| ensures '/' !in parts[i] {
      if '/' in parts[i] { SlashInJoin(parts, i, '.'); }
    }
  }

  /** A slash in one piece of a join occurs in the join. */
  lemma {:induction false} SlashInJoin(parts: seq<string>, i: nat, c: char)
    requires i < |parts| && '/' in parts[i]
    ensures '/' in Strings.Join(parts, [c])
  {
    if |parts| > 1 {
      assert Strings.Join(parts, [c]) == parts[0] + [c] + Strings.Join(parts[1..], [c]);
      if i > 0 {
        SlashInJoin(parts[1..], i - 1, c);
      }
    }
  }

  /** A join starts with the first character of its first piece. */
  lemma JoinFirstChar(parts: seq<string>, sep: string)
    requires |parts| >= 1 && parts[0] != ""
    ensures Strings.Join(parts, sep) != "" && Strings.Join(parts, sep)[0] == parts[0][0]
  {
    if |parts| > 1 {
      assert Strings.Join(parts, sep) == parts[0] + sep + Strings.Join(parts[1..], sep);
    }
  }

  /** Joining plain segments with `/` and appending the result to a path appends the segments. */
  lemma JoinPathOfJoined(base: Path, segments: seq<string>)
    requires |segments| >= 1
    requires forall i :: 0 <= i < |segments| ==> segments[i] != "" && '/' !in segments[i] && '.' !in segments[i]
    ensures JoinPath(base, Strings.Join(segments, "/")) == base + segments
  {
    var j := Strings.Join(segments, "/");
    SplitJoin(segments, '/');
    assert forall i :: 0 <= i < |segments| ==> segments[i] != "." by {
      forall i | 0 <= i < |segments| ensures segments[i] != "." { NotDot(segments[i]); }
    }
    ProperOfPlain(segments);
    JoinFirstChar(segments, "/");
    assert !StartsWith(j, "/") by { assert j[0] == segments[0][0]; assert segments[0][0] in segments[0]; }
  }

  lemma NotDot(x: string)
    requires '.' !in x
    ensures x != "."
  {
    assert "."[0] == '.';
  }

  /** `src / "<name>.py"` is one new segment. */
  lemma FirstCandidate(src: Path, name: ModuleName)
    ensures JoinPath(src, name + ".py") == src + [name + ".py"]
  {
    JoinSuffixed(src, name, ".py");
  }

  /**
   * For a dotted name whose parts are all non-empty, the five candidates are `src/<name>.py`,
   * `src/<first>/<last>.py`, `src/<all but last>/<last>.py`, `src/<all parts>/__init__.py`, and
   * `src/<all but last>/<last>.py` once more.
   */
  lemma DottedNameCandidates(src: Path, name: ModuleName)
    requires |Split(name, '.')| > 1
    requires forall i :: 0 <= i < |Split(name, '.')| ==> Split(name, '.')[i] != ""
    ensures var parts := Split(name, '.');
            var last := parts[|parts| - 1];
            var front := parts[..|parts| - 1];
            AbsoluteCandidates(src, name) ==
              [src + [name + ".py"], src + [parts[0], last + ".py"], src + front + [last + ".py"],
               src + parts + ["__init__.py"], src + front + [last + ".py"]]
  {
    var parts := Split(name, '.');
    var last := parts[|parts| - 1];
    var front := parts[..|parts| - 1];
    var package := PackagePath(src, parts);
    PlainParts(name);
    FirstCandidate(src, name);
    PackageCandidates(src, parts);
    DottedCandidates(src, parts);
  }

  /** For a name without dots the candidates are `src/<name>.py`, `src/<name>/__init__.py` and `src/<name>.py`. */
  lemma UndottedNameCandidates(src: Path, name: ModuleName)
    requires name != "" && '.' !in name
    ensures AbsoluteCandidates(src, name) == [src + [name + ".py"], src + [name, "__init__.py"], src + [name + ".py"]]
  {
    SplitWithoutSeparator(name, '.');
    FirstCandidate(src, name);
    PackageCandidates(src, [name]);
    AppendPair(src, name, "__init__.py");
    AppendSingleFront(src, name, name + ".py");
  }

  lemma AppendPair<T>(a: seq<T>, x: T, y: T)
    ensures a + [x] + [y] == a + [x, y]
  {
  }

  lemma AppendSingleFront<T>(a: seq<T>, x: T, y: T)
    ensures a + [x][..0] + [y] == a + [y]
  {
    assert [x][..0] == [];
  }

  lemma PlainParts(name: ModuleName)
    requires forall i :: 0 <= i < |Split(name, '.')| ==> Split(name, '.')[i] != ""
    ensures forall i :: 0 <= i < |Split(name, '.')| ==>
              Split(name, '.')[i] != "" && '/' !in Split(name, '.')[i] && '.' !in Split(name, '.')[i]
  {
    NameParts(name);
  }

  lemma PackageCandidates(src: Path, parts: seq<string>)
    requires |parts| >= 1
    requires forall i :: 0 <= i < |parts| ==> parts[i] != "" && '/' !in parts[i] && '.' !in parts[i]
    ensures JoinPath(PackagePath(src, parts), "__init__.py") == src + parts + ["__init__.py"]
    ensures WithSuffix(PackagePath(src, parts), ".py") == src + parts[..|parts| - 1] + [parts[|parts| - 1] + ".py"]
  {
    PackagePathPlain(src, parts);
    InitCandidate(src + parts);
    SuffixCandidate(src + parts[..|parts| - 1], parts[|parts| - 1]);
    SnocSplit(src, parts);
  }

  lemma SnocSplit<T>(a: seq<T>, b: seq<T>)
    requires |b| >= 1
    ensures a + b == a + b[..|b| - 1] + [b[|b| - 1]]
  {
    assert b == b[..|b| - 1] + [b[|b| - 1]];
  }

  lemma InitCandidate(p: Path)
    ensures JoinPath(p, "__init__.py") == p + ["__init__.py"]
  {
    assert "__init__.py"[0] == '_';
    JoinSegment(p, "__init__.py");
  }

  lemma SuffixCandidate(front: Path, last: string)
    ensures WithSuffix(front + [last], ".py") == front + [last + ".py"]
  {
    var p := front + [last];
    assert Parent(p) == front && Name(p) == last;
  }

  lemma DottedCandidates(src: Path, parts: seq<string>)
    requires |parts| > 1
    requires forall i :: 0 <= i < |parts| ==> parts[i] != "" && '/' !in parts[i] && '.' !in parts[i]
    ensures var last := parts[|parts| - 1];
            var front := parts[..|parts| - 1];
            && JoinPath(JoinPath(src, parts[0]), last + ".py") == src + [parts[0], last + ".py"]
            && JoinPath(JoinPath(src, Strings.Join(front, "/")), last + ".py") == src + front + [last + ".py"]
  {
    var last := parts[|parts| - 1];
    var front := parts[..|parts| - 1];
    assert '/' !in last + ".py" && (last + ".py")[0] == last[0] && last[0] in last;
    assert parts[0][0] in parts[0];
    NotDot(parts[0]);
    JoinSegment(src, parts[0]);
    JoinSegment(src + [parts[0]], last + ".py");
    JoinPathOfJoined(src, front);
    JoinSegment(src + front, last + ".py");
  }

  /** A package's `__init__.py` is a `.py` file. */
  lemma InitPy(package: Path)
    ensures EndsWith(Name(JoinPath(package, "__init__.py")), ".py")
  {
    JoinEnds(package, "__init__.py", ".py");
  }

  /** The sibling module of a package, `<package>.py`, is a `.py` file. */
  lemma SiblingPy(package: Path)
    ensures EndsWith(Name(WithSuffix(package, ".py")), ".py")
  {
    assert (Name(package) + ".py")[|Name(package)|..] == ".py";
  }

  /** Every place `_resolve_absolute_import` looks is a `.py` file. */
  lemma AbsoluteCandidatesPy(src: Path, name: ModuleName)
    ensures forall i :: 0 <= i < |AbsoluteCandidates(src, name)| ==> EndsWith(Name(AbsoluteCandidates(src, name)[i]), ".py")
  {
    var parts := Split(name, '.');
    var last := parts[|parts| - 1];
    var package := PackagePath(src, parts);
    PyJoin(src, name);
    PyJoin(JoinPath(src, parts[0]), last);
    PyJoin(JoinPath(src, Strings.Join(parts[..|parts| - 1], "/")), last);
    InitPy(package);
    SiblingPy(package);
    AllPy(AbsoluteCandidates(src, name), JoinPath(src, name + ".py"), JoinPath(JoinPath(src, parts[0]), last + ".py"),
          JoinPath(JoinPath(src, Strings.Join(parts[..|parts| - 1], "/")), last + ".py"),
          JoinPath(package, "__init__.py"), WithSuffix(package, ".py"), |parts| > 1);
  }

  /** Five `.py` paths, or three of them, listed. */
  lemma AllPy(c: seq<Path>, file: Path, first: Path, nested: Path, init: Path, sibling: Path, long: bool)
    requires EndsWith(Name(file), ".py") && EndsWith(Name(first), ".py") && EndsWith(Name(nested), ".py")
    requires EndsWith(Name(init), ".py") && EndsWith(Name(sibling), ".py")
    requires c == if long then [file, first, nested, init, sibling] else [file, init, sibling]
    ensures forall i :: 0 <= i < |c| ==> EndsWith(Name(c[i]), ".py")
  {
  }

  /** The first existing candidate is the same on disks that agree on `.py` files, when every candidate is one. */
  lemma {:induction false} FirstExistingAgrees(a: FileSystem, b: FileSystem, z: Path, candidates: seq<Path>)
    requires AgreeBesides(a, b, z)
    requires forall i :: 0 <= i < |candidates| ==> EndsWith(Name(candidates[i]), ".py")
    ensures FirstExisting(a, candidates) == FirstExisting(b, candidates)
  {
    if candidates != [] {
      AgreeOnSources(a, b, z, candidates[0]);
      FirstExistingAgrees(a, b, z, candidates[1..]);
    }
  }

  /** A `.py` file joined below `dir` exists on both disks or on neither. */
  lemma PyPathAgrees(a: FileSystem, b: FileSystem, z: Path, dir: Path, s: string)
    requires AgreeBesides(a, b, z) && EndsWith(s, ".py")
    ensures EndsWith(Name(JoinPath(dir, s)), ".py")
    ensures a.Exists(JoinPath(dir, s)) == b.Exists(JoinPath(dir, s))
  {
    JoinEnds(dir, s, ".py");
    AgreeOnSources(a, b, z, JoinPath(dir, s));
  }

  /** A module lookup finds a `.py` file, and the same one on disks that agree on `.py` files and directories. */
  lemma ModuleLookupAgrees(a: FileSystem, b: FileSystem, z: Path, dir: Path, m: string)
    requires AgreeBesides(a, b, z)
    ensures ModuleLookup(a, dir, m) == ModuleLookup(b, dir, m)
    ensures ModuleLookup(a, dir, m).Some? ==> EndsWith(Name(ModuleLookup(a, dir, m).value), ".py")
  {
    assert (m + ".py")[|m|..] == ".py";
    PyPathAgrees(a, b, z, dir, m + ".py");
    PyPathAgrees(a, b, z, JoinPath(dir, m), "__init__.py");
    AgreeOnSources(a, b, z, JoinPath(dir, m));
    LookupFrom(a, b, dir, m);
  }

  /** The lookup depends on the disk only through the module file, the package directory and its `__init__.py`. */
  lemma LookupFrom(a: FileSystem, b: FileSystem, dir: Path, m: string)
    requires a.Exists(JoinPath(dir, m + ".py")) == b.Exists(JoinPath(dir, m + ".py"))
    requires a.Exists(JoinPath(JoinPath(dir, m), "__init__.py")) == b.Exists(JoinPath(JoinPath(dir, m), "__init__.py"))
    requires a.IsDir(JoinPath(dir, m)) == b.IsDir(JoinPath(dir, m))
    requires EndsWith(Name(JoinPath(dir, m + ".py")), ".py")
    requires EndsWith(Name(JoinPath(JoinPath(dir, m), "__init__.py")), ".py")
    ensures ModuleLookup(a, dir, m) == ModuleLookup(b, dir, m)
    ensures ModuleLookup(a, dir, m).Some? ==> EndsWith(Name(ModuleLookup(a, dir, m).value), ".py")
  {
  }

  /**
   * `_resolve_import` points at a `.py` file, and disks that differ only at a path that is neither a
   * directory nor a `.py` file resolve every import alike.
   */
  lemma ResolveTargetAgrees(a: FileSystem, b: FileSystem, z: Path, src: Path, name: ModuleName, current: Path)
    requires AgreeBesides(a, b, z)
    ensures ResolveTarget(a, src, name, current) == ResolveTarget(b, src, name, current)
    ensures ResolveTarget(a, src, name, current).Some? ==> EndsWith(Name(ResolveTarget(a, src, name, current).value), ".py")
  {
    if !IsStandardLibrary(name) {
      if StartsWith(name, ".") {
        var m := name[LeadingDots(name)..];
        if m != "" {
          ModuleLookupAgrees(a, b, z, RelativeBase(name, current), m);
        }
      } else {
        AbsoluteCandidatesPy(src, name);
        FirstExistingAgrees(a, b, z, AbsoluteCandidates(src, name));
      }
    }
  }
}
