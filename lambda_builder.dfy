/**
 * `LambdaBuilder`: discovers the `*_handler.py` files and packages each handler as a zip archive
 * holding the handler and those files of its dependency tree that belong to the application,
 * domain and ORM packages (everything else ships in the layers).
 */
module LambdaBuilding {
  import opened Wrappers
  import opened Strings
  import opened Files
  import opened Ordering
  import opened Collections
  import opened Configuration
  import opened ImportResolution
  import opened DependencyWalker
  import opened Packaging

  /** A name `discover` picks up: it matches `*_handler.py` and starts with neither `_` nor `.`. */
  predicate IsHandlerFileName(name: string) {
    EndsWith(name, "_handler.py") && !StartsWith(name, "_") && !StartsWith(name, ".")
  }

  /** The handler names below `dir`: the stems of its handler files, none when `dir` is missing. */
  ghost function HandlerStems(fs: FileSystem, dir: Path): set<string> {
    if !fs.Exists(dir) then {} else set n | n in Children(fs, dir) && IsHandlerFileName(n) :: Stem(n)
  }

  /** The stem of a handler file name is the name without `.py`. */
  lemma HandlerStem(name: string)
    requires EndsWith(name, "_handler.py")
    ensures Stem(name) + ".py" == name
    ensures EndsWith(Stem(name), "_handler")
  {
    assert name[|name| - 3..] == "_handler.py"[8..];
    StemOfExtension(name, ".py");
    assert name == name[..|name| - 3] + name[|name| - 3..];
    assert Stem(name)[|Stem(name)| - 8..] == name[|name| - 11..|name| - 3];
  }

  /** A handler is named `<stem>_handler`, and `discover` offers it exactly when `<stem>_handler.py` is a non-hidden entry. */
  lemma HandlerStemsMembers(fs: FileSystem, dir: Path, n: string)
    ensures n in HandlerStems(fs, dir) <==> fs.Exists(dir) && n + ".py" in Children(fs, dir) && IsHandlerFileName(n + ".py")
    ensures n in HandlerStems(fs, dir) ==> EndsWith(n, "_handler")
  {
    if n in HandlerStems(fs, dir) {
      var m :| m in Children(fs, dir) && IsHandlerFileName(m) && Stem(m) == n;
      HandlerStem(m);
    }
    if fs.Exists(dir) && n + ".py" in Children(fs, dir) && IsHandlerFileName(n + ".py") {
      HandlerStem(n + ".py");
      StemInjective(n + ".py", Stem(n + ".py") + ".py");
    }
  }

  lemma StemInjective(a: string, b: string)
    requires a == b
    ensures Stem(a) == Stem(b)
  {
  }

  /**
   * `_should_include_file(relative_path)`: a file goes into the function archive when its first folder
   * is `application`, `domain` or `orm`, or when its name ends with `_handler.py`.
   */
  predicate ShouldIncludeFile(rel: Path) {
    (|rel| > 0 && rel[0] in ["application", "domain", "orm"]) || EndsWith(Name(rel), "_handler.py")
  }

  /** `PurePath.relative_to(base)`, which raises when `p` does not lie under `base`. */
  function RelativeTo(p: Path, base: Path): (r: Option<Path>)
    ensures r.Some? <==> IsPrefix(base, p)
    ensures r.Some? ==> base + r.value == p
  {
    if IsPrefix(base, p) then
      assert p == p[..|base|] + p[|base|..];
      Some(p[|base|..])
    else None
  }

  /**
   * One pass of `_copy_dependency_files`'s loop for the dependency `d`, with whether it counted as copied.
   * A file outside `src` or one the allow-list rejects is skipped; a failing `mkdir` or `copy2` is caught,
   * and only a successful copy counts (the directories `mkdir` made stay).
   */
  function CopyStep(fs: FileSystem, src: Path, dest: Path, d: Path): (FileSystem, bool) {
    match RelativeTo(d, src)
    case None => (fs, false)
    case Some(rel) =>
      if !ShouldIncludeFile(rel) then (fs, false)
      else match MakeDirs(fs, Parent(dest + rel))
        case None => (fs, false)
        case Some(made) =>
          match CopyFile(made, d, dest + rel)
          case None => (made, false)
          case Some(copied) => (copied, true)
  }

  /** The disk and count after one more pass of the loop. */
  function Advance(state: (FileSystem, nat), src: Path, dest: Path, d: Path): (FileSystem, nat) {
    var step := CopyStep(state.0, src, dest, d);
    (step.0, if step.1 then state.1 + 1 else state.1)
  }

  /** `_copy_dependency_files(dest, deps)` run over the dependencies in the order `order`: the final disk and the count. */
  function CopyAll(fs: FileSystem, src: Path, dest: Path, order: seq<Path>): (FileSystem, nat) {
    if order == [] then (fs, 0) else Advance(CopyAll(fs, src, dest, order[..|order| - 1]), src, dest, order[|order| - 1])
  }

  lemma CopyAllSnoc(fs: FileSystem, src: Path, dest: Path, order: seq<Path>, d: Path)
    ensures CopyAll(fs, src, dest, order + [d]) == Advance(CopyAll(fs, src, dest, order), src, dest, d)
  {
    assert (order + [d])[..|order|] == order;
  }

  /** `_fix_imports`: the content is left as it is. */
  function FixImports(content: string): string {
    content
  }

  /** The disk after `build` cleaned and recreated the staging directory, where the dependency analysis runs. */
  function Staged(fs: FileSystem, staging: Path): Option<FileSystem> {
    match CleanupDirectory(fs, staging)
    case None => None
    case Some(cleaned) => MakeDirs(cleaned, staging)
  }

  /** The files `build` analyses the dependencies on: none when it stops before the analysis. */
  ghost function LambdaDependencies(config: Config, parse: string -> Option<seq<ImportNode>>, fs: FileSystem, name: string): set<Path> {
    var handlerFile := JoinPath(config.Handlers(), name + ".py");
    if !fs.Exists(handlerFile) then {}
    else match Staged(fs, JoinPath(config.Lambdas(), name))
      case None => {}
      case Some(staged) => ReachableTargets(WalkEnv(staged, config.Src(), parse), handlerFile)
  }

  /**
   * `build(handler_name)` with the dependencies copied in the order `order`: whether it succeeded, and the
   * disk afterwards. A step that raises ends the build with `False`, leaving the disk as that step found it.
   */
  ghost function LambdaBuild(config: Config, parse: string -> Option<seq<ImportNode>>, fs: FileSystem, name: string,
                             order: seq<Path>): (bool, FileSystem)
  {
    var handlerFile := JoinPath(config.Handlers(), name + ".py");
    var staging := JoinPath(config.Lambdas(), name);
    var zip := JoinPath(config.Lambdas(), name + ".zip");
    if !fs.Exists(handlerFile) then (false, fs)
    else match CleanupDirectory(fs, staging)
      case None => (false, fs)
      case Some(cleaned) =>
        match MakeDirs(cleaned, staging)
        case None => (false, cleaned)
        case Some(staged) => PackageHandler(config.Src(), staged, handlerFile, staging, zip, order)
  }

  /** The rest of `build` once the staging directory exists: copy the handler and its dependencies, then archive. */
  ghost function PackageHandler(src: Path, staged: FileSystem, handlerFile: Path, staging: Path, zip: Path,
                                order: seq<Path>): (bool, FileSystem)
  {
    match ReadText(staged, handlerFile)
    case None => (false, staged)
    case Some(text) =>
      match WriteFile(staged, JoinPath(staging, Name(handlerFile)), Source(FixImports(text)))
      case None => (false, staged)
      case Some(withHandler) => FinishArchive(CopyAll(withHandler, src, staging, order).0, staging, zip)
  }

  /** A dependency that `_copy_dependency_files` copies: a file under `src` that the allow-list accepts. */
  ghost predicate IncludedFile(fs: FileSystem, src: Path, d: Path) {
    d in fs.files && IsPrefix(src, d) && ShouldIncludeFile(d[|src|..])
  }

  /** The archive entries the dependencies contribute: each included file under its path relative to `src`. */
  /** The paths, relative to `src`, the included dependencies are copied to. */
  ghost function IncludedPaths(fs: FileSystem, src: Path, dependencies: set<Path>): set<Path> {
    set d | d in dependencies && IncludedFile(fs, src, d) :: d[|src|..]
  }

  /** The path `rel` is the dependency `src + rel`. */
  lemma IncludedPathsMembers(fs: FileSystem, src: Path, dependencies: set<Path>)
    ensures forall rel :: rel in IncludedPaths(fs, src, dependencies) <==>
              src + rel in dependencies && IncludedFile(fs, src, src + rel)
  {
    forall rel | rel in IncludedPaths(fs, src, dependencies)
      ensures src + rel in dependencies && IncludedFile(fs, src, src + rel)
    {
      var d :| d in dependencies && IncludedFile(fs, src, d) && d[|src|..] == rel;
      assert d == d[..|src|] + d[|src|..];
    }
    forall rel | src + rel in dependencies && IncludedFile(fs, src, src + rel)
      ensures rel in IncludedPaths(fs, src, dependencies)
    {
      assert (src + rel)[|src|..] == rel;
    }
  }

  /** The archive entries of the included dependencies, keyed by their path relative to `src`. */
  ghost function DependencyEntries(fs: FileSystem, src: Path, dependencies: set<Path>): map<Path, Content> {
    IncludedPathsMembers(fs, src, dependencies);
    map rel | rel in IncludedPaths(fs, src, dependencies) :: fs.files[src + rel]
  }


  /**
   * The staging directory `dest` while the dependencies are copied into it, compared with the disk `start`
   * before the loop: the files under `dest` are `written`, nothing outside `dest` has changed, no file
   * lies on the way to `dest`, and no directory takes the place of a path in `reserved` (where files go).
   */
  ghost predicate Staging(fs: FileSystem, start: FileSystem, dest: Path, reserved: set<Path>, written: map<Path, Content>) {
    StagedFiles(fs, start, dest, reserved, written) && StagedDirs(fs, start, dest, reserved)
  }

  ghost predicate StagedFiles(fs: FileSystem, start: FileSystem, dest: Path, reserved: set<Path>, written: map<Path, Content>) {
    && (forall rel :: dest + rel in fs.files <==> rel in written)
    && (forall rel :: rel in written ==> fs.files[dest + rel] == written[rel])
    && (forall q :: !IsPrefix(dest, q) ==> (q in fs.files <==> q in start.files))
    && (forall q :: !IsPrefix(dest, q) && q in fs.files ==> fs.files[q] == start.files[q])
    && (forall q :: q in fs.files && IsPrefix(q, dest) ==> q == [])
    && written.Keys <= reserved && [] !in reserved
  }

  ghost predicate StagedDirs(fs: FileSystem, start: FileSystem, dest: Path, reserved: set<Path>) {
    && (forall q :: !IsPrefix(dest, q) ==> (q in fs.dirs <==> q in start.dirs))
    && Prefixes(dest) <= start.dirs && dest in fs.dirs
    && (forall r :: r in reserved ==> dest + r !in fs.dirs)
  }

  /**
   * What copying `d` needs: when `d` passes the allow-list, it lies outside `dest`, no reserved path is an
   * ancestor of where it goes, and a file `d` has a reserved place.
   */
  ghost predicate Clear(start: FileSystem, src: Path, dest: Path, reserved: set<Path>, d: Path) {
    IsPrefix(src, d) && ShouldIncludeFile(d[|src|..]) ==>
      && !IsPrefix(dest, d)
      && (forall r :: r in reserved ==> !IsPrefix(r, Parent(d[|src|..])))
      && (d in start.files ==> d[|src|..] in reserved)
  }

  /** A path the allow-list accepts has at least one segment. */
  lemma IncludedNotEmpty(rel: Path)
    requires ShouldIncludeFile(rel)
    ensures rel != []
  {
  }

  /** Creating the parent of a copy, which no reserved path lies on the way to, succeeds and keeps the staging invariant. */
  lemma MakeDirsKeeps(fs: FileSystem, start: FileSystem, dest: Path, reserved: set<Path>, written: map<Path, Content>, target: Path)
    requires Staging(fs, start, dest, reserved, written)
    requires IsPrefix(dest, target)
    requires forall r :: r in reserved ==> !IsPrefix(dest + r, target)
    ensures MakeDirs(fs, target).Some?
    ensures Staging(MakeDirs(fs, target).value, start, dest, reserved, written)
  {
    forall q | q in fs.files && q != [] ensures !IsPrefix(q, target) {
      if |q| <= |dest| {
        assert IsPrefix(q, target) ==> IsPrefix(q, dest);
      } else {
        var w := q[|dest|..];
        assert IsPrefix(q, target) ==> q == dest + w by {
          if IsPrefix(q, target) {
            assert q[..|dest|] == target[..|dest|];
          }
        }
      }
    }
    var made := MakeDirs(fs, target).value;
    forall q | !IsPrefix(dest, q) && q in Prefixes(target) ensures q in start.dirs {
      assert IsPrefix(q, dest);
      assert q in Prefixes(dest);
    }
  }

  /** Writing a reserved path below the staging directory, whose parent is a directory, records it as written. */
  lemma WriteKeeps(fs: FileSystem, start: FileSystem, dest: Path, reserved: set<Path>, written: map<Path, Content>, rel: Path, c: Content)
    requires Staging(fs, start, dest, reserved, written)
    requires rel in reserved && fs.IsDir(Parent(dest + rel))
    ensures WriteFile(fs, dest + rel, c).Some?
    ensures Staging(WriteFile(fs, dest + rel, c).value, start, dest, reserved, written[rel := c])
  {
    var after := WriteFile(fs, dest + rel, c).value;
    assert StagedDirs(after, start, dest, reserved);
    WriteFilesKeeps(fs, after, start, dest, reserved, written, rel, c);
  }

  lemma WriteFilesKeeps(fs: FileSystem, after: FileSystem, start: FileSystem, dest: Path, reserved: set<Path>,
                        written: map<Path, Content>, rel: Path, c: Content)
    requires StagedFiles(fs, start, dest, reserved, written) && rel in reserved
    requires after.files == fs.files[dest + rel := c]
    ensures StagedFiles(after, start, dest, reserved, written[rel := c])
  {
    forall r ensures dest + r in after.files <==> r in written[rel := c] {
    }
    forall q | q in after.files && IsPrefix(q, dest) ensures q == [] {
    }
    assert IsPrefix(dest, dest + rel);
  }

  /** One pass of the loop keeps the staging invariant and copies `d` exactly when it is an included file. */
  lemma CopyStepKeeps(fs: FileSystem, start: FileSystem, src: Path, dest: Path, reserved: set<Path>, written: map<Path, Content>, d: Path)
    requires Staging(fs, start, dest, reserved, written) && Clear(start, src, dest, reserved, d)
    ensures CopyStep(fs, src, dest, d).1 == IncludedFile(start, src, d)
    ensures Staging(CopyStep(fs, src, dest, d).0, start, dest, reserved,
                    if IncludedFile(start, src, d) then written[d[|src|..] := start.files[d]] else written)
  {
    if IsPrefix(src, d) && ShouldIncludeFile(d[|src|..]) {
      var rel := d[|src|..];
      IncludedNotEmpty(rel);
      var target := Parent(dest + rel);
      assert target == dest + Parent(rel);
      forall r | r in reserved ensures !IsPrefix(dest + r, target) {
        PrefixAppend(dest, r, Parent(rel));
      }
      MakeDirsKeeps(fs, start, dest, reserved, written, target);
      var made := MakeDirs(fs, target).value;
      assert d in made.files <==> d in start.files;
      if d in start.files {
        assert made.IsDir(target) by {
          if target != [] {
            assert target in Prefixes(target);
            assert target !in made.files by { assert IsPrefix(target, target); }
          }
        }
        WriteKeeps(made, start, dest, reserved, written, rel, start.files[d]);
      }
    }
  }

  /** The files under the staging directory after copying the dependencies in `order`, starting from `base`. */
  ghost function Written(start: FileSystem, src: Path, base: map<Path, Content>, order: seq<Path>): map<Path, Content> {
    if order == [] then base
    else
      var before := Written(start, src, base, order[..|order| - 1]);
      var d := order[|order| - 1];
      if IncludedFile(start, src, d) then before[d[|src|..] := start.files[d]] else before
  }

  /** How many of the dependencies in `order` are included files. */
  ghost function CountIncluded(start: FileSystem, src: Path, order: seq<Path>): nat {
    if order == [] then 0
    else CountIncluded(start, src, order[..|order| - 1]) + if IncludedFile(start, src, order[|order| - 1]) then 1 else 0
  }

  /** The copy loop keeps the staging invariant, writes every included file, and counts exactly those. */
  lemma {:induction false} CopyAllKeeps(start: FileSystem, src: Path, dest: Path, reserved: set<Path>,
                                        base: map<Path, Content>, order: seq<Path>)
    requires Staging(start, start, dest, reserved, base)
    requires forall d :: d in order ==> Clear(start, src, dest, reserved, d)
    ensures Staging(CopyAll(start, src, dest, order).0, start, dest, reserved, Written(start, src, base, order))
    ensures CopyAll(start, src, dest, order).1 == CountIncluded(start, src, order)
  {
    if order != [] {
      var front := order[..|order| - 1];
      var d := order[|order| - 1];
      assert forall e :: e in front ==> e in order;
      CopyAllKeeps(start, src, dest, reserved, base, front);
      CopyStepKeeps(CopyAll(start, src, dest, front).0, start, src, dest, reserved, Written(start, src, base, front), d);
    }
  }

  /** The dependencies `_copy_dependency_files` copies and counts. */
  ghost function IncludedFiles(start: FileSystem, src: Path, dependencies: set<Path>): set<Path> {
    set d | d in dependencies && IncludedFile(start, src, d)
  }

  lemma MapPlusUpdate<K, V>(a: map<K, V>, b: map<K, V>, k: K, v: V)
    ensures a + b[k := v] == (a + b)[k := v]
  {
  }

  /** Adding one dependency adds its entry when it is an included file. */
  lemma DependencyEntriesAdd(fs: FileSystem, src: Path, earlier: set<Path>, d: Path)
    ensures DependencyEntries(fs, src, earlier + {d}) ==
              if IncludedFile(fs, src, d) then DependencyEntries(fs, src, earlier)[d[|src|..] := fs.files[d]]
              else DependencyEntries(fs, src, earlier)
  {
    IncludedPathsMembers(fs, src, earlier);
    IncludedPathsMembers(fs, src, earlier + {d});
    if IncludedFile(fs, src, d) {
      assert d == src + d[|src|..] by { assert d == d[..|src|] + d[|src|..]; }
    } else {
      assert IncludedPaths(fs, src, earlier + {d}) == IncludedPaths(fs, src, earlier);
    }
  }

  /** The files written by the loop are the handler's and the dependency entries, whatever the order. */
  lemma {:induction false} WrittenEntries(start: FileSystem, src: Path, base: map<Path, Content>, order: seq<Path>,
                                          dependencies: set<Path>)
    requires forall d :: d in order <==> d in dependencies
    ensures Written(start, src, base, order) == base + DependencyEntries(start, src, dependencies)
  {
    if order == [] {
      assert dependencies == {};
      assert IncludedPaths(start, src, dependencies) == {};
    } else {
      var front := order[..|order| - 1];
      var d := order[|order| - 1];
      var earlier := set e | e in front;
      assert dependencies == earlier + {d} by {
        assert order == front + [d];
      }
      WrittenEntries(start, src, base, front, earlier);
      DependencyEntriesAdd(start, src, earlier, d);
      if IncludedFile(start, src, d) {
        MapPlusUpdate(base, DependencyEntries(start, src, earlier), d[|src|..], start.files[d]);
      }
    }
  }

  /** The count the loop returns is the number of included dependencies. */
  lemma {:induction false} CountIncludedFiles(start: FileSystem, src: Path, order: seq<Path>, dependencies: set<Path>)
    requires Enumerates(order, dependencies)
    ensures CountIncluded(start, src, order) == |IncludedFiles(start, src, dependencies)|
  {
    if order == [] {
      assert dependencies == {};
      assert IncludedFiles(start, src, dependencies) == {};
    } else {
      var d := order[|order| - 1];
      EnumerationFront(order, dependencies);
      CountIncludedFiles(start, src, order[..|order| - 1], dependencies - {d});
      if IncludedFile(start, src, d) {
        assert IncludedFiles(start, src, dependencies) == IncludedFiles(start, src, dependencies - {d}) + {d};
      } else {
        assert IncludedFiles(start, src, dependencies) == IncludedFiles(start, src, dependencies - {d});
      }
    }
  }

  /**
   * `_copy_dependency_files` into a prepared staging directory: the files under it become the ones it held
   * and the entries of the included dependencies, and the count is the number of included dependencies.
   */
  lemma CopyAllResult(start: FileSystem, src: Path, dest: Path, reserved: set<Path>, base: map<Path, Content>,
                      order: seq<Path>, dependencies: set<Path>)
    requires Staging(start, start, dest, reserved, base)
    requires Enumerates(order, dependencies)
    requires forall d :: d in dependencies ==> Clear(start, src, dest, reserved, d)
    ensures Staging(CopyAll(start, src, dest, order).0, start, dest, reserved,
                    base + DependencyEntries(start, src, dependencies))
    ensures CopyAll(start, src, dest, order).1 == |IncludedFiles(start, src, dependencies)|
  {
    CopyAllKeeps(start, src, dest, reserved, base, order);
    WrittenEntries(start, src, base, order, dependencies);
    CountIncludedFiles(start, src, order, dependencies);
  }

  /**
   * The disk after the archive of `dest` was written to `zip` and `dest` removed, compared with `start`:
   * the archive holds `entries`, nothing is left under `dest`, and every other path is as it was.
   */
  ghost predicate Packed(done: FileSystem, start: FileSystem, dest: Path, zip: Path, entries: map<Path, Content>) {
    && zip in done.files && done.files[zip] == Archive(entries)
    && (forall q :: IsPrefix(dest, q) ==> q !in done.files && q !in done.dirs)
    && (forall q :: !IsPrefix(dest, q) && q != zip ==> (q in done.files <==> q in start.files))
    && (forall q :: !IsPrefix(dest, q) && q != zip && q in done.files ==> done.files[q] == start.files[q])
    && (forall q :: !IsPrefix(dest, q) ==> (q in done.dirs <==> q in start.dirs))
  }

  /** `_create_zip` of a staged directory next to it, then `cleanup_directory`, succeed and archive what was written. */
  lemma PackStaging(fs: FileSystem, start: FileSystem, dest: Path, zip: Path, reserved: set<Path>, written: map<Path, Content>)
    requires Staging(fs, start, dest, reserved, written)
    requires zip != [] && !IsPrefix(dest, zip) && zip !in start.dirs
    requires start.IsDir(Parent(zip)) && !IsPrefix(dest, Parent(zip))
    ensures CreateZip(fs, dest, zip).Some?
    ensures CleanupDirectory(CreateZip(fs, dest, zip).value, dest).Some?
    ensures Packed(CleanupDirectory(CreateZip(fs, dest, zip).value, dest).value, start, dest, zip, written)
  {
    ZipStaging(fs, start, dest, zip, reserved, written);
    var zipped := FileSystem(fs.files[zip := Archive(written)], fs.dirs);
    assert dest !in zipped.files by { assert dest + [] == dest; }
    assert IsPrefix(dest, dest);
  }

  /** `_create_zip` of a staged directory archives exactly the files written into it. */
  lemma ZipStaging(fs: FileSystem, start: FileSystem, dest: Path, zip: Path, reserved: set<Path>, written: map<Path, Content>)
    requires Staging(fs, start, dest, reserved, written)
    requires zip != [] && !IsPrefix(dest, zip) && zip !in start.dirs
    requires start.IsDir(Parent(zip)) && !IsPrefix(dest, Parent(zip))
    ensures CreateZip(fs, dest, zip) == Some(FileSystem(fs.files[zip := Archive(written)], fs.dirs))
  {
    var c := if fs.Exists(zip) then FileSystem(fs.files - {zip}, fs.dirs) else fs;
    assert (if fs.Exists(zip) then Unlink(fs, zip) else Some(fs)) == Some(c);
    assert c.IsDir(Parent(zip));
    ArchiveWritten(fs, c, start, dest, zip, reserved, written);
    MapRemoveUpdate(fs.files, zip, Archive(written));
  }

  lemma ArchiveWritten(fs: FileSystem, c: FileSystem, start: FileSystem, dest: Path, zip: Path, reserved: set<Path>,
                       written: map<Path, Content>)
    requires StagedFiles(fs, start, dest, reserved, written) && !IsPrefix(dest, zip)
    requires c.files == fs.files - {zip} || c.files == fs.files
    ensures FilesUnder(c, dest) == written
  {
    var entries := FilesUnder(c, dest);
    forall rel ensures rel in entries <==> rel in written {
      assert dest + rel != zip by { assert IsPrefix(dest, dest + rel); }
    }
    forall rel | rel in entries ensures entries[rel] == written[rel] {
      assert dest + rel != zip by { assert IsPrefix(dest, dest + rel); }
    }
  }

  /** Writing `entry` into an empty staging directory makes it the staging directory holding just that entry. */
  lemma WriteEntry(fs: FileSystem, start: FileSystem, staging: Path, entry: string, c: Content, reserved: set<Path>)
    requires staging != [] && Empty(fs, staging) && Outside(fs, start, staging)
    requires [entry] in reserved && [] !in reserved
    ensures WriteFile(fs, staging + [entry], c).Some?
    ensures var w := WriteFile(fs, staging + [entry], c).value;
              Staging(w, w, staging, reserved, map[[entry] := c]) && Outside(w, start, staging)
  {
    assert staging in Prefixes(staging);
    assert Parent(staging + [entry]) == staging;
    assert IsPrefix(staging, staging + [entry]);
    var w := FileSystem(fs.files[staging + [entry] := c], fs.dirs);
    assert WriteFile(fs, staging + [entry], c) == Some(w);
    forall rel ensures staging + rel in w.files <==> rel in map[[entry] := c] {
      assert IsPrefix(staging, staging + rel);
      AppendCancels(staging, rel, [entry]);
    }
    forall r | r in reserved ensures staging + r !in w.dirs {
      assert IsPrefix(staging, staging + r);
    }
  }

  /**
   * With files as leaves below `src`, a nothing below the handler entry's place in `src`, every included
   * dependency can be copied: its place is reserved and no other reserved place lies on its way.
   */
  lemma DependenciesClear(w: FileSystem, src: Path, staging: Path, entry: string, dependencies: set<Path>)
    requires forall q :: IsPrefix(src, q) ==> !IsPrefix(staging, q)
    requires forall d :: d in dependencies && IsPrefix(src, d) ==> w.Exists(d)
    requires forall p, q :: p in w.files && w.Exists(q) && IsPrefix(src, p) && IsPrefix(p, q) ==> p == q
    requires forall q :: w.Exists(q) && IsPrefix(src + [entry], q) ==> q == src + [entry]
    ensures forall d :: d in dependencies ==>
              Clear(w, src, staging, {[entry]} + IncludedPaths(w, src, dependencies), d)
  {
    var reserved := {[entry]} + IncludedPaths(w, src, dependencies);
    IncludedPathsMembers(w, src, dependencies);
    forall d | d in dependencies && IsPrefix(src, d) && ShouldIncludeFile(d[|src|..])
      ensures Clear(w, src, staging, reserved, d)
    {
      var rel := d[|src|..];
      assert d == src + rel by { assert d == d[..|src|] + d[|src|..]; }
      assert IsPrefix(Parent(d), d);
      assert Parent(d) == src + Parent(rel);
      forall r | r in reserved ensures !IsPrefix(r, Parent(rel)) {
        if IsPrefix(r, Parent(rel)) {
          PrefixAppend(src, r, Parent(rel));
          PrefixTransitive(src + r, Parent(d), d);
          assert false;
        }
      }
      if d in w.files {
        assert rel in IncludedPaths(w, src, dependencies);
      }
    }
  }

  /** Two disks that agree below `src` give the same dependency entries. */
  lemma DependencyEntriesAgree(a: FileSystem, b: FileSystem, src: Path, dependencies: set<Path>)
    requires forall q :: IsPrefix(src, q) ==> (q in a.files <==> q in b.files)
    requires forall q :: IsPrefix(src, q) && q in a.files ==> a.files[q] == b.files[q]
    ensures DependencyEntries(a, src, dependencies) == DependencyEntries(b, src, dependencies)
  {
    IncludedPathsMembers(a, src, dependencies);
    IncludedPathsMembers(b, src, dependencies);
    forall rel ensures IsPrefix(src, src + rel) { }
    assert IncludedPaths(a, src, dependencies) == IncludedPaths(b, src, dependencies);
  }

  lemma PackedArchived(done: FileSystem, w: FileSystem, fs: FileSystem, staging: Path, zip: Path, entries: map<Path, Content>)
    requires staging != [] && Packed(done, w, staging, zip, entries) && Outside(w, fs, staging)
    ensures Archived(done, fs, staging, zip, entries)
  {
  }

  /** Paths below `src` are never below the build directory's `staging`, which leaves the root through `build`. */
  lemma SourceNotStaged(config: Config, staging: Path)
    requires IsPrefix(config.Build(), staging)
    ensures forall q :: IsPrefix(config.Src(), q) ==> !IsPrefix(staging, q)
    ensures forall q :: IsPrefix(config.Src(), q) ==> !IsPrefix(q, staging)
  {
    var n := |config.projectRoot|;
    assert config.Src()[n] == "src" && staging[n] == config.Build()[n] == "build";
    forall q | IsPrefix(config.Src(), q) ensures !IsPrefix(staging, q) && !IsPrefix(q, staging) {
      assert q[n] == config.Src()[n];
    }
  }

  /** Below `src`, a disk that differs from the tree `fs` only at `staging` and the way to it is a tree too. */
  lemma TreeBelowSource(w: FileSystem, fs: FileSystem, config: Config, staging: Path, entry: string)
    requires IsPrefix(config.Build(), staging) && Outside(w, fs, staging) && IsTree(fs)
    requires forall q :: fs.Exists(q) && IsPrefix(config.Src() + [entry], q) ==> q == config.Src() + [entry]
    ensures forall q :: IsPrefix(config.Src(), q) ==> (w.Exists(q) <==> fs.Exists(q))
    ensures forall q :: IsPrefix(config.Src(), q) ==> (q in w.files <==> q in fs.files)
    ensures forall q :: IsPrefix(config.Src(), q) && q in w.files ==> w.files[q] == fs.files[q]
    ensures forall p, q :: p in w.files && w.Exists(q) && IsPrefix(config.Src(), p) && IsPrefix(p, q) ==> p == q
    ensures forall q :: w.Exists(q) && IsPrefix(config.Src() + [entry], q) ==> q == config.Src() + [entry]
  {
    var src := config.Src();
    SourceNotStaged(config, staging);
    forall p, q | p in w.files && w.Exists(q) && IsPrefix(src, p) && IsPrefix(p, q) ensures p == q {
      PrefixTransitive(src, p, q);
    }
    forall q | w.Exists(q) && IsPrefix(src + [entry], q) ensures q == src + [entry] {
      PrefixTransitive(src, src + [entry], q);
    }
  }

  /** A just-created staging directory: it exists, everything on the way to it is a directory, and nothing lies below it. */
  ghost predicate Empty(fs: FileSystem, staging: Path) {
    && Prefixes(staging) <= fs.dirs
    && (forall q :: q in fs.files && IsPrefix(q, staging) ==> q == [])
    && (forall q :: IsPrefix(staging, q) ==> q !in fs.files)
    && (forall q :: IsPrefix(staging, q) && q in fs.dirs ==> q == staging)
  }

  /** Cleaning and recreating a staging directory no file lies on the way to succeed and leave it empty. */
  lemma FreshStaging(fs: FileSystem, staging: Path)
    requires staging != []
    requires forall q :: q in fs.files && q != [] ==> !IsPrefix(q, staging)
    requires fs.Exists(staging) || forall q :: IsPrefix(staging, q) ==> q !in fs.files && q !in fs.dirs
    ensures Staged(fs, staging).Some?
    ensures Empty(Staged(fs, staging).value, staging) && Outside(Staged(fs, staging).value, fs, staging)
  {
    assert IsPrefix(staging, staging);
    var cleaned := if fs.Exists(staging) then RemoveTree(fs, staging) else fs;
    assert CleanupDirectory(fs, staging) == Some(cleaned);
    assert forall q :: IsPrefix(staging, q) ==> q !in cleaned.files && q !in cleaned.dirs;
    var staged := FileSystem(cleaned.files, cleaned.dirs + Prefixes(staging));
    assert Staged(fs, staging) == Some(staged);
    forall q | IsPrefix(staging, q) && q in staged.dirs ensures q == staging {
      assert q in Prefixes(staging);
    }
  }

  /** On a tree, cleaning and recreating a staging directory no file lies on the way to succeed and leave it empty. */
  lemma FreshStagingOf(fs: FileSystem, staging: Path)
    requires staging != [] && IsTree(fs)
    requires forall q :: q in fs.files && q != [] ==> !IsPrefix(q, staging)
    ensures Staged(fs, staging).Some?
    ensures Empty(Staged(fs, staging).value, staging) && Outside(Staged(fs, staging).value, fs, staging)
  {
    assert fs.Exists(staging) || forall q :: IsPrefix(staging, q) ==> q !in fs.files && q !in fs.dirs by {
      if !fs.Exists(staging) {
        forall q | IsPrefix(staging, q) ensures q !in fs.files && q !in fs.dirs {
        }
      }
    }
    FreshStaging(fs, staging);
  }

  /** The disk a tree `fs` leaves `build` with for the dependency analysis, and the build's archive entries are keyed on. */
  ghost predicate BuildableHandler(config: Config, fs: FileSystem, name: string) {
    && name != "" && name != "." && '/' !in name && IsTree(fs)
    && config.Handlers() + [name + ".py"] in fs.files && fs.files[config.Handlers() + [name + ".py"]].Source?
    && (forall q :: q in fs.files && q != [] ==> !IsPrefix(q, config.Lambdas() + [name]))
    && config.Lambdas() + [name + ".zip"] !in fs.dirs
    && (forall q :: fs.Exists(q) && IsPrefix(config.Src() + [name + ".py"], q) ==> q == config.Src() + [name + ".py"])
  }

  /** The places in the staging directory the build writes to: the handler's and the included dependencies'. */
  ghost function Reserved(fs: FileSystem, src: Path, name: string, dependencies: set<Path>): set<Path> {
    {[name + ".py"]} + IncludedPaths(fs, src, dependencies)
  }

  /**
   * The steps of `build` before the copy loop succeed on a buildable handler: the staging directory is
   * recreated empty and the handler is written into it, and every dependency whose places below `src`
   * exist can be copied.
   */
  lemma PrepareStaging(config: Config, fs: FileSystem, name: string, dependencies: set<Path>)
    requires BuildableHandler(config, fs, name)
    requires forall d :: d in dependencies && IsPrefix(config.Src(), d) ==> fs.Exists(d)
    ensures var staging := config.Lambdas() + [name];
            var handlerFile := config.Handlers() + [name + ".py"];
            && Staged(fs, staging).Some?
            && ReadText(Staged(fs, staging).value, handlerFile) == Some(fs.files[handlerFile].text)
            && WriteFile(Staged(fs, staging).value, staging + [name + ".py"], fs.files[handlerFile]).Some?
            && var w := WriteFile(Staged(fs, staging).value, staging + [name + ".py"], fs.files[handlerFile]).value;
               && Staging(w, w, staging, Reserved(w, config.Src(), name, dependencies), map[[name + ".py"] := fs.files[handlerFile]])
               && Outside(w, fs, staging)
               && (forall d :: d in dependencies ==> Clear(w, config.Src(), staging, Reserved(w, config.Src(), name, dependencies), d))
               && DependencyEntries(w, config.Src(), dependencies) == DependencyEntries(fs, config.Src(), dependencies)
  {
    var src := config.Src();
    var entry := name + ".py";
    var handlerFile := config.Handlers() + [entry];
    var staging := config.Lambdas() + [name];
    assert IsPrefix(config.Build(), staging) && IsPrefix(src, handlerFile);
    SourceNotStaged(config, staging);
    FreshStagingOf(fs, staging);
    var staged := Staged(fs, staging).value;
    var text := fs.files[handlerFile];
    assert !ShouldIncludeFile([]) && (src + [])[|src|..] == [];
    IncludedPathsMembers(staged, src, dependencies);
    WriteEntry(staged, fs, staging, entry, text, Reserved(staged, src, name, dependencies));
    var w := WriteFile(staged, staging + [entry], text).value;
    TreeBelowSource(w, fs, config, staging, entry);
    DependencyEntriesAgree(w, staged, src, dependencies);
    assert Reserved(w, src, name, dependencies) == Reserved(staged, src, name, dependencies);
    DependenciesClear(w, src, staging, entry, dependencies);
    DependencyEntriesAgree(w, fs, src, dependencies);
  }

  /** The dependencies `build` finds below `src` exist on the disk it started from. */
  lemma DependenciesExist(config: Config, parse: string -> Option<seq<ImportNode>>, fs: FileSystem, name: string)
    requires BuildableHandler(config, fs, name)
    ensures forall d :: d in LambdaDependencies(config, parse, fs, name) && IsPrefix(config.Src(), d) ==> fs.Exists(d)
  {
    var staging := config.Lambdas() + [name];
    assert IsPrefix(config.Build(), staging);
    SourceNotStaged(config, staging);
    FreshStagingOf(fs, staging);
    LambdaDependenciesOf(config, parse, fs, name);
    ReachableTargetsExist(WalkEnv(Staged(fs, staging).value, config.Src(), parse), config.Handlers() + [name + ".py"]);
  }

  /** The paths `build` computes for a plain handler name. */
  lemma BuildPaths(config: Config, name: string)
    requires name != "" && name != "." && '/' !in name
    ensures JoinPath(config.Handlers(), name + ".py") == config.Handlers() + [name + ".py"]
    ensures JoinPath(config.Lambdas(), name) == config.Lambdas() + [name]
    ensures JoinPath(config.Lambdas(), name + ".zip") == config.Lambdas() + [name + ".zip"]
    ensures JoinPath(config.Lambdas() + [name], Name(config.Handlers() + [name + ".py"])) == config.Lambdas() + [name] + [name + ".py"]
  {
    JoinSuffixed(config.Handlers(), name, ".py");
    JoinSegment(config.Lambdas(), name);
    JoinSuffixed(config.Lambdas(), name, ".zip");
    JoinSuffixed(config.Lambdas() + [name], name, ".py");
  }

  /** `build` returns `True` with the disk `done` when each of its steps succeeds. */
  lemma LambdaBuildSucceeds(config: Config, parse: string -> Option<seq<ImportNode>>, fs: FileSystem, name: string,
                            order: seq<Path>, handlerFile: Path, staging: Path, zip: Path,
                            staged: FileSystem, w: FileSystem, zipped: FileSystem, done: FileSystem)
    requires JoinPath(config.Handlers(), name + ".py") == handlerFile && handlerFile in fs.files
    requires JoinPath(config.Lambdas(), name) == staging && JoinPath(config.Lambdas(), name + ".zip") == zip
    requires fs.files[handlerFile].Source?
    requires Staged(fs, staging) == Some(staged) && ReadText(staged, handlerFile) == Some(fs.files[handlerFile].text)
    requires WriteFile(staged, JoinPath(staging, Name(handlerFile)), Source(fs.files[handlerFile].text)) == Some(w)
    requires CreateZip(CopyAll(w, config.Src(), staging, order).0, staging, zip) == Some(zipped)
    requires CleanupDirectory(zipped, staging) == Some(done)
    ensures LambdaBuild(config, parse, fs, name, order) == (true, done)
  {
    PackageSucceeds(config.Src(), staged, handlerFile, staging, zip, order, fs.files[handlerFile].text, w, zipped, done);
  }

  /** Copying the handler, archiving and cleaning up return `True` with the disk `done` when each succeeds. */
  lemma PackageSucceeds(src: Path, staged: FileSystem, handlerFile: Path, staging: Path, zip: Path, order: seq<Path>,
                        text: string, w: FileSystem, zipped: FileSystem, done: FileSystem)
    requires ReadText(staged, handlerFile) == Some(text)
    requires WriteFile(staged, JoinPath(staging, Name(handlerFile)), Source(text)) == Some(w)
    requires CreateZip(CopyAll(w, src, staging, order).0, staging, zip) == Some(zipped)
    requires CleanupDirectory(zipped, staging) == Some(done)
    ensures PackageHandler(src, staged, handlerFile, staging, zip, order) == (true, done)
  {
  }

  /**
   * `build(name)` on a buildable handler: the build succeeds, and the archive holds the handler under its
   * file name and every included dependency under its path relative to `src` (a dependency with the
   * handler's file name replaces it, as the later copy does); nothing else on the disk changes but the
   * directories on the way to the staging directory.
   */
  lemma LambdaBuildArchive(config: Config, parse: string -> Option<seq<ImportNode>>, fs: FileSystem, name: string,
                           order: seq<Path>)
    requires BuildableHandler(config, fs, name)
    requires Enumerates(order, LambdaDependencies(config, parse, fs, name))
    ensures LambdaBuild(config, parse, fs, name, order).0
    ensures Archived(LambdaBuild(config, parse, fs, name, order).1, fs, config.Lambdas() + [name],
                     config.Lambdas() + [name + ".zip"],
                     map[[name + ".py"] := fs.files[config.Handlers() + [name + ".py"]]] +
                     DependencyEntries(fs, config.Src(), LambdaDependencies(config, parse, fs, name)))
  {
    var handlerFile := config.Handlers() + [name + ".py"];
    var staging := config.Lambdas() + [name];
    var zip := config.Lambdas() + [name + ".zip"];
    DependenciesExist(config, parse, fs, name);
    StagedBuild(config, fs, name, order, LambdaDependencies(config, parse, fs, name));
    var staged := Staged(fs, staging).value;
    var w := WriteFile(staged, staging + [name + ".py"], Source(fs.files[handlerFile].text)).value;
    var zipped := CreateZip(CopyAll(w, config.Src(), staging, order).0, staging, zip).value;
    BuildPaths(config, name);
    LambdaBuildSucceeds(config, parse, fs, name, order, handlerFile, staging, zip, staged, w, zipped,
                        CleanupDirectory(zipped, staging).value);
  }

  /** Each step of `build` on a buildable handler succeeds, and the disk ends up archived as the theorem above says. */
  lemma StagedBuild(config: Config, fs: FileSystem, name: string, order: seq<Path>, dependencies: set<Path>)
    requires BuildableHandler(config, fs, name) && Enumerates(order, dependencies)
    requires forall d :: d in dependencies && IsPrefix(config.Src(), d) ==> fs.Exists(d)
    ensures var handlerFile := config.Handlers() + [name + ".py"];
            var staging := config.Lambdas() + [name];
            var zip := config.Lambdas() + [name + ".zip"];
            && Staged(fs, staging).Some?
            && ReadText(Staged(fs, staging).value, handlerFile) == Some(fs.files[handlerFile].text)
            && var w := WriteFile(Staged(fs, staging).value, staging + [name + ".py"], Source(fs.files[handlerFile].text));
               && w.Some?
               && var zipped := CreateZip(CopyAll(w.value, config.Src(), staging, order).0, staging, zip);
                  && zipped.Some?
                  && CleanupDirectory(zipped.value, staging).Some?
                  && Archived(CleanupDirectory(zipped.value, staging).value, fs, staging, zip,
                              map[[name + ".py"] := fs.files[handlerFile]] + DependencyEntries(fs, config.Src(), dependencies))
  {
    var src := config.Src();
    var entry := name + ".py";
    var handlerFile := config.Handlers() + [entry];
    var staging := config.Lambdas() + [name];
    var zip := config.Lambdas() + [name + ".zip"];
    PrepareStaging(config, fs, name, dependencies);
    var w := WriteFile(Staged(fs, staging).value, staging + [entry], fs.files[handlerFile]).value;
    var base := map[[entry] := fs.files[handlerFile]];
    assert zip != staging by { assert zip[|zip| - 1] != staging[|staging| - 1]; }
    assert Parent(zip) == config.Lambdas() && IsPrefix(config.Lambdas(), staging);
    CopyAndPack(w, fs, src, staging, zip, Reserved(w, src, name, dependencies), base, order, dependencies);
  }

  /**
   * The copy loop, `_create_zip` and the final `cleanup_directory` on a prepared staging directory: the
   * archive holds what the directory held and the included dependencies, and the directory is gone.
   */
  lemma CopyAndPack(w: FileSystem, fs: FileSystem, src: Path, staging: Path, zip: Path, reserved: set<Path>,
                    base: map<Path, Content>, order: seq<Path>, dependencies: set<Path>)
    requires staging != [] && Staging(w, w, staging, reserved, base) && Outside(w, fs, staging)
    requires Enumerates(order, dependencies)
    requires forall d :: d in dependencies ==> Clear(w, src, staging, reserved, d)
    requires zip != [] && !IsPrefix(staging, zip) && zip !in w.dirs
    requires w.IsDir(Parent(zip)) && !IsPrefix(staging, Parent(zip))
    ensures CreateZip(CopyAll(w, src, staging, order).0, staging, zip).Some?
    ensures CleanupDirectory(CreateZip(CopyAll(w, src, staging, order).0, staging, zip).value, staging).Some?
    ensures Archived(CleanupDirectory(CreateZip(CopyAll(w, src, staging, order).0, staging, zip).value, staging).value,
                     fs, staging, zip, base + DependencyEntries(w, src, dependencies))
  {
    var entries := base + DependencyEntries(w, src, dependencies);
    var copied := CopyAll(w, src, staging, order).0;
    CopyAllResult(w, src, staging, reserved, base, order, dependencies);
    PackStaging(copied, w, staging, zip, reserved, entries);
    var done := CleanupDirectory(CreateZip(copied, staging, zip).value, staging).value;
    PackedArchived(done, w, fs, staging, zip, entries);
  }

  /** `build` analyses the dependencies on the disk it staged; for a buildable handler that staging succeeds. */
  lemma LambdaDependenciesOf(config: Config, parse: string -> Option<seq<ImportNode>>, fs: FileSystem, name: string)
    requires BuildableHandler(config, fs, name) && Staged(fs, config.Lambdas() + [name]).Some?
    ensures LambdaDependencies(config, parse, fs, name) ==
              ReachableTargets(WalkEnv(Staged(fs, config.Lambdas() + [name]).value, config.Src(), parse),
                               config.Handlers() + [name + ".py"])
  {
    JoinSuffixed(config.Handlers(), name, ".py");
    JoinSegment(config.Lambdas(), name);
  }

  /** The copy loop writes only below `dest`. */
  lemma {:induction false} CopyAllFrame(fs: FileSystem, src: Path, dest: Path, zip: Path, order: seq<Path>)
    ensures FilesKept(CopyAll(fs, src, dest, order).0, fs, dest, zip)
  {
    if order != [] {
      var front := order[..|order| - 1];
      var d := order[|order| - 1];
      CopyAllFrame(fs, src, dest, zip, front);
      var before := CopyAll(fs, src, dest, front).0;
      match RelativeTo(d, src)
      case None =>
      case Some(rel) =>
        if ShouldIncludeFile(rel) && MakeDirs(before, Parent(dest + rel)).Some? {
          var made := MakeDirs(before, Parent(dest + rel)).value;
          assert IsPrefix(dest, dest + rel);
          if d in made.files && dest + rel in made.dirs {
            assert IsPrefix(dest, dest + rel + [Name(d)]);
          }
        }
    }
  }

  /**
   * Whether it succeeds or not, `build` changes no file outside the staging directory but the archive:
   * every step writes below the staging directory, except `_create_zip`, which replaces the archive.
   */
  lemma LambdaBuildFrame(config: Config, parse: string -> Option<seq<ImportNode>>, fs: FileSystem, name: string,
                         order: seq<Path>)
    requires '/' !in name
    ensures FilesKept(LambdaBuild(config, parse, fs, name, order).1, fs, JoinPath(config.Lambdas(), name),
                      JoinPath(config.Lambdas(), name + ".zip"))
  {
    var handlerFile := JoinPath(config.Handlers(), name + ".py");
    var staging := JoinPath(config.Lambdas(), name);
    var zip := JoinPath(config.Lambdas(), name + ".zip");
    if fs.Exists(handlerFile) && CleanupDirectory(fs, staging).Some? {
      var cleaned := CleanupDirectory(fs, staging).value;
      assert FilesKept(cleaned, fs, staging, zip);
      if MakeDirs(cleaned, staging).Some? {
        var staged := MakeDirs(cleaned, staging).value;
        assert FilesKept(staged, fs, staging, zip);
        HandlerFileName(config, name);
        StagedFrame(config.Src(), fs, staged, handlerFile, staging, zip, order);
      }
    }
  }

  /** A missing handler file ends `build` with `False` before the staging directory is touched. */
  lemma LambdaBuildNeedsHandler(config: Config, parse: string -> Option<seq<ImportNode>>, fs: FileSystem, name: string,
                                order: seq<Path>)
    ensures !fs.Exists(JoinPath(config.Handlers(), name + ".py")) ==> LambdaBuild(config, parse, fs, name, order) == (false, fs)
    ensures LambdaBuild(config, parse, fs, name, order).0 ==> fs.Exists(JoinPath(config.Handlers(), name + ".py"))
  {
  }

  /** The handler file's name is `<name>.py`, which does not start with `/`. */
  lemma HandlerFileName(config: Config, name: string)
    requires '/' !in name
    ensures !StartsWith(Name(JoinPath(config.Handlers(), name + ".py")), "/")
  {
    JoinSuffixed(config.Handlers(), name, ".py");
    assert (name + ".py")[0] != '/' by { if name != [] { assert name[0] in name; } }
  }

  lemma StagedFrame(src: Path, fs: FileSystem, staged: FileSystem, handlerFile: Path, staging: Path, zip: Path,
                    order: seq<Path>)
    requires !StartsWith(Name(handlerFile), "/") && FilesKept(staged, fs, staging, zip)
    ensures FilesKept(PackageHandler(src, staged, handlerFile, staging, zip, order).1, fs, staging, zip)
  {
    PackageHandlerFrame(src, staged, handlerFile, staging, zip, order);
    FilesKeptTrans(PackageHandler(src, staged, handlerFile, staging, zip, order).1, staged, fs, staging, zip);
  }

  lemma PackageHandlerFrame(src: Path, staged: FileSystem, handlerFile: Path, staging: Path, zip: Path, order: seq<Path>)
    requires !StartsWith(Name(handlerFile), "/")
    ensures FilesKept(PackageHandler(src, staged, handlerFile, staging, zip, order).1, staged, staging, zip)
  {
    if ReadText(staged, handlerFile).Some? {
      var text := ReadText(staged, handlerFile).value;
      var target := JoinPath(staging, Name(handlerFile));
      if WriteFile(staged, target, Source(FixImports(text))).Some? {
        var withHandler := WriteFile(staged, target, Source(FixImports(text))).value;
        StagingTargetBelow(staging, Name(handlerFile));
        CopyAllFrame(withHandler, src, staging, zip, order);
        var copied := CopyAll(withHandler, src, staging, order).0;
        FilesKeptTrans(copied, withHandler, staged, staging, zip);
        FinishArchiveFrame(copied, staging, zip);
        FilesKeptTrans(FinishArchive(copied, staging, zip).1, copied, staged, staging, zip);
      }
    }
  }

  /** Where the handler is written: below the staging directory, unless its name is a path that leaves it. */
  lemma StagingTargetBelow(staging: Path, name: string)
    ensures StartsWith(name, "/") || IsPrefix(staging, JoinPath(staging, name))
  {
    if !StartsWith(name, "/") {
      assert JoinPath(staging, name)[..|staging|] == staging;
    }
  }



  class LambdaBuilder {
    const config: Config
    const disk: Disk
    /** `ast.parse` followed by the import-node walk: `None` on a syntax error. */
    const parse: string -> Option<seq<ImportNode>>

    constructor (config: Config, disk: Disk, parse: string -> Option<seq<ImportNode>>)
      ensures this.config == config && this.disk == disk && this.parse == parse
    {
      this.config := config;
      this.disk := disk;
      this.parse := parse;
    }

    /** `discover()`: the handler names, sorted, each once. */
    method Discover() returns (handlers: seq<string>)
      ensures StrictlySorted(handlers)
      ensures forall n :: n in handlers <==> n in HandlerStems(disk.fs, config.Handlers())
    {
      var dir := config.Handlers();
      if !disk.fs.Exists(dir) {
        return [];
      }
      var names := Children(disk.fs, dir);
      var rest := names;
      var found: seq<string> := [];
      while rest != {}
        invariant rest <= names
        invariant forall n :: n in found <==> exists m :: m in names && m !in rest && IsHandlerFileName(m) && Stem(m) == n
        invariant Distinct(found)
        decreases |rest|
      {
        var m :| m in rest;
        if IsHandlerFileName(m) {
          forall i | 0 <= i < |found| ensures found[i] != Stem(m) {
            assert found[i] in found;
            var m' :| m' in names && m' !in rest && IsHandlerFileName(m') && Stem(m') == found[i];
            HandlerStem(m);
            HandlerStem(m');
          }
          found := found + [Stem(m)];
        }
        rest := rest - {m};
      }
      SortDistinct(found);
      handlers := Sort(found);
    }

    /**
     * `_copy_dependency_files(dest_dir, dependency_files)`: the set is walked in some order, reported in
     * `order`; the disk and count are those of `CopyAll` over that order.
     */
    method CopyDependencyFiles(dest: Path, dependencies: set<Path>) returns (count: nat, ghost order: seq<Path>)
      modifies disk
      ensures Enumerates(order, dependencies)
      ensures (disk.fs, count) == CopyAll(old(disk.fs), config.Src(), dest, order)
    {
      count := 0;
      order := [];
      var rest := dependencies;
      while rest != {}
        invariant rest <= dependencies
        invariant NoDuplicates(order) && forall d :: d in order <==> d in dependencies && d !in rest
        invariant (disk.fs, count) == CopyAll(old(disk.fs), config.Src(), dest, order)
        decreases |rest|
      {
        var d :| d in rest;
        ghost var before := (disk.fs, count);
        var copied := CopyDependency(dest, d);
        if copied {
          count := count + 1;
        }
        assert (disk.fs, count) == Advance(before, config.Src(), dest, d);
        NoDuplicatesConcat(order, [d]);
        CopyAllSnoc(old(disk.fs), config.Src(), dest, order, d);
        order := order + [d];
        rest := rest - {d};
      }
    }

    /** The body of `_copy_dependency_files`'s loop for one dependency `d`, with whether it was copied. */
    method CopyDependency(dest: Path, d: Path) returns (copied: bool)
      modifies disk
      ensures disk.fs == CopyStep(old(disk.fs), config.Src(), dest, d).0
      ensures copied == CopyStep(old(disk.fs), config.Src(), dest, d).1
    {
      copied := false;
      var rel := RelativeTo(d, config.Src());
      if rel.None? || !ShouldIncludeFile(rel.value) {
        return;
      }
      var made := MakeDirs(disk.fs, Parent(dest + rel.value));
      if made.None? {
        return;
      }
      disk.fs := made.value;
      var result := CopyFile(disk.fs, d, dest + rel.value);
      if result.Some? {
        disk.fs := result.value;
        copied := true;
      }
    }

    /** `build(handler_name)`; `order` is the order in which the dependency set was walked. */
    method Build(name: string) returns (ok: bool, ghost order: seq<Path>)
      modifies disk
      ensures Enumerates(order, LambdaDependencies(config, parse, old(disk.fs), name))
      ensures (ok, disk.fs) == LambdaBuild(config, parse, old(disk.fs), name, order)
    {
      var handlerFile := JoinPath(config.Handlers(), name + ".py");
      var staging := JoinPath(config.Lambdas(), name);
      var zip := JoinPath(config.Lambdas(), name + ".zip");
      order := [];
      if !disk.fs.Exists(handlerFile) {
        return false, [];
      }
      var cleaned := CleanupDirectory(disk.fs, staging);
      if cleaned.None? {
        return false, [];
      }
      disk.fs := cleaned.value;
      var staged := MakeDirs(disk.fs, staging);
      if staged.None? {
        return false, [];
      }
      disk.fs := staged.value;
      var dependencies := AnalyzeDependencyTree(WalkEnv(disk.fs, config.Src(), parse), handlerFile);
      var text := ReadText(disk.fs, handlerFile);
      if text.None? {
        return false, EnumerationOf(dependencies);
      }
      var withHandler := WriteFile(disk.fs, JoinPath(staging, Name(handlerFile)), Source(FixImports(text.value)));
      if withHandler.None? {
        return false, EnumerationOf(dependencies);
      }
      disk.fs := withHandler.value;
      var copiedFiles;
      copiedFiles, order := CopyDependencyFiles(staging, dependencies);
      var zipped := CreateZip(disk.fs, staging, zip);
      if zipped.None? {
        return false, order;
      }
      disk.fs := zipped.value;
      var done := CleanupDirectory(disk.fs, staging);
      if done.None? {
        return false, order;
      }
      disk.fs := done.value;
      ok := true;
    }
  }

  /**
   * Building a handler again on the disk a successful build left is a fixed point: the dependency
   * analysis finds the same files, since it never looks at the archive, and the build succeeds and
   * leaves the disk as it was, with the same archive.
   */
  lemma LambdaBuildIdempotent(config: Config, parse: string -> Option<seq<ImportNode>>, fs: FileSystem, name: string,
                              order: seq<Path>, again: seq<Path>)
    requires BuildableHandler(config, fs, name)
    requires Enumerates(order, LambdaDependencies(config, parse, fs, name))
    requires Enumerates(again, LambdaDependencies(config, parse, LambdaBuild(config, parse, fs, name, order).1, name))
    ensures LambdaDependencies(config, parse, LambdaBuild(config, parse, fs, name, order).1, name)
              == LambdaDependencies(config, parse, fs, name)
    ensures LambdaBuild(config, parse, LambdaBuild(config, parse, fs, name, order).1, name, again)
              == (true, LambdaBuild(config, parse, fs, name, order).1)
  {
    var built := LambdaBuild(config, parse, fs, name, order).1;
    var handlerFile := config.Handlers() + [name + ".py"];
    var staging := config.Lambdas() + [name];
    var zip := config.Lambdas() + [name + ".zip"];
    var dependencies := LambdaDependencies(config, parse, fs, name);
    var entries := map[[name + ".py"] := fs.files[handlerFile]] + DependencyEntries(fs, config.Src(), dependencies);
    LambdaBuildArchive(config, parse, fs, name, order);
    HandlerSourceUntouched(config, fs, built, name, entries);
    RebuildableHandler(config, fs, built, name, entries);
    SameDependencies(config, parse, fs, built, name, entries);
    LambdaBuildArchive(config, parse, built, name, again);
    DependencyEntriesAgree(built, fs, config.Src(), dependencies);
    ArchivedAgain(LambdaBuild(config, parse, built, name, again).1, built, fs, staging, zip, entries);
  }

  /** A handler build leaves everything below `src` as it was. */
  lemma HandlerSourceUntouched(config: Config, fs: FileSystem, built: FileSystem, name: string, entries: map<Path, Content>)
    requires Archived(built, fs, config.Lambdas() + [name], config.Lambdas() + [name + ".zip"], entries)
    ensures forall q :: IsPrefix(config.Src(), q) ==> (q in built.files <==> q in fs.files)
    ensures forall q :: IsPrefix(config.Src(), q) && q in built.files ==> built.files[q] == fs.files[q]
    ensures forall q :: IsPrefix(config.Src(), q) ==> (q in built.dirs <==> q in fs.dirs)
  {
    var staging := config.Lambdas() + [name];
    var zip := config.Lambdas() + [name + ".zip"];
    assert IsPrefix(config.Build(), staging) && IsPrefix(config.Build(), zip);
    SourceNotStaged(config, staging);
    SourceNotStaged(config, zip);
  }

  /** After a successful build the handler is buildable again. */
  lemma RebuildableHandler(config: Config, fs: FileSystem, built: FileSystem, name: string, entries: map<Path, Content>)
    requires BuildableHandler(config, fs, name)
    requires Archived(built, fs, config.Lambdas() + [name], config.Lambdas() + [name + ".zip"], entries)
    ensures BuildableHandler(config, built, name)
  {
    var staging := config.Lambdas() + [name];
    var zip := config.Lambdas() + [name + ".zip"];
    var n := |config.Lambdas()|;
    assert staging[n] != zip[n];
    assert Apart(staging, zip) && zip !in Prefixes(staging);
    assert Parent(zip) == config.Lambdas();
    ArchivedTree(built, fs, staging, zip, entries);
    HandlerSourceUntouched(config, fs, built, name, entries);
    assert config.Handlers() + [name + ".py"] == config.Src() + ["handlers", name + ".py"];
  }

  /** The next build stages on a disk that differs from the first build's staging disk only at the archive. */
  lemma RestagedAgrees(config: Config, fs: FileSystem, built: FileSystem, name: string, entries: map<Path, Content>)
    requires BuildableHandler(config, fs, name) && BuildableHandler(config, built, name)
    requires Archived(built, fs, config.Lambdas() + [name], config.Lambdas() + [name + ".zip"], entries)
    ensures Staged(fs, config.Lambdas() + [name]).Some? && Staged(built, config.Lambdas() + [name]).Some?
    ensures AgreeBesides(Staged(built, config.Lambdas() + [name]).value, Staged(fs, config.Lambdas() + [name]).value,
                         config.Lambdas() + [name + ".zip"])
  {
    var staging := config.Lambdas() + [name];
    var zip := config.Lambdas() + [name + ".zip"];
    FreshStagingOf(fs, staging);
    FreshStagingOf(built, staging);
    var n := |config.Lambdas()|;
    assert staging[n] != zip[n];
    ArchiveNotSource(config.Lambdas(), name);
    StagedAlike(Staged(built, staging).value, Staged(fs, staging).value, built, fs, staging, zip, entries);
  }

  /**
   * Staging directories freshly made on a disk and on the disk an archive build left there agree
   * everywhere but at the archive.
   */
  lemma StagedAlike(again: FileSystem, first: FileSystem, built: FileSystem, fs: FileSystem, staging: Path, zip: Path,
                    entries: map<Path, Content>)
    requires Archived(built, fs, staging, zip, entries) && zip !in fs.dirs
    requires staging != [] && Empty(again, staging) && Outside(again, built, staging)
    requires Empty(first, staging) && Outside(first, fs, staging)
    requires zip != [] && !IsPrefix(staging, zip) && !IsPrefix(zip, staging) && !EndsWith(Name(zip), ".py")
    ensures AgreeBesides(again, first, zip)
  {
    assert staging in Prefixes(staging);
    forall q ensures q in again.dirs <==> q in first.dirs {
      if IsPrefix(staging, q) {
        assert q in again.dirs <==> q == staging;
      }
    }
    assert again.dirs == first.dirs;
  }

  /** An archive `<name>.zip` is no `.py` file. */
  lemma ArchiveNotSource(dir: Path, name: string)
    ensures !EndsWith(Name(dir + [name + ".zip"]), ".py")
  {
    assert (name + ".zip")[|name| + 1] == 'z';
  }

  /** The dependency analysis of the next build finds the same files as the first. */
  lemma SameDependencies(config: Config, parse: string -> Option<seq<ImportNode>>, fs: FileSystem, built: FileSystem,
                         name: string, entries: map<Path, Content>)
    requires BuildableHandler(config, fs, name) && BuildableHandler(config, built, name)
    requires Archived(built, fs, config.Lambdas() + [name], config.Lambdas() + [name + ".zip"], entries)
    ensures LambdaDependencies(config, parse, built, name) == LambdaDependencies(config, parse, fs, name)
  {
    var staging := config.Lambdas() + [name];
    RestagedAgrees(config, fs, built, name, entries);
    LambdaDependenciesOf(config, parse, fs, name);
    LambdaDependenciesOf(config, parse, built, name);
    ReachableTargetsAgree(Staged(built, staging).value, Staged(fs, staging).value, config.Lambdas() + [name + ".zip"],
                          config.Src(), parse, config.Handlers() + [name + ".py"]);
  }
}
