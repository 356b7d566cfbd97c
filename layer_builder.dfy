/**
 * `LayerBuilder`: packages the shared `adapters` and `utils` source packages as Lambda layers. A layer
 * archive holds its package below `python/<name>/`, the directory the Lambda runtime puts on the import
 * path. The builder exists twice in the repository, in `builder/components` and in
 * `build_system/builders`, with the same code; this module models both.
 */
module LayerBuilding {
  import opened Wrappers
  import opened Files
  import opened Ordering
  import opened Configuration
  import opened Packaging

  /** The temporary directory `build(name)` assembles the layer in. */
  function LayerTemp(config: Config, name: string): Path {
    JoinPath(config.Layers(), name + "_temp")
  }

  /** The archive `build(name)` writes. */
  function LayerZip(config: Config, name: string): Path {
    JoinPath(config.Layers(), name + ".zip")
  }

  /**
   * `build(layer_name)`: copy `src/<name>` to `<name>_temp/python/<name>` below the layers directory,
   * archive the temporary directory and remove it. Any exception ends the build with `False`, leaving
   * the disk as the failed step found it.
   */
  function LayerBuild(config: Config, fs: FileSystem, name: string): (bool, FileSystem) {
    var srcLayer := JoinPath(config.Src(), name);
    var temp := LayerTemp(config, name);
    var python := JoinPath(temp, "python");
    if !fs.Exists(srcLayer) then (false, fs)
    else match CleanupDirectory(fs, temp)
      case None => (false, fs)
      case Some(cleaned) =>
        match MakeDirs(cleaned, python)
        case None => (false, cleaned)
        case Some(made) =>
          match CopyTree(made, srcLayer, JoinPath(python, name))
          case None => (false, made)
          case Some(copied) => FinishArchive(copied, temp, LayerZip(config, name))
  }

  /**
   * `LayerBuilder`: a configuration and the disk it builds on. The logger is left out, and the
   * `try`/`except` around `build` is the `None` of each failing step.
   */
  class LayerBuilder {
    const config: Config
    const disk: Disk

    constructor (config: Config, disk: Disk)
      ensures this.config == config && this.disk == disk
    {
      this.config := config;
      this.disk := disk;
    }

    /** `discover()`: `adapters` and then `utils`, each when its source directory exists. */
    method Discover() returns (layers: seq<string>)
      ensures forall n :: n in layers <==> n in {"adapters", "utils"} && disk.fs.Exists(config.Src() + [n])
      ensures StrictlySorted(layers)
    {
      layers := [];
      if disk.fs.Exists(config.Adapters()) {
        layers := layers + ["adapters"];
      }
      if disk.fs.Exists(config.Utils()) {
        layers := layers + ["utils"];
      }
      assert Below("adapters", "utils");
    }

    /** `build(layer_name)`: each step replaces the disk; the first one that fails ends the build with `false`. */
    method Build(name: string) returns (ok: bool)
      modifies disk
      ensures (ok, disk.fs) == LayerBuild(config, old(disk.fs), name)
    {
      var srcLayer := JoinPath(config.Src(), name);
      if !disk.fs.Exists(srcLayer) {
        return false;
      }
      var temp := LayerTemp(config, name);
      var cleaned := CleanupDirectory(disk.fs, temp);
      if cleaned.None? {
        return false;
      }
      disk.fs := cleaned.value;
      var python := JoinPath(temp, "python");
      var made := MakeDirs(disk.fs, python);
      if made.None? {
        return false;
      }
      disk.fs := made.value;
      var copied := CopyTree(disk.fs, srcLayer, JoinPath(python, name));
      if copied.None? {
        return false;
      }
      disk.fs := copied.value;
      var zip := LayerZip(config, name);
      var zipped := CreateZip(disk.fs, temp, zip);
      if zipped.None? {
        return false;
      }
      disk.fs := zipped.value;
      var done := CleanupDirectory(disk.fs, temp);
      if done.None? {
        return false;
      }
      disk.fs := done.value;
      ok := true;
    }
  }

  /** The entries of a layer's archive: the files below `src/<name>`, each under `python/<name>/`. */
  function LayerEntries(config: Config, fs: FileSystem, name: string): map<Path, Content> {
    Graft(["python", name], FilesUnder(fs, config.Src() + [name]))
  }

  /** A name without `/` gives a temporary directory and an archive directly inside the layers directory. */
  lemma TempPaths(config: Config, name: string)
    requires '/' !in name
    ensures LayerTemp(config, name) == config.Layers() + [name + "_temp"]
    ensures LayerZip(config, name) == config.Layers() + [name + ".zip"]
    ensures JoinPath(LayerTemp(config, name), "python") == config.Layers() + [name + "_temp", "python"]
  {
    JoinSuffixed(config.Layers(), name, "_temp");
    JoinSuffixed(config.Layers(), name, ".zip");
    PythonDir(config.Layers() + [name + "_temp"]);
  }

  /** The `python` directory of a temporary directory is one segment below it. */
  lemma PythonDir(temp: Path)
    ensures JoinPath(temp, "python") == temp + ["python"]
  {
    JoinSegment(temp, "python");
  }

  /** A plain name joins as one segment, and so does the copy's place inside the `python` directory. */
  lemma LayerPaths(config: Config, name: string)
    requires name != "" && name != "." && '/' !in name
    ensures JoinPath(config.Src(), name) == config.Src() + [name]
    ensures LayerTemp(config, name) == config.Layers() + [name + "_temp"]
    ensures LayerZip(config, name) == config.Layers() + [name + ".zip"]
    ensures JoinPath(LayerTemp(config, name), "python") == LayerTemp(config, name) + ["python"]
    ensures JoinPath(LayerTemp(config, name) + ["python"], name) == LayerTemp(config, name) + ["python", name]
  {
    TempPaths(config, name);
    JoinSegment(config.Src(), name);
    var python := LayerTemp(config, name) + ["python"];
    JoinSegment(python, name);
    assert python + [name] == LayerTemp(config, name) + ["python", name];
  }

  /** Nothing below the source directory lies below the build directory's layers, and the other way round. */
  lemma SourceApartFromLayers(config: Config, a: Path, b: Path)
    ensures Apart(config.Src() + a, config.Layers() + b)
  {
    var k := |config.projectRoot|;
    assert (config.Src() + a)[k] == "src";
    assert (config.Layers() + b)[k] == "build";
  }

  /** The temporary directory and the archive are two different entries of the layers directory. */
  lemma TempApartFromZip(config: Config, name: string)
    ensures Apart(config.Layers() + [name + "_temp"], config.Layers() + [name + ".zip"])
  {
    assert (name + "_temp")[|name|] != (name + ".zip")[|name|];
    var n := |config.Layers()|;
    assert (config.Layers() + [name + "_temp"])[n] != (config.Layers() + [name + ".zip"])[n];
  }

  /**
   * What `build(name)` needs to succeed: a plain name whose source package is a directory, a disk that
   * is a tree, no file on the way to the temporary `python` directory, and no directory where the
   * archive goes.
   */
  ghost predicate BuildableLayer(config: Config, fs: FileSystem, name: string) {
    && name != "" && name != "." && '/' !in name
    && IsTree(fs)
    && fs.IsDir(config.Src() + [name])
    && (forall q :: q in fs.files && q != [] ==> !IsPrefix(q, config.Layers() + [name + "_temp", "python"]))
    && config.Layers() + [name + ".zip"] !in fs.dirs
  }

  /**
   * A buildable layer is built: the archive holds every file of the source package below
   * `python/<name>/`, the temporary directory is gone, and every other file is as it was.
   */
  lemma LayerBuildArchive(config: Config, fs: FileSystem, name: string)
    requires BuildableLayer(config, fs, name)
    ensures LayerBuild(config, fs, name).0
    ensures Archived(LayerBuild(config, fs, name).1, fs, LayerTemp(config, name), LayerZip(config, name),
                     LayerEntries(config, fs, name))
  {
    LayerPaths(config, name);
    var srcLayer := config.Src() + [name];
    var temp := config.Layers() + [name + "_temp"];
    var zip := config.Layers() + [name + ".zip"];
    assert temp + ["python"] == config.Layers() + [name + "_temp", "python"];
    SourceApartFromLayers(config, [name], [name + "_temp"]);
    var copied := LayerStaged(fs, srcLayer, temp, name);
    LayerBuildSucceeds(config, fs, name, srcLayer, temp, zip, copied);
    TempApartFromZip(config, name);
    FinishArchiveArchived(copied, fs, temp, zip, LayerEntries(config, fs, name));
  }

  /** `build(name)` ends with the archive step when the steps before it succeed with the disk `copied`. */
  lemma LayerBuildSucceeds(config: Config, fs: FileSystem, name: string, srcLayer: Path, temp: Path, zip: Path,
                           copied: FileSystem)
    requires JoinPath(config.Src(), name) == srcLayer && fs.Exists(srcLayer)
    requires LayerTemp(config, name) == temp && LayerZip(config, name) == zip
    requires JoinPath(temp, "python") == temp + ["python"] && JoinPath(temp + ["python"], name) == temp + ["python", name]
    requires CleanupDirectory(fs, temp).Some?
    requires MakeDirs(CleanupDirectory(fs, temp).value, temp + ["python"]).Some?
    requires CopyTree(MakeDirs(CleanupDirectory(fs, temp).value, temp + ["python"]).value, srcLayer, temp + ["python", name])
               == Some(copied)
    ensures LayerBuild(config, fs, name) == FinishArchive(copied, temp, zip)
  {
  }

  /**
   * Cleaning the temporary directory, making its `python` directory and copying the package into it
   * succeed; outside the temporary directory the disk is as it was, with the directories on the way
   * to it, and below it are exactly the package's files, under `python/<name>/`.
   */
  lemma LayerStaged(fs: FileSystem, srcLayer: Path, temp: Path, name: string) returns (copied: FileSystem)
    requires temp != [] && Apart(srcLayer, temp) && fs.IsDir(srcLayer) && IsTree(fs)
    requires forall q :: q in fs.files && q != [] ==> !IsPrefix(q, temp + ["python"])
    ensures CleanupDirectory(fs, temp).Some?
    ensures MakeDirs(CleanupDirectory(fs, temp).value, temp + ["python"]).Some?
    ensures CopyTree(MakeDirs(CleanupDirectory(fs, temp).value, temp + ["python"]).value, srcLayer, temp + ["python", name])
              == Some(copied)
    ensures Outside(copied, fs, temp) && copied.IsDir(temp) && copied.IsDir(Parent(temp))
    ensures FilesUnder(copied, temp) == Graft(["python", name], FilesUnder(fs, srcLayer))
  {
    var python := temp + ["python"];
    var dst := temp + ["python", name];
    assert IsPrefix(temp, python) && python + [name] == dst;
    CleanupOfTree(fs, temp);
    var removed := RemoveTree(fs, temp);
    var made := FileSystem(removed.files, removed.dirs + Prefixes(python));
    assert MakeDirs(removed, python) == Some(made);
    LayerCopy(fs, made, srcLayer, temp, name);
    copied := CopyTree(made, srcLayer, dst).value;
    CopyOutside(fs, made, copied, srcLayer, temp, name);
    assert Apart(temp, srcLayer);
    CopyEntries(fs, made, copied, srcLayer, temp, dst, ["python", name]);
    assert copied.IsDir(temp) by {
      assert temp in Prefixes(python);
    }
    var up := Parent(temp);
    assert copied.IsDir(up) by {
      assert IsPrefix(up, temp);
      PrefixOrder(up, temp, python);
      if up != [] {
        assert up in Prefixes(temp);
      }
    }
  }

  /** Copying the source package to `dst` in a freshly made temporary `python` directory succeeds. */
  lemma LayerCopy(fs: FileSystem, made: FileSystem, srcLayer: Path, temp: Path, name: string)
    requires temp != [] && Apart(srcLayer, temp) && fs.IsDir(srcLayer)
    requires forall q :: q in fs.files && q != [] ==> !IsPrefix(q, temp + ["python"])
    requires made == FileSystem(RemoveTree(fs, temp).files, RemoveTree(fs, temp).dirs + Prefixes(temp + ["python"]))
    ensures CopyTree(made, srcLayer, temp + ["python", name]).Some?
  {
    var python := temp + ["python"];
    var dst := temp + ["python", name];
    assert IsPrefix(temp, dst) && IsPrefix(python, dst);
    forall q | q in made.files && q != [] ensures !IsPrefix(q, dst) {
      PrefixOrder(q, python, dst);
      PrefixOrder(temp, q, dst);
    }
    assert !made.Exists(dst) by {
      assert dst !in Prefixes(python);
    }
  }

  /** Outside the temporary directory, the copy leaves the disk as `fs` with the directories on the way to it. */
  lemma CopyOutside(fs: FileSystem, made: FileSystem, copied: FileSystem, srcLayer: Path, temp: Path, name: string)
    requires made == FileSystem(RemoveTree(fs, temp).files, RemoveTree(fs, temp).dirs + Prefixes(temp + ["python"]))
    requires CopyTree(made, srcLayer, temp + ["python", name]) == Some(copied)
    ensures Outside(copied, fs, temp)
  {
    var python := temp + ["python"];
    var dst := temp + ["python", name];
    assert IsPrefix(temp, dst) && IsPrefix(temp, python) && IsPrefix(python, dst);
    forall q | !IsPrefix(temp, q) ensures !IsPrefix(dst, q) && (q in Prefixes(python) || q in Prefixes(dst) <==> q in Prefixes(temp)) {
      PrefixOrder(temp, dst, q);
      PrefixOrder(temp, q, dst);
      PrefixOrder(temp, q, python);
      PrefixOrder(q, temp, dst);
      PrefixOrder(q, temp, python);
    }
  }

  /** Below the temporary directory, after the copy, are the package's files and nothing else, under `top`. */
  lemma CopyEntries(fs: FileSystem, made: FileSystem, copied: FileSystem, srcLayer: Path, temp: Path, dst: Path, top: Path)
    requires Apart(temp, srcLayer) && dst == temp + top
    requires made == FileSystem(RemoveTree(fs, temp).files, RemoveTree(fs, temp).dirs + Prefixes(temp + ["python"]))
    requires CopyTree(made, srcLayer, dst) == Some(copied)
    ensures FilesUnder(copied, temp) == Graft(top, FilesUnder(fs, srcLayer))
  {
    forall rel ensures dst + rel !in made.files {
      assert IsPrefix(temp, dst + rel);
    }
    OnlyCopiedBelow(made, copied, srcLayer, temp, dst);
    FilesUnderNested(copied, temp, top);
    CopiedFiles(made, copied, srcLayer, dst);
    RemovedApart(fs, temp, srcLayer);
    assert FilesUnder(made, srcLayer) == FilesUnder(RemoveTree(fs, temp), srcLayer);
  }

  /** When nothing was below `temp`, after a copy to `dst` within it every file below `temp` is strictly below `dst`. */
  lemma OnlyCopiedBelow(made: FileSystem, copied: FileSystem, srcLayer: Path, temp: Path, dst: Path)
    requires forall q :: q in made.files ==> !IsPrefix(temp, q)
    requires CopyTree(made, srcLayer, dst) == Some(copied)
    ensures forall q :: q in copied.files && IsPrefix(temp, q) ==> IsPrefix(dst, q) && q != dst
  {
  }

  /**
   * Whatever the disk, `build(name)` changes no file outside the temporary directory except the
   * archive; it only appends directories.
   */
  lemma LayerBuildFrame(config: Config, fs: FileSystem, name: string)
    requires '/' !in name
    ensures FilesKept(LayerBuild(config, fs, name).1, fs, LayerTemp(config, name), LayerZip(config, name))
  {
    var srcLayer := JoinPath(config.Src(), name);
    var temp := LayerTemp(config, name);
    var zip := LayerZip(config, name);
    var python := JoinPath(temp, "python");
    JoinSegment(temp, "python");
    JoinSegment(python, name);
    var dst := JoinPath(python, name);
    assert IsPrefix(temp, dst);
    if fs.Exists(srcLayer) && CleanupDirectory(fs, temp).Some? {
      var cleaned := CleanupDirectory(fs, temp).value;
      assert FilesKept(cleaned, fs, temp, zip);
      if MakeDirs(cleaned, python).Some? {
        var made := MakeDirs(cleaned, python).value;
        if CopyTree(made, srcLayer, dst).Some? {
          var copied := CopyTree(made, srcLayer, dst).value;
          CopyInsideKept(made, srcLayer, dst, temp, zip);
          FilesKeptTrans(copied, made, fs, temp, zip);
          FinishArchiveFrame(copied, temp, zip);
          FilesKeptTrans(FinishArchive(copied, temp, zip).1, copied, fs, temp, zip);
        }
      }
    }
  }

  /**
   * `build(name)` returns `True` only for a name that is one plain segment whose source package is a
   * directory: an empty name or `.` makes `copytree` meet the `python` directory it just made.
   */
  lemma LayerBuildNeedsPackage(config: Config, fs: FileSystem, name: string)
    requires '/' !in name
    ensures LayerBuild(config, fs, name).0 ==> name != "" && name != "." && fs.IsDir(config.Src() + [name])
    ensures !fs.Exists(config.Src() + [name]) && name != "" && name != "." ==> LayerBuild(config, fs, name) == (false, fs)
  {
    var srcLayer := JoinPath(config.Src(), name);
    var temp := LayerTemp(config, name);
    var python := JoinPath(temp, "python");
    TempPaths(config, name);
    JoinSegment(config.Src(), name);
    var a := if name == "" || name == "." then [] else [name];
    assert srcLayer == config.Src() + a;
    SourceApartFromLayers(config, a, [name + "_temp"]);
    SourceApartFromLayers(config, a, [name + "_temp", "python"]);
    if LayerBuild(config, fs, name).0 {
      CopyNeedsDirectory(fs, srcLayer, temp, python, JoinPath(python, name));
    }
  }

  /** A copy into a place below the temporary directory keeps every file outside it. */
  lemma CopyInsideKept(made: FileSystem, srcLayer: Path, dst: Path, temp: Path, zip: Path)
    requires IsPrefix(temp, dst) && CopyTree(made, srcLayer, dst).Some?
    ensures FilesKept(CopyTree(made, srcLayer, dst).value, made, temp, zip)
  {
    forall q | !IsPrefix(temp, q) ensures !IsPrefix(dst, q) {
      PrefixOrder(temp, dst, q);
    }
  }

  /** The copy succeeds only from a directory, and only to a place other than the `python` directory it goes into. */
  lemma CopyNeedsDirectory(fs: FileSystem, srcLayer: Path, temp: Path, python: Path, dst: Path)
    requires Apart(srcLayer, temp) && Apart(srcLayer, python) && python != []
    requires CleanupDirectory(fs, temp).Some? && MakeDirs(CleanupDirectory(fs, temp).value, python).Some?
    requires CopyTree(MakeDirs(CleanupDirectory(fs, temp).value, python).value, srcLayer, dst).Some?
    ensures fs.IsDir(srcLayer) && dst != python
  {
    assert python in Prefixes(python);
    assert srcLayer !in Prefixes(python);
  }

  /**
   * Building a layer again on the disk a successful build left is a fixed point: it succeeds and
   * leaves the disk as it was, with the same archive, since the source package is untouched and
   * nothing the first build left lies in the second one's way.
   */
  lemma LayerBuildIdempotent(config: Config, fs: FileSystem, name: string)
    requires BuildableLayer(config, fs, name)
    ensures LayerBuild(config, LayerBuild(config, fs, name).1, name) == (true, LayerBuild(config, fs, name).1)
  {
    var built := LayerBuild(config, fs, name).1;
    LayerPaths(config, name);
    var temp := config.Layers() + [name + "_temp"];
    var zip := config.Layers() + [name + ".zip"];
    LayerBuildArchive(config, fs, name);
    RebuildableLayer(config, fs, built, name, LayerEntries(config, fs, name));
    LayerBuildArchive(config, built, name);
    ArchivedAgain(LayerBuild(config, built, name).1, built, fs, temp, zip, LayerEntries(config, fs, name));
  }

  /**
   * After a successful build the layer is buildable again, from the same package: its files are as
   * they were.
   */
  lemma RebuildableLayer(config: Config, fs: FileSystem, built: FileSystem, name: string, entries: map<Path, Content>)
    requires BuildableLayer(config, fs, name)
    requires Archived(built, fs, config.Layers() + [name + "_temp"], config.Layers() + [name + ".zip"], entries)
    ensures BuildableLayer(config, built, name)
    ensures FilesUnder(built, config.Src() + [name]) == FilesUnder(fs, config.Src() + [name])
  {
    LayerLeftTree(config, fs, built, name, entries);
    SourceUntouched(config, fs, built, name, entries);
    ArchiveOffPath(config, fs, built, name, entries);
    FilesUnderAgree(built, fs, config.Src() + [name]);
  }

  /** The disk a layer build leaves is a tree. */
  lemma LayerLeftTree(config: Config, fs: FileSystem, built: FileSystem, name: string, entries: map<Path, Content>)
    requires BuildableLayer(config, fs, name)
    requires Archived(built, fs, config.Layers() + [name + "_temp"], config.Layers() + [name + ".zip"], entries)
    ensures IsTree(built)
  {
    var temp := config.Layers() + [name + "_temp"];
    var zip := config.Layers() + [name + ".zip"];
    TempApartFromZip(config, name);
    assert Parent(zip) == config.Layers();
    forall q | q in fs.files && q != [] ensures !IsPrefix(q, temp) {
      if IsPrefix(q, temp) {
        PrefixTransitive(q, temp, temp + ["python"]);
      }
    }
    ArchivedTree(built, fs, temp, zip, entries);
  }

  /** A layer build leaves everything below the source package as it was. */
  lemma SourceUntouched(config: Config, fs: FileSystem, built: FileSystem, name: string, entries: map<Path, Content>)
    requires Archived(built, fs, config.Layers() + [name + "_temp"], config.Layers() + [name + ".zip"], entries)
    ensures forall q :: IsPrefix(config.Src() + [name], q) ==> (q in built.files <==> q in fs.files)
    ensures forall q :: IsPrefix(config.Src() + [name], q) && q in built.files ==> built.files[q] == fs.files[q]
    ensures forall q :: IsPrefix(config.Src() + [name], q) ==> (q in built.dirs <==> q in fs.dirs)
  {
    var temp := config.Layers() + [name + "_temp"];
    var zip := config.Layers() + [name + ".zip"];
    forall q | IsPrefix(config.Src() + [name], q) ensures Apart(q, temp) && Apart(q, zip) {
      var rel := q[|config.Src()|..];
      assert config.Src() + rel == q;
      SourceApartFromLayers(config, rel, [name + "_temp"]);
      SourceApartFromLayers(config, rel, [name + ".zip"]);
    }
  }

  /** The archive a layer build leaves is not on the way to the next build's temporary directory, and no directory. */
  lemma ArchiveOffPath(config: Config, fs: FileSystem, built: FileSystem, name: string, entries: map<Path, Content>)
    requires BuildableLayer(config, fs, name)
    requires Archived(built, fs, config.Layers() + [name + "_temp"], config.Layers() + [name + ".zip"], entries)
    ensures forall q :: q in built.files && q != [] ==> !IsPrefix(q, config.Layers() + [name + "_temp", "python"])
    ensures config.Layers() + [name + ".zip"] !in built.dirs
  {
    var temp := config.Layers() + [name + "_temp"];
    var zip := config.Layers() + [name + ".zip"];
    var python := config.Layers() + [name + "_temp", "python"];
    var n := |config.Layers()|;
    assert zip[n] != python[n] && zip[n] != temp[n];
    assert !IsPrefix(temp, zip) && zip !in Prefixes(temp);
  }
}
