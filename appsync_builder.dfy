/**
 * The AppSync schema builder: every `*.graphql` file directly in the GraphQL source directory is a
 * schema; building one inlines its `import "…"` lines recursively, each file at most once, checks
 * the combined text and writes it to the AppSync build directory.
 */
module AppSyncBuilding {
  import opened Wrappers
  import opened Strings
  import opened Files
  import opened Ordering
  import opened Collections
  import opened Configuration

  /** A line is an import directive when, stripped of surrounding whitespace, it starts with `import "`. */
  predicate IsDirective(line: string) {
    StartsWith(Strip(line), "import \"")
  }

  /** `stripped[8:-1]`: what follows `import "`, without the line's last character (the closing quote). */
  function DirectivePath(line: string): string {
    var s := Strip(line);
    if |s| >= 9 then s[8..|s| - 1] else ""
  }

  /** One line of a schema file as the compiler sees it: an import of a path, or text it keeps. */
  datatype Line = Text(text: string) | Import(path: string)

  function ParseLine(line: string): Line {
    if IsDirective(line) then Import(DirectivePath(line)) else Text(line)
  }

  function ParseLines(lines: seq<string>): (r: seq<Line>)
    ensures |r| == |lines| && forall i :: 0 <= i < |lines| ==> r[i] == ParseLine(lines[i])
  {
    seq(|lines|, i requires 0 <= i < |lines| => ParseLine(lines[i]))
  }

  /** The file an import names: relative to the GraphQL directory, with a leading `./` dropped first. */
  function ImportTarget(root: Path, importPath: string): Path {
    JoinPath(root, if StartsWith(importPath, "./") then importPath[2..] else importPath)
  }

  /**
   * The keys under which `_process_schema` can find something to read: the paths of the files on disk,
   * which the operating system reaches from a resolved name.
   */
  function ReadableKeys(fs: FileSystem): set<Path> {
    fs.files.Keys
  }

  /**
   * What one call of the compiler leaves behind: the text (`None` when it raised), the set of
   * resolved file names it has marked as processed, and the resolved names of the files it read,
   * in reading order.
   */
  datatype Outcome<T> = Outcome(value: Option<T>, processed: set<Path>, readOrder: seq<Path>)

  /** The lines the compiler emits for one import whose inlined text is `imported`. */
  function ImportBlock(importPath: string, imported: string): seq<string> {
    if IsBlank(imported) then [] else ["# Imported from " + importPath] + Split(imported, '\n') + [""]
  }

  /**
   * `_process_schema(file_path, processed, import_map)`. The file is keyed by its resolved name, under
   * which the operating system also finds it; a file already seen contributes nothing, a missing or
   * unreadable one raises, and otherwise its lines are processed in order and joined with newlines.
   */
  function ProcessSchema(fs: FileSystem, root: Path, file: Path, processed: set<Path>): (r: Outcome<string>)
    ensures processed + {Canonical(file)} <= r.processed
    ensures NoDuplicates(r.readOrder)
    ensures forall k :: k in r.readOrder ==> k in r.processed && k !in processed
    ensures r.value.Some? ==> forall k :: k in r.processed <==> k in processed || k in r.readOrder
    decreases |ReadableKeys(fs) - processed|, 0
  {
    var key := Canonical(file);
    if key in processed then Outcome(Some(""), processed, [])
    else
      var seen := processed + {key};
      if !fs.Exists(key) then Outcome(None, seen, [])
      else match ReadText(fs, key)
        case None => Outcome(None, seen, [])
        case Some(content) =>
          assert key in ReadableKeys(fs);
          ShrinkingRemainder(ReadableKeys(fs), processed, seen, key);
          var rest := ProcessLines(fs, root, ParseLines(Split(content, '\n')), seen);
          NoDuplicatesConcat([key], rest.readOrder);
          Outcome(if rest.value.Some? then Some(Join(rest.value.value, "\n")) else None, rest.processed, [key] + rest.readOrder)
  }

  /** The loop of `_process_schema` over the lines from the first of `lines` on. */
  function ProcessLines(fs: FileSystem, root: Path, lines: seq<Line>, processed: set<Path>): (r: Outcome<seq<string>>)
    ensures processed <= r.processed
    ensures NoDuplicates(r.readOrder)
    ensures forall k :: k in r.readOrder ==> k in r.processed && k !in processed
    ensures r.value.Some? ==> forall k :: k in r.processed <==> k in processed || k in r.readOrder
    decreases |ReadableKeys(fs) - processed|, 1, |lines|
  {
    if lines == [] then Outcome(Some([]), processed, [])
    else if lines[0].Import? then
      var importPath := lines[0].path;
      var imported := ProcessSchema(fs, root, ImportTarget(root, importPath), processed);
      if imported.value.None? then Outcome(None, imported.processed, imported.readOrder)
      else
        SubsetCardinality(ReadableKeys(fs) - imported.processed, ReadableKeys(fs) - processed);
        var rest := ProcessLines(fs, root, lines[1..], imported.processed);
        NoDuplicatesConcat(imported.readOrder, rest.readOrder);
        Outcome(if rest.value.Some? then Some(ImportBlock(importPath, imported.value.value) + rest.value.value) else None,
                rest.processed, imported.readOrder + rest.readOrder)
    else
      var rest := ProcessLines(fs, root, lines[1..], processed);
      Outcome(if rest.value.Some? then Some([lines[0].text] + rest.value.value) else None, rest.processed, rest.readOrder)
  }

  /** The names `re.findall(r'type\s+(\w+)', s)` captures, left to right and without overlap. */
  function TypeNames(s: string): (r: seq<string>)
    ensures forall i :: 0 <= i < |r| ==> r[i] != [] && forall k :: 0 <= k < |r[i]| ==> IsWordChar(r[i][k])
    decreases |s|
  {
    if s == [] then []
    else match TypeMatch(s)
      case Some(m) => [m.1] + TypeNames(s[m.0..])
      case None => TypeNames(s[1..])
  }

  /** A match of `type\s+(\w+)` at the start of `s`: its length and the captured name. */
  function TypeMatch(s: string): (r: Option<(nat, string)>)
    ensures r.Some? ==> 0 < r.value.0 <= |s| && r.value.1 != [] && forall k :: 0 <= k < |r.value.1| ==> IsWordChar(r.value.1[k])
  {
    if !StartsWith(s, "type") then None
    else
      var spaces := SpaceRun(s[4..]);
      var afterSpaces := s[4 + spaces..];
      var word := WordRun(afterSpaces);
      if spaces == 0 || word == 0 then None
      else
        assert forall k :: 0 <= k < word ==> afterSpaces[..word][k] == afterSpaces[k];
        Some((4 + spaces + word, afterSpaces[..word]))
  }

  /** The duplicate test of `_validate_schema`: some captured name occurs more than once. */
  predicate HasDuplicateTypes(names: seq<string>) {
    exists t :: t in names && multiset(names)[t] > 1
  }

  /**
   * `_validate_schema`: a blank schema, a duplicated type name or a different number of `{` and `}`
   * fails. The missing-`Query`/`Mutation` test only logs a warning and decides nothing.
   */
  predicate ValidSchema(s: string) {
    Strip(s) != "" && !HasDuplicateTypes(TypeNames(s)) && Count(s, '{') == Count(s, '}')
  }

  /** `build(schema_name)`: on any failure `False` and the disk as it was. */
  function AppSyncBuild(config: Config, fs: FileSystem, name: string): (bool, FileSystem) {
    var schemaFile := JoinPath(config.GraphQL(), name + ".graphql");
    var output := JoinPath(config.AppSync(), name + ".graphql");
    if !fs.Exists(schemaFile) then (false, fs)
    else
      var compiled := ProcessSchema(fs, config.GraphQL(), schemaFile, {});
      if compiled.value.None? || !ValidSchema(compiled.value.value) then (false, fs)
      else match WriteFile(fs, output, Source(compiled.value.value))
        case None => (false, fs)
        case Some(written) => (true, written)
  }

  /** `glob("*.graphql")` keeps the names ending in `.graphql`, directories included. */
  predicate IsSchemaFileName(name: string) {
    EndsWith(name, ".graphql")
  }

  /** The names among `names` that are schema files with stem `n`. */
  ghost function SchemasIn(names: set<string>, n: string): set<string> {
    set m | m in names && IsSchemaFileName(m) && Stem(m) == n
  }

  /** The entries of `dir` with stem `n`, each of which `discover` reports as the schema `n`. */
  ghost function SchemasNamed(fs: FileSystem, dir: Path, n: string): set<string> {
    if fs.Exists(dir) then SchemasIn(Children(fs, dir), n) else {}
  }

  /** Once every child is visited, the stems found count the schema files of the directory. */
  lemma DiscoveredCounts(fs: FileSystem, dir: Path, found: seq<string>, schemas: seq<string>)
    requires fs.Exists(dir) && multiset(schemas) == multiset(found)
    requires forall n :: multiset(found)[n] == |SchemasIn(Children(fs, dir), n)|
    ensures forall n :: multiset(schemas)[n] == |SchemasNamed(fs, dir, n)|
  {
  }

  /** Visiting one more name keeps the found stems counting the schema files visited. */
  lemma DiscoverStep(found: seq<string>, seen: set<string>, m: string)
    requires m !in seen && forall n :: multiset(found)[n] == |SchemasIn(seen, n)|
    ensures forall n :: multiset(found + if IsSchemaFileName(m) then [Stem(m)] else [])[n] == |SchemasIn(seen + {m}, n)|
  {
    SchemaCountAdd(seen, m);
    assert multiset(found + if IsSchemaFileName(m) then [Stem(m)] else [])
        == multiset(found) + multiset(if IsSchemaFileName(m) then [Stem(m)] else []);
  }

  /** One more name counts once, for its own stem, when it is a schema file. */
  lemma SchemaCountAdd(names: set<string>, m: string)
    requires m !in names
    ensures forall n :: |SchemasIn(names + {m}, n)| == |SchemasIn(names, n)| + if IsSchemaFileName(m) && Stem(m) == n then 1 else 0
  {
    forall n ensures |SchemasIn(names + {m}, n)| == |SchemasIn(names, n)| + if IsSchemaFileName(m) && Stem(m) == n then 1 else 0 {
      if IsSchemaFileName(m) && Stem(m) == n {
        assert SchemasIn(names + {m}, n) == SchemasIn(names, n) + {m};
      } else {
        assert SchemasIn(names + {m}, n) == SchemasIn(names, n);
      }
    }
  }

  /** `lines` compiles to `out` after the lines already emitted, `done`, and the files already read, `read`. */
  function After(done: seq<string>, read: seq<Path>, r: Outcome<seq<string>>): Outcome<seq<string>> {
    Outcome(if r.value.Some? then Some(done + r.value.value) else None, r.processed, read + r.readOrder)
  }

  /**
   * `AppSyncBuilder`: a configuration and the disk it builds on. The logger and the unused
   * `import_map` are left out; the `try`/`except` of `build` is the `None` of a failing step.
   */
  class AppSyncBuilder {
    const config: Config
    const disk: Disk

    constructor (config: Config, disk: Disk)
      ensures this.config == config && this.disk == disk
    {
      this.config := config;
      this.disk := disk;
    }

    /** `discover()`: the stems of the schema files, sorted, each as often as a file has it. */
    method Discover() returns (schemas: seq<string>)
      ensures Sorted(schemas)
      ensures forall n :: multiset(schemas)[n] == |SchemasNamed(disk.fs, config.GraphQL(), n)|
    {
      var dir := config.GraphQL();
      if !disk.fs.Exists(dir) {
        return [];
      }
      var names := Children(disk.fs, dir);
      var rest := names;
      ghost var seenNames: set<string> := {};
      var found: seq<string> := [];
      while rest != {}
        invariant rest <= names && seenNames == names - rest
        invariant forall n :: multiset(found)[n] == |SchemasIn(seenNames, n)|
        decreases |rest|
      {
        var m :| m in rest;
        DiscoverStep(found, seenNames, m);
        if IsSchemaFileName(m) {
          found := found + [Stem(m)];
        }
        seenNames := seenNames + {m};
        rest := rest - {m};
      }
      assert seenNames == names;
      schemas := Sort(found);
      DiscoveredCounts(disk.fs, dir, found, schemas);
    }

    /** `build(schema_name)`. */
    method Build(name: string) returns (ok: bool)
      modifies disk
      ensures (ok, disk.fs) == AppSyncBuild(config, old(disk.fs), name)
    {
      var schemaFile := JoinPath(config.GraphQL(), name + ".graphql");
      var output := JoinPath(config.AppSync(), name + ".graphql");
      if !disk.fs.Exists(schemaFile) {
        return false;
      }
      var text, processed, readOrder := ProcessSchemaFile(schemaFile, {});
      if text.None? || !ValidSchema(text.value) {
        return false;
      }
      var written := WriteFile(disk.fs, output, Source(text.value));
      if written.None? {
        return false;
      }
      disk.fs := written.value;
      ok := true;
    }

    /** `_process_schema(file_path, processed, import_map)`, with the shared set passed in and handed back. */
    method ProcessSchemaFile(file: Path, processed: set<Path>) returns (text: Option<string>, processedAfter: set<Path>, ghost readOrder: seq<Path>)
      ensures Outcome(text, processedAfter, readOrder) == ProcessSchema(disk.fs, config.GraphQL(), file, processed)
      decreases |ReadableKeys(disk.fs) - processed|
    {
      var root := config.GraphQL();
      var key := Canonical(file);
      if key in processed {
        RevisitedFileIsEmpty(disk.fs, root, file, processed);
        return Some(""), processed, [];
      }
      var seen := processed + {key};
      if !disk.fs.Exists(key) {
        UnreadableFileFails(disk.fs, root, file, processed);
        return None, seen, [];
      }
      var content := ReadText(disk.fs, key);
      if content.None? {
        UnreadableFileFails(disk.fs, root, file, processed);
        return None, seen, [];
      }
      ReadLinesStep(disk.fs, root, file, processed);
      assert key in ReadableKeys(disk.fs);
      var lines := Split(content.value, '\n');
      ghost var parsed := ParseLines(lines);
      var output: seq<string> := [];
      var done := seen;
      ghost var read: seq<Path> := [];
      var i := 0;
      AfterNothing(ProcessLines(disk.fs, root, parsed, seen));
      while i < |lines|
        invariant 0 <= i <= |lines|
        invariant seen <= done
        invariant After(output, read, ProcessLines(disk.fs, root, parsed[i..], done)) == ProcessLines(disk.fs, root, parsed, seen)
        decreases |lines| - i
      {
        var line := lines[i];
        assert parsed[i..][1..] == parsed[i + 1..];
        ghost var step := ProcessLines(disk.fs, root, parsed[i..], done);
        var entry := ParseLine(line);
        assert parsed[i..][0] == entry;
        if entry.Import? {
          var importPath := entry.path;
          ShrinkingRemainder(ReadableKeys(disk.fs), processed, done, key);
          var imported, importedProcessed, importedReads := ProcessSchemaFile(ImportTarget(root, importPath), done);
          ImportLineStep(disk.fs, root, parsed[i..], done);
          if imported.None? {
            assert step == Outcome(None, importedProcessed, importedReads);
            FailedAfter(output, read, importedProcessed, importedReads, [key]);
            assert ProcessLines(disk.fs, root, parsed, seen) == Outcome(None, importedProcessed, read + importedReads);
            return None, importedProcessed, [key] + read + importedReads;
          }
          ghost var next := ProcessLines(disk.fs, root, parsed[i + 1..], importedProcessed);
          assert step == After(ImportBlock(importPath, imported.value), importedReads, next);
          AfterAfter(output, ImportBlock(importPath, imported.value), read, importedReads, next);
          output := output + ImportBlock(importPath, imported.value);
          read := read + importedReads;
          done := importedProcessed;
          assert After(output, read, next) == ProcessLines(disk.fs, root, parsed, seen);
        } else {
          ghost var next := ProcessLines(disk.fs, root, parsed[i + 1..], done);
          PlainLineStep(disk.fs, root, parsed[i..], done);
          assert step == After([line], [], next);
          AfterAfter(output, [line], read, [], next);
          assert read + [] == read;
          output := output + [line];
          assert After(output, read, next) == ProcessLines(disk.fs, root, parsed, seen);
        }
        i := i + 1;
        assert After(output, read, ProcessLines(disk.fs, root, parsed[i..], done)) == ProcessLines(disk.fs, root, parsed, seen);
      }
      assert parsed[i..] == [];
      assert ProcessLines(disk.fs, root, parsed[i..], done) == Outcome(Some([]), done, []);
      assert output + [] == output && read + [] == read;
      assert ProcessLines(disk.fs, root, parsed, seen) == Outcome(Some(output), done, read);
      return Some(Join(output, "\n")), done, [key] + read;
    }
  }

  /** A failure after some emitted lines is that failure, with the files read so far in front. */
  lemma FailedAfter(done: seq<string>, read: seq<Path>, p: set<Path>, x: seq<Path>, first: seq<Path>)
    ensures var r := After(done, read, Outcome(None, p, x));
      r.value.None? && r.processed == p && first + r.readOrder == first + read + x
  {
  }

  /** Proof step for the loop of `ProcessSchemaFile`: emitting `a` then `b` is emitting `a + b`. */
  lemma AfterAfter(a: seq<string>, b: seq<string>, x: seq<Path>, y: seq<Path>, r: Outcome<seq<string>>)
    ensures After(a, x, After(b, y, r)) == After(a + b, x + y, r)
  {
    if r.value.Some? {
      assert a + (b + r.value.value) == (a + b) + r.value.value;
    }
    assert x + (y + r.readOrder) == (x + y) + r.readOrder;
  }

  /** A line that is not a directive is copied to the output. */
  lemma PlainLineStep(fs: FileSystem, root: Path, lines: seq<Line>, processed: set<Path>)
    requires lines != [] && lines[0].Text?
    ensures ProcessLines(fs, root, lines, processed) == After([lines[0].text], [], ProcessLines(fs, root, lines[1..], processed))
  {
  }

  /** A directive line is replaced by the block of its import, or makes the loop raise when the import does. */
  lemma ImportLineStep(fs: FileSystem, root: Path, lines: seq<Line>, processed: set<Path>)
    requires lines != [] && lines[0].Import?
    ensures var importPath := lines[0].path;
      var imported := ProcessSchema(fs, root, ImportTarget(root, importPath), processed);
      ProcessLines(fs, root, lines, processed)
        == if imported.value.None? then Outcome(None, imported.processed, imported.readOrder)
           else After(ImportBlock(importPath, imported.value.value), imported.readOrder, ProcessLines(fs, root, lines[1..], imported.processed))
  {
  }

  /** A readable file not yet processed is marked, read, and compiled from its lines. */
  lemma ReadLinesStep(fs: FileSystem, root: Path, file: Path, processed: set<Path>)
    requires Canonical(file) !in processed && ReadText(fs, Canonical(file)).Some?
    ensures var rest := ProcessLines(fs, root, ParseLines(Split(ReadText(fs, Canonical(file)).value, '\n')), processed + {Canonical(file)});
      ProcessSchema(fs, root, file, processed)
        == Outcome(if rest.value.Some? then Some(Join(rest.value.value, "\n")) else None, rest.processed, [Canonical(file)] + rest.readOrder)
  {
  }

  // ----- Properties of the compiler -----

  /** A file whose resolved name is already processed compiles to nothing and reads nothing. */
  lemma RevisitedFileIsEmpty(fs: FileSystem, root: Path, file: Path, processed: set<Path>)
    requires Canonical(file) in processed
    ensures ProcessSchema(fs, root, file, processed) == Outcome(Some(""), processed, [])
  {
  }

  /** A missing or unreadable file, not yet processed, makes the compiler raise. */
  lemma UnreadableFileFails(fs: FileSystem, root: Path, file: Path, processed: set<Path>)
    requires Canonical(file) !in processed && ReadText(fs, Canonical(file)).None?
    ensures ProcessSchema(fs, root, file, processed) == Outcome(None, processed + {Canonical(file)}, [])
  {
  }

  /** A file reached under two names compiles alike: `_process_schema` keys and reads it by its resolved name. */
  lemma AliasedFileCompiled(fs: FileSystem, root: Path, file: Path, alias: Path, processed: set<Path>)
    requires Canonical(alias) == Canonical(file)
    ensures ProcessSchema(fs, root, alias, processed) == ProcessSchema(fs, root, file, processed)
  {
  }

  /** An import of `<dir>/../<name>` below the GraphQL directory compiles exactly like one of `<name>`. */
  lemma ParentStepImport(fs: FileSystem, root: Path, dir: string, name: string, processed: set<Path>)
    requires dir != ".."
    ensures ProcessSchema(fs, root, root + [dir, "..", name], processed) == ProcessSchema(fs, root, root + [name], processed)
  {
    CanonicalStepBack(root, dir, [name]);
    assert root + [dir, ".."] + [name] == root + [dir, "..", name];
    AliasedFileCompiled(fs, root, root + [name], root + [dir, "..", name], processed);
  }

  /** The texts of lines that are all kept text. */
  function Texts(lines: seq<Line>): (r: seq<string>)
    requires forall i :: 0 <= i < |lines| ==> lines[i].Text?
    ensures |r| == |lines| && forall i :: 0 <= i < |lines| ==> r[i] == lines[i].text
  {
    seq(|lines|, i requires 0 <= i < |lines| => lines[i].text)
  }

  /** Lines without import directives come out as they went in, and no file is read for them. */
  lemma {:induction false} PlainLinesKept(fs: FileSystem, root: Path, lines: seq<Line>, processed: set<Path>)
    requires forall i :: 0 <= i < |lines| ==> lines[i].Text?
    ensures ProcessLines(fs, root, lines, processed) == Outcome(Some(Texts(lines)), processed, [])
    decreases |lines|
  {
    if lines != [] {
      PlainLineStep(fs, root, lines, processed);
      PlainLinesKept(fs, root, lines[1..], processed);
      assert [lines[0].text] + Texts(lines[1..]) == Texts(lines);
    }
  }

  /** Parsing keeps every line that is not a directive as it is. */
  lemma PlainParse(lines: seq<string>)
    requires forall i :: 0 <= i < |lines| ==> !IsDirective(lines[i])
    ensures forall i :: 0 <= i < |lines| ==> ParseLines(lines)[i].Text?
    ensures Texts(ParseLines(lines)) == lines
  {
  }

  /** A directive written plainly, `import "p"` with nothing around it, imports `p`. */
  lemma DirectiveRoundTrip(p: string)
    ensures ParseLine("import \"" + p + "\"") == Import(p)
  {
    var line := "import \"" + p + "\"";
    StripUnpadded(line);
    assert line[..8] == "import \"";
    assert line[8..|line| - 1] == p;
  }

  /** A readable file without import directives compiles to its own text, and only it is read. */
  lemma SelfContainedFile(fs: FileSystem, root: Path, file: Path, processed: set<Path>)
    requires Canonical(file) !in processed && ReadText(fs, Canonical(file)).Some?
    requires forall i :: 0 <= i < |Split(ReadText(fs, Canonical(file)).value, '\n')| ==> !IsDirective(Split(ReadText(fs, Canonical(file)).value, '\n')[i])
    ensures ProcessSchema(fs, root, file, processed) == Outcome(ReadText(fs, Canonical(file)), processed + {Canonical(file)}, [Canonical(file)])
  {
    var content := ReadText(fs, Canonical(file)).value;
    ReadLinesStep(fs, root, file, processed);
    PlainParse(Split(content, '\n'));
    PlainLinesKept(fs, root, ParseLines(Split(content, '\n')), processed + {Canonical(file)});
    JoinSplit(content, '\n');
  }

  /** An import of something already processed (a cycle, or a second import of one file) vanishes with its line. */
  lemma RevisitedImportVanishes(fs: FileSystem, root: Path, lines: seq<Line>, processed: set<Path>)
    requires lines != [] && lines[0].Import?
    requires Canonical(ImportTarget(root, lines[0].path)) in processed
    ensures ProcessLines(fs, root, lines, processed) == ProcessLines(fs, root, lines[1..], processed)
  {
    var target := ImportTarget(root, lines[0].path);
    RevisitedFileIsEmpty(fs, root, target, processed);
    ImportLineStep(fs, root, lines, processed);
    assert ImportBlock(lines[0].path, "") == [];
    AfterNothing(ProcessLines(fs, root, lines[1..], processed));
  }

  /** Proof step for the loop of `ProcessSchemaFile`: emitting nothing after nothing changes nothing. */
  lemma AfterNothing(r: Outcome<seq<string>>)
    ensures After([], [], r) == r
  {
    if r.value.Some? {
      assert [] + r.value.value == r.value.value;
    }
    assert [] + r.readOrder == r.readOrder;
  }

  /** A file that imports itself first: the import line disappears, and the rest is compiled as usual. */
  lemma SelfImportDropped(fs: FileSystem, root: Path, file: Path, processed: set<Path>)
    requires Canonical(file) !in processed && ReadText(fs, Canonical(file)).Some?
    requires var lines := ParseLines(Split(ReadText(fs, Canonical(file)).value, '\n'));
      lines[0].Import? && Canonical(ImportTarget(root, lines[0].path)) == Canonical(file)
    ensures var lines := ParseLines(Split(ReadText(fs, Canonical(file)).value, '\n'));
      var rest := ProcessLines(fs, root, lines[1..], processed + {Canonical(file)});
      ProcessSchema(fs, root, file, processed)
        == Outcome(if rest.value.Some? then Some(Join(rest.value.value, "\n")) else None, rest.processed, [Canonical(file)] + rest.readOrder)
  {
    var lines := ParseLines(Split(ReadText(fs, Canonical(file)).value, '\n'));
    ReadLinesStep(fs, root, file, processed);
    RevisitedImportVanishes(fs, root, lines, processed + {Canonical(file)});
  }

  /** The lines before the first import of a missing or unreadable file are kept, and that import makes the whole compile fail. */
  lemma {:induction false} MissingImportFails(fs: FileSystem, root: Path, lines: seq<Line>, processed: set<Path>, i: nat)
    requires i < |lines| && forall k :: 0 <= k < i ==> lines[k].Text?
    requires lines[i].Import?
    requires Canonical(ImportTarget(root, lines[i].path)) !in processed
    requires ReadText(fs, Canonical(ImportTarget(root, lines[i].path))).None?
    ensures ProcessLines(fs, root, lines, processed).value.None?
    decreases i
  {
    if i > 0 {
      PlainLineStep(fs, root, lines, processed);
      MissingImportFails(fs, root, lines[1..], processed, i - 1);
    } else {
      assert i == 0;
      ImportLineStep(fs, root, lines, processed);
      UnreadableFileFails(fs, root, ImportTarget(root, lines[0].path), processed);
    }
  }

  /** Each file is read at most once however the imports nest, and only files not processed before are read. */
  lemma EachFileReadOnce(fs: FileSystem, root: Path, file: Path, processed: set<Path>)
    ensures var r := ProcessSchema(fs, root, file, processed);
      NoDuplicates(r.readOrder) && forall k :: k in r.readOrder ==> k !in processed
  {
  }

  /** `ValidSchema`'s duplicate test is exactly "the captured names are not pairwise distinct". */
  lemma DuplicateTypesIff(names: seq<string>)
    ensures HasDuplicateTypes(names) <==> !Distinct(names)
  {
    if !Distinct(names) {
      var i, j :| 0 <= i < j < |names| && names[i] == names[j];
      CountTwo(names, i, j);
    }
    if HasDuplicateTypes(names) {
      var t :| t in names && multiset(names)[t] > 1;
      if Distinct(names) {
        DistinctCount(names, t);
      }
    }
  }

  /** Text in which `type` never occurs declares no type names. */
  lemma {:induction false} NoTypeKeyword(s: string)
    requires !Contains(s, "type")
    ensures TypeNames(s) == []
    decreases |s|
  {
    if s != [] {
      assert TypeMatch(s).None? by {
        if StartsWith(s, "type") {
          assert OccursAt(s, "type", 0);
        }
      }
      assert !Contains(s[1..], "type") by {
        forall i | 0 <= i <= |s[1..]| - 4 ensures !OccursAt(s[1..], "type", i) {
          assert s[1..][i..i + 4] == s[i + 1..i + 5];
          assert !OccursAt(s, "type", i + 1);
        }
      }
      NoTypeKeyword(s[1..]);
    }
  }

  /** A successful build wrote a valid compiled schema to the output path and changed nothing else; a failed one changed nothing. */
  lemma AppSyncBuildOutcome(config: Config, fs: FileSystem, name: string)
    ensures var (ok, after) := AppSyncBuild(config, fs, name);
      var compiled := ProcessSchema(fs, config.GraphQL(), JoinPath(config.GraphQL(), name + ".graphql"), {});
      var output := JoinPath(config.AppSync(), name + ".graphql");
      (ok ==> compiled.value.Some? && ValidSchema(compiled.value.value)
              && after == FileSystem(fs.files[output := Source(compiled.value.value)], fs.dirs)) &&
      (!ok ==> after == fs)
  {
  }

  /** A schema build fails exactly when the schema is missing, its compile raises, the result is invalid or the write fails. */
  lemma AppSyncBuildFails(config: Config, fs: FileSystem, name: string)
    ensures var compiled := ProcessSchema(fs, config.GraphQL(), JoinPath(config.GraphQL(), name + ".graphql"), {});
      var output := JoinPath(config.AppSync(), name + ".graphql");
      !AppSyncBuild(config, fs, name).0 <==>
        !fs.Exists(JoinPath(config.GraphQL(), name + ".graphql")) || compiled.value.None? || !ValidSchema(compiled.value.value)
        || output == [] || output in fs.dirs || !fs.IsDir(Parent(output))
  {
  }

  /** Every schema file longer than its extension is found again under the name `discover` reports for it. */
  lemma SchemaNameRoundTrip(m: string)
    requires IsSchemaFileName(m) && |m| > |".graphql"|
    ensures Stem(m) + ".graphql" == m
  {
    StemOfExtension(m, ".graphql");
    assert m == m[..|m| - 8] + m[|m| - 8..];
  }
}
