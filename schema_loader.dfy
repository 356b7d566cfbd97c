/**
 * The server's GraphQL schema compiler (`compile_graphql_schema`) and its `GraphQLSchemaLoader`.
 * Directives found anywhere in a file are resolved against that file's own directory. The set of
 * processed files is keyed by the unresolved path, created once per compile and shared by every
 * level of the recursion; the operating system opens a file by its resolved path, so two spellings
 * of one file are two keys, and the recursion is bounded only by Python's recursion limit. A target is read the first time it is named; each occurrence of the
 * exact text `import "<p>"` is then replaced by its resolved content, or by nothing when the file
 * is missing. Two cleanup passes remove leftover directives and the comments.
 */
module SchemaLoading {
  import opened Wrappers
  import opened Strings
  import opened Files
  import opened Collections
  import opened SchemaPatterns

  /**
   * The exceptions that leave the compiler: a missing file, one that `open` refuses, or the
   * `RecursionError` of imports nested deeper than Python allows.
   */
  datatype LoadError = FileNotFound(path: Path) | OpenFailed(path: Path) | RecursionLimit

  /**
   * How many nested `resolve_imports` calls, the root's call included, Python makes before it raises
   * `RecursionError`: the interpreter's default limit of 1000 frames, as if nothing else were on the
   * stack.
   */
  const MaxNesting: nat := 1000

  /** What `open(path).read()` does: the text, `FileNotFoundError`, or another error. */
  datatype Opened = Found(text: string) | Absent | Refused

  /**
   * Opening a path for reading text: the operating system resolves `..` first; directories and
   * archives exist but cannot be read as text.
   */
  function Open(fs: FileSystem, p: Path): (r: Opened)
    ensures r.Found? <==> ReadText(fs, Canonical(p)).Some?
    ensures r.Absent? <==> !fs.Exists(Canonical(p))
  {
    var q := Canonical(p);
    match ReadText(fs, q)
    case Some(text) => Found(text)
    case None => if fs.Exists(q) then Refused else Absent
  }

  /** The exact text whose occurrences are replaced once `p` has been resolved. */
  function Statement(p: string): (r: string)
    ensures r == Directive(" ", p) && r != []
  {
    "import \"" + p + "\""
  }

  /** `base_path.parent / p`, with a leading `./` dropped first. */
  function ImportFile(base: Path, p: string): Path {
    JoinPath(Parent(base), if StartsWith(p, "./") then p[2..] else p)
  }

  /**
   * The state the resolution leaves: the text (or the exception), the processed set, and the files
   * read, in order.
   */
  datatype Resolution = Resolution(text: Result<string, LoadError>, processed: set<Path>, readOrder: seq<Path>)

  /** The files read before this resolution are put in front of its own. */
  function Behind(read: seq<Path>, r: Resolution): Resolution {
    Resolution(r.text, r.processed, read + r.readOrder)
  }

  /**
   * `resolve_imports` on `content`, from the point where `imports` are the paths still to handle,
   * `processed` is the shared set so far, and `depth` more nested calls, this one included, are allowed.
   */
  function Resolve(fs: FileSystem, content: string, base: Path, imports: seq<string>, processed: set<Path>,
                   depth: nat): (r: Resolution)
    ensures processed <= r.processed
    ensures NoDuplicates(r.readOrder)
    ensures forall k :: k in r.readOrder ==> k in r.processed && k !in processed
    ensures r.text.Err? ==> r.text.error.OpenFailed? || r.text.error.RecursionLimit?
    decreases depth, |imports|
  {
    if depth == 0 then Resolution(Err(RecursionLimit), processed, [])
    else if imports == [] then Resolution(Ok(content), processed, [])
    else
      var p := imports[0];
      var target := ImportFile(base, p);
      if target in processed then Resolve(fs, content, base, imports[1..], processed, depth)
      else
        var seen := processed + {target};
        match Open(fs, target)
        case Refused => Resolution(Err(OpenFailed(target)), seen, [])
        case Absent => Resolve(fs, Replace(content, Statement(p), ""), base, imports[1..], seen, depth)
        case Found(text) =>
          var inner := Resolve(fs, text, target, FindImports(text), seen, depth - 1);
          if inner.text.Err? then Behind([target], inner)
          else
            var next := Resolve(fs, Replace(content, Statement(p), inner.text.value), base, imports[1..], inner.processed, depth);
            NoDuplicatesConcat([target], inner.readOrder);
            NoDuplicatesConcat([target] + inner.readOrder, next.readOrder);
            Behind([target] + inner.readOrder, next)
  }

  /** `compile_graphql_schema(file)`: read the root, resolve its directives, then clean up. */
  function Compiled(fs: FileSystem, file: Path): Result<string, LoadError> {
    match Open(fs, file)
    case Absent => Err(FileNotFound(file))
    case Refused => Err(OpenFailed(file))
    case Found(text) =>
      match Resolve(fs, text, file, FindImports(text), {}, MaxNesting).text
      case Err(e) => Err(e)
      case Ok(resolved) => Ok(StripComments(StripImports(resolved)))
  }

  /** `resolve_imports(content, base, processed)`, with `depth` more nested calls, this one included, allowed. */
  method ResolveImports(fs: FileSystem, content: string, base: Path, processed: set<Path>, depth: nat)
    returns (text: Result<string, LoadError>, processedAfter: set<Path>, ghost readOrder: seq<Path>)
    ensures Resolution(text, processedAfter, readOrder) == Resolve(fs, content, base, FindImports(content), processed, depth)
    decreases depth, 2
  {
    if depth == 0 {
      return Err(RecursionLimit), processed, [];
    }
    var imports := FindImports(content);
    ghost var goal := Resolve(fs, content, base, imports, processed, depth);
    var current := content;
    var done := processed;
    ghost var read: seq<Path> := [];
    var i := 0;
    while i < |imports|
      invariant 0 <= i <= |imports|
      invariant Behind(read, Resolve(fs, current, base, imports[i..], done, depth)) == goal
      decreases |imports| - i
    {
      var stop, outcome, after, stepRead := ResolveNext(fs, current, base, imports[i..], done, depth);
      if stop {
        assert Resolution(outcome, after, read + stepRead) == goal;
        return outcome, after, read + stepRead;
      }
      ghost var rest := Resolve(fs, outcome.value, base, imports[i + 1..], after, depth);
      assert Behind(read + stepRead, rest) == goal by {
        assert imports[i..][1..] == imports[i + 1..];
        BehindBehind(read, stepRead, rest);
      }
      current, done, read := outcome.value, after, read + stepRead;
      i := i + 1;
    }
    assert Resolution(Ok(current), done, read) == goal by {
      assert imports[i..] == [];
      ResolvedNothing(fs, current, base, done, depth);
    }
    return Ok(current), done, read;
  }

  /**
   * One pass of the loop in `resolve_imports`, for the directive `imports[0]` in `current`: either the
   * call ends here, or the loop goes on with the new text and processed set.
   */
  method ResolveNext(fs: FileSystem, current: string, base: Path, imports: seq<string>, done: set<Path>, depth: nat)
    returns (stop: bool, text: Result<string, LoadError>, after: set<Path>, ghost read: seq<Path>)
    requires imports != [] && depth > 0
    ensures stop ==> Resolution(text, after, read) == Resolve(fs, current, base, imports, done, depth)
    ensures !stop ==> text.Ok? && Behind(read, Resolve(fs, text.value, base, imports[1..], after, depth))
                                  == Resolve(fs, current, base, imports, done, depth)
    decreases depth, 1
  {
    ghost var goal := Resolve(fs, current, base, imports, done, depth);
    var p := imports[0];
    var target := ImportFile(base, p);
    if target in done {
      assert goal == Resolve(fs, current, base, imports[1..], done, depth) by {
        SkipStep(fs, current, base, imports, done, depth);
      }
      return false, Ok(current), done, [];
    }
    var outcome := Open(fs, target);
    match outcome {
      case Refused =>
        assert goal == Resolution(Err(OpenFailed(target)), done + {target}, []) by {
          RefusedStep(fs, current, base, imports, done, depth);
        }
        return true, Err(OpenFailed(target)), done + {target}, [];
      case Absent =>
        assert goal == Resolve(fs, Replace(current, Statement(p), ""), base, imports[1..], done + {target}, depth) by {
          AbsentStep(fs, current, base, imports, done, depth);
        }
        return false, Ok(Replace(current, Statement(p), "")), done + {target}, [];
      case Found(imported) =>
        stop, text, after, read := ResolveFound(fs, current, base, imports, done, imported, depth);
    }
  }

  /**
   * The loop pass for a directive whose target can be read: the nested call on the target's text,
   * then the substitution, or the exception that leaves the call.
   */
  method ResolveFound(fs: FileSystem, current: string, base: Path, imports: seq<string>, done: set<Path>, imported: string,
                      depth: nat)
    returns (stop: bool, text: Result<string, LoadError>, after: set<Path>, ghost read: seq<Path>)
    requires imports != [] && depth > 0
    requires ImportFile(base, imports[0]) !in done && Open(fs, ImportFile(base, imports[0])) == Found(imported)
    ensures stop ==> Resolution(text, after, read) == Resolve(fs, current, base, imports, done, depth)
    ensures !stop ==> text.Ok? && Behind(read, Resolve(fs, text.value, base, imports[1..], after, depth))
                                  == Resolve(fs, current, base, imports, done, depth)
    decreases depth, 0
  {
    var p := imports[0];
    var target := ImportFile(base, p);
    var inner, innerProcessed, innerRead := ResolveImports(fs, imported, target, done + {target}, depth - 1);
    ghost var sub := Resolve(fs, imported, target, FindImports(imported), done + {target}, depth - 1);
    assert sub == Resolution(inner, innerProcessed, innerRead);
    if inner.Err? {
      FoundFails(fs, current, base, imports, done, imported, depth);
      return true, inner, innerProcessed, [target] + innerRead;
    }
    FoundReplaced(fs, current, base, imports, done, imported, depth);
    return false, Ok(Replace(current, Statement(p), inner.value)), innerProcessed, [target] + innerRead;
  }

  /** An import whose target is already processed is passed over: its directive stays in the text. */
  lemma SkipStep(fs: FileSystem, content: string, base: Path, imports: seq<string>, processed: set<Path>, depth: nat)
    requires imports != [] && ImportFile(base, imports[0]) in processed
    ensures Resolve(fs, content, base, imports, processed, depth) == Resolve(fs, content, base, imports[1..], processed, depth)
  {
  }

  /** A target that exists but cannot be read as text raises, once it is marked processed. */
  lemma RefusedStep(fs: FileSystem, content: string, base: Path, imports: seq<string>, processed: set<Path>, depth: nat)
    requires imports != [] && ImportFile(base, imports[0]) !in processed
    requires Open(fs, ImportFile(base, imports[0])).Refused?
    requires depth > 0
    ensures var target := ImportFile(base, imports[0]);
      Resolve(fs, content, base, imports, processed, depth) == Resolution(Err(OpenFailed(target)), processed + {target}, [])
  {
  }

  /** A missing target is marked processed and its directive is deleted. */
  lemma AbsentStep(fs: FileSystem, content: string, base: Path, imports: seq<string>, processed: set<Path>, depth: nat)
    requires imports != [] && ImportFile(base, imports[0]) !in processed
    requires Open(fs, ImportFile(base, imports[0])).Absent?
    requires depth > 0
    ensures Resolve(fs, content, base, imports, processed, depth)
      == Resolve(fs, Replace(content, Statement(imports[0]), ""), base, imports[1..], processed + {ImportFile(base, imports[0])}, depth)
  {
  }

  /** A call made with no nesting left raises `RecursionError` before it reads anything. */
  lemma NestingExhausted(fs: FileSystem, content: string, base: Path, imports: seq<string>, processed: set<Path>)
    ensures Resolve(fs, content, base, imports, processed, 0) == Resolution(Err(RecursionLimit), processed, [])
  {
  }

  /**
   * A readable target is marked processed and resolved against its own directory one level deeper;
   * when that raises, the exception leaves this call too.
   */
  lemma FoundFails(fs: FileSystem, content: string, base: Path, imports: seq<string>, processed: set<Path>, text: string,
                   depth: nat)
    requires imports != [] && ImportFile(base, imports[0]) !in processed
    requires Open(fs, ImportFile(base, imports[0])) == Found(text)
    requires depth > 0
    requires Resolve(fs, text, ImportFile(base, imports[0]), FindImports(text), processed + {ImportFile(base, imports[0])}, depth - 1).text.Err?
    ensures var target := ImportFile(base, imports[0]);
      Resolve(fs, content, base, imports, processed, depth)
      == Behind([target], Resolve(fs, text, target, FindImports(text), processed + {target}, depth - 1))
  {
  }

  /**
   * A readable target is marked processed, resolved against its own directory one level deeper, and
   * substituted for its directive; the loop goes on with the processed set the nested call leaves.
   */
  lemma FoundReplaced(fs: FileSystem, content: string, base: Path, imports: seq<string>, processed: set<Path>, text: string,
                      depth: nat)
    requires imports != [] && ImportFile(base, imports[0]) !in processed
    requires Open(fs, ImportFile(base, imports[0])) == Found(text)
    requires depth > 0
    requires Resolve(fs, text, ImportFile(base, imports[0]), FindImports(text), processed + {ImportFile(base, imports[0])}, depth - 1).text.Ok?
    ensures var target := ImportFile(base, imports[0]);
      var inner := Resolve(fs, text, target, FindImports(text), processed + {target}, depth - 1);
      Resolve(fs, content, base, imports, processed, depth)
      == Behind([target] + inner.readOrder, Resolve(fs, Replace(content, Statement(imports[0]), inner.text.value), base, imports[1..], inner.processed, depth))
  {
  }

  /** Proof step for the loop of `ResolveImports`: files read one after the other are the files read together. */
  lemma BehindBehind(a: seq<Path>, b: seq<Path>, r: Resolution)
    ensures Behind(a, Behind(b, r)) == Behind(a + b, r)
  {
    assert a + (b + r.readOrder) == (a + b) + r.readOrder;
  }

  /** `compile_graphql_schema(file)`. */
  method CompileGraphQLSchema(fs: FileSystem, file: Path) returns (r: Result<string, LoadError>)
    ensures r == Compiled(fs, file)
  {
    var outcome := Open(fs, file);
    match outcome
    case Absent => return Err(FileNotFound(file));
    case Refused => return Err(OpenFailed(file));
    case Found(content) =>
      var resolved, processed, readOrder := ResolveImports(fs, content, file, {}, MaxNesting);
      if resolved.Err? {
        return Err(resolved.error);
      }
      return Ok(StripComments(StripImports(resolved.value)));
  }

  /** `GraphQLSchemaLoader(graphql_dir).load_schema(name)` on the directory it was given. */
  function LoadedSchema(fs: FileSystem, dir: Path, name: string): Result<string, LoadError> {
    var schemaFile := JoinPath(dir, name + ".graphql");
    if !fs.Exists(Canonical(schemaFile)) then Err(FileNotFound(schemaFile)) else Compiled(fs, schemaFile)
  }

  /** A leading `./` makes no difference: both spellings name the file beside the importing one. */
  lemma DotSlashDropped(base: Path, name: string)
    requires '/' !in name && name != "" && name != "."
    ensures ImportFile(base, "./" + name) == ImportFile(base, name) == Parent(base) + [name]
  {
    assert ("./" + name)[2..] == name;
    assert |name| >= 2 ==> name[1] in name;
    JoinSegment(Parent(base), name);
  }

  /** Imports whose targets are all processed already leave the text as it is and read nothing. */
  lemma {:induction false} SkippedImportsKept(fs: FileSystem, content: string, base: Path, imports: seq<string>, processed: set<Path>,
                                             depth: nat)
    requires forall i :: 0 <= i < |imports| ==> ImportFile(base, imports[i]) in processed
    requires depth > 0
    ensures Resolve(fs, content, base, imports, processed, depth) == Resolution(Ok(content), processed, [])
    decreases |imports|
  {
    if imports != [] {
      assert ImportFile(base, imports[0]) in processed;
      SkipStep(fs, content, base, imports, processed, depth);
      assert forall i :: 0 <= i < |imports[1..]| ==> imports[1..][i] == imports[i + 1];
      SkippedImportsKept(fs, content, base, imports[1..], processed, depth);
    }
  }

  /** A document with no directive, and no `#` before a newline, compiles to itself. */
  lemma UntouchedDocument(fs: FileSystem, file: Path, text: string)
    requires Open(fs, file) == Found(text) && NoDirectives(text) && CommentsOnLastLine(text)
    ensures Compiled(fs, file) == Ok(text)
  {
    FindImportsNone(text);
    StripImportsIdle(text);
    StripCommentsIdle(text);
  }

  /** Text that holds no directive holds no `import "<p>"` either. */
  lemma StatementAbsent(rest: string, p: string)
    requires NoDirectives(rest) && p != [] && '"' !in p
    ensures !Contains(rest, Statement(p))
  {
    var st := Statement(p);
    forall i | 0 <= i <= |rest| - |st| ensures !OccursAt(rest, st, i) {
      if OccursAt(rest, st, i) {
        assert rest[i..] == Directive(" ", p) + rest[i + |st|..];
        ImportAtRecognises(" ", p, rest[i + |st|..]);
        assert false;
      }
    }
  }

  /** Replacing in a text that starts with the pattern: the head is replaced, the rest is scanned on. */
  lemma ReplaceHead(pat: string, rest: string, rep: string)
    requires pat != []
    ensures Replace(pat + rest, pat, rep) == rep + Replace(rest, pat, rep)
  {
    assert (pat + rest)[..|pat|] == pat && (pat + rest)[|pat|..] == rest;
  }

  /** Once the root's resolution is known, the compiled schema is its cleaned-up text. */
  lemma CompiledFrom(fs: FileSystem, file: Path, text: string, resolved: string)
    requires Open(fs, file) == Found(text)
    requires Resolve(fs, text, file, FindImports(text), {}, MaxNesting).text == Ok(resolved)
    ensures Compiled(fs, file) == Ok(StripComments(StripImports(resolved)))
  {
  }

  /** Nothing left to import: the text is the result, and only what was processed stays processed. */
  lemma ResolvedNothing(fs: FileSystem, content: string, base: Path, processed: set<Path>, depth: nat)
    requires depth > 0
    ensures Resolve(fs, content, base, [], processed, depth) == Resolution(Ok(content), processed, [])
  {
  }

  /** The directives `import "<p>"` followed by directive-free text: the finder reports `p` alone. */
  lemma LeadingStatement(p: string, rest: string)
    requires p != [] && '"' !in p && NoDirectives(rest)
    ensures FindImports(Statement(p) + rest) == [p]
  {
    assert Statement(p) + rest == [] + Directive(" ", p) + rest;
    FindImportsAfter([], " ", p, rest);
    FindImportsNone(rest);
  }

  /**
   * A root that starts with a directive for a missing file compiles to the rest of its text: the
   * directive is deleted and nothing raises.
   */
  lemma MissingImportRemoved(fs: FileSystem, file: Path, p: string, rest: string)
    requires p != [] && '"' !in p && NoDirectives(rest) && CommentsOnLastLine(rest)
    requires Open(fs, file) == Found(Statement(p) + rest)
    requires Open(fs, ImportFile(file, p)).Absent?
    ensures Compiled(fs, file) == Ok(rest)
  {
    var text := Statement(p) + rest;
    var target := ImportFile(file, p);
    LeadingStatement(p, rest);
    ReplaceHead(Statement(p), rest, "");
    StatementAbsent(rest, p);
    ReplaceAbsent(rest, Statement(p), "");
    assert Replace(text, Statement(p), "") == rest;
    AbsentStep(fs, text, file, [p], {}, MaxNesting);
    assert [p][1..] == [];
    ResolvedNothing(fs, rest, file, {} + {target}, MaxNesting);
    assert Resolve(fs, text, file, [p], {}, MaxNesting).text == Ok(rest);
    StripImportsIdle(rest);
    StripCommentsIdle(rest);
    CompiledFrom(fs, file, text, rest);
  }

  /**
   * The root is never marked processed, so a root whose first directive names the root itself gets
   * its own text inlined once: the rest of the root appears twice in the compiled schema.
   */
  lemma RootImportedBack(fs: FileSystem, file: Path, p: string, rest: string)
    requires p != [] && '"' !in p && ImportFile(file, p) == file
    requires rest != [] && !IsSpace(rest[0]) && '"' !in rest && '#' !in rest
    requires Open(fs, file) == Found(Statement(p) + rest)
    ensures Compiled(fs, file) == Ok(rest + rest)
  {
    var text := Statement(p) + rest;
    QuoteFreeNoDirectives(rest);
    LeadingStatement(p, rest);
    RootResolvedTwice(fs, file, p, rest, MaxNesting);
    assert text + rest == Directive(" ", p) + rest + rest;
    TwiceClean(p, rest);
    CompiledFrom(fs, file, text, text + rest);
  }

  /** The root's one directive names the root: its text replaces the directive, in front of the rest. */
  lemma RootResolvedTwice(fs: FileSystem, file: Path, p: string, rest: string, depth: nat)
    requires p != [] && '"' !in p && ImportFile(file, p) == file
    requires NoDirectives(rest)
    requires Open(fs, file) == Found(Statement(p) + rest)
    requires depth > 1
    ensures Resolve(fs, Statement(p) + rest, file, [p], {}, depth).text == Ok(Statement(p) + rest + rest)
  {
    var text := Statement(p) + rest;
    LeadingStatement(p, rest);
    SkippedImportsKept(fs, text, file, [p], {file}, depth - 1);
    ReplaceHead(Statement(p), rest, text);
    StatementAbsent(rest, p);
    ReplaceAbsent(rest, Statement(p), text);
    FoundReplaced(fs, text, file, [p], {}, text, depth);
    assert [p][1..] == [];
    ResolvedNothing(fs, text + rest, file, {file}, depth);
  }

  /** The cleanup of the doubled root: the directive in front goes, the two copies stay. */
  lemma TwiceClean(p: string, rest: string)
    requires p != [] && '"' !in p
    requires rest != [] && !IsSpace(rest[0]) && '"' !in rest && '#' !in rest
    ensures StripComments(StripImports(Directive(" ", p) + rest + rest)) == rest + rest
  {
    var twice := rest + rest;
    assert '"' !in twice && '#' !in twice && twice[0] == rest[0];
    LeadingDirectiveStripped(p, twice);
    assert Directive(" ", p) + rest + rest == Directive(" ", p) + twice;
    assert CommentsOnLastLine(twice);
    StripCommentsIdle(twice);
  }

  /** A directive in front of text that starts with no whitespace and holds no quote is removed alone. */
  lemma LeadingDirectiveStripped(p: string, t: string)
    requires p != [] && '"' !in p
    requires t != [] && !IsSpace(t[0]) && '"' !in t
    ensures StripImports(Directive(" ", p) + t) == t
  {
    QuoteFreeNoDirectives(t);
    StripImportsIdle(t);
    ImportAtRecognises(" ", p, t);
    assert (Directive(" ", p) + t)[Match(1, p).Length()..] == t;
    assert SpaceRun(t) == 0;
    assert t[0..] == t;
  }

  /**
   * Substitution looks for `import "<p>"` with one space, while the finder accepts any whitespace. A
   * root made of a directive with other whitespace has its target read, and then the cleanup deletes
   * the directive: the imported text is lost.
   */
  lemma SpacedImportLost(fs: FileSystem, file: Path, ws: string, p: string, imported: string)
    requires ws != [] && IsBlank(ws) && ws != " " && p != [] && '"' !in p
    requires Open(fs, file) == Found(Directive(ws, p))
    requires Open(fs, ImportFile(file, p)) == Found(imported) && NoDirectives(imported)
    ensures Resolve(fs, Directive(ws, p), file, FindImports(Directive(ws, p)), {}, MaxNesting).readOrder == [ImportFile(file, p)]
    ensures Compiled(fs, file) == Ok("")
  {
    var text := Directive(ws, p);
    SpacedResolution(fs, file, ws, p, imported, MaxNesting);
    DirectiveStripped(ws, p);
    CompiledFrom(fs, file, text, text);
  }

  /** A directive alone, with any whitespace, is deleted by both cleanups. */
  lemma DirectiveStripped(ws: string, p: string)
    requires ws != [] && IsBlank(ws) && p != [] && '"' !in p
    ensures StripComments(StripImports(Directive(ws, p))) == []
  {
    var text := Directive(ws, p);
    ImportAtRecognises(ws, p, []);
    assert text + [] == text && text[Match(|ws|, p).Length()..] == [];
    assert StripImports(text) == [];
  }

  /** The resolution behind `SpacedImportLost`: the target is read, and the text comes back unchanged. */
  lemma SpacedResolution(fs: FileSystem, file: Path, ws: string, p: string, imported: string, depth: nat)
    requires ws != [] && IsBlank(ws) && ws != " " && p != [] && '"' !in p
    requires depth > 1
    requires Open(fs, ImportFile(file, p)) == Found(imported) && NoDirectives(imported)
    ensures var text := Directive(ws, p);
      Resolve(fs, text, file, FindImports(text), {}, depth) == Resolution(Ok(text), {ImportFile(file, p)}, [ImportFile(file, p)])
  {
    var text := Directive(ws, p);
    var target := ImportFile(file, p);
    assert text == [] + Directive(ws, p) + [];
    FindImportsAfter([], ws, p, []);
    assert FindImports(text) == [p];
    FindImportsNone(imported);
    ResolvedNothing(fs, imported, target, {} + {target}, depth - 1);
    assert Resolve(fs, imported, target, FindImports(imported), {} + {target}, depth - 1) == Resolution(Ok(imported), {target}, []);
    SpacedStatementAbsent(ws, p);
    ReplaceAbsent(text, Statement(p), imported);
    FoundReplaced(fs, text, file, [p], {}, imported, depth);
    assert [p][1..] == [];
    ResolvedNothing(fs, text, file, {target}, depth);
  }

  /** A directive with whitespace other than one space does not contain `import "<p>"`. */
  lemma SpacedStatementAbsent(ws: string, p: string)
    requires ws != [] && IsBlank(ws) && ws != " " && p != [] && '"' !in p
    ensures !Contains(Directive(ws, p), Statement(p))
  {
    var d := Directive(ws, p);
    var st := Statement(p);
    assert forall k :: 0 <= k < 6 ==> d[k] == "import"[k];
    assert forall k :: 6 <= k < 6 + |ws| ==> d[k] == ws[k - 6];
    assert |ws| == 1 ==> ws == [ws[0]];
    forall i | 0 <= i <= |d| - |st| ensures !OccursAt(d, st, i) {
      StatementChars(d, p, i);
    }
  }

  /** Where `import "<p>"` occurs, the characters around its opening quote are `t`, a space and the quote. */
  lemma StatementChars(d: string, p: string, i: nat)
    ensures OccursAt(d, Statement(p), i) ==> d[i + 5] == 't' && d[i + 6] == ' ' && d[i + 7] == '"'
  {
    if OccursAt(d, Statement(p), i) {
      var st := Statement(p);
      assert d[i..i + |st|][5] == st[5] && d[i..i + |st|][6] == st[6] && d[i..i + |st|][7] == st[7];
    }
  }

  /** `dir` followed by `k` detours `d/..`. */
  function Detour(dir: Path, d: string, k: nat): (r: Path)
    ensures |r| == |dir| + 2 * k
  {
    if k == 0 then dir else Detour(dir, d, k - 1) + [d, ".."]
  }

  /** However many detours it takes, a path through `d/..` resolves to the path without them. */
  lemma {:induction false} DetourResolves(dir: Path, d: string, k: nat, name: string)
    requires d != ".."
    ensures Canonical(Detour(dir, d, k) + [name]) == Canonical(dir + [name])
  {
    if k > 0 {
      assert Detour(dir, d, k) + [name] == Detour(dir, d, k - 1) + [d, ".."] + [name];
      CanonicalStepBack(Detour(dir, d, k - 1), d, [name]);
      DetourResolves(dir, d, k - 1, name);
    }
  }

  /** Two spellings of one resolved path open the same file. */
  lemma OpenResolved(fs: FileSystem, a: Path, b: Path)
    requires Canonical(a) == Canonical(b)
    ensures Open(fs, a) == Open(fs, b)
  {
  }

  /**
   * The names `d` and `name` of a detour import `"d/../name"`: single segments, neither empty, `.` nor
   * `..`, and free of quotes.
   */
  predicate DetourNames(d: string, name: string) {
    '/' !in d && d != "" && d != "." && d != ".." && '"' !in d &&
    '/' !in name && name != "" && name != "." && '"' !in name
  }

  /** The keys `key(1)`, …, `key(k)`. */
  function Keys(key: nat -> Path, k: nat): set<Path> {
    if k == 0 then {} else Keys(key, k - 1) + {key(k)}
  }

  /** Keys that grow by two segments at every step: the first `k` are shorter than the next one. */
  lemma {:induction false} KeysShorter(key: nat -> Path, start: nat, k: nat)
    requires forall j: nat :: |key(j)| == start + 2 * j
    ensures forall q :: q in Keys(key, k) ==> |q| <= start + 2 * k
  {
    if k > 0 {
      KeysShorter(key, start, k - 1);
    }
  }

  /** From the file reached after `k` detours, `import "d/../name"` names the file after `k + 1`. */
  lemma DetourStep(dir: Path, d: string, name: string, k: nat)
    requires DetourNames(d, name)
    ensures ImportFile(Detour(dir, d, k) + [name], d + "/../" + name) == Detour(dir, d, k + 1) + [name]
  {
    var p := d + "/../" + name;
    var base := Detour(dir, d, k) + [name];
    assert !StartsWith(p, "./") by {
      assert p[0] == d[0] && d[0] in d;
      if |d| >= 2 {
        assert p[1] == d[1] && d[1] in d;
      } else {
        assert d == [p[0]];
      }
    }
    assert Parent(base) == Detour(dir, d, k);
    JoinStepBack(Detour(dir, d, k), d, name);
  }

  /**
   * A text whose one directive `p` leads from each key `key(j)` to the next key `key(j + 1)`, a file
   * holding the same text that is not processed yet: the resolution goes one level deeper at every
   * key and raises `RecursionError` once the nesting runs out.
   */
  lemma {:induction false} EndlessChain(fs: FileSystem, text: string, p: string, key: nat -> Path, k: nat, depth: nat)
    requires FindImports(text) == [p]
    requires forall j: nat {:trigger ImportFile(key(j), p)} :: ImportFile(key(j), p) == key(j + 1)
    requires forall j: nat {:trigger Open(fs, key(j))} :: 0 < j ==> Open(fs, key(j)) == Found(text)
    requires forall j: nat {:trigger Keys(key, j)} :: key(j + 1) !in Keys(key, j)
    ensures Resolve(fs, text, key(k), [p], Keys(key, k), depth).text == Err(RecursionLimit)
    decreases depth
  {
    if depth > 0 {
      EndlessChain(fs, text, p, key, k + 1, depth - 1);
      assert ImportFile(key(k), p) == key(k + 1) && Open(fs, key(k + 1)) == Found(text) && key(k + 1) !in Keys(key, k);
      ReadFails(fs, text, p, key(k), key(k + 1), Keys(key, k), depth);
    }
  }

  /**
   * The file `target` that `base` imports holds `text` again, with the same one directive: when the
   * resolution of `target` raises, so does the one of `base`.
   */
  lemma ReadFails(fs: FileSystem, text: string, p: string, base: Path, target: Path, processed: set<Path>, depth: nat)
    requires FindImports(text) == [p] && ImportFile(base, p) == target && target !in processed
    requires Open(fs, target) == Found(text) && depth > 0
    requires Resolve(fs, text, target, [p], processed + {target}, depth - 1).text == Err(RecursionLimit)
    ensures Resolve(fs, text, base, [p], processed, depth).text == Err(RecursionLimit)
  {
    assert [p][0] == p;
    FoundFails(fs, text, base, [p], processed, text, depth);
  }

  /** The directive `import "<p>"` alone: the finder reports `p`. */
  lemma StatementImports(p: string)
    requires p != [] && '"' !in p
    ensures FindImports(Statement(p)) == [p]
  {
    FindImportsNone([]);
    LeadingStatement(p, []);
    assert Statement(p) + [] == Statement(p);
  }

  /** The keys of the detour chain from `dir/name` satisfy what `EndlessChain` asks of its keys. */
  lemma DetourChainKeys(fs: FileSystem, dir: Path, d: string, name: string, key: nat -> Path)
    requires DetourNames(d, name)
    requires Open(fs, dir + [name]) == Found(Statement(d + "/../" + name))
    requires forall j: nat :: key(j) == Detour(dir, d, j) + [name]
    ensures forall j: nat {:trigger ImportFile(key(j), d + "/../" + name)} :: ImportFile(key(j), d + "/../" + name) == key(j + 1)
    ensures forall j: nat {:trigger Open(fs, key(j))} :: 0 < j ==> Open(fs, key(j)) == Found(Statement(d + "/../" + name))
    ensures forall j: nat {:trigger Keys(key, j)} :: key(j + 1) !in Keys(key, j)
  {
    forall j: nat ensures ImportFile(key(j), d + "/../" + name) == key(j + 1) {
      DetourStep(dir, d, name, j);
    }
    forall j: nat | 0 < j ensures Open(fs, key(j)) == Found(Statement(d + "/../" + name)) {
      DetourResolves(dir, d, j, name);
      OpenResolved(fs, key(j), dir + [name]);
    }
    forall j: nat ensures key(j + 1) !in Keys(key, j) {
      KeysShorter(key, |dir| + 1, j);
      assert |key(j + 1)| == |dir| + 1 + 2 * (j + 1);
    }
  }

  /**
   * Processed files are keyed by the unresolved path, so a file that imports itself through a detour,
   * `import "d/../name"`, is read again under a new key at every level: the compile does not stop at
   * the cycle and ends in `RecursionError`.
   */
  lemma DetourSelfImportTooDeep(fs: FileSystem, dir: Path, d: string, name: string)
    requires DetourNames(d, name)
    requires Open(fs, dir + [name]) == Found(Statement(d + "/../" + name))
    ensures Compiled(fs, dir + [name]) == Err(RecursionLimit)
  {
    var p := d + "/../" + name;
    assert '"' !in p;
    StatementImports(p);
    var key := (j: nat) => Detour(dir, d, j) + [name];
    DetourChainKeys(fs, dir, d, name, key);
    EndlessChain(fs, Statement(p), p, key, 0, MaxNesting);
    assert key(0) == dir + [name] && Keys(key, 0) == {};
  }

  /** `FileNotFoundError` escapes `load_schema` exactly when the schema file itself is missing. */
  lemma LoadedSchemaNotFound(fs: FileSystem, dir: Path, name: string)
    ensures LoadedSchema(fs, dir, name).Err? && LoadedSchema(fs, dir, name).error.FileNotFound?
      <==> !fs.Exists(Canonical(JoinPath(dir, name + ".graphql")))
  {
  }

  /** What `get_schema_info` reports. */
  datatype SchemaInfo = SchemaInfo(graphqlDir: Path, processedFiles: seq<Path>)

  /** The default `graphql_dir` of `GraphQLSchemaLoader`. */
  const DefaultGraphQLDir: string := "./src/api/graphql"

  /** The default `schema_name` of `load_schema`. */
  const DefaultSchemaName: string := "haulink_app"

  /** The default directory is `src/api/graphql` two levels above the loader's source file. */
  lemma DefaultDirectory(moduleFile: Path)
    ensures JoinPath(Parent(Parent(moduleFile)), DefaultGraphQLDir) == Parent(Parent(moduleFile)) + ["src", "api", "graphql"]
  {
    assert DefaultGraphQLDir == "." + ['/'] + ("src" + ['/'] + ("api" + ['/'] + "graphql"));
    JoinDotted(Parent(Parent(moduleFile)), "src", "api", "graphql");
  }

  class GraphQLSchemaLoader {
    /** `Path(__file__).parent.parent / graphql_dir` */
    const graphqlDir: Path
    /** Created empty; no method of the loader ever adds to it. */
    const processedFiles: set<Path> := {}

    /** `__init__(graphql_dir)`, for the loader's own source file `moduleFile`. */
    constructor (moduleFile: Path, dir: string)
      ensures graphqlDir == JoinPath(Parent(Parent(moduleFile)), dir)
    {
      graphqlDir := JoinPath(Parent(Parent(moduleFile)), dir);
    }

    /** `__init__()`, with the default directory. */
    constructor Default(moduleFile: Path)
      ensures graphqlDir == JoinPath(Parent(Parent(moduleFile)), DefaultGraphQLDir)
    {
      graphqlDir := JoinPath(Parent(Parent(moduleFile)), DefaultGraphQLDir);
    }

    /** `load_schema()`, with the default schema name. */
    method LoadDefaultSchema(fs: FileSystem) returns (r: Result<string, LoadError>)
      ensures r == LoadedSchema(fs, graphqlDir, DefaultSchemaName)
    {
      r := LoadSchema(fs, DefaultSchemaName);
    }

    /** `load_schema(schema_name)` */
    method LoadSchema(fs: FileSystem, name: string) returns (r: Result<string, LoadError>)
      ensures r == LoadedSchema(fs, graphqlDir, name)
    {
      var schemaFile := JoinPath(graphqlDir, name + ".graphql");
      if !fs.Exists(Canonical(schemaFile)) {
        return Err(FileNotFound(schemaFile));
      }
      r := CompileGraphQLSchema(fs, schemaFile);
    }

    /** `get_schema_info()`: the directory, and the processed files as a list, which is always empty. */
    function GetSchemaInfo(): (r: SchemaInfo)
      ensures r.graphqlDir == graphqlDir
      ensures forall p :: p in r.processedFiles <==> p in processedFiles
      ensures r.processedFiles == []
    {
      SchemaInfo(graphqlDir, [])
    }
  }
}
