/**
 * Paths and an abstract filesystem. A path is the sequence of its segments from the filesystem root;
 * the filesystem maps file paths to contents and keeps the set of directory paths. The functions
 * below stand for the `pathlib`, `shutil` and `zipfile` calls the builders make; each returns
 * `None` where the corresponding call raises.
 */
module Files {
  import opened Wrappers
  import opened Strings

  type Path = seq<string>

  /** What a file holds: text, or a zip archive mapping entry paths to what was archived under them. */
  datatype Content = Source(text: string) | Archive(entries: map<Path, Content>)

  datatype FileSystem = FileSystem(files: map<Path, Content>, dirs: set<Path>) {

    /** `Path.exists()`; the root always exists. */
    predicate Exists(p: Path) {
      p == [] || p in files || p in dirs
    }

    /** `Path.is_dir()` */
    predicate IsDir(p: Path) {
      p == [] || (p in dirs && p !in files)
    }
  }

  /** The disk is a tree: every proper ancestor of an existing path is a directory, so files are leaves. */
  ghost predicate IsTree(fs: FileSystem) {
    forall p, q :: fs.Exists(q) && IsPrefix(p, q) && p != q ==> fs.IsDir(p)
  }

  /** `PurePath.parent`: the root is its own parent. */
  function Parent(p: Path): (r: Path)
    ensures |r| == if p == [] then 0 else |p| - 1
  {
    if p == [] then [] else p[..|p| - 1]
  }

  /** `PurePath.name`: the last segment, `""` for the root. */
  function Name(p: Path): string {
    if p == [] then "" else p[|p| - 1]
  }

  /** `root` is `p` or one of its ancestors. */
  predicate IsPrefix(root: Path, p: Path) {
    |root| <= |p| && p[..|root|] == root
  }


  lemma PrefixTransitive(a: Path, b: Path, c: Path)
    requires IsPrefix(a, b) && IsPrefix(b, c)
    ensures IsPrefix(a, c)
  {
    assert c[..|a|] == c[..|b|][..|a|];
  }

  lemma PrefixAppend(dest: Path, r: Path, x: Path)
    ensures IsPrefix(dest + r, dest + x) <==> IsPrefix(r, x)
  {
    if IsPrefix(r, x) {
      assert (dest + x)[..|dest + r|] == dest + x[..|r|];
    }
    if IsPrefix(dest + r, dest + x) {
      assert x[..|r|] == (dest + x)[|dest|..|dest + r|];
    }
  }

  /** Being an ancestor is transitive, and two ancestors of one path are ordered by length. */
  lemma PrefixOrder(a: Path, b: Path, c: Path)
    ensures IsPrefix(a, b) && IsPrefix(b, c) ==> IsPrefix(a, c)
    ensures IsPrefix(a, c) && IsPrefix(b, c) && |a| <= |b| ==> IsPrefix(a, b)
  {
    if IsPrefix(a, b) && IsPrefix(b, c) {
      PrefixTransitive(a, b, c);
    }
    if IsPrefix(a, c) && IsPrefix(b, c) && |a| <= |b| {
      assert b[..|a|] == c[..|b|][..|a|];
    }
  }

  /** A path below `top`, appended to `root`, is the rest of it appended to `root + top`. */
  lemma AppendBelow(root: Path, top: Path, rel: Path)
    ensures IsPrefix(top, rel) ==> root + rel == root + top + rel[|top|..]
    ensures IsPrefix(top, rel) ==> (rel[|top|..] == [] <==> rel == top)
  {
    if IsPrefix(top, rel) {
      assert rel == top + rel[|top|..];
      assert root + (top + rel[|top|..]) == root + top + rel[|top|..];
    }
  }

  /** `a` and `b` lie on different branches: neither is the other or one of its ancestors. */
  predicate Apart(a: Path, b: Path) {
    !IsPrefix(a, b) && !IsPrefix(b, a)
  }

  /** Nothing below one of two paths that lie apart is below the other. */
  lemma ApartBelow(a: Path, b: Path, rel: Path)
    requires Apart(a, b)
    ensures !IsPrefix(a, b + rel)
  {
  }

  /** The index of the last `c` in `s`, or -1 (`str.rfind`). */
  function LastIndex(s: string, c: char): (i: int)
    ensures -1 <= i < |s|
    ensures i >= 0 ==> s[i] == c
    ensures forall k :: i < k < |s| ==> s[k] != c
  {
    if s == [] then -1
    else if s[|s| - 1] == c then |s| - 1
    else LastIndex(s[..|s| - 1], c)
  }

  /** `PurePath.suffix` of a name: from its last dot, unless that dot is first or last. */
  function Suffix(name: string): string {
    var i := LastIndex(name, '.');
    if 0 < i < |name| - 1 then name[i..] else ""
  }

  /** `PurePath.stem` of a name: the name without its suffix. */
  function Stem(name: string): string {
    var i := LastIndex(name, '.');
    if 0 < i < |name| - 1 then name[..i] else name
  }

  /** A name ending in an extension such as `.py` or `.graphql`, and longer than it, has that suffix and loses it in its stem. */
  lemma StemOfExtension(name: string, ext: string)
    requires |ext| >= 2 && ext[0] == '.' && '.' !in ext[1..]
    requires EndsWith(name, ext) && |name| > |ext|
    ensures Suffix(name) == ext
    ensures Stem(name) == name[..|name| - |ext|]
  {
    var d := |name| - |ext|;
    assert name[d] == ext[0];
    forall k | d < k < |name| ensures name[k] != '.' {
      assert name[k] == ext[1..][k - d - 1];
    }
    var i := LastIndex(name, '.');
    assert i == d;
  }

  /** A name ending in `ext` but no longer than it (`.py` itself, say) has no suffix and is its own stem. */
  lemma NoStemWithoutBase(name: string, ext: string)
    requires |ext| >= 2 && ext[0] == '.' && '.' !in ext[1..]
    requires name == ext
    ensures Suffix(name) == "" && Stem(name) == name
  {
    forall k | 0 < k < |name| ensures name[k] != '.' {
      assert name[k] == ext[1..][k - 1];
    }
    assert LastIndex(name, '.') == 0;
  }

  /** The segments of a string path: pathlib splits at `/` and drops empty and `.` parts. */
  function Segments(s: string): Path {
    Proper(Split(s, '/'))
  }

  function Proper(parts: seq<string>): (r: Path)
    ensures forall i :: 0 <= i < |r| ==> r[i] != "" && r[i] != "."
    ensures (forall i :: 0 <= i < |parts| ==> '/' !in parts[i]) ==> forall i :: 0 <= i < |r| ==> '/' !in r[i]
  {
    if parts == [] then []
    else (if parts[0] == "" || parts[0] == "." then [] else [parts[0]]) + Proper(parts[1..])
  }

  /** `p / s` for a string `s`: an absolute `s` replaces `p`. */
  function JoinPath(p: Path, s: string): Path {
    if StartsWith(s, "/") then Segments(s) else p + Segments(s)
  }

  /** `Proper` keeps a last part that is a real segment as the last segment. */
  lemma {:induction false} ProperLast(parts: seq<string>)
    requires parts != [] && parts[|parts| - 1] != "" && parts[|parts| - 1] != "."
    ensures Proper(parts) != [] && Name(Proper(parts)) == parts[|parts| - 1]
  {
    if |parts| > 1 {
      ProperLast(parts[1..]);
      assert parts[1..][|parts[1..]| - 1] == parts[|parts| - 1];
    }
  }

  /** A path joined from a string ending in `e`, such as `.py`, has a last segment ending in `e`. */
  lemma JoinEnds(p: Path, s: string, e: string)
    requires EndsWith(s, e) && |e| >= 2 && '/' !in e
    ensures EndsWith(Name(JoinPath(p, s)), e)
  {
    var parts := Split(s, '/');
    SplitLastEnds(s, '/', e);
    ProperLast(parts);
  }

  /** Joining a string without `/` adds it as one segment, unless it is empty or `.`. */
  lemma JoinSegment(p: Path, s: string)
    requires '/' !in s
    ensures JoinPath(p, s) == if s == "" || s == "." then p else p + [s]
  {
    SplitWithoutSeparator(s, '/');
    assert Split(s, '/') == [s];
    assert Proper([s]) == (if s == "" || s == "." then [] else [s]) + Proper([]);
    assert !StartsWith(s, "/") by {
      if s != [] { assert s[0] in s; }
    }
  }

  /** Paths that extend the same path agree on what they append. */
  lemma AppendCancels(p: Path, a: Path, b: Path)
    ensures p + a == p + b ==> a == b
  {
    assert (p + a)[|p|..] == a && (p + b)[|p|..] == b;
  }

  /** A name without `/` followed by a suffix of two or more characters without `/` joins as one segment. */
  lemma JoinSuffixed(p: Path, s: string, suffix: string)
    requires '/' !in s && '/' !in suffix && |suffix| >= 2
    ensures JoinPath(p, s + suffix) == p + [s + suffix]
  {
    var t := s + suffix;
    forall k | 0 <= k < |t| ensures t[k] != '/' {
      if k < |s| {
        assert t[k] == s[k];
      } else {
        assert t[k] == suffix[k - |s|];
      }
    }
    JoinSegment(p, t);
  }

  /** Lexical resolution of `..` segments, which is what the operating system does for a path without links. */
  function Canonical(p: Path): Path {
    Normalize([], p)
  }

  function Normalize(acc: Path, rest: Path): Path
    decreases |rest|
  {
    if rest == [] then acc
    else Normalize(if rest[0] == ".." then Parent(acc) else acc + [rest[0]], rest[1..])
  }

  lemma {:induction false} NormalizePlain(acc: Path, rest: Path)
    requires ".." !in rest
    ensures Normalize(acc, rest) == acc + rest
    decreases |rest|
  {
    if rest != [] {
      assert ".." !in rest[1..] by {
        forall k | 0 <= k < |rest[1..]| ensures rest[1..][k] != ".." { assert rest[1..][k] == rest[k + 1]; }
      }
      NormalizePlain(acc + [rest[0]], rest[1..]);
      assert acc + [rest[0]] + rest[1..] == acc + rest;
    }
  }

  /** A path without `..` is already canonical. */
  lemma CanonicalPlain(p: Path)
    requires ".." !in p
    ensures Canonical(p) == p
  {
    NormalizePlain([], p);
  }

  /** The name of a zip entry: `str()` of a relative path, segments joined by `/`. */
  function EntryName(rel: Path): string {
    Strings.Join(rel, "/")
  }

  /** `Path.read_text()`: fails on directories, missing files and undecodable (archive) content. */
  function ReadText(fs: FileSystem, p: Path): Option<string> {
    if p in fs.files && fs.files[p].Source? then Some(fs.files[p].text) else None
  }

  /** Normalising a path in two pieces normalises the second from where the first ended. */
  lemma {:induction false} NormalizeConcat(acc: Path, a: Path, b: Path)
    ensures Normalize(acc, a + b) == Normalize(Normalize(acc, a), b)
    decreases |a|
  {
    if a != [] {
      assert (a + b)[0] == a[0] && (a + b)[1..] == a[1..] + b;
      NormalizeConcat(if a[0] == ".." then Parent(acc) else acc + [a[0]], a[1..], b);
    } else {
      assert a + b == b;
    }
  }

  /** A segment followed by `..` cancels: `p/d/../rest` is resolved like `p/rest`. */
  lemma CanonicalStepBack(p: Path, d: string, rest: Path)
    requires d != ".."
    ensures Canonical(p + [d, ".."] + rest) == Canonical(p + rest)
  {
    NormalizeConcat([], p + [d, ".."], rest);
    NormalizeConcat([], p, [d, ".."]);
    NormalizeConcat([], p, rest);
    var n := Normalize([], p);
    assert Normalize(n, [d, ".."]) == Normalize(n + [d], [".."]);
    assert Parent(n + [d]) == n;
  }

  /** `d/../n`, for names `d` and `n` that are single proper segments, joins as `d`, `..` and `n`. */
  lemma JoinStepBack(p: Path, d: string, n: string)
    requires '/' !in d && d != "" && d != "."
    requires '/' !in n && n != "" && n != "."
    ensures JoinPath(p, d + "/../" + n) == p + [d, "..", n]
  {
    var s := d + "/../" + n;
    assert s == d + ['/'] + (".." + ['/'] + n);
    Strings.SplitAtFirst(d, ".." + ['/'] + n, '/');
    Strings.SplitAtFirst("..", n, '/');
    Strings.SplitWithoutSeparator(n, '/');
    var parts := [d, "..", n];
    assert Split(s, '/') == parts;
    assert parts[1..] == ["..", n] && ["..", n][1..] == [n] && [n][1..] == [];
    assert Proper([n]) == [n] + Proper([]);
    assert Proper(["..", n]) == [".."] + Proper([n]);
    assert Proper(parts) == [d] + Proper(["..", n]);
    assert s[0] == d[0] && d[0] in d;
  }

  /** `./a/b/c` splits at `/` into `.`, `a`, `b` and `c` when none of the three holds a `/`. */
  lemma SplitDotted(a: string, b: string, c: string)
    requires '/' !in a && '/' !in b && '/' !in c
    ensures Split("." + ['/'] + (a + ['/'] + (b + ['/'] + c)), '/') == [".", a, b, c]
  {
    Strings.SplitWithoutSeparator(c, '/');
    Strings.SplitAtFirst(b, c, '/');
    Strings.SplitAtFirst(a, b + ['/'] + c, '/');
    Strings.SplitAtFirst(".", a + ['/'] + (b + ['/'] + c), '/');
  }

  /** `p / "./a/b/c"` for plain segments `a`, `b` and `c`. */
  lemma JoinDotted(p: Path, a: string, b: string, c: string)
    requires '/' !in a && a != "" && a != "."
    requires '/' !in b && b != "" && b != "."
    requires '/' !in c && c != "" && c != "."
    ensures JoinPath(p, "." + ['/'] + (a + ['/'] + (b + ['/'] + c))) == p + [a, b, c]
  {
    SplitDotted(a, b, c);
    ProperDotted(a, b, c);
    assert ("." + ['/'] + (a + ['/'] + (b + ['/'] + c)))[0] == '.';
  }

  /** `Proper` drops the leading `.` of `./a/b/c` and keeps the three plain segments. */
  lemma ProperDotted(a: string, b: string, c: string)
    requires a != "" && a != "." && b != "" && b != "." && c != "" && c != "."
    ensures Proper([".", a, b, c]) == [a, b, c]
  {
    var parts := [".", a, b, c];
    assert parts[1..] == [a, b, c] && [a, b, c][1..] == [b, c] && [b, c][1..] == [c] && [c][1..] == [];
    assert Proper([c]) == [c] + Proper([]);
    assert Proper([b, c]) == [b] + Proper([c]);
    assert Proper([a, b, c]) == [a] + Proper([b, c]);
  }

  /** Everything under `root`, given as paths relative to it. */
  function FilesUnder(fs: FileSystem, root: Path): (r: map<Path, Content>)
    ensures forall rel :: rel in r <==> rel != [] && root + rel in fs.files
    ensures forall rel :: rel in r ==> r[rel] == fs.files[root + rel]
  {
    var rels := set q | q in fs.files && |root| < |q| && q[..|root|] == root :: q[|root|..];
    assert forall rel :: rel != [] && root + rel in fs.files ==> rel in rels by {
      forall rel | rel != [] && root + rel in fs.files ensures rel in rels {
        var q := root + rel;
        assert q[..|root|] == root && q[|root|..] == rel;
      }
    }
    assert forall q :: q in fs.files && |root| < |q| && q[..|root|] == root ==> root + q[|root|..] == q by {
      forall q | q in fs.files && |root| < |q| && q[..|root|] == root ensures root + q[|root|..] == q {
        assert q == q[..|root|] + q[|root|..];
      }
    }
    map rel | rel in rels :: fs.files[root + rel]
  }

  /** When every file below `root` lies strictly below `root + top`, the files below `root` are those below `root + top`, moved under `top`. */
  lemma FilesUnderNested(fs: FileSystem, root: Path, top: Path)
    requires forall q :: q in fs.files && IsPrefix(root, q) ==> IsPrefix(root + top, q) && q != root + top
    ensures FilesUnder(fs, root) == Graft(top, FilesUnder(fs, root + top))
  {
    var outer := FilesUnder(fs, root);
    var below := FilesUnder(fs, root + top);
    var inner := Graft(top, below);
    forall rel | rel in outer ensures rel in inner {
      assert IsPrefix(root, root + rel);
      PrefixAppend(root, top, rel);
      AppendBelow(root, top, rel);
      assert rel[|top|..] in below;
    }
    forall rel | rel in inner ensures rel in outer && outer[rel] == inner[rel] {
      AppendBelow(root, top, rel);
    }
    assert outer.Keys == inner.Keys;
  }

  /** The directories strictly under `root`, relative to it. */
  function DirsUnder(fs: FileSystem, root: Path): (r: set<Path>)
    ensures forall rel :: rel in r <==> rel != [] && root + rel in fs.dirs
  {
    var rels := set q | q in fs.dirs && |root| < |q| && q[..|root|] == root :: q[|root|..];
    assert forall rel :: rel != [] && root + rel in fs.dirs ==> rel in rels by {
      forall rel | rel != [] && root + rel in fs.dirs ensures rel in rels {
        var q := root + rel;
        assert q[..|root|] == root && q[|root|..] == rel;
      }
    }
    assert forall q :: q in fs.dirs && |root| < |q| && q[..|root|] == root ==> root + q[|root|..] == q by {
      forall q | q in fs.dirs && |root| < |q| && q[..|root|] == root ensures root + q[|root|..] == q {
        assert q == q[..|root|] + q[|root|..];
      }
    }
    rels
  }

  /** The names directly inside `dir`, files and directories alike (what a one-level glob looks at). */
  function Children(fs: FileSystem, dir: Path): (r: set<string>)
    ensures forall n :: n in r <==> (dir + [n] in fs.files || dir + [n] in fs.dirs)
  {
    var names := set q | q in fs.files.Keys + fs.dirs && |q| == |dir| + 1 && q[..|dir|] == dir :: q[|dir|];
    assert forall n :: (dir + [n] in fs.files || dir + [n] in fs.dirs) ==> n in names by {
      forall n | dir + [n] in fs.files || dir + [n] in fs.dirs ensures n in names {
        var q := dir + [n];
        assert q[..|dir|] == dir && q[|dir|] == n;
      }
    }
    assert forall q :: q in fs.files.Keys + fs.dirs && |q| == |dir| + 1 && q[..|dir|] == dir ==> dir + [q[|dir|]] == q by {
      forall q | q in fs.files.Keys + fs.dirs && |q| == |dir| + 1 && q[..|dir|] == dir ensures dir + [q[|dir|]] == q {
        assert q == q[..|dir|] + [q[|dir|]];
      }
    }
    names
  }

  /** `shutil.rmtree(p)` on a directory: `p` and everything under it disappear. */
  function RemoveTree(fs: FileSystem, p: Path): (r: FileSystem)
    ensures forall q :: q in r.files <==> q in fs.files && !IsPrefix(p, q)
    ensures forall q :: q in r.files ==> r.files[q] == fs.files[q]
    ensures forall q :: q in r.dirs <==> q in fs.dirs && !IsPrefix(p, q)
  {
    FileSystem(map q | q in fs.files && !IsPrefix(p, q) :: fs.files[q], set q | q in fs.dirs && !IsPrefix(p, q))
  }

  /** `BaseBuilder.cleanup_directory(p)`: remove `p` if it exists; `rmtree` raises when `p` is a file. */
  function CleanupDirectory(fs: FileSystem, p: Path): (r: Option<FileSystem>)
    ensures !fs.Exists(p) ==> r == Some(fs)
    ensures fs.Exists(p) && p in fs.files ==> r.None?
    ensures fs.Exists(p) && p !in fs.files ==> r == Some(RemoveTree(fs, p))
  {
    if !fs.Exists(p) then Some(fs)
    else if p in fs.files then None
    else Some(RemoveTree(fs, p))
  }

  /** On a tree, cleaning up a path that is not a file removes exactly what lies under it, even when it is missing. */
  lemma CleanupOfTree(fs: FileSystem, p: Path)
    requires p != [] && IsTree(fs) && p !in fs.files
    ensures CleanupDirectory(fs, p) == Some(RemoveTree(fs, p))
  {
    if !fs.Exists(p) {
      forall q | IsPrefix(p, q) ensures q !in fs.files && q !in fs.dirs {
        assert fs.Exists(q) && q != p ==> fs.IsDir(p);
      }
      assert RemoveTree(fs, p).files == fs.files;
      assert RemoveTree(fs, p).dirs == fs.dirs;
    }
  }

  /** The non-root ancestors of `p` and `p` itself. */
  function Prefixes(p: Path): (r: set<Path>)
    ensures forall q :: q in r <==> q != [] && IsPrefix(q, p)
  {
    var r := set k | 1 <= k <= |p| :: p[..k];
    assert forall q :: q != [] && IsPrefix(q, p) ==> q in r by {
      forall q | q != [] && IsPrefix(q, p) ensures q in r { assert q == p[..|q|]; }
    }
    r
  }

  /** `Path.mkdir(parents=True, exist_ok=True)`: fails when `p` or one of its ancestors is a file. */
  function MakeDirs(fs: FileSystem, p: Path): (r: Option<FileSystem>)
    ensures r.None? <==> exists q :: q in fs.files && q != [] && IsPrefix(q, p)
    ensures r.Some? ==> r.value == FileSystem(fs.files, fs.dirs + Prefixes(p))
  {
    if exists q :: q in fs.files && q != [] && IsPrefix(q, p) then None
    else Some(FileSystem(fs.files, fs.dirs + Prefixes(p)))
  }

  /** Writing a whole file (`write_text`, opening a zip for writing): the parent must be a directory and `p` must not be one. */
  function WriteFile(fs: FileSystem, p: Path, c: Content): (r: Option<FileSystem>)
    ensures r.Some? <==> p != [] && p !in fs.dirs && fs.IsDir(Parent(p))
    ensures r.Some? ==> r.value == FileSystem(fs.files[p := c], fs.dirs)
  {
    if p != [] && p !in fs.dirs && fs.IsDir(Parent(p)) then Some(FileSystem(fs.files[p := c], fs.dirs)) else None
  }

  /** `shutil.copy2(src, dst)`: the source must be a file; a directory destination receives the file under its own name. */
  function CopyFile(fs: FileSystem, src: Path, dst: Path): Option<FileSystem> {
    if src !in fs.files then None
    else if dst in fs.dirs then WriteFile(fs, dst + [Name(src)], fs.files[src])
    else WriteFile(fs, dst, fs.files[src])
  }

  /** The tree `tree`, given relative to its root, placed below `prefix`. */
  function Graft(prefix: Path, tree: map<Path, Content>): (r: map<Path, Content>)
    ensures forall q :: q in r <==> IsPrefix(prefix, q) && q[|prefix|..] in tree
    ensures forall q :: q in r && IsPrefix(prefix, q) ==> r[q] == tree[q[|prefix|..]]
  {
    var keys := set rel | rel in tree :: prefix + rel;
    assert forall rel :: rel in tree ==> (prefix + rel)[|prefix|..] == rel;
    assert forall q :: IsPrefix(prefix, q) && q[|prefix|..] in tree ==> q in keys by {
      forall q | IsPrefix(prefix, q) && q[|prefix|..] in tree ensures q in keys {
        assert q == prefix + q[|prefix|..];
      }
    }
    map q | q in keys :: tree[q[|prefix|..]]
  }

  /** The paths `rels`, given relative to a root, placed below `prefix`. */
  function GraftPaths(prefix: Path, rels: set<Path>): (r: set<Path>)
    ensures forall q :: q in r <==> IsPrefix(prefix, q) && q[|prefix|..] in rels
  {
    assert forall rel :: rel in rels ==> (prefix + rel)[|prefix|..] == rel;
    assert forall q :: IsPrefix(prefix, q) && q[|prefix|..] in rels ==> q == prefix + q[|prefix|..] by {
      forall q | IsPrefix(prefix, q) && q[|prefix|..] in rels ensures q == prefix + q[|prefix|..] {
        assert q == q[..|prefix|] + q[|prefix|..];
      }
    }
    set rel | rel in rels :: prefix + rel
  }

  /**
   * `shutil.copytree(src, dst)`: `src` must be a directory and `dst` must not exist; its ancestors are
   * created, and below `dst` appear the files and directories below `src`. Nothing outside `dst` changes
   * but the directories on the way to it.
   */
  function CopyTree(fs: FileSystem, src: Path, dst: Path): (r: Option<FileSystem>)
    ensures r.Some? <==> fs.IsDir(src) && !fs.Exists(dst) && !(exists q :: q in fs.files && q != [] && IsPrefix(q, dst))
    ensures r.Some? ==> forall rel :: rel != [] ==> (dst + rel in r.value.files <==> dst + rel in fs.files || src + rel in fs.files)
    ensures r.Some? ==> forall rel :: rel != [] && src + rel in fs.files ==> r.value.files[dst + rel] == fs.files[src + rel]
    ensures r.Some? ==> forall rel :: rel != [] ==> (dst + rel in r.value.dirs <==> dst + rel in fs.dirs || src + rel in fs.dirs)
    ensures r.Some? ==> dst !in r.value.files && dst in r.value.dirs
    ensures r.Some? ==> forall q :: !IsPrefix(dst, q) ==> (q in r.value.files <==> q in fs.files)
    ensures r.Some? ==> forall q :: !IsPrefix(dst, q) && q in fs.files ==> r.value.files[q] == fs.files[q]
    ensures r.Some? ==> forall q :: !IsPrefix(dst, q) ==> (q in r.value.dirs <==> q in fs.dirs || q in Prefixes(dst))
  {
    if !fs.IsDir(src) || fs.Exists(dst) then None
    else match MakeDirs(fs, dst)
      case None => None
      case Some(made) =>
        var copied := Graft(dst, FilesUnder(fs, src));
        var dirs := GraftPaths(dst, DirsUnder(fs, src));
        assert forall rel :: (dst + rel)[|dst|..] == rel && IsPrefix(dst, dst + rel);
        assert dst in Prefixes(dst);
        Some(FileSystem(made.files + copied, made.dirs + dirs))
  }

  /** After a `CopyTree` to a place nothing was below, the files below `dst` are those below `src`. */
  lemma CopiedFiles(fs: FileSystem, copied: FileSystem, src: Path, dst: Path)
    requires CopyTree(fs, src, dst) == Some(copied)
    requires forall rel :: dst + rel !in fs.files
    ensures FilesUnder(copied, dst) == FilesUnder(fs, src)
  {
  }

  /** Removing a tree apart from `root` leaves the files below `root` alone. */
  lemma RemovedApart(fs: FileSystem, p: Path, root: Path)
    requires Apart(p, root)
    ensures FilesUnder(RemoveTree(fs, p), root) == FilesUnder(fs, root)
  {
    forall rel ensures !IsPrefix(p, root + rel) {
      ApartBelow(p, root, rel);
    }
  }

  /** `Path.unlink()`: only files can be unlinked. */
  function Unlink(fs: FileSystem, p: Path): (r: Option<FileSystem>)
    ensures r.Some? <==> p in fs.files
    ensures r.Some? ==> r.value == FileSystem(fs.files - {p}, fs.dirs)
  {
    if p in fs.files then Some(FileSystem(fs.files - {p}, fs.dirs)) else None
  }

  /**
   * `_create_zip(source_dir, zip_path)` of both builders: delete an existing archive, then write one whose
   * entries are the files under `source_dir`, each under its path relative to `source_dir`.
   */
  function CreateZip(fs: FileSystem, source: Path, zip: Path): (r: Option<FileSystem>)
    ensures r.Some? <==> zip != [] && zip !in fs.dirs && fs.IsDir(Parent(zip))
    ensures r.Some? ==>
      r.value == FileSystem(fs.files[zip := Archive(FilesUnder(FileSystem(fs.files - {zip}, fs.dirs), source))], fs.dirs)
  {
    var cleared := if fs.Exists(zip) then Unlink(fs, zip) else Some(fs);
    assert cleared.Some? ==> cleared.value == FileSystem(fs.files - {zip}, fs.dirs);
    assert (fs.files - {zip})[zip := Archive(FilesUnder(FileSystem(fs.files - {zip}, fs.dirs), source))]
      == fs.files[zip := Archive(FilesUnder(FileSystem(fs.files - {zip}, fs.dirs), source))];
    match cleared
    case None => None
    case Some(c) => WriteFile(c, zip, Archive(FilesUnder(c, source)))
  }

  /** The disk the builders share: every builder step reads and replaces this one filesystem. */
  class Disk {
    var fs: FileSystem

    constructor (fs: FileSystem)
      ensures this.fs == fs
    {
      this.fs := fs;
    }
  }

  /**
   * Two disks with the same directories, and the same files everywhere but at `z`, which is no
   * directory and whose name does not end in `.py`.
   */
  ghost predicate AgreeBesides(a: FileSystem, b: FileSystem, z: Path) {
    && a.dirs == b.dirs && z !in a.dirs && z != []
    && !EndsWith(Name(z), ".py")
    && (forall q :: q != z ==> (q in a.files <==> q in b.files))
    && (forall q :: q != z && q in a.files ==> a.files[q] == b.files[q])
  }

  /** Such disks agree on every `.py` path, and on which paths are directories. */
  lemma AgreeOnSources(a: FileSystem, b: FileSystem, z: Path, q: Path)
    requires AgreeBesides(a, b, z)
    ensures a.IsDir(q) == b.IsDir(q)
    ensures EndsWith(Name(q), ".py") ==> a.Exists(q) == b.Exists(q) && ReadText(a, q) == ReadText(b, q)
  {
  }

  /** A `.py` suffix means the name ends in `.py`. */
  lemma PySuffix(name: string)
    requires Suffix(name) == ".py"
    ensures EndsWith(name, ".py")
  {
  }

  /** `p / (s + ".py")` names a `.py` file. */
  lemma PyJoin(p: Path, s: string)
    ensures EndsWith(Name(JoinPath(p, s + ".py")), ".py")
  {
    assert (s + ".py")[|s|..] == ".py";
    JoinEnds(p, s + ".py", ".py");
  }

  /** Two disks with the same files below `root` list the same files under it. */
  lemma FilesUnderAgree(a: FileSystem, b: FileSystem, root: Path)
    requires forall q :: IsPrefix(root, q) ==> (q in a.files <==> q in b.files)
    requires forall q :: IsPrefix(root, q) && q in a.files ==> a.files[q] == b.files[q]
    ensures FilesUnder(a, root) == FilesUnder(b, root)
  {
    forall rel ensures IsPrefix(root, root + rel) {
      assert (root + rel)[..|root|] == root;
    }
    assert FilesUnder(a, root).Keys == FilesUnder(b, root).Keys;
  }
}
