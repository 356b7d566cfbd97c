/**
 * The three regular expressions of the server's schema compiler, written as left-to-right scanners:
 * the directive finder `import\s+"([^"]+)"`, the residual-directive cleanup `import\s+"[^"]+"\s*\n?`
 * and the comment cleanup `#.*\n`. Each scanner tries a match at the current position and, like
 * `re.findall` and `re.sub`, moves past a match or one character further when there is none.
 */
module SchemaPatterns {
  import opened Wrappers
  import opened Strings

  /** A match of `import\s+"([^"]+)"` at the start of a text: how much whitespace, and the captured path. */
  datatype Match = Match(spaces: nat, path: string) {
    /** The length of the matched text: `import`, the spaces, and the quoted path. */
    function Length(): nat {
      6 + spaces + |path| + 2
    }
  }

  /** The directive text with the given whitespace between `import` and the quoted path. */
  function Directive(ws: string, p: string): string {
    "import" + ws + "\"" + p + "\""
  }

  /** The length of the run of characters other than `"` that `s` starts with: what a greedy `[^"]+` tries. */
  function QuoteFreeRun(s: string): (n: nat)
    ensures n <= |s| && '"' !in s[..n]
    ensures n < |s| ==> s[n] == '"'
  {
    if s == [] || s[0] == '"' then 0
    else
      var n := QuoteFreeRun(s[1..]);
      assert s[..n + 1] == [s[0]] + s[1..][..n];
      1 + n
  }

  /** The directive that `s` starts with, if any. */
  function ImportAt(s: string): (r: Option<Match>)
    ensures r.Some? ==> r.value.Length() <= |s|
    ensures r.Some? ==> r.value.spaces > 0 && IsBlank(s[6..6 + r.value.spaces])
    ensures r.Some? ==> r.value.path != [] && '"' !in r.value.path
    ensures r.Some? ==> s[..r.value.Length()] == Directive(s[6..6 + r.value.spaces], r.value.path)
  {
    if !StartsWith(s, "import") then None
    else
      var after := s[6..];
      var ws := SpaceRun(after);
      if ws == 0 || ws >= |after| || after[ws] != '"' then None
      else
        var quoted := after[ws + 1..];
        var n := QuoteFreeRun(quoted);
        if n == 0 || n >= |quoted| then None
        else
          var m := Match(ws, quoted[..n]);
          assert after[..ws] == s[6..6 + ws];
          assert s[..m.Length()] == s[..6] + after[..ws] + [after[ws]] + quoted[..n] + [quoted[n]];
          Some(m)
  }

  /** Every directive text, whatever its whitespace and whatever follows it, is recognised as one. */
  lemma ImportAtRecognises(ws: string, p: string, rest: string)
    requires ws != [] && IsBlank(ws) && p != [] && '"' !in p
    ensures ImportAt(Directive(ws, p) + rest) == Some(Match(|ws|, p))
  {
    var s := Directive(ws, p) + rest;
    assert s[..6] == "import";
    assert s[6..] == ws + ("\"" + p + "\"" + rest);
    BlankPrefixRun(ws, "\"" + p + "\"" + rest);
    var q := 6 + |ws|;
    assert s[q] == '"';
    assert s[q + 1..] == p + ("\"" + rest);
    QuoteFreePrefixRun(p, "\"" + rest);
    assert s[q + 1..q + 1 + |p|] == p;
  }

  lemma {:induction false} BlankPrefixRun(ws: string, rest: string)
    requires IsBlank(ws) && (rest == [] || !IsSpace(rest[0]))
    ensures SpaceRun(ws + rest) == |ws|
    decreases |ws|
  {
    if ws != [] {
      assert (ws + rest)[1..] == ws[1..] + rest;
      BlankPrefixRun(ws[1..], rest);
    } else {
      assert ws + rest == rest;
    }
  }

  lemma {:induction false} QuoteFreePrefixRun(p: string, rest: string)
    requires '"' !in p && rest != [] && rest[0] == '"'
    ensures QuoteFreeRun(p + rest) == |p|
    decreases |p|
  {
    if p != [] {
      assert p[0] in p;
      assert (p + rest)[1..] == p[1..] + rest;
      assert '"' !in p[1..] by {
        forall i | 0 <= i < |p[1..]| ensures p[1..][i] != '"' { assert p[1..][i] == p[i + 1]; }
      }
      QuoteFreePrefixRun(p[1..], rest);
    } else {
      assert p + rest == rest;
    }
  }

  /** No directive starts anywhere in `s`. */
  predicate NoDirectives(s: string) {
    forall i :: 0 <= i <= |s| ==> ImportAt(s[i..]).None?
  }

  /** `re.findall(r'import\s+"([^"]+)"', s)`: the captured paths, in order. */
  function FindImports(s: string): seq<string>
    decreases |s|
  {
    if s == [] then []
    else
      match ImportAt(s)
      case Some(m) => [m.path] + FindImports(s[m.Length()..])
      case None => FindImports(s[1..])
  }

  /** The finder reports nothing exactly when no directive starts anywhere in the text. */
  lemma {:induction false} FindImportsNone(s: string)
    ensures FindImports(s) == [] <==> NoDirectives(s)
    decreases |s|
  {
    if s == [] {
      assert ImportAt(s[0..]).None?;
    } else {
      FindImportsNone(s[1..]);
      match ImportAt(s)
      case Some(m) =>
        assert s[0..] == s;
      case None =>
        assert s[0..] == s;
        forall i | 1 <= i <= |s| ensures s[i..] == s[1..][i - 1..] { }
    }
  }

  /** A directive is found wherever it stands: quote-free text in front of it is passed over. */
  lemma {:induction false} FindImportsAfter(t: string, ws: string, p: string, rest: string)
    requires '"' !in t && ws != [] && IsBlank(ws) && p != [] && '"' !in p
    ensures FindImports(t + Directive(ws, p) + rest) == [p] + FindImports(rest)
    decreases |t|
  {
    var d := Directive(ws, p) + rest;
    if t == [] {
      assert t + Directive(ws, p) + rest == d;
      ImportAtRecognises(ws, p, rest);
      assert d[Match(|ws|, p).Length()..] == rest;
    } else {
      assert t + Directive(ws, p) + rest == t + d;
      assert d[..6] == "import";
      NoImportAcross(t, d);
      assert (t + d)[1..] == t[1..] + d;
      assert '"' !in t[1..] by {
        forall i | 0 <= i < |t[1..]| ensures t[1..][i] != '"' { assert t[1..][i] == t[i + 1]; }
      }
      assert t[1..] + d == t[1..] + Directive(ws, p) + rest;
      FindImportsAfter(t[1..], ws, p, rest);
    }
  }

  /**
   * No directive starts in quote-free text that runs into the word `import`: the opening quote would lie
   * beyond that text, so the match would have to cover the `i` with either its keyword or its whitespace.
   */
  lemma NoImportAcross(t: string, d: string)
    requires t != [] && '"' !in t && StartsWith(d, "import")
    ensures ImportAt(t + d).None?
  {
    var s := t + d;
    MatchShape(s);
    assert s[|t|] == 'i' by { assert s[|t|] == d[0] == "import"[0]; }
    assert forall k :: 0 <= k < |t| ==> s[k] != '"' by {
      forall k | 0 <= k < |t| ensures s[k] != '"' { assert s[k] == t[k] && t[k] in t; }
    }
    assert forall k :: 0 < k < 6 ==> "import"[k] != 'i';
    assert |t| < 6 ==> s[|t|] == s[..6][|t|];
  }

  /** The characters a match consists of: the keyword, whitespace, and a quote on either side of the path. */
  lemma MatchShape(s: string)
    ensures ImportAt(s).Some? ==>
      var m := ImportAt(s).value;
      s[..6] == "import" && (forall k :: 6 <= k < 6 + m.spaces ==> IsSpace(s[k]))
      && s[6 + m.spaces] == '"' && s[m.Length() - 1] == '"'
  {
    if ImportAt(s).Some? {
      var m := ImportAt(s).value;
      var ws := s[6..6 + m.spaces];
      var text := Directive(ws, m.path);
      assert s[..m.Length()] == text;
      assert text[..6] == "import" && text[6 + |ws|] == '"' && text[|text| - 1] == '"';
      forall k | 6 <= k < 6 + m.spaces ensures IsSpace(s[k]) {
        assert s[k] == ws[k - 6];
      }
    }
  }

  /** A text without a quote character holds no directive. */
  lemma QuoteFreeNoDirectives(s: string)
    requires '"' !in s
    ensures NoDirectives(s)
  {
    forall i | 0 <= i <= |s| ensures ImportAt(s[i..]).None? {
      MatchShape(s[i..]);
      assert forall k :: 0 <= k < |s[i..]| ==> s[i..][k] in s;
    }
  }

  /** `re.sub(r'import\s+"[^"]+"\s*\n?', '', s)`: each residual directive and the whitespace after it go. */
  function StripImports(s: string): (r: string)
    decreases |s|
  {
    if s == [] then []
    else
      match ImportAt(s)
      case Some(m) =>
        var rest := s[m.Length()..];
        StripImports(rest[SpaceRun(rest)..])
      case None => [s[0]] + StripImports(s[1..])
  }

  /** The residual-directive cleanup changes a text exactly when a directive starts somewhere in it. */
  lemma {:induction false} StripImportsIdle(s: string)
    ensures StripImports(s) == s <==> NoDirectives(s)
    decreases |s|
  {
    StripImportsShorter(s);
    if s == [] {
      assert ImportAt(s[0..]).None?;
    } else {
      StripImportsIdle(s[1..]);
      assert s[0..] == s;
      if ImportAt(s).None? {
        forall i | 1 <= i <= |s| ensures s[i..] == s[1..][i - 1..] { }
      } else {
        assert |StripImports(s)| < |s|;
      }
    }
  }

  /** The cleanup never lengthens a text, and shortens it when it removes a directive. */
  lemma {:induction false} StripImportsShorter(s: string)
    ensures |StripImports(s)| <= |s|
    ensures !NoDirectives(s) ==> |StripImports(s)| < |s|
    decreases |s|
  {
    if s != [] {
      match ImportAt(s)
      case Some(m) =>
        var rest := s[m.Length()..];
        StripImportsShorter(rest[SpaceRun(rest)..]);
      case None =>
        StripImportsShorter(s[1..]);
        if !NoDirectives(s) {
          var i :| 0 <= i <= |s| && ImportAt(s[i..]).Some?;
          assert i != 0 by { assert s[0..] == s; }
          assert s[i..] == s[1..][i - 1..];
        }
    }
  }

  /** The length of the line `s` starts with: how far `.*` reaches before a newline. */
  function LineLength(s: string): (n: nat)
    ensures n <= |s| && '\n' !in s[..n]
    ensures n < |s| ==> s[n] == '\n'
  {
    if s == [] || s[0] == '\n' then 0
    else
      var n := LineLength(s[1..]);
      assert s[..n + 1] == [s[0]] + s[1..][..n];
      1 + n
  }

  /** `re.sub(r'#.*\n', '\n', s)`: a `#` and the rest of its line go, the newline stays. */
  function StripComments(s: string): (r: string)
    decreases |s|
  {
    if s == [] then []
    else if s[0] == '#' && LineLength(s) < |s| then "\n" + StripComments(s[LineLength(s) + 1..])
    else [s[0]] + StripComments(s[1..])
  }

  /** No `#` stands before a newline: every comment left is on the last line. */
  predicate CommentsOnLastLine(s: string) {
    forall i, j :: 0 <= i < j < |s| && s[i] == '#' ==> s[j] != '\n'
  }

  /** A text without a newline is left alone by the comment cleanup. */
  lemma {:induction false} StripCommentsOneLine(s: string)
    requires '\n' !in s
    ensures StripComments(s) == s
    decreases |s|
  {
    if s != [] {
      assert s[..|s|] == s;
      assert '\n' !in s[1..] by {
        forall i | 0 <= i < |s[1..]| ensures s[1..][i] != '\n' { assert s[1..][i] == s[i + 1]; }
      }
      StripCommentsOneLine(s[1..]);
    }
  }

  /** The comment cleanup keeps every line: it removes no newline and adds none. */
  lemma {:induction false} StripCommentsKeepsLines(s: string)
    ensures Count(StripComments(s), '\n') == Count(s, '\n')
    decreases |s|
  {
    if s != [] {
      var n := LineLength(s);
      if s[0] == '#' && n < |s| {
        StripCommentsKeepsLines(s[n + 1..]);
        CountSplit(s, n, '\n');
        assert multiset(s[..n])['\n'] == 0;
        var r := StripComments(s);
        assert r[0] == '\n' && r[1..] == StripComments(s[n + 1..]);
        assert s[n..][0] == '\n' && s[n..][1..] == s[n + 1..];
      } else {
        StripCommentsKeepsLines(s[1..]);
        assert s == [s[0]] + s[1..];
      }
    }
  }

  lemma CountSplit(s: string, k: nat, c: char)
    requires k <= |s|
    ensures Count(s, c) == Count(s[..k], c) + Count(s[k..], c)
  {
    assert s == s[..k] + s[k..];
    assert multiset(s) == multiset(s[..k]) + multiset(s[k..]);
  }

  /** After the comment cleanup, a `#` can stand only on the last line. */
  lemma {:induction false} StripCommentsLeavesLastLine(s: string)
    ensures CommentsOnLastLine(StripComments(s))
    decreases |s|
  {
    if s != [] {
      var n := LineLength(s);
      if s[0] == '#' && n < |s| {
        StripCommentsLeavesLastLine(s[n + 1..]);
        PrependedNoComment('\n', StripComments(s[n + 1..]));
      } else if s[0] == '#' {
        assert s[..n] == s;
        StripCommentsOneLine(s);
      } else {
        StripCommentsLeavesLastLine(s[1..]);
        PrependedNoComment(s[0], StripComments(s[1..]));
      }
    }
  }

  /** A character other than `#` put in front keeps every comment on the last line. */
  lemma PrependedNoComment(c: char, t: string)
    requires c != '#' && CommentsOnLastLine(t)
    ensures CommentsOnLastLine([c] + t)
  {
    var r := [c] + t;
    forall i, j | 0 <= i < j < |r| && r[i] == '#' ensures r[j] != '\n' {
      assert r[i] == t[i - 1] && r[j] == t[j - 1];
    }
  }

  /** The comment cleanup changes a text exactly when some `#` stands before a newline. */
  lemma {:induction false} StripCommentsIdle(s: string)
    ensures StripComments(s) == s <==> CommentsOnLastLine(s)
    decreases |s|
  {
    StripCommentsLeavesLastLine(s);
    if s != [] && CommentsOnLastLine(s) {
      var n := LineLength(s);
      if s[0] == '#' {
        assert n == |s|;
        assert s[..n] == s;
        StripCommentsOneLine(s);
      } else {
        assert CommentsOnLastLine(s[1..]) by {
          forall i, j | 0 <= i < j < |s[1..]| && s[1..][i] == '#' ensures s[1..][j] != '\n' {
            assert s[1..][i] == s[i + 1] && s[1..][j] == s[j + 1];
          }
        }
        StripCommentsIdle(s[1..]);
      }
    }
  }
}
