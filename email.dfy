/**
 * The `Email` value object: an immutable address accepted only when it fits the pattern
 * `^[a-zA-Z0-9._%+-]+@[a-zA-Z0-9.-]+\.[a-zA-Z]{2,}$` under `re.match`.
 */
module EmailAddress {
  import opened Wrappers
  import opened Strings
  import Files

  predicate IsLetter(c: char) {
    'a' <= c <= 'z' || 'A' <= c <= 'Z'
  }

  predicate IsDigit(c: char) {
    '0' <= c <= '9'
  }

  /** The class `[a-zA-Z0-9._%+-]` of the local part. */
  predicate IsLocalChar(c: char) {
    IsLetter(c) || IsDigit(c) || c == '.' || c == '_' || c == '%' || c == '+' || c == '-'
  }

  /** The class `[a-zA-Z0-9.-]` of the domain. */
  predicate IsDomainChar(c: char) {
    IsLetter(c) || IsDigit(c) || c == '.' || c == '-'
  }

  predicate LocalChars(s: string) {
    forall k :: 0 <= k < |s| ==> IsLocalChar(s[k])
  }

  predicate DomainChars(s: string) {
    forall k :: 0 <= k < |s| ==> IsDomainChar(s[k])
  }

  predicate Letters(s: string) {
    forall k :: 0 <= k < |s| ==> IsLetter(s[k])
  }

  /**
   * The regular expression read literally: `t` is a run of local characters, `@`, a run of domain
   * characters, `.`, and two or more letters, with `$` at the very end.
   */
  ghost predicate PatternMatch(t: string) {
    exists i, j :: 0 < i && i + 1 < j && j + 2 < |t| && t[i] == '@' && t[j] == '.'
      && LocalChars(t[..i]) && DomainChars(t[i + 1..j]) && Letters(t[j + 1..])
  }

  /** The length of the longest prefix of local characters: how far `[a-zA-Z0-9._%+-]+` reaches. */
  function LocalRun(s: string): (n: nat)
    ensures n <= |s| && LocalChars(s[..n])
    ensures n < |s| ==> !IsLocalChar(s[n])
  {
    if s == [] || !IsLocalChar(s[0]) then 0
    else
      var m := LocalRun(s[1..]);
      assert s[..m + 1] == [s[0]] + s[1..][..m];
      m + 1
  }

  /** A domain ends in `.` and two or more letters, with at least one character before that dot. */
  predicate TopLevelOk(domain: string) {
    var k := Files.LastIndex(domain, '.');
    k >= 1 && |domain| - k - 1 >= 2 && Letters(domain[k + 1..])
  }

  /** The pattern decided in one pass: the local run must stop at `@`, and the rest must be a domain. */
  predicate ScanAddress(t: string) {
    var i := LocalRun(t);
    0 < i < |t| && t[i] == '@' && DomainChars(t[i + 1..]) && TopLevelOk(t[i + 1..])
  }

  /** A character inside a prefix of local characters is one. */
  lemma LocalPrefixChar(t: string, i: nat, k: nat)
    ensures k < i <= |t| && LocalChars(t[..i]) ==> IsLocalChar(t[k])
  {
    if k < i <= |t| && LocalChars(t[..i]) {
      assert t[..i][k] == t[k];
    }
  }

  /** The local run stops at the first character outside the class. */
  lemma LocalRunStops(t: string, i: nat)
    requires i < |t| && LocalChars(t[..i]) && !IsLocalChar(t[i])
    ensures LocalRun(t) == i
  {
    LocalPrefixChar(t, i, LocalRun(t));
    LocalPrefixChar(t, LocalRun(t), i);
  }

  /** A character after position `m` of a string whose tail after `m` is letters is a letter. */
  lemma TailLetter(d: string, m: nat, k: nat)
    ensures m < k < |d| && Letters(d[m + 1..]) ==> IsLetter(d[k])
  {
    if m < k < |d| && Letters(d[m + 1..]) {
      assert d[m + 1..][k - m - 1] == d[k];
    }
  }

  /** A dot followed only by letters is the last dot. */
  lemma LastDot(d: string, m: nat)
    requires m < |d| && d[m] == '.' && Letters(d[m + 1..])
    ensures Files.LastIndex(d, '.') == m
  {
    TailLetter(d, m, Files.LastIndex(d, '.'));
  }

  /** What the scan accepts, the pattern matches. */
  lemma ScanToPattern(t: string)
    requires ScanAddress(t)
    ensures PatternMatch(t)
  {
    var i := LocalRun(t);
    var d := t[i + 1..];
    var k := Files.LastIndex(d, '.');
    var j := i + 1 + k;
    assert t[j] == d[k];
    assert t[i + 1..j] == d[..k];
    assert t[j + 1..] == d[k + 1..];
    assert DomainChars(d[..k]) by {
      forall m | 0 <= m < k ensures IsDomainChar(d[..k][m]) { assert d[..k][m] == d[m]; }
    }
  }

  /** What the pattern matches with the `@` at `i` and the last dot at `j`, the scan accepts. */
  lemma PatternToScan(t: string, i: nat, j: nat)
    requires 0 < i && i + 1 < j && j + 2 < |t| && t[i] == '@' && t[j] == '.'
    requires LocalChars(t[..i]) && DomainChars(t[i + 1..j]) && Letters(t[j + 1..])
    ensures ScanAddress(t)
  {
    LocalRunStops(t, i);
    var d := t[i + 1..];
    forall k | 0 <= k < |d| ensures IsDomainChar(d[k]) {
      if k < j - i - 1 {
        assert d[k] == t[i + 1..j][k];
      } else if k > j - i - 1 {
        assert d[k] == t[j + 1..][k - (j - i)];
      }
    }
    assert d[j - i - 1 + 1..] == t[j + 1..];
    LastDot(d, j - i - 1);
  }

  /** The one-pass scan accepts exactly what the pattern matches, backtracking included. */
  lemma ScanMatchesPattern(t: string)
    ensures ScanAddress(t) <==> PatternMatch(t)
  {
    if ScanAddress(t) {
      ScanToPattern(t);
    }
    if PatternMatch(t) {
      var i, j :| 0 < i && i + 1 < j && j + 2 < |t| && t[i] == '@' && t[j] == '.'
        && LocalChars(t[..i]) && DomainChars(t[i + 1..j]) && Letters(t[j + 1..]);
      PatternToScan(t, i, j);
    }
  }

  /** `s` without one trailing newline, which `$` lets a match end before. */
  function Address(s: string): string {
    if |s| > 0 && s[|s| - 1] == '\n' then s[..|s| - 1] else s
  }

  /** `Email._is_valid()`: `re.match` with the pattern; `$` also matches just before a final newline. */
  function IsValid(s: string): (r: bool)
    ensures r <==> PatternMatch(s) || (|s| > 0 && s[|s| - 1] == '\n' && PatternMatch(s[..|s| - 1]))
  {
    ScanMatchesPattern(s);
    ScanMatchesPattern(Address(s));
    ScanAddress(s) || (|s| > 0 && s[|s| - 1] == '\n' && ScanAddress(s[..|s| - 1]))
  }

  /** A matched address holds no newline: `\n` is in none of the three character classes. */
  lemma NoNewlineMatched(t: string)
    ensures PatternMatch(t) ==> forall k :: 0 <= k < |t| ==> t[k] != '\n'
  {
    if PatternMatch(t) {
      var i, j :| 0 < i && i + 1 < j && j + 2 < |t| && t[i] == '@' && t[j] == '.'
        && LocalChars(t[..i]) && DomainChars(t[i + 1..j]) && Letters(t[j + 1..]);
      forall k | 0 <= k < |t| ensures t[k] != '\n' {
        if k < i {
          assert t[k] == t[..i][k];
        } else if i < k < j {
          assert t[k] == t[i + 1..j][k - i - 1];
        } else if k > j {
          assert t[k] == t[j + 1..][k - j - 1];
        }
      }
    }
  }

  /** Acceptance is the pattern applied to the address without its one optional trailing newline. */
  lemma ValidIsAddressMatch(s: string)
    ensures IsValid(s) <==> PatternMatch(Address(s))
  {
    NoNewlineMatched(s);
  }

  /** One trailing newline is accepted after a valid address; a second one is not. */
  lemma TrailingNewline(t: string)
    ensures IsValid(t + "\n") <==> PatternMatch(t)
    ensures !IsValid(t + "\n\n")
  {
    assert (t + "\n")[..|t|] == t;
    assert (t + "\n\n")[..|t| + 1] == t + "\n";
    NoNewlineMatched(t + "\n");
    NoNewlineMatched(t + "\n\n");
    assert (t + "\n")[|t|] == '\n';
    assert (t + "\n\n")[|t| + 1] == '\n';
  }

  /**
   * An accepted address, trailing newline aside, is a non-empty local part over `[a-zA-Z0-9._%+-]`,
   * one `@`, and a domain over `[a-zA-Z0-9.-]` whose last dot has something before it and two or
   * more letters after it; and every such string is accepted.
   */
  lemma AcceptedParts(s: string)
    ensures IsValid(s) <==> exists i :: Parts(Address(s), i)
  {
    ValidIsAddressMatch(s);
    ScanMatchesPattern(Address(s));
    ScanParts(Address(s));
  }

  /** `t` split at `i` into a local part, `@` and a domain ending in a dot and two or more letters. */
  predicate Parts(t: string, i: nat) {
    0 < i < |t| && t[i] == '@' && LocalChars(t[..i]) && DomainChars(t[i + 1..]) && TopLevelOk(t[i + 1..])
  }

  /** The scan accepts exactly the strings that split into parts. */
  lemma ScanParts(t: string)
    ensures ScanAddress(t) <==> exists i :: Parts(t, i)
  {
    if ScanAddress(t) {
      assert Parts(t, LocalRun(t));
    }
    if exists i :: Parts(t, i) {
      var i :| Parts(t, i);
      LocalRunStops(t, i);
    }
  }

  /** A string none of whose characters is `c` holds no `c`. */
  lemma NoneCounted(s: string, c: char)
    requires forall k :: 0 <= k < |s| ==> s[k] != c
    ensures multiset(s)[c] == 0
  {
    assert c !in s;
  }

  /** An accepted address contains exactly one `@`. */
  lemma OneAtSign(s: string)
    requires IsValid(s)
    ensures Count(Address(s), '@') == 1
  {
    var t := Address(s);
    ValidIsAddressMatch(s);
    ScanMatchesPattern(t);
    var i := LocalRun(t);
    assert Parts(t, i);
    assert t == t[..i] + [t[i]] + t[i + 1..];
    OneBetween(t[..i], t[i + 1..]);
  }

  /** A local part and a domain hold no `@`, so the one between them is the only one. */
  lemma OneBetween(before: string, after: string)
    requires LocalChars(before) && DomainChars(after)
    ensures Count(before + ['@'] + after, '@') == 1
  {
    assert forall k :: 0 <= k < |before| ==> IsLocalChar(before[k]);
    assert forall k :: 0 <= k < |after| ==> IsDomainChar(after[k]);
    NoneCounted(before, '@');
    NoneCounted(after, '@');
    assert multiset(before + ['@'] + after) == multiset(before) + multiset(['@']) + multiset(after);
  }

  /** The frozen value object; `__str__` gives back the value. */
  datatype Email = Email(value: string) {
    function ToString(): string {
      value
    }
  }

  /** `Email(value)`: the `ValueError` of `__post_init__` when the value is not a valid address. */
  function NewEmail(value: string): (r: Result<Email, string>)
    ensures r.Ok? <==> IsValid(value)
    ensures r.Ok? ==> r.value.ToString() == value
    ensures r.Err? ==> r.error == "Invalid email: " + value
  {
    if IsValid(value) then Ok(Email(value)) else Err("Invalid email: " + value)
  }
}
