// Option type and the handful of Python string operations the pipeline relies on:
// str.split(), str.strip(), str.join, str.find, str.lower() and regex runs such as \w+.

module Wrappers {
  datatype Option<+T> = None | Some(value: T)
}

module Text {

  /** Python's str.isspace(), the whitespace of str.split() and str.strip(): the ASCII
      whitespace, the four ASCII separators 0x1C-0x1F, NEL, NO-BREAK SPACE, OGHAM SPACE
      MARK, the spaces U+2000-U+200A, LINE and PARAGRAPH SEPARATOR, NARROW NO-BREAK
      SPACE, MEDIUM MATHEMATICAL SPACE and IDEOGRAPHIC SPACE. */
  predicate IsSpace(c: char)
  {
    c == ' ' || c == '\t' || c == '\n' || c == '\r' || c == '\U{0B}' || c == '\U{0C}'
    || ('\U{1C}' <= c <= '\U{1F}') || c == '\U{85}' || c == '\U{A0}'
    || c == '\U{1680}' || ('\U{2000}' <= c <= '\U{200A}') || c == '\U{2028}' || c == '\U{2029}'
    || c == '\U{202F}' || c == '\U{205F}' || c == '\U{3000}'
  }

  /** A character matched by the regex class \w (ASCII letters, digits and '_'). */
  predicate IsWordChar(c: char)
  {
    ('a' <= c <= 'z') || ('A' <= c <= 'Z') || ('0' <= c <= '9') || c == '_'
  }

  predicate IsNonSpace(c: char)
  {
    !IsSpace(c)
  }

  /** ASCII lower-casing of one character, as str.lower() does on ASCII. */
  function LowerChar(c: char): (r: char)
    ensures IsWordChar(c) <==> IsWordChar(r)
    ensures 'A' <= r <= 'Z' ==> false
  {
    if 'A' <= c <= 'Z' then (c as int - 'A' as int + 'a' as int) as char else c
  }

  function Lower(s: string): (r: string)
    ensures |r| == |s|
    ensures forall i :: 0 <= i < |s| ==> r[i] == LowerChar(s[i])
  {
    if s == [] then [] else [LowerChar(s[0])] + Lower(s[1..])
  }

  /** Length of the longest prefix of `s` whose characters all satisfy `p`. */
  function RunLength(s: string, p: char -> bool): (n: nat)
    ensures n <= |s|
    ensures forall i :: 0 <= i < n ==> p(s[i])
    ensures n < |s| ==> !p(s[n])
  {
    if s == [] || !p(s[0]) then 0 else 1 + RunLength(s[1..], p)
  }

  /** The maximal runs of characters satisfying `p`, left to right: `re.findall`
      of `[class]+` when `p` is the class, and `str.split()` when `p` is "not a space". */
  function Runs(s: string, p: char -> bool): (r: seq<string>)
    decreases |s|
  {
    if s == [] then []
    else if !p(s[0]) then Runs(s[1..], p)
    else
      var n := RunLength(s, p);
      [s[..n]] + Runs(s[n..], p)
  }

  /** Every run is non-empty and made only of characters satisfying `p`. */
  lemma {:induction false} RunsAreRuns(s: string, p: char -> bool)
    ensures forall w :: w in Runs(s, p) ==> |w| > 0 && forall i :: 0 <= i < |w| ==> p(w[i])
    decreases |s|
  {
    if s == [] {
    } else if !p(s[0]) {
      RunsAreRuns(s[1..], p);
    } else {
      var n := RunLength(s, p);
      RunsAreRuns(s[n..], p);
    }
  }

  /** A string with no character satisfying `p` has no runs. */
  lemma {:induction false} RunsOfNone(s: string, p: char -> bool)
    requires forall i :: 0 <= i < |s| ==> !p(s[i])
    ensures Runs(s, p) == []
    decreases |s|
  {
    if s != [] {
      RunsOfNone(s[1..], p);
    }
  }

  /** s[i..j] is a maximal run of characters satisfying `p`: non-empty, and neither
      neighbour satisfies `p`. */
  ghost predicate MaximalRun(s: string, p: char -> bool, i: int, j: int)
  {
    0 <= i < j <= |s| && (forall k :: i <= k < j ==> p(s[k]))
    && (i == 0 || !p(s[i - 1])) && (j == |s| || !p(s[j]))
  }

  /** A maximal run of s[d..] is one of s, d characters further on, provided no run
      crosses position d. */
  lemma MaximalRunShiftUp(s: string, p: char -> bool, d: nat, i: int, j: int)
    requires 0 < d <= |s| && (!p(s[d - 1]) || d == |s| || !p(s[d]))
    requires MaximalRun(s[d..], p, i, j)
    ensures MaximalRun(s, p, i + d, j + d)
  {
    var t := s[d..];
    forall k | i + d <= k < j + d
      ensures p(s[k])
    {
      assert s[k] == t[k - d];
    }
    if i > 0 {
      assert s[i + d - 1] == t[i - 1];
    }
    if j < |t| {
      assert s[j + d] == t[j];
    }
  }

  /** A maximal run of s that starts at or after d is one of s[d..], provided no run
      crosses position d. */
  lemma MaximalRunShiftDown(s: string, p: char -> bool, d: nat, i: int, j: int)
    requires 0 < d <= |s| && (!p(s[d - 1]) || d == |s| || !p(s[d]))
    requires d <= i && MaximalRun(s, p, i, j)
    ensures MaximalRun(s[d..], p, i - d, j - d)
  {
    var t := s[d..];
    forall k | i - d <= k < j - d
      ensures p(t[k])
    {
      assert t[k] == s[k + d];
    }
    if i > d {
      assert t[i - d - 1] == s[i - 1];
    }
    if j < |s| {
      assert t[j - d] == s[j];
    }
  }

  lemma SliceOfSuffix(s: string, d: int, i: int, j: int)
    requires 0 <= d <= i <= j <= |s|
    ensures s[d..][i - d..j - d] == s[i..j]
  {
    var t := s[d..][i - d..j - d];
    assert forall k :: 0 <= k < |t| ==> t[k] == s[i..j][k];
  }

  /** The first run starts at 0 and is maximal; any other maximal run starts after it. */
  lemma FirstRun(s: string, p: char -> bool, i: int, j: int)
    requires s != [] && p(s[0])
    ensures MaximalRun(s, p, 0, RunLength(s, p))
    ensures MaximalRun(s, p, i, j) ==> if i == 0 then j == RunLength(s, p) else RunLength(s, p) < i
  {
  }

  /** Every run is a maximal run of s, taken verbatim. */
  lemma {:induction false} RunsSound(s: string, p: char -> bool, w: string) returns (i: int, j: int)
    requires w in Runs(s, p)
    ensures MaximalRun(s, p, i, j) && w == s[i..j]
    decreases |s|
  {
    var d := if p(s[0]) then RunLength(s, p) else 1;
    if p(s[0]) {
      FirstRun(s, p, 0, 0);
    }
    if p(s[0]) && w == s[..d] {
      i, j := 0, d;
    } else {
      var i', j' := RunsSound(s[d..], p, w);
      MaximalRunShiftUp(s, p, d, i', j');
      i, j := i' + d, j' + d;
      SliceOfSuffix(s, d, i, j);
    }
  }

  /** Every maximal run of s is one of its runs. */
  lemma {:induction false} RunsComplete(s: string, p: char -> bool, i: int, j: int)
    requires MaximalRun(s, p, i, j)
    ensures s[i..j] in Runs(s, p)
    decreases |s|
  {
    var d := if p(s[0]) then RunLength(s, p) else 1;
    if p(s[0]) {
      FirstRun(s, p, i, j);
    }
    if 0 < i {
      MaximalRunShiftDown(s, p, d, i, j);
      RunsComplete(s[d..], p, i - d, j - d);
      SliceOfSuffix(s, d, i, j);
    }
  }

  /** w is, verbatim, some maximal run of `p` characters in s. */
  ghost predicate SliceIsMaximalRun(w: string, s: string, p: char -> bool)
  {
    exists i, j :: MaximalRun(s, p, i, j) && w == s[i..j]
  }

  /** The runs are exactly the maximal runs of s, each a verbatim slice of s. */
  lemma RunsIff(s: string, p: char -> bool, w: string)
    ensures w in Runs(s, p) <==> SliceIsMaximalRun(w, s, p)
  {
    if w in Runs(s, p) {
      var i, j := RunsSound(s, p, w);
    }
    if exists i, j :: MaximalRun(s, p, i, j) && w == s[i..j] {
      var i, j :| MaximalRun(s, p, i, j) && w == s[i..j];
      RunsComplete(s, p, i, j);
    }
  }

  /** str.split() with no argument: the maximal runs of non-whitespace characters. */
  function Split(s: string): seq<string>
  {
    Runs(s, IsNonSpace)
  }

  /** sep.join(parts). */
  function Join(parts: seq<string>, sep: string): (r: string)
    ensures parts == [] ==> r == []
    ensures |parts| == 1 ==> r == parts[0]
  {
    if parts == [] then []
    else if |parts| == 1 then parts[0]
    else parts[0] + sep + Join(parts[1..], sep)
  }

  predicate IsBlank(s: string)
  {
    forall i :: 0 <= i < |s| ==> IsSpace(s[i])
  }

  function StripLeft(s: string): (r: string)
    ensures |r| <= |s| && r == s[|s| - |r|..]
    ensures r != [] ==> !IsSpace(r[0])
    ensures IsBlank(s[..|s| - |r|])
  {
    if s != [] && IsSpace(s[0]) then StripLeft(s[1..]) else s
  }

  function StripRight(s: string): (r: string)
    ensures |r| <= |s| && r == s[..|r|]
    ensures r != [] ==> !IsSpace(r[|r| - 1])
    ensures IsBlank(s[|r|..])
  {
    if s != [] && IsSpace(s[|s| - 1]) then StripRight(s[..|s| - 1]) else s
  }

  /** str.strip() with no argument. */
  function Strip(s: string): (r: string)
    ensures r == [] || (!IsSpace(r[0]) && !IsSpace(r[|r| - 1]))
  {
    StripRight(StripLeft(s))
  }

  /** `s.strip()` is falsy exactly when `s` consists of whitespace only. */
  lemma StripEmptyIffBlank(s: string)
    ensures Strip(s) == [] <==> IsBlank(s)
  {
    var l := StripLeft(s);
    if l != [] {
      assert !IsSpace(l[0]) && l[0] == s[|s| - |l|];
      assert !IsBlank(s);
    }
  }

  predicate OccursAt(text: string, pat: string, k: int)
  {
    0 <= k && k + |pat| <= |text| && text[k..k + |pat|] == pat
  }

  /** str.find(pat, i) restricted to occurrences at or after i. */
  function FindFrom(text: string, pat: string, i: nat): (r: int)
    requires i <= |text|
    ensures r == -1 || (i <= r && OccursAt(text, pat, r))
    ensures r == -1 ==> forall k :: i <= k ==> !OccursAt(text, pat, k)
    ensures r != -1 ==> forall k :: i <= k < r ==> !OccursAt(text, pat, k)
    decreases |text| - i
  {
    if i + |pat| > |text| then -1
    else if text[i..i + |pat|] == pat then i
    else if i == |text| then -1
    else FindFrom(text, pat, i + 1)
  }

  /** str.find(pat): the lowest index of an occurrence of `pat`, or -1 when there is none. */
  function Find(text: string, pat: string): (r: int)
    ensures r == -1 <==> forall k :: !OccursAt(text, pat, k)
    ensures r != -1 ==> OccursAt(text, pat, r) && forall k :: 0 <= k < r ==> !OccursAt(text, pat, k)
  {
    FindFrom(text, pat, 0)
  }

  predicate StartsWith(s: string, prefix: string)
  {
    |prefix| <= |s| && s[..|prefix|] == prefix
  }

  /** Python's `<` on str: lexicographic by code point, a proper prefix first. */
  predicate LexLess(a: string, b: string)
    decreases |a|
  {
    if b == [] then false
    else if a == [] then true
    else if a[0] != b[0] then a[0] < b[0]
    else LexLess(a[1..], b[1..])
  }

  lemma {:induction false} LexLessIrreflexive(a: string)
    ensures !LexLess(a, a)
    decreases |a|
  {
    if a != [] {
      LexLessIrreflexive(a[1..]);
    }
  }

  lemma {:induction false} LexLessTransitive(a: string, b: string, c: string)
    requires LexLess(a, b) && LexLess(b, c)
    ensures LexLess(a, c)
    decreases |a|
  {
    if a != [] && a[0] == b[0] && b[0] == c[0] {
      LexLessTransitive(a[1..], b[1..], c[1..]);
    }
  }

  lemma {:induction false} LexLessTotal(a: string, b: string)
    ensures a == b || LexLess(a, b) || LexLess(b, a)
    decreases |a|
  {
    if a != [] && b != [] && a[0] == b[0] {
      LexLessTotal(a[1..], b[1..]);
      if a[1..] == b[1..] {
        assert a == [a[0]] + a[1..] && b == [b[0]] + b[1..];
      }
    }
  }
}
