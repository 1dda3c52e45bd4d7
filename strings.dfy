/**
 * Character classes and string operations shared by the Python and the
 * TypeScript parts of the system. Strings are sequences of characters; the
 * whitespace sets of Python's `str.strip`/`\s` and of JavaScript's
 * `trim`/`\s` differ slightly and are kept apart.
 */
module Strings {

  /** Python's `str.isspace()` set, used by `strip()`, `split()` and `\s`. */
  predicate IsPySpace(c: char) {
    c == ' ' || ('\t' <= c <= '\r') || ('\U{1C}' <= c <= '\U{1F}') || c == '\U{85}'
    || c == '\U{A0}' || c == '\U{1680}' || ('\U{2000}' <= c <= '\U{200A}')
    || c == '\U{2028}' || c == '\U{2029}' || c == '\U{202F}' || c == '\U{205F}' || c == '\U{3000}'
  }

  /** JavaScript's WhiteSpace and LineTerminator set, used by `trim()` and `\s`. */
  predicate IsJsSpace(c: char) {
    c == ' ' || ('\t' <= c <= '\r') || c == '\U{A0}' || c == '\U{1680}' || ('\U{2000}' <= c <= '\U{200A}')
    || c == '\U{2028}' || c == '\U{2029}' || c == '\U{202F}' || c == '\U{205F}' || c == '\U{3000}'
    || c == '\U{FEFF}'
  }

  predicate IsUpperAscii(c: char) { 'A' <= c <= 'Z' }

  predicate IsAsciiAlnum(c: char) { 'A' <= c <= 'Z' || 'a' <= c <= 'z' || '0' <= c <= '9' }

  /** ASCII lower-casing of one character. */
  function LowerChar(c: char): (r: char)
    ensures !IsUpperAscii(r)
    ensures !IsUpperAscii(c) ==> r == c
  {
    if IsUpperAscii(c) then (c as int + 32) as char else c
  }

  function Lower(s: string): (r: string)
    ensures |r| == |s|
    ensures forall i :: 0 <= i < |s| ==> r[i] == LowerChar(s[i])
  {
    seq(|s|, i requires 0 <= i < |s| => LowerChar(s[i]))
  }

  predicate IsLower(s: string) {
    forall i :: 0 <= i < |s| ==> !IsUpperAscii(s[i])
  }

  lemma LowerIdempotent(s: string)
    ensures IsLower(Lower(s)) && Lower(Lower(s)) == Lower(s)
  {
  }

  lemma LowerOfLower(s: string)
    requires IsLower(s)
    ensures Lower(s) == s
  {
  }

  // ---------------------------------------------------------------- trimming

  /** The number of leading characters that satisfy `sp`. */
  function LeadingCount(s: string, sp: char -> bool): (k: nat)
    ensures k <= |s|
    ensures k < |s| ==> !sp(s[k])
    ensures forall i :: 0 <= i < k ==> sp(s[i])
  {
    if s == [] || !sp(s[0]) then 0 else 1 + LeadingCount(s[1..], sp)
  }

  /** Where the run of trailing characters that satisfy `sp` starts. */
  function TrailingStart(s: string, sp: char -> bool): (k: nat)
    ensures k <= |s|
    ensures k > 0 ==> !sp(s[k - 1])
    ensures forall i :: k <= i < |s| ==> sp(s[i])
  {
    if s == [] || !sp(s[|s| - 1]) then |s| else TrailingStart(s[..|s| - 1], sp)
  }

  /** Drops the leading characters that satisfy `sp`. */
  function TrimStart(s: string, sp: char -> bool): (r: string)
    ensures |r| <= |s|
    ensures r == [] || !sp(r[0])
  {
    s[LeadingCount(s, sp)..]
  }

  /** Drops the trailing characters that satisfy `sp`. */
  function TrimEnd(s: string, sp: char -> bool): (r: string)
    ensures |r| <= |s|
    ensures r == [] || !sp(r[|r| - 1])
  {
    s[..TrailingStart(s, sp)]
  }

  function Trim(s: string, sp: char -> bool): (r: string)
    ensures |r| <= |s|
    ensures r == [] || (!sp(r[0]) && !sp(r[|r| - 1]))
  {
    TrimEnd(TrimStart(s, sp), sp)
  }

  /** Trimming keeps a contiguous run of the original characters. */
  lemma TrimKeepsChars(s: string, sp: char -> bool)
    ensures forall i :: 0 <= i < |Trim(s, sp)| ==> Trim(s, sp)[i] in s
  {
    TrimIsSlice(s, sp);
    var k := LeadingCount(s, sp);
    var r := Trim(s, sp);
    forall i | 0 <= i < |r| ensures r[i] in s {
      assert r[i] == s[k + i];
    }
  }

  /** What trimming keeps is one contiguous slice of the original. */
  lemma TrimIsSlice(s: string, sp: char -> bool)
    ensures LeadingCount(s, sp) + |Trim(s, sp)| <= |s|
    ensures Trim(s, sp) == s[LeadingCount(s, sp)..LeadingCount(s, sp) + |Trim(s, sp)|]
  {
    var k := LeadingCount(s, sp);
    var t := TrimStart(s, sp);
    assert t == s[k..];
    var r := TrimEnd(t, sp);
    assert r == t[..|r|];
  }

  /** Python `s.strip()`. */
  function PyStrip(s: string): string { Trim(s, IsPySpace) }

  /** JavaScript `s.trim()`. */
  function JsTrim(s: string): string { Trim(s, IsJsSpace) }

  predicate AllSpace(s: string, sp: char -> bool) {
    forall i :: 0 <= i < |s| ==> sp(s[i])
  }

  lemma TrimEmptyIffAllSpace(s: string, sp: char -> bool)
    ensures Trim(s, sp) == [] <==> AllSpace(s, sp)
  {
    var t := TrimStart(s, sp);
    if t != [] {
      assert !sp(t[0]) && t[0] == s[|s| - |t|];
      assert TrimEnd(t, sp) != [] by { assert t[..1] == [t[0]]; TrimEndKeeps(t, sp, 0); }
    }
  }

  /** A character that is not trimmed away keeps `TrimEnd` from emptying the string. */
  lemma TrimEndKeeps(s: string, sp: char -> bool, k: nat)
    requires k < |s| && !sp(s[k])
    ensures |TrimEnd(s, sp)| > k
  {
  }

  lemma TrimIdempotent(s: string, sp: char -> bool)
    ensures Trim(Trim(s, sp), sp) == Trim(s, sp)
  {
    var r := Trim(s, sp);
    if r != [] {
      assert TrimStart(r, sp) == r;
      assert TrimEnd(r, sp) == r;
    }
  }

  /** A string that ends in a kept character loses only its leading run. */
  lemma TrimKeepsEnd(s: string, sp: char -> bool)
    requires s != [] && !sp(s[|s| - 1])
    ensures LeadingCount(s, sp) < |s| && Trim(s, sp) == s[LeadingCount(s, sp)..]
  {
    var t := TrimStart(s, sp);
    assert t[|t| - 1] == s[|s| - 1];
    assert TrimEnd(t, sp) == t;
  }

  /** A string without a trimmed character is its own trim. */
  lemma TrimNoSpace(s: string, sp: char -> bool)
    requires forall i :: 0 <= i < |s| ==> !sp(s[i])
    ensures Trim(s, sp) == s
  {
    if s != [] {
      TrimKeepsEnd(s, sp);
    }
  }

  // ------------------------------------------------------------------ runs

  /** The sentence terminators of the pattern `[.!?]`. */
  predicate IsSentenceEnd(c: char) { c == '.' || c == '!' || c == '?' }

  /** Where the greedy run of characters satisfying `sp` that starts at `i` stops. */
  function RunEnd(s: string, i: nat, sp: char -> bool): (j: nat)
    requires i <= |s|
    ensures i <= j <= |s|
    ensures j < |s| ==> !sp(s[j])
    ensures forall x :: i <= x < j ==> sp(s[x])
    decreases |s| - i
  {
    if i < |s| && sp(s[i]) then RunEnd(s, i + 1, sp) else i
  }

  /**
   * JavaScript `s.split(re)` where `re` matches the maximal runs of
   * characters satisfying `sp` (`/\s+/`, `/[.!?]+/`): the pieces between the
   * runs, with an empty piece before a leading run and after a trailing one.
   */
  function SplitRuns(s: string, sp: char -> bool): (r: seq<string>)
    ensures |r| >= 1
    ensures forall k, i :: 0 <= k < |r| && 0 <= i < |r[k]| ==> !sp(r[k][i])
    decreases |s|
  {
    var k := FirstWhere(s, sp);
    if k == |s| then [s] else [s[..k]] + SplitRuns(s[RunEnd(s, k, sp)..], sp)
  }

  /** Every piece of `SplitRuns` is a contiguous run of characters of `s`. */
  lemma {:induction false} SplitRunsChars(s: string, sp: char -> bool)
    ensures forall k, i :: 0 <= k < |SplitRuns(s, sp)| && 0 <= i < |SplitRuns(s, sp)[k]| ==> SplitRuns(s, sp)[k][i] in s
    decreases |s|
  {
    var k := FirstWhere(s, sp);
    if k < |s| {
      var rest := s[RunEnd(s, k, sp)..];
      SplitRunsChars(rest, sp);
      var r := SplitRuns(s, sp);
      assert r == [s[..k]] + SplitRuns(rest, sp);
      forall j, i | 0 <= j < |r| && 0 <= i < |r[j]| ensures r[j][i] in s {
        if j == 0 {
          assert r[j][i] == s[i];
        } else {
          assert r[j] == SplitRuns(rest, sp)[j - 1];
          assert r[j][i] in rest;
        }
      }
    }
  }

  /** Every piece of `SplitRuns` of a string made only of separator characters is made only of them. */
  lemma SplitRunsAllSpace(s: string, sp: char -> bool)
    requires AllSpace(s, sp)
    ensures forall k :: 0 <= k < |SplitRuns(s, sp)| ==> AllSpace(SplitRuns(s, sp)[k], sp)
  {
    SplitRunsChars(s, sp);
  }

  /**
   * JavaScript `s.replace(re, c)` where `re` matches the maximal runs of
   * characters satisfying `sp` (`/\s+/g` with `" "`).
   */
  function CollapseRuns(s: string, sp: char -> bool, c: char): (r: string)
    requires sp(c)
    ensures |r| <= |s|
    ensures forall i :: 0 <= i < |r| && sp(r[i]) ==> r[i] == c
    ensures forall i :: 0 <= i < |r| - 1 && sp(r[i]) ==> !sp(r[i + 1])
    ensures s != [] && !sp(s[0]) ==> r != [] && r[0] == s[0]
    ensures forall i :: 0 <= i < |r| ==> r[i] == c || r[i] in s
    decreases |s|
  {
    if s == [] then []
    else if sp(s[0]) then
      var rest := s[RunEnd(s, 0, sp)..];
      assert forall x :: x in rest ==> x in s;
      [c] + CollapseRuns(rest, sp, c)
    else
      assert forall x :: x in s[1..] ==> x in s;
      [s[0]] + CollapseRuns(s[1..], sp, c)
  }

  /** A string whose runs are already single `c`s is left as it is. */
  lemma {:induction false} CollapseRunsFixed(s: string, sp: char -> bool, c: char)
    requires sp(c)
    requires forall i :: 0 <= i < |s| && sp(s[i]) ==> s[i] == c
    requires forall i :: 0 <= i < |s| - 1 && sp(s[i]) ==> !sp(s[i + 1])
    ensures CollapseRuns(s, sp, c) == s
    decreases |s|
  {
    if s != [] {
      if sp(s[0]) {
        assert RunEnd(s, 0, sp) == 1 by {
          assert |s| > 1 ==> !sp(s[1]);
        }
      }
      CollapseRunsFixed(s[1..], sp, c);
    }
  }

  /** The characters of `s` that do not satisfy `sp`, in order. */
  function Visible(s: string, sp: char -> bool): (r: string)
    ensures forall i :: 0 <= i < |r| ==> !sp(r[i])
  {
    if s == [] then [] else (if sp(s[0]) then [] else [s[0]]) + Visible(s[1..], sp)
  }

  /** Collapsing changes nothing but the runs themselves: the other characters stay, in order. */
  lemma {:induction false} CollapseRunsVisible(s: string, sp: char -> bool, c: char)
    requires sp(c)
    ensures Visible(CollapseRuns(s, sp, c), sp) == Visible(s, sp)
    decreases |s|
  {
    if s != [] {
      if sp(s[0]) {
        var j := RunEnd(s, 0, sp);
        CollapseRunsVisible(s[j..], sp, c);
        VisibleSkip(s, j, sp);
        assert ([c] + CollapseRuns(s[j..], sp, c))[1..] == CollapseRuns(s[j..], sp, c);
      } else {
        CollapseRunsVisible(s[1..], sp, c);
        assert ([s[0]] + CollapseRuns(s[1..], sp, c))[1..] == CollapseRuns(s[1..], sp, c);
      }
    }
  }

  /** Skipping a leading run of characters satisfying `sp` leaves `Visible` unchanged. */
  lemma {:induction false} VisibleSkip(s: string, j: nat, sp: char -> bool)
    requires j <= |s|
    requires forall x :: 0 <= x < j ==> sp(s[x])
    ensures Visible(s, sp) == Visible(s[j..], sp)
    decreases j
  {
    if j > 0 {
      VisibleSkip(s[1..], j - 1, sp);
      assert s[1..][j - 1..] == s[j..];
    }
  }

  lemma {:induction false} VisibleAppend(a: string, b: string, sp: char -> bool)
    ensures Visible(a + b, sp) == Visible(a, sp) + Visible(b, sp)
    decreases |a|
  {
    if a == [] {
      assert a + b == b;
    } else {
      assert (a + b)[1..] == a[1..] + b;
      VisibleAppend(a[1..], b, sp);
    }
  }

  lemma {:induction false} VisibleAllSpace(s: string, sp: char -> bool)
    requires AllSpace(s, sp)
    ensures Visible(s, sp) == []
    decreases |s|
  {
    if s != [] {
      VisibleAllSpace(s[1..], sp);
    }
  }

  /** Trimming removes only characters satisfying `sp`. */
  lemma VisibleTrim(s: string, sp: char -> bool)
    ensures Visible(Trim(s, sp), sp) == Visible(s, sp)
  {
    TrimIsSlice(s, sp);
    var k := LeadingCount(s, sp);
    var r := Trim(s, sp);
    var t := TrimStart(s, sp);
    assert t == s[k..];
    assert r == t[..|r|];
    assert s == s[..k] + r + s[k + |r|..];
    VisibleAppend(s[..k] + r, s[k + |r|..], sp);
    VisibleAppend(s[..k], r, sp);
    VisibleAllSpace(s[..k], sp);
    var tail := s[k + |r|..];
    assert AllSpace(tail, sp) by {
      forall i | 0 <= i < |tail| ensures sp(tail[i]) {
        assert tail[i] == t[|r| + i];
      }
    }
    VisibleAllSpace(tail, sp);
  }

  /**
   * JavaScript `s.replace(/\s+/g, " ").trim()`: no whitespace at either end,
   * whitespace only as single spaces.
   */
  function JsCollapse(s: string): (r: string)
    ensures r == [] || (!IsJsSpace(r[0]) && !IsJsSpace(r[|r| - 1]))
    ensures forall i :: 0 <= i < |r| && IsJsSpace(r[i]) ==> r[i] == ' '
    ensures forall i :: 0 <= i < |r| - 1 && IsJsSpace(r[i]) ==> !IsJsSpace(r[i + 1])
    ensures forall i :: 0 <= i < |r| ==> r[i] == ' ' || r[i] in s
  {
    var c := CollapseRuns(s, IsJsSpace, ' ');
    TrimIsSlice(c, IsJsSpace);
    JsTrim(c)
  }

  /** Text already in collapsed form is left as it is. */
  lemma JsCollapseFixed(s: string)
    requires s == [] || (!IsJsSpace(s[0]) && !IsJsSpace(s[|s| - 1]))
    requires forall i :: 0 <= i < |s| && IsJsSpace(s[i]) ==> s[i] == ' '
    requires forall i :: 0 <= i < |s| - 1 && IsJsSpace(s[i]) ==> !IsJsSpace(s[i + 1])
    ensures JsCollapse(s) == s
  {
    CollapseRunsFixed(s, IsJsSpace, ' ');
    if s != [] {
      assert TrimStart(s, IsJsSpace) == s;
      assert TrimEnd(s, IsJsSpace) == s;
    }
  }

  /** Collapsing and trimming change nothing but whitespace. */
  lemma JsCollapseVisible(s: string)
    ensures Visible(JsCollapse(s), IsJsSpace) == Visible(s, IsJsSpace)
  {
    var c := CollapseRuns(s, IsJsSpace, ' ');
    CollapseRunsVisible(s, IsJsSpace, ' ');
    VisibleTrim(c, IsJsSpace);
  }

  // ------------------------------------------------------- prefixes, suffixes

  predicate StartsWith(s: string, p: string) { |p| <= |s| && s[..|p|] == p }

  predicate EndsWith(s: string, p: string) { |p| <= |s| && s[|s| - |p|..] == p }

  /** `p` occurs in `s` at position `i`. */
  predicate OccursAt(s: string, p: string, i: int) {
    0 <= i && i + |p| <= |s| && s[i..i + |p|] == p
  }

  /** Python `p in s`, JavaScript `s.includes(p)`. */
  predicate Contains(s: string, p: string) {
    exists i :: 0 <= i <= |s| - |p| && OccursAt(s, p, i)
  }

  lemma ContainsEmpty(s: string)
    ensures Contains(s, "")
  {
    assert OccursAt(s, "", 0);
  }

  // ------------------------------------------------------ splitting, joining

  /** `sep.join(parts)`. */
  function Join(parts: seq<string>, sep: string): string {
    if |parts| == 0 then ""
    else if |parts| == 1 then parts[0]
    else parts[0] + sep + Join(parts[1..], sep)
  }

  lemma {:induction false} JoinSnoc(parts: seq<string>, p: string, sep: string)
    requires parts != []
    ensures Join(parts + [p], sep) == Join(parts, sep) + sep + p
    decreases |parts|
  {
    if |parts| > 1 {
      assert (parts + [p])[1..] == parts[1..] + [p];
      JoinSnoc(parts[1..], p, sep);
    }
  }

  /** The first part opens the joined string. */
  lemma JoinHead(parts: seq<string>, sep: string)
    requires |parts| >= 1
    ensures |parts[0]| <= |Join(parts, sep)| && Join(parts, sep)[..|parts[0]|] == parts[0]
  {
  }

  lemma {:induction false} JoinAllSpace(parts: seq<string>, sep: string, sp: char -> bool)
    requires AllSpace(sep, sp)
    requires forall k :: 0 <= k < |parts| ==> AllSpace(parts[k], sp)
    ensures AllSpace(Join(parts, sep), sp)
    decreases |parts|
  {
    if |parts| > 1 {
      JoinAllSpace(parts[1..], sep, sp);
      var j := Join(parts, sep);
      var rest := Join(parts[1..], sep);
      assert j == parts[0] + sep + rest;
      forall i | 0 <= i < |j| ensures sp(j[i]) {
        if i < |parts[0]| {
          assert j[i] == parts[0][i];
        } else if i < |parts[0]| + |sep| {
          assert j[i] == sep[i - |parts[0]|];
        } else {
          assert j[i] == rest[i - |parts[0]| - |sep|];
        }
      }
    }
  }

  /** Index of the first character of `s` satisfying `p`, or `|s|`. */
  function FirstWhere(s: string, p: char -> bool): (k: nat)
    ensures k <= |s|
    ensures k < |s| ==> p(s[k])
    ensures forall i :: 0 <= i < k ==> !p(s[i])
  {
    if s == [] then 0 else if p(s[0]) then 0 else 1 + FirstWhere(s[1..], p)
  }

  /** Index of the first `c` in `s`, or `|s|`. */
  function IndexOf(s: string, c: char): (k: nat)
    ensures k <= |s|
    ensures k < |s| ==> s[k] == c
    ensures forall i :: 0 <= i < k ==> s[i] != c
  {
    FirstWhere(s, x => x == c)
  }

  /** Splits `s` at every character satisfying `brk`; there is always at least one piece. */
  function SplitBy(s: string, brk: char -> bool): (r: seq<string>)
    ensures |r| >= 1
    ensures forall k, i :: 0 <= k < |r| && 0 <= i < |r[k]| ==> !brk(r[k][i])
    decreases |s|
  {
    var k := FirstWhere(s, brk);
    if k == |s| then [s] else [s[..k]] + SplitBy(s[k + 1..], brk)
  }

  /** `s.split(c)` for a single separator character. */
  function Split(s: string, c: char): (r: seq<string>)
    ensures |r| >= 1
    ensures forall k :: 0 <= k < |r| ==> c !in r[k]
  {
    SplitBy(s, x => x == c)
  }

  /** Joining pieces free of break characters with one break character, then splitting, gives the pieces back. */
  lemma {:induction false} SplitByJoin(parts: seq<string>, c: char, brk: char -> bool)
    requires |parts| >= 1 && brk(c)
    requires forall k, i :: 0 <= k < |parts| && 0 <= i < |parts[k]| ==> !brk(parts[k][i])
    ensures SplitBy(Join(parts, [c]), brk) == parts
    decreases |parts|
  {
    var p := parts[0];
    if |parts| == 1 {
      assert FirstWhere(p, brk) == |p|;
    } else {
      var rest := Join(parts[1..], [c]);
      var s := p + [c] + rest;
      assert Join(parts, [c]) == s;
      assert FirstWhere(s, brk) == |p| by {
        FirstWherePrefix(p, [c] + rest, brk);
        assert s == p + ([c] + rest);
        assert ([c] + rest)[0] == c;
      }
      assert s[..|p|] == p;
      assert s[|p| + 1..] == rest;
      assert SplitBy(s, brk) == [p] + SplitBy(rest, brk);
      SplitByJoin(parts[1..], c, brk);
      assert parts == [p] + parts[1..];
    }
  }

  lemma {:induction false} SplitJoin(parts: seq<string>, c: char)
    requires |parts| >= 1
    requires forall k :: 0 <= k < |parts| ==> c !in parts[k]
    ensures Split(Join(parts, [c]), c) == parts
  {
    var brk := x => x == c;
    forall k, i | 0 <= k < |parts| && 0 <= i < |parts[k]| ensures !brk(parts[k][i]) {
      assert parts[k][i] in parts[k];
    }
    SplitByJoin(parts, c, brk);
  }

  lemma FirstWherePrefix(p: string, q: string, brk: char -> bool)
    requires forall i :: 0 <= i < |p| ==> !brk(p[i])
    ensures FirstWhere(p + q, brk) == |p| + FirstWhere(q, brk)
  {
    if p != [] {
      assert (p + q)[1..] == p[1..] + q;
      FirstWherePrefix(p[1..], q, brk);
    } else {
      assert p + q == q;
    }
  }

  lemma {:induction false} JoinSplitBy(s: string, c: char, brk: char -> bool)
    requires forall x :: brk(x) <==> x == c
    ensures Join(SplitBy(s, brk), [c]) == s
    decreases |s|
  {
    var k := FirstWhere(s, brk);
    if k == |s| {
      assert SplitBy(s, brk) == [s];
    } else {
      var rest := SplitBy(s[k + 1..], brk);
      var parts := [s[..k]] + rest;
      assert SplitBy(s, brk) == parts;
      JoinSplitBy(s[k + 1..], c, brk);
      assert |parts| >= 2 && parts[0] == s[..k] && parts[1..] == rest;
      assert Join(parts, [c]) == s[..k] + [c] + Join(rest, [c]);
      assert s[k] == c;
      SplitAround(s, k);
    }
  }

  lemma SplitAround(s: string, k: nat)
    requires k < |s|
    ensures s == s[..k] + [s[k]] + s[k + 1..]
  {
    assert s[..k] + [s[k]] + s[k + 1..] == s[..k] + s[k..];
  }

  /** The line boundaries of Python's `str.splitlines()`. */
  predicate IsPyLineBreak(c: char) {
    c == '\n' || c == '\r' || c == '\U{0B}' || c == '\U{0C}' || ('\U{1C}' <= c <= '\U{1E}')
    || c == '\U{85}' || c == '\U{2028}' || c == '\U{2029}'
  }

  /**
   * Python's `s.splitlines()`: "\r\n" is one boundary and a final boundary
   * opens no empty last line.
   */
  function PySplitLines(s: string): (r: seq<string>)
    ensures forall k, i :: 0 <= k < |r| && 0 <= i < |r[k]| ==> !IsPyLineBreak(r[k][i])
    ensures s == "" <==> r == []
    decreases |s|
  {
    if s == "" then []
    else
      var k := FirstWhere(s, IsPyLineBreak);
      if k == |s| then [s]
      else
        var next := if s[k] == '\r' && k + 1 < |s| && s[k + 1] == '\n' then k + 2 else k + 1;
        [s[..k]] + PySplitLines(s[next..])
  }

  /** Concatenation of a sequence of strings. */
  function Concat(parts: seq<string>): string {
    if parts == [] then "" else parts[0] + Concat(parts[1..])
  }

  lemma ConcatAppend(parts: seq<string>, p: string)
    ensures Concat(parts + [p]) == Concat(parts) + p
  {
    if parts != [] {
      assert (parts + [p])[1..] == parts[1..] + [p];
      ConcatAppend(parts[1..], p);
    }
  }

  // ---------------------------------------------------------------- slicing

  function Max0(x: int): nat { if x < 0 then 0 else x }

  /** The first `n` elements, or all of them (Python `xs[:n]` for `n >= 0`). */
  function Take<T>(xs: seq<T>, n: nat): (r: seq<T>)
    ensures |r| <= n && |r| <= |xs|
    ensures r == xs[..|r|]
    ensures n <= |xs| ==> |r| == n
  {
    if n < |xs| then xs[..n] else xs
  }

  /** JavaScript `xs.slice(0, end)`: a negative `end` counts from the back. */
  function SliceTo<T>(xs: seq<T>, end: int): (r: seq<T>)
    ensures |r| <= |xs| && r == xs[..|r|]
    ensures 0 <= end ==> |r| == if end < |xs| then end else |xs|
    ensures end < 0 ==> |r| == if -end < |xs| then |xs| + end else 0
  {
    if end >= 0 then Take(xs, end)
    else if -end < |xs| then xs[..|xs| + end] else []
  }

  // -------------------------------------------------------------- filtering

  /** The elements of `xs` that are not `x`, in order (JavaScript `filter(e => e !== x)`). */
  function Without<T(==,!new)>(xs: seq<T>, x: T): (r: seq<T>)
    ensures x !in r
    ensures forall y :: y in r <==> y in xs && y != x
    ensures |r| <= |xs|
  {
    if xs == [] then [] else (if xs[0] == x then [] else [xs[0]]) + Without(xs[1..], x)
  }

  lemma WithoutAbsent<T(!new)>(xs: seq<T>, x: T)
    requires x !in xs
    ensures Without(xs, x) == xs
  {
  }

  predicate NoDup<T(==)>(xs: seq<T>) {
    forall i, j :: 0 <= i < j < |xs| ==> xs[i] != xs[j]
  }

  lemma NoDupSnoc<T>(xs: seq<T>, x: T)
    requires NoDup(xs) && x !in xs
    ensures NoDup(xs + [x])
  {
  }
}
