/**
 * The string operations of Python's `str` that the repository relies on, with Python's
 * semantics: whitespace classification, `lower`, `strip`, `split()`, `split(sep)`,
 * `replace`, `find`/`rfind`, `splitlines`, `join`, slicing prefixes and `str(int)`.
 */
module Text {

  /**
   * The code points for which Python `str.isspace()` holds: ASCII tab to carriage return, the
   * separators U+001C..U+001F, space, and the Unicode spaces and line/paragraph separators.
   */
  const SpaceCodes: set<int> := {
    0x09, 0x0A, 0x0B, 0x0C, 0x0D, 0x1C, 0x1D, 0x1E, 0x1F, 0x20, 0x85, 0xA0, 0x1680,
    0x2000, 0x2001, 0x2002, 0x2003, 0x2004, 0x2005, 0x2006, 0x2007, 0x2008, 0x2009, 0x200A,
    0x2028, 0x2029, 0x202F, 0x205F, 0x3000
  }

  predicate IsSpace(c: char) { c as int in SpaceCodes }

  /** The line boundaries of Python `str.splitlines()` (a "\r\n" pair counts as one). */
  predicate IsLineBreak(c: char) {
    || c == '\n' || c == '\r' || c == '\U{0B}' || c == '\U{0C}' || ('\U{1C}' <= c <= '\U{1E}')
    || c == '\U{85}' || c == '\U{2028}' || c == '\U{2029}'
  }

  predicate IsUpper(c: char) { 'A' <= c <= 'Z' }

  predicate NoSpace(w: string) { forall i :: 0 <= i < |w| ==> !IsSpace(w[i]) }

  predicate AllSpace(w: string) { forall i :: 0 <= i < |w| ==> IsSpace(w[i]) }

  /** No whitespace at either end: what `strip()` leaves behind. */
  predicate IsStripped(s: string) { s == [] || (!IsSpace(s[0]) && !IsSpace(s[|s| - 1])) }

  lemma LineBreakIsSpace(c: char)
    ensures IsLineBreak(c) ==> IsSpace(c)
  {
  }

  // ---------------------------------------------------------------- lower-casing

  function LowerChar(c: char): char {
    if IsUpper(c) then (c as int + 32) as char else c
  }

  /** `s.lower()` on ASCII letters; other characters are kept as they are. */
  function Lower(s: string): (r: string)
    ensures |r| == |s|
    decreases |s|
  {
    if s == [] then [] else [LowerChar(s[0])] + Lower(s[1..])
  }

  /** Lower-casing maps each character on its own. */
  lemma {:induction false} LowerAt(s: string, i: nat)
    requires i < |s|
    ensures Lower(s)[i] == LowerChar(s[i])
    decreases |s|
  {
    if i > 0 {
      LowerAt(s[1..], i - 1);
    }
  }

  /** Lower-casing distributes over concatenation. */
  lemma {:induction false} LowerConcat(a: string, b: string)
    ensures Lower(a + b) == Lower(a) + Lower(b)
    decreases |a|
  {
    if a != [] {
      assert (a + b)[0] == a[0];
      assert (a + b)[1..] == a[1..] + b;
      LowerConcat(a[1..], b);
      assert Lower(a + b) == [LowerChar(a[0])] + (Lower(a[1..]) + Lower(b));
    } else {
      assert a + b == b;
    }
  }

  // ---------------------------------------------------------------- slicing

  /** `s[:n]` for a non-negative bound `n`. */
  function Take<T>(s: seq<T>, n: nat): (r: seq<T>)
    ensures |r| == if n <= |s| then n else |s|
    ensures r == s[..|r|]
  {
    if n <= |s| then s[..n] else s
  }

  /** `s[:k]` for any integer `k`: a negative bound counts from the end and stops at 0. */
  function PyPrefix<T>(s: seq<T>, k: int): (r: seq<T>)
    ensures |r| <= |s| && r == s[..|r|]
    ensures k >= 0 ==> |r| == if k <= |s| then k else |s|
    ensures k < 0 ==> |r| == if |s| + k >= 0 then |s| + k else 0
  {
    if k >= 0 then Take(s, k) else if |s| + k >= 0 then s[..|s| + k] else []
  }

  // ---------------------------------------------------------------- join

  /** `sep.join(parts)`. */
  function Join(sep: string, parts: seq<string>): string
    decreases |parts|
  {
    if parts == [] then "" else if |parts| == 1 then parts[0] else parts[0] + sep + Join(sep, parts[1..])
  }

  /** A join begins with its first part, so it is empty only when every part is. */
  lemma {:induction false} JoinStartsWithFirst(sep: string, parts: seq<string>)
    requires parts != []
    ensures |Join(sep, parts)| >= |parts[0]|
    ensures Join(sep, parts)[..|parts[0]|] == parts[0]
  {
    if |parts| > 1 {
      assert Join(sep, parts) == parts[0] + (sep + Join(sep, parts[1..]));
    }
  }

  /** Appending one more part to a non-empty join adds the separator and that part. */
  lemma {:induction false} JoinSnoc(sep: string, parts: seq<string>, p: string)
    requires parts != []
    ensures Join(sep, parts + [p]) == Join(sep, parts) + sep + p
    decreases |parts|
  {
    if |parts| == 1 {
      assert parts + [p] == [parts[0], p];
      assert (parts + [p])[1..] == [p];
    } else {
      assert (parts + [p])[1..] == parts[1..] + [p];
      JoinSnoc(sep, parts[1..], p);
    }
  }

  /** The length of a join: all parts plus one separator between each neighbouring pair. */
  lemma {:induction false} JoinLength(sep: string, parts: seq<string>)
    requires parts != []
    ensures |Join(sep, parts)| == TotalLength(parts) + (|parts| - 1) * |sep|
    decreases |parts|
  {
    if |parts| > 1 {
      JoinLength(sep, parts[1..]);
    }
  }

  function TotalLength(parts: seq<string>): nat
    decreases |parts|
  {
    if parts == [] then 0 else |parts[0]| + TotalLength(parts[1..])
  }

  // ---------------------------------------------------------------- search

  predicate OccursAt(s: string, pat: string, i: int) {
    0 <= i && i + |pat| <= |s| && s[i..i + |pat|] == pat
  }

  /** Python `pat in s`. */
  predicate Contains(s: string, pat: string) {
    exists i :: 0 <= i <= |s| && OccursAt(s, pat, i)
  }

  function FindFrom(s: string, pat: string, from: nat): (r: int)
    requires from <= |s|
    ensures r == -1 || (from <= r && OccursAt(s, pat, r))
    ensures forall j :: from <= j && (r == -1 || j < r) ==> !OccursAt(s, pat, j)
    decreases |s| - from
  {
    if OccursAt(s, pat, from) then from else if from == |s| then -1 else FindFrom(s, pat, from + 1)
  }

  /** `s.find(pat)`: the first position where `pat` occurs, or -1. */
  function Find(s: string, pat: string): (r: int)
    ensures r == -1 <==> !Contains(s, pat)
    ensures r >= 0 ==> OccursAt(s, pat, r) && forall j :: 0 <= j < r ==> !OccursAt(s, pat, j)
  {
    FindFrom(s, pat, 0)
  }

  /** `s.rfind(c)` for a one-character string: the last position holding `c`, or -1. */
  function RFindChar(s: string, c: char): (r: int)
    ensures -1 <= r < |s|
    ensures r == -1 <==> c !in s
    ensures r >= 0 ==> r < |s| && s[r] == c && forall j :: r < j < |s| ==> s[j] != c
    decreases |s|
  {
    if s == [] then -1 else if s[|s| - 1] == c then |s| - 1 else RFindChar(s[..|s| - 1], c)
  }

  /** A string without `pat` has no occurrence of it in any substring either. */
  lemma SubstringAvoids(s: string, pat: string, i: nat, j: nat)
    requires i <= j <= |s|
    requires !Contains(s, pat)
    ensures !Contains(s[i..j], pat)
  {
    if Contains(s[i..j], pat) {
      var k :| 0 <= k <= j - i && OccursAt(s[i..j], pat, k);
      OccursShift(s, pat, i, j, k);
    }
  }

  /** An occurrence inside a substring is an occurrence in the whole string, shifted by the start. */
  lemma OccursShift(s: string, pat: string, i: nat, j: nat, k: int)
    requires i <= j <= |s|
    requires OccursAt(s[i..j], pat, k)
    ensures OccursAt(s, pat, i + k)
  {
    var w := s[i + k..i + k + |pat|];
    forall n | 0 <= n < |pat| ensures w[n] == pat[n] {
      assert pat[n] == s[i..j][k + n];
    }
  }

  /** An occurrence at or after `i` is an occurrence in the suffix from `i`. */
  lemma OccursDrop(s: string, pat: string, i: nat, k: int)
    requires i <= |s| && i <= k
    requires OccursAt(s, pat, k)
    ensures OccursAt(s[i..], pat, k - i)
  {
    assert s[i..][k - i..k - i + |pat|] == s[k..k + |pat|];
  }

  // ---------------------------------------------------------------- split(sep) and replace

  /** `s.split(sep)` for a non-empty separator. */
  function SplitOn(s: string, sep: string): (parts: seq<string>)
    requires |sep| > 0
    ensures |parts| >= 1
    decreases |s|
  {
    var i := Find(s, sep);
    if i < 0 then [s] else [s[..i]] + SplitOn(s[i + |sep|..], sep)
  }

  /** The pieces of a split join back, with the same separator, into the original string. */
  lemma {:induction false} SplitOnJoin(s: string, sep: string)
    requires |sep| > 0
    ensures Join(sep, SplitOn(s, sep)) == s
    decreases |s|
  {
    var i := Find(s, sep);
    if i >= 0 {
      var rest := s[i + |sep|..];
      var tail := SplitOn(rest, sep);
      SplitOnJoin(rest, sep);
      assert SplitOn(s, sep) == [s[..i]] + tail;
      assert Join(sep, [s[..i]] + tail) == s[..i] + sep + Join(sep, tail) by {
        assert ([s[..i]] + tail)[1..] == tail;
      }
      assert s == s[..i] + sep + rest by {
        assert s[i..i + |sep|] == sep;
        assert s == s[..i] + s[i..i + |sep|] + rest;
      }
    }
  }

  /** No piece of a split contains the separator. */
  lemma {:induction false} SplitOnPiecesAvoid(s: string, sep: string, k: nat)
    requires |sep| > 0
    requires k < |SplitOn(s, sep)|
    ensures !Contains(SplitOn(s, sep)[k], sep)
    decreases |s|
  {
    var i := Find(s, sep);
    if i < 0 {
    } else if k == 0 {
      if Contains(s[..i], sep) {
        var j :| 0 <= j <= i && OccursAt(s[0..i], sep, j);
        OccursShift(s, sep, 0, i, j);
      }
    } else {
      SplitOnPiecesAvoid(s[i + |sep|..], sep, k - 1);
    }
  }

  /** The split yields two or more pieces exactly when the separator occurs. */
  lemma SplitOnCount(s: string, sep: string)
    requires |sep| > 0
    ensures |SplitOn(s, sep)| > 1 <==> Contains(s, sep)
  {
  }

  /** The first piece is everything before the first occurrence of the separator. */
  lemma SplitOnFirst(s: string, sep: string)
    requires |sep| > 0
    ensures Contains(s, sep) ==> SplitOn(s, sep)[0] == s[..Find(s, sep)]
    ensures !Contains(s, sep) ==> SplitOn(s, sep) == [s]
  {
  }

  /** No proper prefix of `pat` is also a suffix of it, so two occurrences can never overlap. */
  predicate BorderFree(pat: string) {
    forall n :: 0 < n < |pat| ==> pat[..n] != pat[|pat| - n..]
  }

  /** A pattern whose last character occurs nowhere else in it is border-free. */
  lemma UniqueLastBorderFree(pat: string)
    requires |pat| > 0 && forall i :: 0 <= i < |pat| - 1 ==> pat[i] != pat[|pat| - 1]
    ensures BorderFree(pat)
  {
    forall n | 0 < n < |pat| ensures pat[..n] != pat[|pat| - n..] {
      assert pat[..n][n - 1] == pat[n - 1];
      assert pat[|pat| - n..][n - 1] == pat[|pat| - 1];
    }
  }

  /**
   * What may precede a pattern without producing an earlier occurrence of it: a text without
   * the pattern, followed either by a border-free pattern or after a last character the
   * pattern does not use.
   */
  predicate CleanBefore(x: string, pat: string) {
    !Contains(x, pat) && (BorderFree(pat) || (x != [] && x[|x| - 1] !in pat))
  }

  /** In `x + pat + y` the first occurrence of `pat` is the one right after `x`. */
  lemma FindAtJoin(x: string, pat: string, y: string)
    requires |pat| > 0 && CleanBefore(x, pat)
    ensures Find(x + pat + y, pat) == |x|
  {
    var s := x + pat + y;
    assert s[|x|..|x| + |pat|] == pat;
    assert OccursAt(s, pat, |x|);
    forall j | 0 <= j < |x| ensures !OccursAt(s, pat, j) {
      if j + |pat| <= |x| {
        assert s[j..j + |pat|] == x[j..j + |pat|];
        assert !OccursAt(x, pat, j);
      } else {
        var k := |x| - j;
        var w := s[j..j + |pat|];
        if BorderFree(pat) {
          assert w[k..] == pat[..|pat| - k];
          assert pat[..|pat| - k] != pat[|pat| - (|pat| - k)..];
        } else {
          assert w[k - 1] == x[|x| - 1];
        }
      }
    }
  }

  /** Splitting `x + pat + y` yields `x` and then the pieces of `y`. */
  lemma SplitOnAtJoin(x: string, pat: string, y: string)
    requires |pat| > 0 && CleanBefore(x, pat)
    ensures SplitOn(x + pat + y, pat) == [x] + SplitOn(y, pat)
  {
    FindAtJoin(x, pat, y);
    var s := x + pat + y;
    assert s[..|x|] == x;
    assert s[|x| + |pat|..] == y;
  }

  /**
   * Splitting undoes joining, provided no part contains the separator and none but the last
   * can run into it.
   */
  lemma {:induction false} SplitOnJoinInverse(sep: string, parts: seq<string>)
    requires |sep| > 0 && parts != []
    requires forall k :: 0 <= k < |parts| - 1 ==> CleanBefore(parts[k], sep)
    requires !Contains(parts[|parts| - 1], sep)
    ensures SplitOn(Join(sep, parts), sep) == parts
    decreases |parts|
  {
    if |parts| == 1 {
      assert Join(sep, parts) == parts[0];
    } else {
      var rest := parts[1..];
      assert forall k :: 0 <= k < |rest| - 1 ==> rest[k] == parts[k + 1];
      SplitOnJoinInverse(sep, rest);
      SplitOnAtJoin(parts[0], sep, Join(sep, rest));
      assert parts == [parts[0]] + rest;
    }
  }

  /** Removing a border-free pattern that leads a text without further copies leaves the rest. */
  lemma ReplaceAllLeading(pat: string, q: string)
    requires |pat| > 0 && BorderFree(pat) && !Contains(q, pat)
    ensures ReplaceAll(pat + q, pat, "") == q
  {
    assert !Contains([], pat);
    assert CleanBefore([], pat);
    FindAtJoin([], pat, q);
    assert [] + pat + q == pat + q;
    assert (pat + q)[|pat|..] == q;
    ReplaceAllAbsent(q, pat, "");
  }

  /** `s.replace(pat, rep)`: every occurrence found in one left-to-right scan is replaced. */
  function ReplaceAll(s: string, pat: string, rep: string): string
    requires |pat| > 0
    decreases |s|
  {
    var i := Find(s, pat);
    if i < 0 then s else s[..i] + rep + ReplaceAll(s[i + |pat|..], pat, rep)
  }

  /** Python's identity `s.replace(a, b) == b.join(s.split(a))`: replacing is split-then-join. */
  lemma {:induction false} ReplaceAllIsSplitJoin(s: string, pat: string, rep: string)
    requires |pat| > 0
    ensures ReplaceAll(s, pat, rep) == Join(rep, SplitOn(s, pat))
    decreases |s|
  {
    var i := Find(s, pat);
    if i >= 0 {
      ReplaceAllIsSplitJoin(s[i + |pat|..], pat, rep);
      assert SplitOn(s, pat)[1..] == SplitOn(s[i + |pat|..], pat);
    }
  }

  /** A string without the pattern is left unchanged by `replace`. */
  lemma ReplaceAllAbsent(s: string, pat: string, rep: string)
    requires |pat| > 0 && !Contains(s, pat)
    ensures ReplaceAll(s, pat, rep) == s
  {
  }

  /** Past a first character that does not start the pattern, `find` moves by one. */
  lemma FindStep(s: string, pat: string)
    requires |pat| > 0 && s != [] && !OccursAt(s, pat, 0)
    ensures Find(s, pat) == (if Find(s[1..], pat) < 0 then -1 else Find(s[1..], pat) + 1)
  {
    var i := Find(s, pat);
    var i' := Find(s[1..], pat);
    if i' >= 0 {
      assert s[1..|s|] == s[1..];
      OccursShift(s, pat, 1, |s|, i');
      assert Contains(s, pat);
      if i < i' + 1 {
        assert i >= 1;
        OccursDrop(s, pat, 1, i);
      }
    } else if i >= 0 {
      OccursDrop(s, pat, 1, i);
    }
  }

  /** When `s` does not start with the pattern, `replace` keeps its first character. */
  lemma ReplaceAllStep(s: string, pat: string, rep: string)
    requires |pat| > 0 && s != [] && !OccursAt(s, pat, 0)
    ensures ReplaceAll(s, pat, rep) == [s[0]] + ReplaceAll(s[1..], pat, rep)
  {
    FindStep(s, pat);
    var i' := Find(s[1..], pat);
    if i' >= 0 {
      var i := i' + 1;
      var t := s[1..];
      assert s[i + |pat|..] == t[i' + |pat|..];
      assert s[..i] == [s[0]] + t[..i'];
      var tail := ReplaceAll(s[i + |pat|..], pat, rep);
      assert ReplaceAll(s, pat, rep) == s[..i] + rep + tail;
      assert ReplaceAll(t, pat, rep) == t[..i'] + rep + tail;
    }
  }

  /** When `s` starts with the pattern, `replace` emits the replacement and continues after it. */
  lemma ReplaceAllHead(s: string, pat: string, rep: string)
    requires |pat| > 0 && OccursAt(s, pat, 0)
    ensures ReplaceAll(s, pat, rep) == rep + ReplaceAll(s[|pat|..], pat, rep)
  {
    assert Find(s, pat) == 0;
  }

  // ---------------------------------------------------------------- strip

  /** `s.lstrip()`. */
  function LStrip(s: string): (r: string)
    ensures |r| <= |s| && r == s[|s| - |r|..]
    ensures r == [] || !IsSpace(r[0])
    decreases |s|
  {
    if s != [] && IsSpace(s[0]) then LStrip(s[1..]) else s
  }

  /** `lstrip` cuts off whitespace only. */
  lemma {:induction false} LStripCut(s: string)
    ensures AllSpace(s[..|s| - |LStrip(s)|])
    decreases |s|
  {
    if s != [] && IsSpace(s[0]) {
      LStripCut(s[1..]);
      var n := |s| - |LStrip(s)|;
      forall k | 0 <= k < n ensures IsSpace(s[..n][k]) {
        if k > 0 {
          assert s[..n][k] == s[1..][..n - 1][k - 1];
        }
      }
    }
  }

  /** `s.rstrip()`. */
  function RStrip(s: string): (r: string)
    ensures |r| <= |s| && r == s[..|r|]
    ensures r == [] || !IsSpace(r[|r| - 1])
    decreases |s|
  {
    if s != [] && IsSpace(s[|s| - 1]) then RStrip(s[..|s| - 1]) else s
  }

  /** `rstrip` cuts off whitespace only. */
  lemma {:induction false} RStripCut(s: string)
    ensures AllSpace(s[|RStrip(s)|..])
    decreases |s|
  {
    if s != [] && IsSpace(s[|s| - 1]) {
      var init := s[..|s| - 1];
      RStripCut(init);
      var n := |RStrip(s)|;
      forall k | 0 <= k < |s| - n ensures IsSpace(s[n..][k]) {
        if k < |s| - n - 1 {
          assert s[n..][k] == init[n..][k];
        }
      }
    }
  }

  /** `s.strip()`: `lstrip` then `rstrip`; its shape is stated by `StripShape`. */
  function Strip(s: string): (r: string)
    ensures IsStripped(r)
  {
    RStrip(LStrip(s))
  }

  /** What `strip` leaves is a substring of `s` with only whitespace cut off either end. */
  lemma StripShape(s: string)
    ensures var r := Strip(s);
      exists i :: 0 <= i <= |s| - |r| && r == s[i..i + |r|] && AllSpace(s[..i]) && AllSpace(s[i + |r|..])
  {
    var t := LStrip(s);
    var r := RStrip(t);
    var i := |s| - |t|;
    LStripCut(s);
    RStripCut(t);
    assert r == s[i..i + |r|];
    assert s[i + |r|..] == t[|r|..];
  }

  /** Stripping a string that has no whitespace at its ends changes nothing. */
  lemma StripStripped(s: string)
    requires IsStripped(s)
    ensures Strip(s) == s
  {
  }

  /** Whitespace around a stripped core is exactly what `strip` removes. */
  lemma {:induction false} StripAround(a: string, core: string, b: string)
    requires AllSpace(a) && AllSpace(b) && IsStripped(core)
    ensures Strip(a + core + b) == core
  {
    var t := core + b;
    assert a + core + b == a + t;
    if core == [] {
      assert t == b;
      LStripSpaces(a + b, []);
      assert a + b + [] == a + b;
    } else {
      assert t[0] == core[0];
      LStripSpaces(a, t);
      RStripSpaces(core, b);
    }
  }

  lemma {:induction false} LStripSpaces(a: string, t: string)
    requires AllSpace(a) && (t == [] || !IsSpace(t[0]))
    ensures LStrip(a + t) == t
    decreases |a|
  {
    if a != [] {
      assert (a + t)[1..] == a[1..] + t;
      LStripSpaces(a[1..], t);
    }
  }

  lemma {:induction false} RStripSpaces(t: string, b: string)
    requires AllSpace(b) && (t == [] || !IsSpace(t[|t| - 1]))
    ensures RStrip(t + b) == t
    decreases |b|
  {
    if b != [] {
      assert (t + b)[..|t + b| - 1] == t + b[..|b| - 1];
      RStripSpaces(t, b[..|b| - 1]);
    } else {
      assert t + b == t;
    }
  }

  /** Stripping never introduces a pattern the string did not contain. */
  lemma StripAvoids(s: string, pat: string)
    requires !Contains(s, pat)
    ensures !Contains(Strip(s), pat)
  {
    var t := LStrip(s);
    var r := RStrip(t);
    var i := |s| - |t|;
    assert r == s[i..i + |r|] by {
      assert t == s[i..] && r == t[..|r|];
    }
    SubstringAvoids(s, pat, i, i + |r|);
    assert Strip(s) == r;
  }

  // ---------------------------------------------------------------- split() on whitespace

  /** Length of the run of non-whitespace characters that starts `s`. */
  function WordLen(s: string): (n: nat)
    ensures n <= |s| && NoSpace(s[..n]) && (n < |s| ==> IsSpace(s[n]))
    decreases |s|
  {
    if s == [] || IsSpace(s[0]) then 0 else 1 + WordLen(s[1..])
  }

  /** `s.split()`: the maximal runs of non-whitespace, in order. */
  function Words(s: string): (ws: seq<string>)
    ensures forall k :: 0 <= k < |ws| ==> ws[k] != [] && NoSpace(ws[k])
    decreases |s|
  {
    if s == [] then []
    else if IsSpace(s[0]) then Words(s[1..])
    else var n := WordLen(s); [s[..n]] + Words(s[n..])
  }

  lemma {:induction false} WordLenBeforeSpace(a: string, c: char, b: string)
    requires IsSpace(c)
    ensures WordLen(a + [c] + b) == WordLen(a)
    decreases |a|
  {
    if a != [] && !IsSpace(a[0]) {
      assert (a + [c] + b)[1..] == a[1..] + [c] + b;
      WordLenBeforeSpace(a[1..], c, b);
    }
  }

  /**
   * A whitespace character always ends a word: the words of `a + c + b` are the words of `a`
   * followed by the words of `b`.
   */
  lemma {:induction false} WordsAcrossSpace(a: string, c: char, b: string)
    requires IsSpace(c)
    ensures Words(a + [c] + b) == Words(a) + Words(b)
    decreases |a|
  {
    var s := a + [c] + b;
    if a == [] {
      assert s[1..] == b;
    } else if IsSpace(a[0]) {
      assert s[1..] == a[1..] + [c] + b;
      WordsAcrossSpace(a[1..], c, b);
    } else {
      var n := WordLen(s);
      WordLenBeforeSpace(a, c, b);
      assert s[..n] == a[..n];
      assert s[n..] == a[n..] + [c] + b;
      WordsAcrossSpace(a[n..], c, b);
    }
  }

  // ---------------------------------------------------------------- splitlines

  predicate NoLineBreak(s: string) { forall i :: 0 <= i < |s| ==> !IsLineBreak(s[i]) }

  function LineLen(s: string): (n: nat)
    ensures n <= |s| && NoLineBreak(s[..n]) && (n < |s| ==> IsLineBreak(s[n]))
    decreases |s|
  {
    if s == [] || IsLineBreak(s[0]) then 0 else 1 + LineLen(s[1..])
  }

  /** `s.splitlines()`: the lines without their terminators; no empty line after a final break. */
  function SplitLines(s: string): (lines: seq<string>)
    ensures forall k :: 0 <= k < |lines| ==> NoLineBreak(lines[k])
    decreases |s|
  {
    if s == [] then []
    else
      var n := LineLen(s);
      if n == |s| then [s]
      else
        var skip := if s[n] == '\r' && n + 1 < |s| && s[n + 1] == '\n' then 2 else 1;
        [s[..n]] + SplitLines(s[n + skip..])
  }

  // ---------------------------------------------------------------- strip each, drop blanks

  /** `[t.strip() for t in ss if t.strip()]`, written from the back as the loops that build it are. */
  function StrippedNonEmpty(ss: seq<string>): (r: seq<string>)
    ensures |r| <= |ss|
    ensures forall k :: 0 <= k < |r| ==> r[k] != [] && IsStripped(r[k])
    decreases |ss|
  {
    if ss == [] then []
    else
      var t := Strip(ss[|ss| - 1]);
      StrippedNonEmpty(ss[..|ss| - 1]) + (if t == [] then [] else [t])
  }

  /** Every kept piece is the stripped form of one of the inputs: the `j`-th. */
  lemma {:induction false} StrippedNonEmptySources(ss: seq<string>, k: nat) returns (j: nat)
    requires k < |StrippedNonEmpty(ss)|
    ensures j < |ss| && StrippedNonEmpty(ss)[k] == Strip(ss[j])
    decreases |ss|
  {
    var init := ss[..|ss| - 1];
    var last := Strip(ss[|ss| - 1]);
    var front := StrippedNonEmpty(init);
    var r := StrippedNonEmpty(ss);
    assert r == front + (if last == [] then [] else [last]);
    PickPiece(front, last, r, k);
    if k < |front| {
      j := StrippedNonEmptySources(init, k);
      assert init[j] == ss[j];
    } else {
      j := |ss| - 1;
    }
  }

  lemma PickPiece(front: seq<string>, last: string, r: seq<string>, k: nat)
    requires r == front + (if last == [] then [] else [last]) && k < |r|
    ensures k < |front| ==> r[k] == front[k]
    ensures k >= |front| ==> r[k] == last
  {
  }

  /** Filtering keeps the input order: the pieces of a concatenation are those of its parts, in turn. */
  lemma {:induction false} StrippedNonEmptyConcat(xs: seq<string>, ys: seq<string>)
    ensures StrippedNonEmpty(xs + ys) == StrippedNonEmpty(xs) + StrippedNonEmpty(ys)
    decreases |ys|
  {
    if ys == [] {
      assert xs + ys == xs;
    } else {
      var n := |ys| - 1;
      assert (xs + ys)[..|xs + ys| - 1] == xs + ys[..n];
      assert (xs + ys)[|xs + ys| - 1] == ys[n];
      StrippedNonEmptyConcat(xs, ys[..n]);
    }
  }

  /** Only the blank inputs are lost. */
  lemma {:induction false} StrippedNonEmptyLength(ss: seq<string>)
    ensures |StrippedNonEmpty(ss)| == |ss| - BlankCount(ss)
    decreases |ss|
  {
    if ss != [] {
      StrippedNonEmptyLength(ss[..|ss| - 1]);
    }
  }

  /** Inputs that are already stripped and non-blank are all kept, unchanged and in order. */
  lemma {:induction false} StrippedNonEmptyKeeps(ss: seq<string>)
    requires forall k :: 0 <= k < |ss| ==> ss[k] != [] && IsStripped(ss[k])
    ensures StrippedNonEmpty(ss) == ss
    decreases |ss|
  {
    if ss != [] {
      var init := ss[..|ss| - 1];
      var last := ss[|ss| - 1];
      forall k | 0 <= k < |init| ensures init[k] != [] && IsStripped(init[k]) {
        assert init[k] == ss[k];
      }
      StrippedNonEmptyKeeps(init);
      StripStripped(last);
      assert StrippedNonEmpty(ss) == init + [last];
      assert init + [last] == ss;
    }
  }

  /** The number of inputs that are empty or all whitespace. */
  function BlankCount(ss: seq<string>): nat
    decreases |ss|
  {
    if ss == [] then 0 else BlankCount(ss[..|ss| - 1]) + (if Strip(ss[|ss| - 1]) == [] then 1 else 0)
  }

  // ---------------------------------------------------------------- str(int)

  function DigitChar(d: nat): char
    requires d < 10
  {
    "0123456789"[d]
  }

  /** `str(n)` for a non-negative integer: its decimal digits, without leading zeros. */
  function NatToString(n: nat): (r: string)
    ensures |r| >= 1 && forall i :: 0 <= i < |r| ==> '0' <= r[i] <= '9'
    decreases n
  {
    if n < 10 then [DigitChar(n)] else NatToString(n / 10) + [DigitChar(n % 10)]
  }

  /** Reads a string of decimal digits back as a number (the inverse of `NatToString`). */
  function ParseDigits(s: string): nat
    requires forall i :: 0 <= i < |s| ==> '0' <= s[i] <= '9'
    decreases |s|
  {
    if s == [] then 0 else ParseDigits(s[..|s| - 1]) * 10 + (s[|s| - 1] as int - '0' as int)
  }

  /** Decimal rendering round-trips, so distinct numbers render differently. */
  lemma {:induction false} NatToStringRoundTrip(n: nat)
    ensures ParseDigits(NatToString(n)) == n
    decreases n
  {
    if n >= 10 {
      NatToStringRoundTrip(n / 10);
      var s := NatToString(n);
      assert s[..|s| - 1] == NatToString(n / 10);
    }
  }

  lemma NatToStringInjective(m: nat, n: nat)
    ensures NatToString(m) == NatToString(n) ==> m == n
  {
    NatToStringRoundTrip(m);
    NatToStringRoundTrip(n);
  }
}
