/**
 * The Perusall text cleaner: pull the quoted values of `'str':` entries out of an export, drop
 * the blank ones, join them with spaces, collapse every whitespace run to one space, strip,
 * and start a new paragraph after every ". " that is followed by a capital letter.
 */
module PerusallClean {
  import opened Results
  import opened Text

  // ---------------------------------------------------------------- the regex 'str':\s*'([^']*)'

  const StrKey := "'str':"

  /** The end of the whitespace run starting at `i`. */
  function SkipSpaces(s: string, i: nat): (k: nat)
    requires i <= |s|
    ensures i <= k <= |s| && (k < |s| ==> !IsSpace(s[k]))
    ensures forall j :: i <= j < k ==> IsSpace(s[j])
    decreases |s| - i
  {
    if i < |s| && IsSpace(s[i]) then SkipSpaces(s, i + 1) else i
  }

  /** The first quote at or after `i`, or `|s|` when there is none. */
  function QuoteFrom(s: string, i: nat): (m: nat)
    requires i <= |s|
    ensures i <= m <= |s| && (m < |s| ==> s[m] == '\'')
    ensures forall j :: i <= j < m ==> s[j] != '\''
    decreases |s| - i
  {
    if i < |s| && s[i] != '\'' then QuoteFrom(s, i + 1) else i
  }

  /**
   * A match starting at `i`: the key, any whitespace, a quote, the run of non-quotes and the
   * closing quote. The result is the captured span; the greedy run can only stop at a quote,
   * so without a closing quote there is no match here.
   */
  function MatchAt(s: string, i: nat): (r: Option<(nat, nat)>)
    requires i <= |s|
    ensures r.Some? ==> i + |StrKey| < r.value.0 <= r.value.1 < |s|
  {
    if !OccursAt(s, StrKey, i) then None
    else
      var k := SkipSpaces(s, i + |StrKey|);
      if k < |s| && s[k] == '\'' then
        var m := QuoteFrom(s, k + 1);
        if m < |s| then Some((k + 1, m)) else None
      else None
  }

  /** A match found by the scan: where it starts, and the bounds of its captured group. */
  datatype Hit = Hit(at: nat, lo: nat, hi: nat)

  /**
   * The matches `re.findall` reports from position `i` on: each is a match at its start, they
   * come in order, and after a match the scan resumes past its closing quote.
   */
  function Spans(s: string, i: nat): (r: seq<Hit>)
    requires i <= |s|
    ensures forall k :: 0 <= k < |r| ==> i <= r[k].at < |s| && MatchAt(s, r[k].at) == Some((r[k].lo, r[k].hi))
    ensures forall k :: 0 <= k < |r| ==> r[k].lo <= r[k].hi < |s|
    ensures forall k :: 0 <= k < |r| - 1 ==> r[k].hi < r[k + 1].at
    decreases |s| - i
  {
    if i == |s| then []
    else match MatchAt(s, i)
      case Some(span) => [Hit(i, span.0, span.1)] + Spans(s, span.1 + 1)
      case None => Spans(s, i + 1)
  }

  /** `re.findall(pattern, content)`: the captured text of each match. */
  function Captures(s: string): (cs: seq<string>)
    ensures |cs| == |Spans(s, 0)|
  {
    var sp := Spans(s, 0);
    seq(|sp|, k requires 0 <= k < |sp| => s[sp[k].lo..sp[k].hi])
  }

  /** A span found by `MatchAt` is a quoted run without quotes, right after the key and some whitespace. */
  lemma MatchAtShape(s: string, i: nat, a: nat, b: nat)
    requires i <= |s| && MatchAt(s, i) == Some((a, b))
    ensures i + |StrKey| < a <= b < |s|
    ensures OccursAt(s, StrKey, i)
    ensures AllSpace(s[i + |StrKey|..a - 1])
    ensures s[a - 1] == '\'' && s[b] == '\''
    ensures '\'' !in s[a..b]
  {
    var k := SkipSpaces(s, i + |StrKey|);
    assert a == k + 1;
    var gap := s[i + |StrKey|..a - 1];
    forall j | 0 <= j < |gap| ensures IsSpace(gap[j]) {
      assert gap[j] == s[i + |StrKey| + j];
    }
    var run := s[a..b];
    forall j | 0 <= j < |run| ensures run[j] != '\'' {
      assert run[j] == s[a + j];
    }
  }

  /**
   * Each capture was written right after the key, any whitespace and a quote, and runs up to
   * the next quote, so it contains none.
   */
  lemma CapturesQuoted(s: string, k: nat)
    requires k < |Captures(s)|
    ensures var h := Spans(s, 0)[k];
      && Captures(s)[k] == s[h.lo..h.hi]
      && OccursAt(s, StrKey, h.at) && AllSpace(s[h.at + |StrKey|..h.lo - 1])
      && s[h.lo - 1] == '\'' && s[h.hi] == '\''
      && '\'' !in Captures(s)[k]
  {
    var h := Spans(s, 0)[k];
    assert Captures(s)[k] == s[h.lo..h.hi];
    MatchAtShape(s, h.at, h.lo, h.hi);
  }

  // ---------------------------------------------------------------- filtering the pieces

  /** The blank values the filter names besides the empty string. */
  const Blanks: seq<string> := [" ", "", "\n", "\t"]

  /** After stripping, a non-empty piece is never one of the listed blanks: that test adds nothing. */
  lemma BlankTestRedundant(t: string)
    requires t != "" && IsStripped(t)
    ensures t !in Blanks
  {
    assert IsSpace(' ') && IsSpace('\n') && IsSpace('\t');
  }

  /** The filter loop: keep each match stripped, when what is left is not blank. */
  method FilterPieces(matches: seq<string>) returns (pieces: seq<string>)
    ensures pieces == StrippedNonEmpty(matches)
  {
    pieces := [];
    for k := 0 to |matches|
      invariant pieces == StrippedNonEmpty(matches[..k])
    {
      var text := Strip(matches[k]);
      assert matches[..k + 1][..k] == matches[..k] && matches[..k + 1][k] == matches[k];
      if text != "" && |text| > 0 && text !in Blanks {
        pieces := pieces + [text];
      } else if text != "" {
        BlankTestRedundant(text);
        assert false;
      }
    }
    assert matches[..|matches|] == matches;
  }

  // ---------------------------------------------------------------- re.sub(r'\s+', ' ', ...)

  /** Every maximal whitespace run becomes one space. */
  function Collapse(s: string): (r: string)
    decreases |s|
  {
    if s == [] then []
    else if IsSpace(s[0]) then [' '] + Collapse(s[SkipSpaces(s, 0)..])
    else [s[0]] + Collapse(s[1..])
  }

  /** No two whitespace characters side by side. */
  predicate SingleSpaced(s: string) {
    forall j :: 0 <= j < |s| - 1 ==> !(IsSpace(s[j]) && IsSpace(s[j + 1]))
  }

  /** The first character survives collapsing, or turns into the space that replaces its run. */
  lemma CollapseFirst(s: string)
    requires s != []
    ensures Collapse(s) != [] && Collapse(s)[0] == if IsSpace(s[0]) then ' ' else s[0]
  {
  }

  /** A collapsed string has no adjacent whitespace. */
  lemma {:induction false} CollapseSingleSpaced(s: string)
    ensures SingleSpaced(Collapse(s))
    decreases |s|
  {
    if s != [] {
      var rest := if IsSpace(s[0]) then s[SkipSpaces(s, 0)..] else s[1..];
      CollapseSingleSpaced(rest);
      if IsSpace(s[0]) && rest != [] {
        CollapseFirst(rest);
      }
    }
  }

  /** A string of whitespace has no words. */
  lemma {:induction false} WordsOfSpaces(s: string)
    requires AllSpace(s)
    ensures Words(s) == []
    decreases |s|
  {
    if s != [] {
      WordsOfSpaces(s[1..]);
    }
  }

  /** Whitespace before a string adds no words. */
  lemma {:induction false} WordsAfterSpaces(a: string, t: string)
    requires AllSpace(a)
    ensures Words(a + t) == Words(t)
    decreases |a|
  {
    if a != [] {
      assert (a + t)[0] == a[0] && IsSpace(a[0]);
      assert (a + t)[1..] == a[1..] + t;
      assert AllSpace(a[1..]) by {
        forall j | 0 <= j < |a[1..]| ensures IsSpace(a[1..][j]) {
          assert a[1..][j] == a[j + 1];
        }
      }
      WordsAfterSpaces(a[1..], t);
    } else {
      assert a + t == t;
    }
  }

  /** Whitespace after a string adds no words. */
  lemma WordsBeforeSpaces(t: string, b: string)
    requires AllSpace(b)
    ensures Words(t + b) == Words(t)
  {
    if b != [] {
      assert IsSpace(b[0]);
      assert AllSpace(b[1..]) by {
        forall j | 0 <= j < |b[1..]| ensures IsSpace(b[1..][j]) {
          assert b[1..][j] == b[j + 1];
        }
      }
      assert t + b == t + [b[0]] + b[1..];
      WordsAcrossSpace(t, b[0], b[1..]);
      WordsOfSpaces(b[1..]);
    } else {
      assert t + b == t;
    }
  }

  /** Collapsing keeps the words, in order. */
  lemma {:induction false} CollapseWords(s: string)
    ensures Words(Collapse(s)) == Words(s)
    decreases |s|
  {
    if s != [] {
      if IsSpace(s[0]) {
        CollapseWords(s[SkipSpaces(s, 0)..]);
        CollapseRunWords(s);
      } else {
        CollapseWords(s[1..]);
        CollapseCharWords(s);
      }
    }
  }

  /** A whitespace run and the single space replacing it both separate the same words. */
  lemma CollapseRunWords(s: string)
    requires s != [] && IsSpace(s[0])
    requires Words(Collapse(s[SkipSpaces(s, 0)..])) == Words(s[SkipSpaces(s, 0)..])
    ensures Words(Collapse(s)) == Words(s)
  {
    var n := SkipSpaces(s, 0);
    var rest := Collapse(s[n..]);
    assert Collapse(s) == [' '] + rest;
    SpaceWords(rest);
    SpacesWords(s, n);
  }

  /** One leading space adds no words. */
  lemma SpaceWords(t: string)
    ensures Words([' '] + t) == Words(t)
  {
    assert ([' '] + t)[1..] == t;
    assert IsSpace(' ');
  }

  /** A leading run of whitespace adds no words. */
  lemma SpacesWords(s: string, n: nat)
    requires n <= |s| && forall j :: 0 <= j < n ==> IsSpace(s[j])
    ensures Words(s) == Words(s[n..])
  {
    var head := s[..n];
    assert AllSpace(head) by {
      forall j | 0 <= j < |head| ensures IsSpace(head[j]) {
        assert head[j] == s[j];
      }
    }
    assert s == head + s[n..];
    WordsAfterSpaces(head, s[n..]);
  }

  /** A character kept by collapsing joins the same word on both sides. */
  lemma CollapseCharWords(s: string)
    requires s != [] && !IsSpace(s[0])
    requires Words(Collapse(s[1..])) == Words(s[1..])
    ensures Words(Collapse(s)) == Words(s)
  {
    if s[1..] != [] {
      CollapseFirst(s[1..]);
    }
    assert Collapse(s) == [s[0]] + Collapse(s[1..]);
    assert s == [s[0]] + s[1..];
    WordsPrefix(s[0], s[1..], Collapse(s[1..]));
  }

  /** What follows a non-space character matters only through its words and whether it starts with a space. */
  lemma {:induction false} WordsPrefix(c: char, t: string, u: string)
    requires !IsSpace(c) && Words(t) == Words(u)
    requires (t == []) == (u == []) && (t != [] ==> IsSpace(t[0]) == IsSpace(u[0]))
    ensures Words([c] + t) == Words([c] + u)
  {
    if t != [] && IsSpace(t[0]) {
      assert [c] + t == [c] + [t[0]] + t[1..];
      assert [c] + u == [c] + [u[0]] + u[1..];
      WordsAcrossSpace([c], t[0], t[1..]);
      WordsAcrossSpace([c], u[0], u[1..]);
      assert Words(t) == Words(t[1..]) && Words(u) == Words(u[1..]);
    } else if t != [] {
      WordsGlue(c, t, u);
    } else {
      assert [c] + t == [c] + u;
    }
  }

  lemma WordsGlue(c: char, t: string, u: string)
    requires !IsSpace(c) && t != [] && u != [] && !IsSpace(t[0]) && !IsSpace(u[0])
    requires Words(t) == Words(u)
    ensures Words([c] + t) == Words([c] + u)
  {
    var n := WordLen(t);
    var m := WordLen(u);
    assert Words(t) == [t[..n]] + Words(t[n..]);
    assert Words(u) == [u[..m]] + Words(u[m..]);
    assert Words(t)[0] == t[..n] && Words(u)[0] == u[..m];
    assert Words(t)[1..] == Words(t[n..]) && Words(u)[1..] == Words(u[m..]);
    WordLenCons(c, t);
    WordLenCons(c, u);
    var s1 := [c] + t;
    var s2 := [c] + u;
    assert s1[..n + 1] == [c] + t[..n];
    assert s2[..m + 1] == [c] + u[..m];
    assert s1[n + 1..] == t[n..];
    assert s2[m + 1..] == u[m..];
  }

  lemma WordLenCons(c: char, t: string)
    requires !IsSpace(c)
    ensures WordLen([c] + t) == 1 + WordLen(t)
  {
    assert ([c] + t)[1..] == t;
  }

  // ---------------------------------------------------------------- re.sub(r'\. ([A-Z])', r'.\n\n\1', ...)

  /** A full stop, a space and a capital letter start at `j`. */
  predicate GapAt(s: string, j: nat) {
    j + 2 < |s| && s[j] == '.' && s[j + 1] == ' ' && IsUpper(s[j + 2])
  }

  /** Replace each ". X" (X a capital) by ".\n\nX", scanning left to right. */
  function Paragraphs(s: string): (r: string)
    ensures |r| >= |s|
    ensures s != [] ==> r != [] && r[0] == s[0]
    decreases |s|
  {
    if s == [] then []
    else if GapAt(s, 0) then ".\n\n" + [s[2]] + Paragraphs(s[3..])
    else [s[0]] + Paragraphs(s[1..])
  }

  /** Afterwards no ". " is followed by a capital letter. */
  lemma {:induction false} ParagraphsCloseGaps(s: string)
    ensures forall j :: 0 <= j < |Paragraphs(s)| ==> !GapAt(Paragraphs(s), j)
    decreases |s|
  {
    var r := Paragraphs(s);
    if s != [] {
      if GapAt(s, 0) {
        var rest := Paragraphs(s[3..]);
        ParagraphsCloseGaps(s[3..]);
        assert r == ".\n\n" + [s[2]] + rest;
        forall j | 0 <= j < |r| ensures !GapAt(r, j) {
          if j >= 4 {
            assert GapAt(r, j) ==> GapAt(rest, j - 4);
          }
        }
      } else {
        var rest := Paragraphs(s[1..]);
        ParagraphsCloseGaps(s[1..]);
        assert r == [s[0]] + rest;
        forall j | 1 <= j < |r| ensures !GapAt(r, j) {
          assert GapAt(r, j) ==> GapAt(rest, j - 1);
        }
        FirstNotGap(s);
      }
    }
  }

  /** Without a gap at the front, none appears there after the rewrite. */
  lemma FirstNotGap(s: string)
    requires s != [] && !GapAt(s, 0)
    ensures !GapAt(Paragraphs(s), 0)
  {
    var r := Paragraphs(s);
    var rest := Paragraphs(s[1..]);
    assert r == [s[0]] + rest;
    if |s| >= 2 && s[0] == '.' && s[1] == ' ' {
      var t := s[1..];
      assert t[0] == ' ' && !GapAt(t, 0);
      assert rest == [' '] + Paragraphs(t[1..]);
      if |s| >= 3 {
        assert Paragraphs(t[1..])[0] == s[2];
        assert r[2] == s[2] && !IsUpper(s[2]);
      } else {
        assert t[1..] == [];
        assert |r| == 2;
      }
    } else if |s| >= 2 {
      assert rest[0] == s[1];
    } else {
      assert s[1..] == [];
      assert |r| == 1;
    }
  }

  /** A string without such a gap is left as it is. */
  lemma {:induction false} ParagraphsIdentity(s: string)
    requires forall j :: 0 <= j < |s| ==> !GapAt(s, j)
    ensures Paragraphs(s) == s
    decreases |s|
  {
    if s != [] {
      assert !GapAt(s, 0);
      forall j | 0 <= j < |s[1..]| ensures !GapAt(s[1..], j) {
        assert GapAt(s[1..], j) ==> GapAt(s, j + 1);
      }
      ParagraphsIdentity(s[1..]);
    }
  }

  /** A full stop, two line breaks and a capital letter start at `j`: what the rewrite produces. */
  predicate BreakAt(s: string, j: nat) {
    j + 3 < |s| && s[j] == '.' && s[j + 1] == '\n' && s[j + 2] == '\n' && IsUpper(s[j + 3])
  }

  /** The reverse rewrite: each ".\n\nX" (X a capital) back to ". X", scanning left to right. */
  function Unbreak(s: string): (r: string)
    ensures |r| <= |s|
    decreases |s|
  {
    if s == [] then []
    else if BreakAt(s, 0) then ". " + [s[3]] + Unbreak(s[4..])
    else [s[0]] + Unbreak(s[1..])
  }

  /** Without a gap at the front, the rewrite puts a break there only where the input had one. */
  lemma FrontBreak(s: string)
    requires s != [] && !GapAt(s, 0) && !BreakAt(s, 0)
    ensures !BreakAt(Paragraphs(s), 0)
  {
    var r := Paragraphs(s);
    assert r == [s[0]] + Paragraphs(s[1..]);
    if s[0] == '.' && |s| >= 2 && s[1] == '\n' {
      var t := s[1..];
      assert !GapAt(t, 0);
      assert Paragraphs(t) == ['\n'] + Paragraphs(t[1..]);
      if |s| >= 3 && s[2] == '\n' {
        var u := t[1..];
        assert u[0] == '\n' && !GapAt(u, 0);
        assert Paragraphs(u) == ['\n'] + Paragraphs(u[1..]);
        if |s| >= 4 {
          assert Paragraphs(u[1..])[0] == s[3];
          assert r[3] == s[3];
        } else {
          assert u[1..] == [];
          assert |r| == 3;
        }
      } else if |s| >= 3 {
        assert Paragraphs(t[1..])[0] == s[2];
        assert r[2] == s[2];
      } else {
        assert t[1..] == [];
        assert |r| == 2;
      }
    }
  }

  /**
   * Nothing but the inserted breaks changes: undoing them gives the input back, for any input
   * that had no ".\n\nX" of its own.
   */
  lemma {:induction false} ParagraphsUndone(s: string)
    requires forall j :: 0 <= j < |s| ==> !BreakAt(s, j)
    ensures Unbreak(Paragraphs(s)) == s
    decreases |s|
  {
    if s != [] {
      if GapAt(s, 0) {
        var t := s[3..];
        forall j | 0 <= j < |t| ensures !BreakAt(t, j) {
          assert BreakAt(t, j) ==> BreakAt(s, j + 3);
        }
        ParagraphsUndone(t);
        var r := Paragraphs(s);
        assert r == ".\n\n" + [s[2]] + Paragraphs(t);
        assert BreakAt(r, 0) && r[4..] == Paragraphs(t);
        assert s == ". " + [s[2]] + t;
      } else {
        var t := s[1..];
        forall j | 0 <= j < |t| ensures !BreakAt(t, j) {
          assert BreakAt(t, j) ==> BreakAt(s, j + 1);
        }
        ParagraphsUndone(t);
        assert !BreakAt(s, 0);
        FrontBreak(s);
        var r := Paragraphs(s);
        assert r == [s[0]] + Paragraphs(t);
        assert r[1..] == Paragraphs(t);
      }
    }
  }

  /** The two line breaks that replace a space separate words just as the space did. */
  lemma BreakWords(q: string, t: string)
    ensures Words(q + "\n\n" + t) == Words(q + " " + t)
  {
    assert IsSpace('\n') && IsSpace(' ');
    assert q + "\n\n" + t == q + ['\n'] + (['\n'] + t);
    WordsAcrossSpace(q, '\n', ['\n'] + t);
    assert (['\n'] + t)[1..] == t;
    assert Words(['\n'] + t) == Words(t);
    assert q + " " + t == q + [' '] + t;
    WordsAcrossSpace(q, ' ', t);
  }

  /** Only a space turns into line breaks: the words are unchanged, after any prefix. */
  lemma {:induction false} ParagraphsWords(p: string, s: string)
    ensures Words(p + Paragraphs(s)) == Words(p + s)
    decreases |s|
  {
    if s != [] {
      if GapAt(s, 0) {
        var done := Paragraphs(s[3..]);
        ParagraphsWords(p + ".\n\n" + [s[2]], s[3..]);
        GapStep(p, s[2], done, s[3..]);
        assert Paragraphs(s) == ".\n\n" + [s[2]] + done;
        GapSplit(s);
      } else {
        var done := Paragraphs(s[1..]);
        ParagraphsWords(p + [s[0]], s[1..]);
        CharStep(p, s[0], done, s[1..]);
        assert Paragraphs(s) == [s[0]] + done;
        assert s == [s[0]] + s[1..];
      }
    }
  }

  lemma CharStep(p: string, c: char, done: string, tail: string)
    requires Words(p + [c] + done) == Words(p + [c] + tail)
    ensures Words(p + ([c] + done)) == Words(p + ([c] + tail))
  {
    assert p + ([c] + done) == p + [c] + done;
    assert p + ([c] + tail) == p + [c] + tail;
  }

  /** One rewrite step at a gap, given that the rest of the rewrite keeps the words. */
  lemma GapSplit(s: string)
    requires GapAt(s, 0)
    ensures s == ". " + [s[2]] + s[3..]
  {
  }

  lemma GapStep(p: string, x: char, done: string, tail: string)
    requires Words(p + ".\n\n" + [x] + done) == Words(p + ".\n\n" + [x] + tail)
    ensures Words(p + (".\n\n" + [x] + done)) == Words(p + (". " + [x] + tail))
  {
    var q := p + ".";
    assert p + (".\n\n" + [x] + done) == p + ".\n\n" + [x] + done;
    assert p + ".\n\n" + [x] + tail == q + "\n\n" + ([x] + tail);
    assert p + (". " + [x] + tail) == q + " " + ([x] + tail);
    BreakWords(q, [x] + tail);
  }

  // ---------------------------------------------------------------- the whole pipeline

  /** Join the kept pieces with spaces, collapse whitespace runs and strip. */
  function Spaced(pieces: seq<string>): string {
    Strip(Collapse(Join(" ", pieces)))
  }

  /** The cleaned text for an export's contents. */
  function CleanText(content: string): string {
    Paragraphs(Spaced(StrippedNonEmpty(Captures(content))))
  }

  /**
   * Before the paragraph breaks the text has no whitespace at either end, no two whitespace
   * characters side by side, and the words of the joined pieces in order.
   */
  lemma SpacedShape(pieces: seq<string>)
    ensures IsStripped(Spaced(pieces)) && SingleSpaced(Spaced(pieces))
    ensures Words(Spaced(pieces)) == Words(Join(" ", pieces))
  {
    var c := Collapse(Join(" ", pieces));
    CollapseSingleSpaced(Join(" ", pieces));
    CollapseWords(Join(" ", pieces));
    StripSingleSpaced(c);
    StripWords(c);
  }

  /** Stripping cuts a piece out of the middle, so it keeps a string single-spaced. */
  lemma StripSingleSpaced(c: string)
    requires SingleSpaced(c)
    ensures SingleSpaced(Strip(c))
  {
    var r := Strip(c);
    var i := |c| - |LStrip(c)|;
    assert r == c[i..i + |r|];
    SliceSingleSpaced(c, i, i + |r|);
  }

  lemma SliceSingleSpaced(c: string, lo: nat, hi: nat)
    requires SingleSpaced(c) && lo <= hi <= |c|
    ensures SingleSpaced(c[lo..hi])
  {
    var r := c[lo..hi];
    forall j | 0 <= j < |r| - 1 ensures !(IsSpace(r[j]) && IsSpace(r[j + 1])) {
      assert r[j] == c[lo + j] && r[j + 1] == c[lo + j + 1];
    }
  }

  /** Stripping removes only whitespace, so the words stay. */
  lemma StripWords(c: string)
    ensures Words(Strip(c)) == Words(c)
  {
    var t := LStrip(c);
    var r := RStrip(t);
    LStripCut(c);
    RStripCut(t);
    var front, back := c[..|c| - |t|], t[|r|..];
    StripParts(c, t, r);
    TrimWords(front, r, back);
  }

  /** A string is what `lstrip` cut off, what `strip` kept and what `rstrip` cut off. */
  lemma StripParts(c: string, t: string, r: string)
    requires |t| <= |c| && t == c[|c| - |t|..] && |r| <= |t| && r == t[..|r|]
    ensures c == c[..|c| - |t|] + r + t[|r|..]
  {
    assert c == c[..|c| - |t|] + t;
    assert t == r + t[|r|..];
  }

  /** Whitespace on either side of a string adds no words. */
  lemma TrimWords(front: string, r: string, back: string)
    requires AllSpace(front) && AllSpace(back)
    ensures Words(front + r + back) == Words(r)
  {
    assert front + r + back == front + (r + back);
    WordsAfterSpaces(front, r + back);
    WordsBeforeSpaces(r, back);
  }

  /**
   * The cleaned text keeps the words of the extracted pieces in order and has no ". " before a
   * capital letter left; a text that had none is the spaced text itself.
   */
  lemma CleanTextShape(content: string)
    ensures var pieces := StrippedNonEmpty(Captures(content));
      && Words(CleanText(content)) == Words(Join(" ", pieces))
      && forall j :: 0 <= j < |CleanText(content)| ==> !GapAt(CleanText(content), j)
  {
    var pieces := StrippedNonEmpty(Captures(content));
    var spaced := Spaced(pieces);
    assert CleanText(content) == Paragraphs(spaced);
    SpacedShape(pieces);
    ParagraphsKeepWords(spaced);
    ParagraphsCloseGaps(spaced);
  }

  /**
   * The paragraph step is the only change after spacing: undoing its breaks gives back the
   * stripped, single-spaced join of the pieces (which, having no two line breaks side by side,
   * holds no break of its own).
   */
  lemma CleanTextUndone(content: string)
    ensures Unbreak(CleanText(content)) == Spaced(StrippedNonEmpty(Captures(content)))
  {
    var spaced := Spaced(StrippedNonEmpty(Captures(content)));
    SpacedShape(StrippedNonEmpty(Captures(content)));
    assert IsSpace('\n');
    assert forall j :: 0 <= j < |spaced| ==> !BreakAt(spaced, j);
    ParagraphsUndone(spaced);
  }

  /** Inserting paragraph breaks keeps the words. */
  lemma ParagraphsKeepWords(s: string)
    ensures Words(Paragraphs(s)) == Words(s)
  {
    ParagraphsWords([], s);
    assert [] + Paragraphs(s) == Paragraphs(s);
    assert [] + s == s;
  }

  /** Where the cleaned text went: returned, or written to the output path with nothing returned. */
  datatype Outcome = Returned(text: Option<string>) | Written(path: string, written: string)

  /**
   * `clean_perusall_file`: a missing input gives `None`; the text is returned when no output
   * path (or an empty one) is given, and otherwise written there and `None` returned.
   */
  method CleanPerusallFile(read: string -> Option<string>, inputPath: string, outputPath: Option<string>)
    returns (out: Outcome)
    ensures read(inputPath).None? ==> out == Returned(None)
    ensures read(inputPath).Some? ==>
      var text := CleanText(read(inputPath).value);
      out == if outputPath.Some? && outputPath.value != "" then Written(outputPath.value, text) else Returned(Some(text))
  {
    var content := read(inputPath);
    if content.None? {
      return Returned(None);
    }
    var matches := Captures(content.value);
    var pieces := FilterPieces(matches);
    var result := Join(" ", pieces);
    result := Strip(Collapse(result));
    result := Paragraphs(result);
    if outputPath.Some? && outputPath.value != "" {
      out := Written(outputPath.value, result);
    } else {
      out := Returned(Some(result));
    }
  }
}
