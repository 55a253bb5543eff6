/**
 * What the article parser guarantees about its output: the quote sentinels
 * balance, the title line is read as the source promises, and the content
 * stream is a line-by-line reference reading of the document.
 */
module ArticleFacts {
  import opened Text
  import opened Patterns
  import opened Article

  // ---------------------------------------------------------------------------
  // Quote sentinels
  // ---------------------------------------------------------------------------

  /**
   * One entry of the content stream read by a quote tracker: `open` says whether a
   * quote is open, `reopened` counts start sentinels met while one already was. An end
   * sentinel with no open quote is an error (None).
   */
  function QuoteStep(open: bool, reopened: nat, x: string): Option<(bool, nat)>
  {
    if x == StartLine then Some((true, if open then reopened + 1 else reopened))
    else if x == EndLine then (if open then Some((false, reopened)) else None)
    else Some((open, reopened))
  }

  /** The quote tracker run over a whole content stream, from a closed start. */
  function QuoteScan(c: seq<string>): Option<(bool, nat)>
  {
    if c == [] then Some((false, 0))
    else
      match QuoteScan(c[..|c| - 1])
      case None => None
      case Some((open, reopened)) => QuoteStep(open, reopened, c[|c| - 1])
  }

  /** The number of entries of `c` equal to `x`. */
  function Count(c: seq<string>, x: string): nat
  {
    if c == [] then 0 else Count(c[..|c| - 1], x) + (if c[|c| - 1] == x then 1 else 0)
  }

  /** The parser's state agrees with the tracker: no stray end, and the flag is the tracker's. */
  predicate Consistent(st: ParseState)
  {
    QuoteScan(st.content).Some? && QuoteScan(st.content).value.0 == st.inQuote
  }

  /** No source line is, verbatim, one of the quote sentinel lines. */
  predicate NoSentinelLines(lines: seq<string>)
  {
    forall k :: 0 <= k < |lines| ==> lines[k] != StartLine && lines[k] != EndLine
  }

  lemma QuoteScanSnoc(c: seq<string>, x: string)
    ensures QuoteScan(c + [x]) ==
      (match QuoteScan(c) case None => None case Some((o, r)) => QuoteStep(o, r, x))
  {
    assert (c + [x])[..|c|] == c;
  }

  lemma CountSnoc(c: seq<string>, x: string, y: string)
    ensures Count(c + [x], y) == Count(c, y) + (if x == y then 1 else 0)
  {
    assert (c + [x])[..|c|] == c;
  }

  /** A section sentinel is never mistaken for a quote sentinel. */
  lemma SectionLineNotQuote(n: string)
    ensures SectionLine(n) != StartLine && SectionLine(n) != EndLine
  {
    assert SectionLine(n)[2] == 'T';
    assert StartLine[2] == 'Q';
    assert EndLine[2] == 'Q';
  }

  /** Appending an entry that is not a quote sentinel keeps the state consistent. */
  lemma AppendPlain(st: ParseState, x: string)
    requires Consistent(st) && x != StartLine && x != EndLine
    ensures Consistent(st.(content := st.content + [x]))
  {
    QuoteScanSnoc(st.content, x);
  }

  /** Closing a quote keeps the state consistent. */
  lemma CloseQuoteConsistent(st: ParseState)
    requires Consistent(st)
    ensures Consistent(CloseQuote(st))
  {
    if st.inQuote {
      QuoteScanSnoc(st.content, EndLine);
    }
  }

  /** Every turn of the parse loop keeps the state consistent. */
  lemma StepConsistent(lines: seq<string>, i: nat, coverExists: bool, st: ParseState)
    requires i < |lines| && NoSentinelLines(lines) && Consistent(st)
    ensures Consistent(Step(lines, i, coverExists, st).1)
  {
    CloseQuoteConsistent(st);
    match Classify(Strip(lines[i]))
    case Title =>
    case Cover =>
    case QuoteOpen =>
      QuoteScanSnoc(st.content, StartLine);
    case BodyStart =>
    case Section(n) =>
      var st1 := CloseQuote(st);
      SectionLineNotQuote(n);
      AppendPlain(st1, SectionLine(n));
      if i + 1 < |lines| {
        AppendPlain(st1.(content := st1.content + [SectionLine(n)]), lines[i + 1]);
        assert st1.content + [SectionLine(n)] + [lines[i + 1]] == st1.content + [SectionLine(n), lines[i + 1]];
      }
    case OtherTag =>
    case Plain =>
      AppendPlain(st, lines[i]);
  }

  lemma {:induction false} ParseFromConsistent(lines: seq<string>, i: nat, coverExists: bool, st: ParseState)
    requires i <= |lines| && NoSentinelLines(lines) && Consistent(st)
    ensures Consistent(ParseFrom(lines, i, coverExists, st))
    decreases |lines| - i
  {
    if i < |lines| {
      var r := Step(lines, i, coverExists, st);
      StepConsistent(lines, i, coverExists, st);
      ParseFromConsistent(lines, r.0, coverExists, r.1);
    }
  }

  /**
   * A parsed document: an end sentinel is only ever appended while a quote is open,
   * and the stream ends with every quote closed.
   */
  lemma DocumentQuotesClosed(lines: seq<string>, coverExists: bool)
    requires NoSentinelLines(lines)
    ensures var d := CloseQuote(ParseFrom(lines, 0, coverExists, Initial));
      QuoteScan(d.content).Some? && !QuoteScan(d.content).value.0
  {
    ParseFromConsistent(lines, 0, coverExists, Initial);
    CloseQuoteConsistent(ParseFrom(lines, 0, coverExists, Initial));
  }

  /** The tracker's count: starts = ends + (one if still open) + re-opened starts. */
  lemma {:induction false} ScanCounts(c: seq<string>)
    requires QuoteScan(c).Some?
    ensures var (open, reopened) := QuoteScan(c).value;
      Count(c, StartLine) == Count(c, EndLine) + (if open then 1 else 0) + reopened
  {
    if c != [] {
      ScanCounts(c[..|c| - 1]);
    }
  }

  /** With the tracker closed at the end, every start sentinel has an end sentinel after it. */
  lemma {:induction false} OpenAfterUnmatchedStart(c: seq<string>, k: nat)
    requires QuoteScan(c).Some? && k < |c| && c[k] == StartLine
    requires forall m :: k < m < |c| ==> c[m] != EndLine
    ensures QuoteScan(c).value.0
  {
    if k < |c| - 1 {
      var p := c[..|c| - 1];
      assert forall m :: k < m < |p| ==> p[m] != EndLine by {
        forall m | k < m < |p| ensures p[m] != EndLine {
          assert p[m] == c[m];
        }
      }
      OpenAfterUnmatchedStart(p, k);
    }
  }

  /**
   * Quote balance of a parsed document: end sentinels never outnumber start
   * sentinels, every start sentinel is followed later by an end sentinel, and the two
   * counts are equal exactly when no `【引言】` line came while a quote was already open.
   */
  lemma QuoteBalance(lines: seq<string>, coverExists: bool)
    requires NoSentinelLines(lines)
    ensures var c := CloseQuote(ParseFrom(lines, 0, coverExists, Initial)).content;
      && Count(c, EndLine) <= Count(c, StartLine)
      && (forall k :: 0 <= k < |c| && c[k] == StartLine ==>
            exists m :: k < m < |c| && c[m] == EndLine)
      && QuoteScan(c).Some?
      && (Count(c, EndLine) == Count(c, StartLine) <==> QuoteScan(c).value.1 == 0)
  {
    var c := CloseQuote(ParseFrom(lines, 0, coverExists, Initial)).content;
    DocumentQuotesClosed(lines, coverExists);
    ScanCounts(c);
    forall k | 0 <= k < |c| && c[k] == StartLine
      ensures exists m :: k < m < |c| && c[m] == EndLine
    {
      if forall m :: k < m < |c| ==> c[m] != EndLine {
        OpenAfterUnmatchedStart(c, k);
      }
    }
  }

  // ---------------------------------------------------------------------------
  // The title line
  // ---------------------------------------------------------------------------

  lemma {:induction false} DropLeadingRun(h: string, x: string, c: char)
    requires forall k :: 0 <= k < |h| ==> h[k] == c
    requires x == [] || x[0] != c
    ensures DropLeading(h + x, c) == x
  {
    if h != [] {
      assert (h + x)[1..] == h[1..] + x;
      DropLeadingRun(h[1..], x, c);
    } else {
      assert h + x == x;
    }
  }

  /** Removing a leading occurrence of a pattern that does not occur again. */
  lemma ReplacePrefixOnly(pat: string, rest: string)
    requires pat != [] && !Contains(rest, pat)
    ensures ReplaceAll(pat + rest, pat, "") == rest
  {
    var s := pat + rest;
    assert s[..|pat|] == pat;
    assert s[|pat|..] == rest;
    ReplaceAllAbsent(rest, pat, "");
  }

  /** Leading hashes and the whitespace after them are dropped. */
  lemma DropHashesRun(h: string, w: string, t: string)
    requires h != [] && forall k :: 0 <= k < |h| ==> h[k] == '#'
    requires forall k :: 0 <= k < |w| ==> IsSpace(w[k])
    requires t != [] && !IsSpace(t[0]) && t[0] != '#'
    ensures DropHashes(h + (w + t)) == t
  {
    var wt := w + t;
    assert wt[0] != '#' by {
      if w != [] { assert wt[0] == w[0]; } else { assert wt == t; }
    }
    assert (h + wt)[0] == '#';
    DropLeadingRun(h, wt, '#');
    StripLeading(w, t);
  }

  /** A hashed title line is already stripped. */
  lemma StripHashed(h: string, w: string, t: string)
    requires h != [] && forall k :: 0 <= k < |h| ==> h[k] == '#'
    requires t != [] && HasNoSpaceEnds(t)
    ensures Strip(h + (w + t)) == h + (w + t)
  {
    var rest := h + (w + t);
    assert rest[0] == '#' && rest[|rest| - 1] == t[|t| - 1];
    StripTrimmed(rest);
  }

  /** The marker cannot start among the hashes and the whitespace, so it occurs in the line only if it occurs in `t`. */
  lemma NoMarkerAfterHashes(h: string, w: string, t: string)
    requires forall k :: 0 <= k < |h| ==> h[k] == '#'
    requires forall k :: 0 <= k < |w| ==> IsSpace(w[k])
    requires !Contains(t, TitleMarker)
    ensures !Contains(h + (w + t), TitleMarker)
  {
    var rest := h + (w + t);
    var n := |h| + |w|;
    var m := |TitleMarker|;
    assert TitleMarker[0] == '【';
    forall j: nat ensures !OccursAt(rest, TitleMarker, j) {
      if j + m <= |rest| {
        assert rest[j..j + m][0] == rest[j];
        if j < |h| {
          assert rest[j] == h[j];
        } else if j < n {
          assert rest[j] == w[j - |h|];
        } else {
          assert rest[j..j + m] == t[j - n..j - n + m];
          assert !OccursAt(t, TitleMarker, j - n);
        }
      }
    }
  }

  /**
   * A title line `【文章标题】`, then whitespace `w0`, then hashes `h`, then whitespace
   * `w`, then the title `t` yields `t`, provided `t` is trimmed, does not start with
   * `#` and does not itself hold the marker (`replace` would remove it there too).
   * The `strip` after the `replace` removes `w0`.
   */
  lemma TitleOfMarked(w0: string, h: string, w: string, t: string)
    requires forall k :: 0 <= k < |w0| ==> IsSpace(w0[k])
    requires forall k :: 0 <= k < |h| ==> h[k] == '#'
    requires forall k :: 0 <= k < |w| ==> IsSpace(w[k])
    requires t != [] && HasNoSpaceEnds(t) && t[0] != '#' && !Contains(t, TitleMarker)
    ensures TitleOf(TitleMarker + w0 + h + w + t) == t
  {
    var x := h + (w + t);
    var rest := w0 + x;
    assert TitleMarker + w0 + h + w + t == TitleMarker + rest;
    NoMarkerAfterHashes(h, w, t);
    NoMarkerAfterHashes([], w0, x);
    assert [] + rest == rest;
    ReplacePrefixOnly(TitleMarker, rest);
    if h != [] {
      StripHashed(h, w, t);
      StripLeading(w0, x);
      DropHashesRun(h, w, t);
    } else {
      SpacesThen(w0, w, t);
    }
  }

  /** Two runs of whitespace before a trimmed text strip away together. */
  lemma SpacesThen(w0: string, w: string, t: string)
    requires forall k :: 0 <= k < |w0| ==> IsSpace(w0[k])
    requires forall k :: 0 <= k < |w| ==> IsSpace(w[k])
    requires HasNoSpaceEnds(t)
    ensures Strip(w0 + ([] + (w + t))) == t
  {
    var ws := w0 + w;
    forall k | 0 <= k < |ws| ensures IsSpace(ws[k]) {
      if k < |w0| { assert ws[k] == w0[k]; } else { assert ws[k] == w[k - |w0|]; }
    }
    assert w0 + ([] + (w + t)) == ws + t;
    StripLeading(ws, t);
  }

  /** `【文章标题】# Hello World` gives the title `Hello World`. */
  lemma TitleExample()
    ensures TitleOf("【文章标题】# Hello World") == "Hello World"
  {
    var t := "Hello World";
    assert "【文章标题】# Hello World" == TitleMarker + "" + "#" + " " + t;
    PlainTitleText(t);
    TitleOfMarked("", "#", " ", t);
  }

  /** `Hello World` is a title text as `TitleOfMarked` takes it. */
  lemma PlainTitleText(t: string)
    requires t == "Hello World"
    ensures t != [] && HasNoSpaceEnds(t) && t[0] != '#' && !Contains(t, TitleMarker)
  {
    NotContainsWhenCharMissing(t, TitleMarker);
  }

  lemma StepKeepsTitle(lines: seq<string>, i: nat, coverExists: bool, st: ParseState)
    requires i < |lines| && !Classify(Strip(lines[i])).Title?
    ensures Step(lines, i, coverExists, st).1.title == st.title
  {
  }

  /** Without a title line from `i` on, the parse leaves the title as it is. */
  lemma {:induction false} TitleUnchanged(lines: seq<string>, i: nat, coverExists: bool, st: ParseState)
    requires i <= |lines|
    requires forall k {:trigger Classify(Strip(lines[k]))} :: i <= k < |lines| ==> !Classify(Strip(lines[k])).Title?
    ensures ParseFrom(lines, i, coverExists, st).title == st.title
    decreases |lines| - i
  {
    if i < |lines| {
      var r := Step(lines, i, coverExists, st);
      StepKeepsTitle(lines, i, coverExists, st);
      TitleUnchanged(lines, r.0, coverExists, r.1);
    }
  }

  // ---------------------------------------------------------------------------
  // Which lines are kept
  // ---------------------------------------------------------------------------

  /**
   * Where a reading resumes after a cover marker at `i`: past an image line right
   * after it when `assets/cover.png` exists, else past the next non-blank line.
   */
  function CoverSkip(lines: seq<string>, i: nat, coverExists: bool): (r: nat)
    requires i < |lines|
    ensures i < r <= |lines|
  {
    if coverExists then AfterCover(lines, i)
    else
      var j := NextNonBlank(lines, i + 1);
      if j == |lines| then j else j + 1
  }

  /**
   * Reference reading of the content stream from line `i` on, line by line, with a
   * quote open or not (`open`): the quote marker emits a start sentinel; the body
   * marker, a cover marker, a numbered section marker and the end of the input each
   * close an open quote with an end sentinel; a section marker then emits its
   * sentinel and the next line as it is; a cover marker skips its image line; any
   * other tagged line (the title line included) is dropped; every other line is
   * copied as it is.
   */
  function KeptFrom(lines: seq<string>, i: nat, coverExists: bool, open: bool): seq<string>
    requires i <= |lines|
    decreases |lines| - i, 1
  {
    if i == |lines| then (if open then [EndLine] else [])
    else KeptAs(lines, i, Classify(Strip(lines[i])), coverExists, open)
  }

  /** The reference reading from line `i` on, once line `i` is known to be of kind `kind`. */
  function KeptAs(lines: seq<string>, i: nat, kind: LineKind, coverExists: bool, open: bool): seq<string>
    requires i < |lines|
    decreases |lines| - i, 0
  {
    var close := if open then [EndLine] else [];
    match kind
    case Title => KeptFrom(lines, i + 1, coverExists, open)
    case Cover => close + KeptFrom(lines, CoverSkip(lines, i, coverExists), coverExists, false)
    case QuoteOpen => [StartLine] + KeptFrom(lines, i + 1, coverExists, true)
    case BodyStart => close + KeptFrom(lines, i + 1, coverExists, false)
    case Section(n) =>
      if i + 1 < |lines| then close + [SectionLine(n), lines[i + 1]] + KeptFrom(lines, i + 2, coverExists, false)
      else close + [SectionLine(n)]
    case OtherTag => KeptFrom(lines, i + 1, coverExists, open)
    case Plain => [lines[i]] + KeptFrom(lines, i + 1, coverExists, open)
  }

  /** One turn of the loop, read against the reference: what it emits plus what is left to read. */
  lemma StepKept(lines: seq<string>, i: nat, coverExists: bool, st: ParseState)
    requires i < |lines|
    ensures var r := Step(lines, i, coverExists, st);
      st.content + KeptFrom(lines, i, coverExists, st.inQuote)
        == r.1.content + KeptFrom(lines, r.0, coverExists, r.1.inQuote)
  {
    StepAsKept(lines, i, Classify(Strip(lines[i])), coverExists, st);
  }

  /** `StepKept` for a line of any kind. */
  lemma StepAsKept(lines: seq<string>, i: nat, kind: LineKind, coverExists: bool, st: ParseState)
    requires i < |lines|
    ensures var r := StepAs(lines, i, kind, coverExists, st);
      st.content + KeptAs(lines, i, kind, coverExists, st.inQuote)
        == r.1.content + KeptFrom(lines, r.0, coverExists, r.1.inQuote)
  {
    match kind
    case Title =>
    case Cover => CoverKept(lines, i, coverExists, st);
    case QuoteOpen =>
      var k := KeptFrom(lines, i + 1, coverExists, true);
      assert st.content + ([StartLine] + k) == (st.content + [StartLine]) + k;
    case BodyStart =>
      var close: seq<string> := if st.inQuote then [EndLine] else [];
      var k := KeptFrom(lines, i + 1, coverExists, false);
      assert st.content + (close + k) == CloseQuote(st).content + k;
    case Section(n) => SectionKept(lines, i, n, coverExists, st);
    case OtherTag =>
    case Plain =>
      var k := KeptFrom(lines, i + 1, coverExists, st.inQuote);
      assert st.content + ([lines[i]] + k) == (st.content + [lines[i]]) + k;
  }

  /** `StepKept` for a cover marker: the quote closes and the reading resumes after the image line. */
  lemma CoverKept(lines: seq<string>, i: nat, coverExists: bool, st: ParseState)
    requires i < |lines|
    ensures var r := CoverStep(lines, i, coverExists, st);
      st.content + KeptAs(lines, i, Cover, coverExists, st.inQuote)
        == r.1.content + KeptFrom(lines, r.0, coverExists, r.1.inQuote)
  {
    var close: seq<string> := if st.inQuote then [EndLine] else [];
    var r := CoverStep(lines, i, coverExists, st);
    assert r.0 == CoverSkip(lines, i, coverExists) && r.1.content == st.content + close && !r.1.inQuote;
    var k := KeptFrom(lines, r.0, coverExists, false);
    assert st.content + (close + k) == (st.content + close) + k;
  }

  /** `StepKept` for a numbered section marker. */
  lemma SectionKept(lines: seq<string>, i: nat, n: string, coverExists: bool, st: ParseState)
    requires i < |lines|
    ensures var r := SectionStep(lines, i, n, CloseQuote(st));
      st.content + KeptAs(lines, i, Section(n), coverExists, st.inQuote)
        == r.1.content + KeptFrom(lines, r.0, coverExists, r.1.inQuote)
  {
    var close: seq<string> := if st.inQuote then [EndLine] else [];
    var c := st.content + close;
    assert CloseQuote(st).content == c;
    if i + 1 < |lines| {
      var k := KeptFrom(lines, i + 2, coverExists, false);
      assert st.content + (close + [SectionLine(n), lines[i + 1]] + k)
        == (c + [SectionLine(n), lines[i + 1]]) + k;
    } else {
      assert KeptFrom(lines, i + 1, coverExists, false) == [];
      assert st.content + (close + [SectionLine(n)]) == (c + [SectionLine(n)]) + [];
    }
  }

  /** The loop from line `i` on, plus the final close, emits the reference reading. */
  lemma {:induction false} KeptFromParse(lines: seq<string>, i: nat, coverExists: bool, st: ParseState)
    requires i <= |lines|
    ensures CloseQuote(ParseFrom(lines, i, coverExists, st)).content
      == st.content + KeptFrom(lines, i, coverExists, st.inQuote)
    decreases |lines| - i
  {
    if i < |lines| {
      var r := Step(lines, i, coverExists, st);
      StepKept(lines, i, coverExists, st);
      KeptFromParse(lines, r.0, coverExists, r.1);
    }
  }

  /**
   * Copy, drop and sentinel rules over a whole document: the content stream `parse`
   * leaves is the reference reading of the lines.
   */
  lemma ContentIsKept(lines: seq<string>, coverExists: bool)
    ensures CloseQuote(ParseFrom(lines, 0, coverExists, Initial)).content == KeptFrom(lines, 0, coverExists, false)
  {
    var st := Initial;
    assert st.content == [] && !st.inQuote;
    KeptFromParse(lines, 0, coverExists, st);
    EmptyThen(KeptFrom(lines, 0, coverExists, st.inQuote));
  }

  lemma EmptyThen(k: seq<string>)
    ensures [] + k == k
  {
  }

  /** A stripped line that does not start with `【` is an ordinary line. */
  lemma UntaggedIsPlain(s: string)
    requires !StartsWith(s, "【")
    ensures Classify(s) == Plain
  {
    assert !IsTitleLine(s) by {
      if |TitleMarker| <= |s| { assert s[..|TitleMarker|][..1] == s[..1]; }
    }
    assert !IsCoverLine(s);
    assert s != QuoteMarker && s != BodyMarker by {
      if |s| >= 1 { assert QuoteMarker[..1] == BodyMarker[..1] == "【"; }
    }
    assert SectionMarkerNumber(s).None? by {
      if |s| >= 3 { assert s[..3][..1] == s[..1]; }
    }
  }

  /** A document with no `【` at the start of any (stripped) line is copied whole, in order. */
  lemma {:induction false} UntaggedCopied(lines: seq<string>, i: nat, coverExists: bool)
    requires i <= |lines|
    requires forall k {:trigger Strip(lines[k])} :: 0 <= k < |lines| ==> !StartsWith(Strip(lines[k]), "【")
    ensures KeptFrom(lines, i, coverExists, false) == lines[i..]
    decreases |lines| - i
  {
    if i < |lines| {
      UntaggedIsPlain(Strip(lines[i]));
      UntaggedCopied(lines, i + 1, coverExists);
      assert lines[i..] == [lines[i]] + lines[i + 1..];
    }
  }

  lemma PlainDocument(lines: seq<string>, coverExists: bool)
    requires forall k {:trigger Strip(lines[k])} :: 0 <= k < |lines| ==> !StartsWith(Strip(lines[k]), "【")
    ensures CloseQuote(ParseFrom(lines, 0, coverExists, Initial)).content == lines
  {
    ContentIsKept(lines, coverExists);
    UntaggedCopied(lines, 0, coverExists);
  }
}
