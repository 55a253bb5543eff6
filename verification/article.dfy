/**
 * The article parser: a line-oriented state machine over the lines of
 * `artical.md` (as `readlines` gives them, each keeping its line break) that
 * extracts the title and the cover reference and produces the content stream,
 * with sentinel lines for quote blocks and numbered section images.
 */
module Article {
  import opened Text
  import opened Patterns

  const QuoteStart := "__QUOTE_START__"
  const QuoteEnd := "__QUOTE_END__"
  /** The sentinels as they are appended to the content stream. */
  const StartLine := QuoteStart + "\n"
  const EndLine := QuoteEnd + "\n"

  const TitleMarker := "【文章标题】"
  const CoverTag := "【封面主图"
  const QuoteMarker := "【引言】"
  const BodyMarker := "【正文】"
  /** Where the generated cover is expected, relative to the article directory. */
  const CoverAsset := "assets/cover.png"

  /** The parser's fields: title, cover reference, content lines and the quote flag. */
  datatype ParseState = ParseState(title: string, cover: string, content: seq<string>, inQuote: bool)

  const Initial := ParseState("", "", [], false)

  /** The title carried by a stripped title line. */
  function TitleOf(stripped: string): string
  {
    DropHashes(Strip(ReplaceAll(stripped, TitleMarker, "")))
  }

  predicate IsTitleLine(stripped: string)
  {
    StartsWith(stripped, TitleMarker)
  }

  predicate IsTagLine(stripped: string)
  {
    StartsWith(stripped, "【") && '】' in stripped
  }

  predicate IsCoverLine(stripped: string)
  {
    Contains(stripped, CoverTag) && IsTagLine(stripped)
  }

  /** The section-image sentinel line for section `n`. */
  function SectionLine(n: string): string
  {
    TitleImageSentinel(n) + "\n"
  }

  /** What the loop of `parse` takes a stripped line for; the tests run in this order. */
  datatype LineKind =
    | Title            // starts with 【文章标题】
    | Cover            // a 【…】 tag line holding 【封面主图
    | QuoteOpen        // exactly 【引言】
    | BodyStart        // exactly 【正文】
    | Section(number: string)  // 【标题N】
    | OtherTag         // any other line starting with 【 and holding 】
    | Plain

  function Classify(stripped: string): LineKind
  {
    if IsTitleLine(stripped) then Title
    else if IsCoverLine(stripped) then Cover
    else if stripped == QuoteMarker then QuoteOpen
    else if stripped == BodyMarker then BodyStart
    else
      match SectionMarkerNumber(stripped)
      case Some(n) => Section(n)
      case None => if IsTagLine(stripped) then OtherTag else Plain
  }

  /** Close an open quote: append the end sentinel and clear the flag. */
  function CloseQuote(st: ParseState): (r: ParseState)
    ensures !r.inQuote && r.title == st.title && r.cover == st.cover
    ensures r.content == st.content + (if st.inQuote then [EndLine] else [])
  {
    if st.inQuote then st.(content := st.content + [EndLine], inQuote := false) else st
  }

  /** The first index at or after `k` whose stripped line is not empty, or `|lines|`. */
  function NextNonBlank(lines: seq<string>, k: nat): (r: nat)
    requires k <= |lines|
    decreases |lines| - k
    ensures k <= r <= |lines|
    ensures r < |lines| ==> Strip(lines[r]) != ""
    ensures forall j {:trigger Strip(lines[j])} :: k <= j < r ==> Strip(lines[j]) == ""
  {
    if k == |lines| || Strip(lines[k]) != "" then k else NextNonBlank(lines, k + 1)
  }

  /** Where parsing resumes after a cover marker at `i` when `assets/cover.png` exists. */
  function AfterCover(lines: seq<string>, i: nat): (r: nat)
    requires i < |lines|
    ensures i < r <= |lines|
  {
    if i + 1 < |lines| && MatchImage(Strip(lines[i + 1])).Some? then i + 2 else i + 1
  }

  /**
   * The cover marker at line `i`: close the quote, then take `assets/cover.png` when it
   * exists (skipping an image line right after the marker), else the image reference on the
   * next non-blank line, which is consumed either way.
   */
  function CoverStep(lines: seq<string>, i: nat, coverExists: bool, st: ParseState): (r: (nat, ParseState))
    requires i < |lines|
    ensures i < r.0 <= |lines|
  {
    if coverExists then AssetCover(lines, i, CloseQuote(st))
    else ScannedCover(lines, i, CloseQuote(st))
  }

  /** With `assets/cover.png` present: it becomes the cover. */
  function AssetCover(lines: seq<string>, i: nat, st: ParseState): (r: (nat, ParseState))
    requires i < |lines|
    ensures i < r.0 <= |lines|
  {
    (AfterCover(lines, i), st.(cover := CoverAsset))
  }

  /** Without it: the image on the next non-blank line, which is consumed either way. */
  function ScannedCover(lines: seq<string>, i: nat, st: ParseState): (r: (nat, ParseState))
    requires i < |lines|
    ensures i < r.0 <= |lines|
  {
    var j := NextNonBlank(lines, i + 1);
    if j == |lines| then (j, st)
    else
      var m := MatchImage(Strip(lines[j]));
      (j + 1, if m.Some? then st.(cover := m.value.src) else st)
  }

  /** One turn of the parse loop at line `i`: where it resumes and the new state. */
  function Step(lines: seq<string>, i: nat, coverExists: bool, st: ParseState): (r: (nat, ParseState))
    requires i < |lines|
    ensures i < r.0 <= |lines|
  {
    StepAs(lines, i, Classify(Strip(lines[i])), coverExists, st)
  }

  /** The turn at line `i` once its stripped text is known to be a line of kind `kind`. */
  function StepAs(lines: seq<string>, i: nat, kind: LineKind, coverExists: bool, st: ParseState): (r: (nat, ParseState))
    requires i < |lines|
    ensures i < r.0 <= |lines|
  {
    var line := lines[i];
    match kind
    case Title => (i + 1, st.(title := TitleOf(Strip(line))))
    case Cover => CoverStep(lines, i, coverExists, st)
    case QuoteOpen => (i + 1, st.(content := st.content + [StartLine], inQuote := true))
    case BodyStart => (i + 1, CloseQuote(st))
    case Section(n) => SectionStep(lines, i, n, CloseQuote(st))
    case OtherTag => (i + 1, st)
    case Plain => (i + 1, st.(content := st.content + [line]))
  }

  /** A section marker: its sentinel, then the next line as it is (when there is one). */
  function SectionStep(lines: seq<string>, i: nat, n: string, st: ParseState): (r: (nat, ParseState))
    requires i < |lines|
    ensures i < r.0 <= |lines|
  {
    if i + 1 < |lines| then (i + 2, st.(content := st.content + [SectionLine(n), lines[i + 1]]))
    else (i + 1, st.(content := st.content + [SectionLine(n)]))
  }

  /** The parse loop from line `i` on, in state `st` (the end-of-input close not included). */
  function ParseFrom(lines: seq<string>, i: nat, coverExists: bool, st: ParseState): ParseState
    requires i <= |lines|
    decreases |lines| - i
  {
    if i == |lines| then st
    else
      var r := Step(lines, i, coverExists, st);
      ParseFrom(lines, r.0, coverExists, r.1)
  }

  /** `Path(dir) / rel`: a relative reference is placed under the directory. */
  function JoinPath(dir: string, rel: string): (r: string)
    ensures r != []
  {
    if StartsWith(rel, "/") then rel else dir + "/" + rel
  }

  class ArticleParser {
    const articleDir: string
    var title: string
    var coverImage: string
    var contentLines: seq<string>
    var inQuote: bool

    function State(): ParseState
      reads this
    {
      ParseState(title, coverImage, contentLines, inQuote)
    }

    constructor (articleDir: string)
      ensures this.articleDir == articleDir && State() == Initial
    {
      this.articleDir := articleDir;
      title, coverImage, contentLines, inQuote := "", "", [], false;
    }

    /**
     * `parse`: `source` is the line list of `artical.md`, `None` when the file
     * does not exist (the source raises; here `ok` is false and nothing changes).
     * `coverExists` says whether `assets/cover.png` exists.
     */
    method Parse(source: Option<seq<string>>, coverExists: bool) returns (ok: bool)
      modifies this
      ensures ok == source.Some?
      ensures !ok ==> State() == old(State())
      ensures ok ==> State() == CloseQuote(ParseFrom(source.value, 0, coverExists, old(State())))
      ensures ok ==> !inQuote
    {
      if source.None? {
        return false;
      }
      var lines := source.value;
      var i := 0;
      while i < |lines|
        invariant i <= |lines|
        invariant ParseFrom(lines, i, coverExists, State()) == ParseFrom(lines, 0, coverExists, old(State()))
        decreases |lines| - i
      {
        i := ParseLine(lines, i, coverExists);
      }
      if inQuote {
        contentLines := contentLines + [EndLine];
        inQuote := false;
      }
      return true;
    }

    /** One turn of the loop of `parse`, at line `i`; returns where the loop resumes. */
    method ParseLine(lines: seq<string>, i0: nat, coverExists: bool) returns (i: nat)
      requires i0 < |lines|
      modifies this
      ensures (i, State()) == Step(lines, i0, coverExists, old(State()))
    {
      ghost var st := State();
      var line := lines[i0];
      var stripped := Strip(line);
      match Classify(stripped)
      case Title =>
        title := TitleOf(stripped);
        i := i0 + 1;
        assert Step(lines, i0, coverExists, st) == (i, State());
      case Cover =>
        i := ParseCover(lines, i0, coverExists);
      case QuoteOpen =>
        contentLines := contentLines + [StartLine];
        inQuote := true;
        i := i0 + 1;
        assert Step(lines, i0, coverExists, st) == (i, State());
      case BodyStart =>
        if inQuote {
          contentLines := contentLines + [EndLine];
          inQuote := false;
        }
        i := i0 + 1;
        assert Step(lines, i0, coverExists, st) == (i, State());
      case Section(n) =>
        i := ParseSection(lines, i0, n);
      case OtherTag =>
        i := i0 + 1;
        assert Step(lines, i0, coverExists, st) == (i, State());
      case Plain =>
        contentLines := contentLines + [line];
        i := i0 + 1;
        assert Step(lines, i0, coverExists, st) == (i, State());
    }

    /** The numbered-section branch of the loop of `parse`, at line `i0`. */
    method ParseSection(lines: seq<string>, i0: nat, n: string) returns (i: nat)
      requires i0 < |lines|
      modifies this
      ensures (i, State()) == SectionStep(lines, i0, n, CloseQuote(old(State())))
    {
      if inQuote {
        contentLines := contentLines + [EndLine];
        inQuote := false;
      }
      ghost var st := State();
      contentLines := contentLines + [SectionLine(n)];
      i := i0 + 1;
      if i < |lines| {
        contentLines := contentLines + [lines[i]];
        i := i + 1;
        assert contentLines == st.content + [SectionLine(n), lines[i0 + 1]];
      }
    }

    /** The cover-marker branch of the loop of `parse`, at line `i0`. */
    method ParseCover(lines: seq<string>, i0: nat, coverExists: bool) returns (i: nat)
      requires i0 < |lines|
      modifies this
      ensures (i, State()) == CoverStep(lines, i0, coverExists, old(State()))
    {
      if inQuote {
        contentLines := contentLines + [EndLine];
        inQuote := false;
      }
      if coverExists {
        i := TakeAssetCover(lines, i0);
      } else {
        i := ScanCover(lines, i0);
      }
    }

    /** With `assets/cover.png` present, an image line right after the marker is skipped. */
    method TakeAssetCover(lines: seq<string>, i0: nat) returns (i: nat)
      requires i0 < |lines|
      modifies this
      ensures (i, State()) == AssetCover(lines, i0, old(State()))
    {
      coverImage := CoverAsset;
      i := i0 + 1;
      if i < |lines| {
        var nextLine := Strip(lines[i]);
        if MatchImage(nextLine).Some? {
          i := i + 1;
        }
      }
    }

    /** Without it, the next non-blank line is consumed, and its image (if any) is the cover. */
    method ScanCover(lines: seq<string>, i0: nat) returns (i: nat)
      requires i0 < |lines|
      modifies this
      ensures (i, State()) == ScannedCover(lines, i0, old(State()))
    {
      ghost var st := State();
      var j := FindNonBlank(lines, i0 + 1);
      if j < |lines| {
        var m := MatchImage(Strip(lines[j]));
        if m.Some? {
          coverImage := m.value.src;
        }
        i := j + 1;
        assert State() == (if m.Some? then st.(cover := m.value.src) else st);
      } else {
        i := j;
        assert State() == st;
      }
      assert ScannedCover(lines, i0, st).0 == i;
      assert ScannedCover(lines, i0, st).1 == State();
    }

    /** The scan for the cover reference: the first line from `k` on that is not blank. */
    static method FindNonBlank(lines: seq<string>, k: nat) returns (j: nat)
      requires k <= |lines|
      ensures j == NextNonBlank(lines, k)
    {
      j := k;
      while j < |lines| && Strip(lines[j]) == ""
        invariant k <= j <= |lines|
        invariant NextNonBlank(lines, k) == NextNonBlank(lines, j)
        decreases |lines| - j
      {
        j := j + 1;
      }
    }

    /** `get_content`: the content lines joined with nothing between them. */
    function GetContent(): string
      reads this
    {
      Concat(contentLines)
    }

    /**
     * `get_cover_path`: the parsed cover reference (URLs as they are, paths under
     * the article directory), else `assets/cover.png` when it exists, else "".
     * The first three clauses restate the dispatch; the last is the point: the
     * publisher has no cover to upload exactly when the article names none and
     * the asset is missing.
     */
    function GetCoverPath(autoCoverExists: bool): (r: string)
      reads this
      ensures coverImage != "" && StartsWith(coverImage, "http") ==> r == coverImage
      ensures coverImage != "" && !StartsWith(coverImage, "http") ==> r == JoinPath(articleDir, coverImage)
      ensures coverImage == "" && autoCoverExists ==> r == JoinPath(articleDir, CoverAsset)
      ensures r == "" <==> coverImage == "" && !autoCoverExists
    {
      if coverImage != "" then
        if StartsWith(coverImage, "http") then coverImage else JoinPath(articleDir, coverImage)
      else if autoCoverExists then JoinPath(articleDir, CoverAsset)
      else ""
    }
  }
}
