/**
 * The block pass of the article renderer: one forward walk over the lines of the
 * content stream in which the first matching rule decides what the block at the
 * current line is and how many lines it takes. Each block yields one call of a
 * style template; a fragment records which template and the arguments it is called
 * with, and leaves the CSS text opaque. The inline pass the templates apply to their
 * text is `Markup` below.
 */
module Render {
  import opened Text
  import opened Patterns
  import opened Inline
  import Article

  /** One call of a style template, with the arguments it is given. */
  datatype Fragment =
    | Container                                   // the outer `<section>` opening the article
    | Paragraph(text: string)
    | Image(src: string, alt: string)
    | TitleImage(url: string, number: string, text: string)
    | Heading1(text: string, first: bool)         // `first`: the smaller top margin
    | Heading2(text: string)
    | Heading3(text: string)
    | BulletList(items: seq<string>)
    | NumberedList(items: seq<string>)
    | CodeBlock(escaped: string)                  // the code text after `Escape`
    | Divider
    | Footer(author: string)
    | Close                                       // the closing `</section>`

  /** The marked-up texts a fragment's template shows: its text after the inline pass. */
  function Markup(f: Fragment): (r: seq<string>)
    ensures f.BulletList? || f.NumberedList? ==> |r| == |f.items|
  {
    match f
    case Paragraph(t) => [ProcessInline(t)]
    case TitleImage(_, _, t) => [ProcessInline(t)]
    case Heading1(t, _) => [ProcessInline(t)]
    case Heading2(t) => [ProcessInline(t)]
    case Heading3(t) => [ProcessInline(t)]
    case BulletList(items) => InlineAll(items)
    case NumberedList(items) => InlineAll(items)
    case _ => []
  }

  /** Which rule of the block pass a stripped line starts; the tests run in this order. */
  datatype BlockKind =
    | Blank
    | QuoteSpan
    | TitleImageRef(number: string)
    | Fence
    | H1
    | H2
    | H3
    | Img(ref: ImageRef)
    | Bullet
    | Numbered
    | Rule
    | Para

  predicate IsBullet(line: string)
  {
    StartsWith(line, "- ") || StartsWith(line, "* ")
  }

  /** `line.startswith("```")` */
  predicate IsFence(line: string)
  {
    |line| >= 3 && line[0] == '`' && line[1] == '`' && line[2] == '`'
  }

  function BlockOf(line: string): (r: BlockKind)
    ensures r.Blank? <==> line == []
    ensures r.H1? ==> StartsWith(line, "# ")
    ensures r.H2? ==> StartsWith(line, "## ")
    ensures r.H3? ==> StartsWith(line, "### ")
    ensures r.Bullet? ==> IsBullet(line)
    ensures r.Numbered? ==> OrderedMarker(line).Some?
  {
    if line == [] then Blank
    else if line == Article.QuoteStart then QuoteSpan
    else
      match MatchTitleImage(line)
      case Some(n) => TitleImageRef(n)
      case None =>
        if IsFence(line) then Fence
        else if StartsWith(line, "# ") && !StartsWith(line, "## ") then H1
        else if StartsWith(line, "## ") then H2
        else if StartsWith(line, "### ") then H3
        else
          match MatchImage(line)
          case Some(ref) => Img(ref)
          case None =>
            if IsBullet(line) then Bullet
            else if OrderedMarker(line).Some? then Numbered
            else if line == "---" || line == "***" then Rule
            else Para
  }

  /**
   * `_render_title_with_image`: the title text loses its leading `#`s; without an
   * uploaded (non-empty) URL for the section number the block falls back to a
   * non-first h1.
   */
  function RenderTitleWithImage(number: string, text: string, urls: map<string, string>): (r: Fragment)
    ensures (number !in urls || urls[number] == "") <==> r.Heading1?
    ensures r.Heading1? ==> !r.first
    ensures r.TitleImage? ==> r.url == urls[number] && r.number == number
    ensures r.Heading1? || r.TitleImage?
    ensures r.text == DropHashes(Strip(text))
  {
    var title := DropHashes(Strip(text));
    if number !in urls || urls[number] == "" then Heading1(title, false)
    else TitleImage(urls[number], number, title)
  }

  /** The three replacements of `_render_code`, in their order. */
  function Escape(code: string): (r: string)
    ensures '<' !in r && '>' !in r
  {
    var amp := ReplaceAll(code, "&", "&amp;");
    var lt := ReplaceAll(amp, "<", "&lt;");
    ReplaceCharIsMap(amp, '<', "&lt;");
    ReplaceCharIsMap(lt, '>', "&gt;");
    ReplaceAll(lt, ">", "&gt;")
  }

  /** `_render_ul` / `_render_ol`: every item goes through the inline pass. */
  function InlineAll(items: seq<string>): (r: seq<string>)
    ensures |r| == |items|
    ensures forall k :: 0 <= k < |items| ==> r[k] == ProcessInline(items[k])
  {
    seq(|items|, k requires 0 <= k < |items| => ProcessInline(items[k]))
  }

  /** What a non-blank line inside a quote span becomes: an image or a paragraph. */
  function QuoteLine(q: string): (r: seq<Fragment>)
    ensures q == [] <==> r == []
    ensures |r| <= 1
    ensures r != [] ==> r[0].Image? || r[0].Paragraph?
  {
    if q == [] then []
    else
      match MatchImage(q)
      case Some(ref) => [Image(ref.src, ref.alt)]
      case None => [Paragraph(q)]
  }

  /**
   * Where the inner loop of a quote span from line `i` stops: the first line whose
   * stripped text is the end sentinel, or the end of the stream.
   */
  function QuoteStop(lines: seq<string>, i: nat): (r: nat)
    requires i <= |lines|
    decreases |lines| - i
    ensures i <= r <= |lines|
  {
    if i == |lines| || Strip(lines[i]) == Article.QuoteEnd then i else QuoteStop(lines, i + 1)
  }

  /** The quote span stops at the first end sentinel from `i` on, and nowhere else. */
  lemma {:induction false} QuoteStopIs(lines: seq<string>, i: nat, e: nat)
    requires i <= e <= |lines|
    requires forall j {:trigger Strip(lines[j])} :: i <= j < e ==> Strip(lines[j]) != Article.QuoteEnd
    requires e == |lines| || Strip(lines[e]) == Article.QuoteEnd
    ensures QuoteStop(lines, i) == e
    decreases e - i
  {
    if i < e {
      QuoteStopIs(lines, i + 1, e);
    }
  }

  /** The fragments of the quoted lines `lo` to `hi`, in order. */
  function QuoteFrags(lines: seq<string>, lo: nat, hi: nat): (r: seq<Fragment>)
    requires lo <= hi <= |lines|
    decreases hi
    ensures |r| <= hi - lo
  {
    if hi == lo then [] else QuoteFrags(lines, lo, hi - 1) + QuoteLine(Strip(lines[hi - 1]))
  }

  /** The index of the first line from `i` on whose stripped text opens a fence, or `|lines|`. */
  function FenceEnd(lines: seq<string>, i: nat): (r: nat)
    requires i <= |lines|
    decreases |lines| - i
    ensures i <= r <= |lines|
  {
    if i == |lines| || IsFence(Strip(lines[i])) then i else FenceEnd(lines, i + 1)
  }

  /** The code body ends at the first fence line from `i` on, and nowhere else. */
  lemma {:induction false} FenceEndIs(lines: seq<string>, i: nat, e: nat)
    requires i <= e <= |lines|
    requires forall j {:trigger IsFence(Strip(lines[j]))} :: i <= j < e ==> !IsFence(Strip(lines[j]))
    requires e == |lines| || IsFence(Strip(lines[e]))
    ensures FenceEnd(lines, i) == e
    decreases e - i
  {
    if i < e {
      FenceEndIs(lines, i + 1, e);
    }
  }

  /** The item a stripped line holds in a bullet (`ordered == false`) or numbered list. */
  function ItemOf(line: string, ordered: bool): (r: Option<string>)
    ensures r.Some? ==> |r.value| <= |line| && r.value == line[|line| - |r.value|..]
    ensures !ordered ==> (r.Some? <==> IsBullet(line))
    ensures ordered ==> (r.Some? <==> OrderedMarker(line).Some?)
  {
    if ordered then
      match OrderedMarker(line)
      case Some(k) => Some(line[k..])
      case None => None
    else if IsBullet(line) then Some(line[2..])
    else None
  }

  /** Where the items of a list run from line `i` end: the first line that holds no item. */
  function ListStop(lines: seq<string>, i: nat, ordered: bool): (r: nat)
    requires i <= |lines|
    decreases |lines| - i
    ensures i <= r <= |lines|
    ensures i < |lines| && ItemOf(Strip(lines[i]), ordered).Some? ==> r > i
  {
    if i == |lines| || ItemOf(Strip(lines[i]), ordered).None? then i else ListStop(lines, i + 1, ordered)
  }

  /** The items of a run end at the first line from `i` on that holds none, and nowhere else. */
  lemma {:induction false} ListStopIs(lines: seq<string>, i: nat, ordered: bool, e: nat)
    requires i <= e <= |lines|
    requires forall j {:trigger ItemOf(Strip(lines[j]), ordered)} :: i <= j < e ==> ItemOf(Strip(lines[j]), ordered).Some?
    requires e == |lines| || ItemOf(Strip(lines[e]), ordered).None?
    ensures ListStop(lines, i, ordered) == e
    decreases e - i
  {
    if i < e {
      ListStopIs(lines, i + 1, ordered, e);
    }
  }

  /** The items of the lines `lo` to `hi`, in order. */
  function ListItems(lines: seq<string>, lo: nat, hi: nat, ordered: bool): (r: seq<string>)
    requires lo <= hi <= |lines|
    decreases hi
  {
    if hi == lo then []
    else
      ListItems(lines, lo, hi - 1, ordered)
        + match ItemOf(Strip(lines[hi - 1]), ordered) case Some(x) => [x] case None => []
  }

  /**
   * Where the walk resumes after a list run whose items end at line `e`: a blank line
   * there is consumed and ends the run; any other line is left for the next block.
   */
  function AfterList(lines: seq<string>, e: nat): (r: nat)
    requires e <= |lines|
    ensures e <= r <= |lines|
  {
    if e < |lines| && Strip(lines[e]) == "" then e + 1 else e
  }

  /**
   * One turn of the loop of `_markdown_to_html` at line `i`: where the walk resumes
   * (one past the end of the stream when a closing line is missing), the fragments
   * of the block and the first-heading flag afterwards. Only an h1 changes the flag.
   */
  function Block(lines: seq<string>, i: nat, first: bool, urls: map<string, string>): (r: (nat, seq<Fragment>, bool))
    requires i < |lines|
    ensures i < r.0 <= |lines| + 1
  {
    var kind := BlockOf(Strip(lines[i]));
    match kind
    case QuoteSpan => var q := QuoteBlock(lines, i); (q.0, q.1, first)
    case Fence => var c := FenceBlock(lines, i); (c.0, c.1, first)
    case Bullet => var l := ListBlock(lines, i, false); (l.0, l.1, first)
    case Numbered => var l := ListBlock(lines, i, true); (l.0, l.1, first)
    case _ => LineBlock(lines, i, Strip(lines[i]), kind, first, urls)
  }

  /**
   * A quote span opened at line `i`: its quoted lines as fragments; the walk resumes
   * after the end sentinel.
   */
  function QuoteBlock(lines: seq<string>, i: nat): (r: (nat, seq<Fragment>))
    requires i < |lines|
    ensures i < r.0 <= |lines| + 1
  {
    var e := QuoteStop(lines, i + 1);
    (e + 1, QuoteFrags(lines, i + 1, e))
  }

  /**
   * A fenced block opened at line `i`: the raw lines up to the closing fence, joined
   * and escaped; the walk resumes after the closing fence.
   */
  function FenceBlock(lines: seq<string>, i: nat): (r: (nat, seq<Fragment>))
    requires i < |lines|
    ensures i < r.0 <= |lines| + 1 && |r.1| == 1
  {
    var e := FenceEnd(lines, i + 1);
    (e + 1, [CodeBlock(Escape(Join(lines[i + 1..e], "\n")))])
  }

  /** A list run starting at line `i`, as one list fragment. */
  function ListBlock(lines: seq<string>, i: nat, ordered: bool): (r: (nat, seq<Fragment>))
    requires i < |lines| && ItemOf(Strip(lines[i]), ordered).Some?
    ensures i < r.0 <= |lines| && |r.1| == 1
  {
    var e := ListStop(lines, i, ordered);
    var items := ListItems(lines, i, e, ordered);
    (AfterList(lines, e), [if ordered then NumberedList(items) else BulletList(items)])
  }

  /**
   * A block of the rules that take one line (two for a section sentinel); `line` is
   * line `i` stripped and `kind` the rule it starts.
   */
  function LineBlock(lines: seq<string>, i: nat, line: string, kind: BlockKind, first: bool, urls: map<string, string>): (r: (nat, seq<Fragment>, bool))
    requires i < |lines|
    requires !kind.QuoteSpan? && !kind.Fence? && !kind.Bullet? && !kind.Numbered?
    requires (kind.H1? ==> |line| >= 2) && (kind.H2? ==> |line| >= 3) && (kind.H3? ==> |line| >= 4)
    ensures i < r.0 <= |lines| && |r.1| <= 1
  {
    match kind
    case Blank => (i + 1, [], first)
    case TitleImageRef(n) =>
      if i + 1 < |lines| then (i + 2, [RenderTitleWithImage(n, Strip(lines[i + 1]), urls)], first)
      else (i + 1, [RenderTitleWithImage(n, "", urls)], first)
    case H1 => (i + 1, [Heading1(Strip(line[2..]), first)], false)
    case H2 => (i + 1, [Heading2(Strip(line[3..]))], first)
    case H3 => (i + 1, [Heading3(Strip(line[4..]))], first)
    case Img(ref) => (i + 1, [Image(ref.src, ref.alt)], first)
    case Rule => (i + 1, [Divider], first)
    case Para => (i + 1, [Paragraph(line)], first)
  }

  /** The fragments of the loop of `_markdown_to_html` from line `i` on. */
  function RenderFrom(lines: seq<string>, i: nat, first: bool, urls: map<string, string>): seq<Fragment>
    decreases |lines| - i, 1
  {
    if i >= |lines| then [] else BlockThenRest(lines, i, first, urls)
  }

  /** The fragments of the block at line `i`, then those of the walk from where it resumes. */
  function BlockThenRest(lines: seq<string>, i: nat, first: bool, urls: map<string, string>): seq<Fragment>
    requires i < |lines|
    decreases |lines| - i, 0
  {
    var b := Block(lines, i, first, urls);
    b.1 + RenderFrom(lines, b.0, b.2, urls)
  }

  /** One turn of the block loop: the fragments of the block at line `i`, then the rest. */
  lemma RenderFromStep(lines: seq<string>, i: nat, first: bool, urls: map<string, string>)
    requires i < |lines|
    ensures var b := Block(lines, i, first, urls);
      RenderFrom(lines, i, first, urls) == b.1 + RenderFrom(lines, b.0, b.2, urls)
  {
    assert RenderFrom(lines, i, first, urls) == BlockThenRest(lines, i, first, urls);
  }
}
