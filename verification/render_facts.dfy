/**
 * What the block pass guarantees: code bodies are escaped reversibly and hold no
 * raw angle brackets, an unterminated fence takes the rest of the stream, list
 * runs end at the first blank line, a section sentinel without an uploaded image
 * falls back to a non-first h1, at most one h1 gets the first-heading margin, and
 * plain lines become paragraphs in order with blank lines emitting nothing.
 */
module RenderFacts {
  import opened Text
  import opened Patterns
  import opened Inline
  import opened InlineFacts
  import opened Render
  import Article

  // ----- Escaping -----

  function EscapeChar(c: char): string
  {
    if c == '&' then "&amp;" else if c == '<' then "&lt;" else if c == '>' then "&gt;" else [c]
  }

  /** The escape as a map over characters. */
  function EscapeEach(s: string): string
  {
    if s == [] then [] else EscapeChar(s[0]) + EscapeEach(s[1..])
  }

  /** The inverse of the escape: each entity back to its character. */
  function Unescape(s: string): string
    decreases |s|
  {
    if s == [] then []
    else if StartsWith(s, "&amp;") then "&" + Unescape(s[5..])
    else if StartsWith(s, "&lt;") then "<" + Unescape(s[4..])
    else if StartsWith(s, "&gt;") then ">" + Unescape(s[4..])
    else [s[0]] + Unescape(s[1..])
  }

  lemma {:induction false} MapCharAbsent(s: string, c: char, rep: string)
    requires c !in s
    ensures MapChar(s, c, rep) == s
  {
    if s != [] {
      MapCharAbsent(s[1..], c, rep);
    }
  }

  lemma MapCharOne(c: char, x: char, rep: string)
    ensures MapChar([c], x, rep) == if c == x then rep else [c]
  {
    assert [c][1..] == [];
  }

  /** The three passes on one character give that character's escape. */
  lemma EscapeOneChar(c: char)
    ensures MapChar(MapChar(MapChar([c], '&', "&amp;"), '<', "&lt;"), '>', "&gt;") == EscapeChar(c)
  {
    MapCharOne(c, '&', "&amp;");
    if c == '&' {
      MapCharAbsent("&amp;", '<', "&lt;");
      MapCharAbsent("&amp;", '>', "&gt;");
    } else if c == '<' {
      MapCharOne(c, '<', "&lt;");
      MapCharAbsent("&lt;", '>', "&gt;");
    } else {
      MapCharOne(c, '<', "&lt;");
      MapCharOne(c, '>', "&gt;");
    }
  }

  /** Replacing `&`, then `<`, then `>` escapes every character on its own. */
  lemma {:induction false} EscapeIsPerChar(s: string)
    ensures Escape(s) == EscapeEach(s)
  {
    ReplaceCharIsMap(s, '&', "&amp;");
    var amp := MapChar(s, '&', "&amp;");
    ReplaceCharIsMap(amp, '<', "&lt;");
    var lt := MapChar(amp, '<', "&lt;");
    ReplaceCharIsMap(lt, '>', "&gt;");
    ThreePassesPerChar(s);
  }

  lemma {:induction false} ThreePassesPerChar(s: string)
    ensures MapChar(MapChar(MapChar(s, '&', "&amp;"), '<', "&lt;"), '>', "&gt;") == EscapeEach(s)
  {
    if s != [] {
      var c, t := s[0], s[1..];
      assert s == [c] + t;
      ThreePassesPerChar(t);
      MapCharAppend([c], t, '&', "&amp;");
      var a1, a2 := MapChar([c], '&', "&amp;"), MapChar(t, '&', "&amp;");
      MapCharAppend(a1, a2, '<', "&lt;");
      var b1, b2 := MapChar(a1, '<', "&lt;"), MapChar(a2, '<', "&lt;");
      MapCharAppend(b1, b2, '>', "&gt;");
      EscapeOneChar(c);
    }
  }

  lemma UnescapeOne(c: char, rest: string)
    ensures Unescape(EscapeChar(c) + rest) == [c] + Unescape(rest)
  {
    if c == '&' {
      UnescapeAmp(rest);
    } else if c == '<' {
      UnescapeLt(rest);
    } else if c == '>' {
      UnescapeGt(rest);
    } else {
      var s := [c] + rest;
      assert s[0] == c && s[1..] == rest;
    }
  }

  lemma UnescapeAmp(rest: string)
    ensures Unescape("&amp;" + rest) == "&" + Unescape(rest)
  {
    var s := "&amp;" + rest;
    assert s[..5] == "&amp;" && s[5..] == rest;
  }

  lemma UnescapeLt(rest: string)
    ensures Unescape("&lt;" + rest) == "<" + Unescape(rest)
  {
    var s := "&lt;" + rest;
    assert s[..4] == "&lt;" && s[4..] == rest;
    assert !StartsWith(s, "&amp;") by { assert s[1] != "&amp;"[1]; }
  }

  lemma UnescapeGt(rest: string)
    ensures Unescape("&gt;" + rest) == ">" + Unescape(rest)
  {
    var s := "&gt;" + rest;
    assert s[..4] == "&gt;" && s[4..] == rest;
    assert !StartsWith(s, "&amp;") by { assert s[1] != "&amp;"[1]; }
    assert !StartsWith(s, "&lt;") by { assert s[1] != "&lt;"[1]; }
  }

  /** The escaped code body decodes back to the original text. */
  lemma {:induction false} UnescapeEscape(s: string)
    ensures Unescape(Escape(s)) == s
  {
    EscapeIsPerChar(s);
    UnescapeEscapeEach(s);
  }

  lemma {:induction false} UnescapeEscapeEach(s: string)
    ensures Unescape(EscapeEach(s)) == s
  {
    if s != [] {
      UnescapeEscapeEach(s[1..]);
      UnescapeOne(s[0], EscapeEach(s[1..]));
    }
  }

  // ----- Fences and quote spans -----

  /** The fence search stops at a fence line, and no earlier line is one. */
  lemma {:induction false} FenceEndFirst(lines: seq<string>, i: nat)
    requires i <= |lines|
    ensures FenceEnd(lines, i) < |lines| ==> IsFence(Strip(lines[FenceEnd(lines, i)]))
    ensures forall j {:trigger IsFence(Strip(lines[j]))} :: i <= j < FenceEnd(lines, i) ==> !IsFence(Strip(lines[j]))
    decreases |lines| - i
  {
    if i < |lines| && !IsFence(Strip(lines[i])) {
      FenceEndFirst(lines, i + 1);
    }
  }

  /** A fence that is never closed takes every later line into its code body. */
  lemma UnterminatedFenceBlock(lines: seq<string>, i: nat)
    requires i < |lines|
    requires forall j {:trigger IsFence(Strip(lines[j]))} :: i < j < |lines| ==> !IsFence(Strip(lines[j]))
    ensures FenceBlock(lines, i) == (|lines| + 1, [CodeBlock(Escape(Join(lines[i + 1..], "\n")))])
  {
    FenceEndIs(lines, i + 1, |lines|);
    assert lines[i + 1..|lines|] == lines[i + 1..];
  }

  /** An unclosed fence is the last block of the article. */
  lemma UnterminatedFence(lines: seq<string>, i: nat, first: bool, urls: map<string, string>)
    requires i < |lines| && BlockOf(Strip(lines[i])) == Fence
    requires forall j {:trigger IsFence(Strip(lines[j]))} :: i < j < |lines| ==> !IsFence(Strip(lines[j]))
    ensures RenderFrom(lines, i, first, urls) == [CodeBlock(Escape(Join(lines[i + 1..], "\n")))]
  {
    UnterminatedFenceBlock(lines, i);
    RenderFromStep(lines, i, first, urls);
    assert Block(lines, i, first, urls).0 == |lines| + 1;
  }

  /** A quote span stops at an end sentinel, and no earlier line is one. */
  lemma {:induction false} QuoteStopFirst(lines: seq<string>, i: nat)
    requires i <= |lines|
    ensures QuoteStop(lines, i) < |lines| ==> Strip(lines[QuoteStop(lines, i)]) == Article.QuoteEnd
    ensures forall j {:trigger Strip(lines[j])} :: i <= j < QuoteStop(lines, i) ==> Strip(lines[j]) != Article.QuoteEnd
    decreases |lines| - i
  {
    if i < |lines| && Strip(lines[i]) != Article.QuoteEnd {
      QuoteStopFirst(lines, i + 1);
    }
  }

  /** Every fragment of a quote span is an image or a paragraph, one per non-blank line. */
  lemma {:induction false} QuoteFragsKinds(lines: seq<string>, lo: nat, hi: nat)
    requires lo <= hi <= |lines|
    ensures forall f :: f in QuoteFrags(lines, lo, hi) ==> f.Image? || f.Paragraph?
    decreases hi
  {
    if hi > lo {
      QuoteFragsKinds(lines, lo, hi - 1);
      var a, b := QuoteFrags(lines, lo, hi - 1), QuoteLine(Strip(lines[hi - 1]));
      assert QuoteFrags(lines, lo, hi) == a + b;
      forall f: Fragment | f in a + b ensures f.Image? || f.Paragraph? {
        if f !in a {
          assert f == b[0];
        }
      }
    }
  }

  // ----- List runs -----

  /** The items of lines that each hold one, in order. */
  lemma {:induction false} ListItemsAll(lines: seq<string>, lo: nat, hi: nat, ordered: bool, items: seq<string>)
    requires lo <= hi <= |lines| && |items| == hi - lo
    requires forall j {:trigger ItemOf(Strip(lines[j]), ordered)} :: lo <= j < hi ==> ItemOf(Strip(lines[j]), ordered) == Some(items[j - lo])
    ensures ListItems(lines, lo, hi, ordered) == items
    decreases hi
  {
    if hi > lo {
      var init := items[..|items| - 1];
      forall j | lo <= j < hi - 1 ensures ItemOf(Strip(lines[j]), ordered) == Some(init[j - lo]) {
        assert init[j - lo] == items[j - lo];
      }
      ListItemsAll(lines, lo, hi - 1, ordered, init);
      ListItemsSnoc(lines, lo, hi, ordered, items[hi - 1 - lo]);
      assert items == init + [items[hi - 1 - lo]];
    }
  }

  lemma ListItemsSnoc(lines: seq<string>, lo: nat, hi: nat, ordered: bool, x: string)
    requires lo < hi <= |lines| && ItemOf(Strip(lines[hi - 1]), ordered) == Some(x)
    ensures ListItems(lines, lo, hi, ordered) == ListItems(lines, lo, hi - 1, ordered) + [x]
  {
  }

  /**
   * Lines that each hold an item, then a blank line: the run takes the items in
   * order and the walk resumes after the blank line.
   */
  lemma ListRunToBlank(lines: seq<string>, i: nat, e: nat, ordered: bool, items: seq<string>)
    requires i < e < |lines| && |items| == e - i
    requires forall j {:trigger ItemOf(Strip(lines[j]), ordered)} :: i <= j < e ==> ItemOf(Strip(lines[j]), ordered) == Some(items[j - i])
    requires Strip(lines[e]) == ""
    ensures ListBlock(lines, i, ordered) == (e + 1, [if ordered then NumberedList(items) else BulletList(items)])
  {
    assert ItemOf("", ordered).None? by {
      assert !StartsWith("", "- ") && !StartsWith("", "* ");
      assert DigitRunEnd("", 0) == 0;
    }
    ListStopIs(lines, i, ordered, e);
    ListItemsAll(lines, i, e, ordered, items);
  }

  /** A bullet line `- x` holds the item `x`. */
  lemma BulletItem(x: string)
    requires x != [] && !IsSpace(x[|x| - 1])
    ensures ItemOf(Strip("- " + x), false) == Some(x)
  {
    var s := "- " + x;
    StripTrimmed(s);
    assert s[..2] == "- ";
    assert s[2..] == x;
  }

  /** A numbered line `d. x` holds the item `x`. */
  lemma NumberedItem(d: string, x: string)
    requires d != [] && AllDigits(d) && x != [] && !IsSpace(x[|x| - 1])
    ensures ItemOf(Strip(d + ". " + x), true) == Some(x)
  {
    var s := d + ". " + x;
    assert !IsSpace(s[0]) by { assert s[0] == d[0]; }
    StripTrimmed(s);
    forall j | 0 <= j < |d| ensures IsDigit(s[j]) {
      assert s[j] == d[j];
    }
    assert !IsDigit(s[|d|]);
    DigitRunEndAt(s, 0, |d|);
    assert s[|d|..|d| + 2] == ". ";
    assert s[|d| + 2..] == x;
  }

  lemma ListExampleBlock()
    ensures ListBlock(["- a", "- b", "", "next"], 0, false) == (3, [BulletList(["a", "b"])])
  {
    var lines := ["- a", "- b", "", "next"];
    BulletItem("a");
    BulletItem("b");
    assert lines[0] == "- " + "a" && lines[1] == "- " + "b";
    assert Strip(lines[2]) == "";
    ListRunToBlank(lines, 0, 2, false, ["a", "b"]);
  }

  lemma NextIsParagraph()
    ensures BlockOf(Strip("next")) == Para
  {
    StripTrimmed("next");
    assert MatchTitleImage("next").None?;
    assert MatchImage("next").None?;
    assert DigitRunEnd("next", 0) == 0;
  }

  lemma BulletLineKind()
    ensures BlockOf(Strip("- a")) == Bullet
  {
    StripTrimmed("- a");
    assert MatchTitleImage("- a").None?;
    assert !IsFence("- a");
    assert MatchImage("- a").None?;
    assert IsBullet("- a");
  }

  lemma ListExampleFirst(first: bool, urls: map<string, string>)
    ensures Block(["- a", "- b", "", "next"], 0, first, urls) == (3, [BulletList(["a", "b"])], first)
  {
    var lines := ["- a", "- b", "", "next"];
    BulletLineKind();
    assert BlockOf(Strip(lines[0])) == Bullet;
    ListExampleBlock();
  }

  lemma ListExampleNext(first: bool, urls: map<string, string>)
    ensures Block(["- a", "- b", "", "next"], 3, first, urls) == (4, [Paragraph("next")], first)
  {
    NextIsParagraph();
    StripTrimmed("next");
  }

  /** `["- a", "- b", "", "next"]`: one two-item list, then the paragraph `next`. */
  lemma ListExample(first: bool, urls: map<string, string>)
    ensures RenderFrom(["- a", "- b", "", "next"], 0, first, urls)
         == [BulletList(["a", "b"]), Paragraph("next")]
  {
    var lines := ["- a", "- b", "", "next"];
    ListExampleFirst(first, urls);
    ListExampleNext(first, urls);
    assert RenderFrom(lines, 4, first, urls) == [];
    assert RenderFrom(lines, 3, first, urls) == [Paragraph("next")];
  }

  // ----- Section images -----

  lemma StripTwice(s: string)
    ensures Strip(Strip(s)) == Strip(s)
  {
    StripTrimmed(Strip(s));
  }

  /**
   * A section sentinel whose number has no uploaded URL renders the next line as a
   * non-first h1 with its leading `#`s removed, and leaves the first-heading flag alone.
   */
  lemma TitleImageFallback(lines: seq<string>, i: nat, n: string, first: bool, urls: map<string, string>)
    requires i + 1 < |lines| && BlockOf(Strip(lines[i])) == TitleImageRef(n)
    requires n !in urls || urls[n] == ""
    ensures Block(lines, i, first, urls)
         == (i + 2, [Heading1(DropHashes(Strip(lines[i + 1])), false)], first)
  {
    StripTwice(lines[i + 1]);
  }

  /** With an uploaded URL, the sentinel and the next line become one image-and-title block. */
  lemma TitleImageUploaded(lines: seq<string>, i: nat, n: string, first: bool, urls: map<string, string>)
    requires i + 1 < |lines| && BlockOf(Strip(lines[i])) == TitleImageRef(n)
    requires n in urls && urls[n] != ""
    ensures Block(lines, i, first, urls)
         == (i + 2, [TitleImage(urls[n], n, DropHashes(Strip(lines[i + 1])))], first)
  {
    StripTwice(lines[i + 1]);
  }

  // ----- The first-heading margin -----

  /** The number of h1 fragments that carry the first-heading margin. */
  function FirstMargins(frags: seq<Fragment>): nat
  {
    if frags == [] then 0
    else (if frags[0].Heading1? && frags[0].first then 1 else 0) + FirstMargins(frags[1..])
  }

  lemma {:induction false} FirstMarginsAppend(a: seq<Fragment>, b: seq<Fragment>)
    ensures FirstMargins(a + b) == FirstMargins(a) + FirstMargins(b)
  {
    if a != [] {
      FirstMarginsAppend(a[1..], b);
      assert (a + b)[1..] == a[1..] + b;
    } else {
      assert a + b == b;
    }
  }

  lemma {:induction false} NoHeadingNoMargin(frags: seq<Fragment>)
    requires forall f :: f in frags ==> !f.Heading1?
    ensures FirstMargins(frags) == 0
  {
    if frags != [] {
      assert frags[0] in frags;
      NoHeadingNoMargin(frags[1..]);
    }
  }

  /** A block uses up the first-heading margin at most once, and only while it is available. */
  lemma BlockFirstMargin(lines: seq<string>, i: nat, first: bool, urls: map<string, string>)
    requires i < |lines|
    ensures FirstMargins(Block(lines, i, first, urls).1) + (if Block(lines, i, first, urls).2 then 1 else 0)
         <= (if first then 1 else 0)
  {
    var kind := BlockOf(Strip(lines[i]));
    var b := Block(lines, i, first, urls);
    if kind.QuoteSpan? {
      QuoteFragsKinds(lines, i + 1, QuoteStop(lines, i + 1));
      NoHeadingNoMargin(QuoteFrags(lines, i + 1, QuoteStop(lines, i + 1)));
    } else if kind.Fence? || kind.Bullet? || kind.Numbered? {
      assert |b.1| == 1 && !b.1[0].Heading1? && b.2 == first;
      assert b.1 == [b.1[0]];
      FirstMarginsOne(b.1[0]);
    } else {
      assert b == LineBlock(lines, i, Strip(lines[i]), kind, first, urls);
      LineBlockFlag(lines, i, Strip(lines[i]), kind, first, urls);
    }
  }

  lemma FirstMarginsOne(f: Fragment)
    ensures FirstMargins([f]) == if f.Heading1? && f.first then 1 else 0
  {
    assert [f][1..] == [];
  }

  /**
   * A one-line block: only an h1 takes the first-heading flag, and it clears it; any
   * other block passes it on and carries no first-heading margin.
   */
  lemma LineBlockFlag(lines: seq<string>, i: nat, line: string, kind: BlockKind, first: bool, urls: map<string, string>)
    requires i < |lines|
    requires !kind.QuoteSpan? && !kind.Fence? && !kind.Bullet? && !kind.Numbered?
    requires (kind.H1? ==> |line| >= 2) && (kind.H2? ==> |line| >= 3) && (kind.H3? ==> |line| >= 4)
    ensures var r := LineBlock(lines, i, line, kind, first, urls);
      && (r.2 == if kind.H1? then false else first)
      && FirstMargins(r.1) + (if r.2 then 1 else 0) <= (if first then 1 else 0)
  {
    var r := LineBlock(lines, i, line, kind, first, urls);
    if r.1 != [] {
      assert r.1 == [r.1[0]];
      FirstMarginsOne(r.1[0]);
    }
  }

  /** At most one h1 of the article gets the first-heading margin, and none once it is used. */
  lemma {:induction false} AtMostOneFirstHeading(lines: seq<string>, i: nat, first: bool, urls: map<string, string>)
    ensures FirstMargins(RenderFrom(lines, i, first, urls)) <= (if first then 1 else 0)
    decreases |lines| - i
  {
    if i < |lines| {
      var b := Block(lines, i, first, urls);
      BlockFirstMargin(lines, i, first, urls);
      AtMostOneFirstHeading(lines, b.0, b.2, urls);
      FirstMarginsAppend(b.1, RenderFrom(lines, b.0, b.2, urls));
    }
  }

  /** Only a `# ` line uses up the first-heading flag: every other block passes it on. */
  lemma NonHeadingKeepsFlag(lines: seq<string>, i: nat, first: bool, urls: map<string, string>)
    requires i < |lines| && !BlockOf(Strip(lines[i])).H1?
    ensures Block(lines, i, first, urls).2 == first
  {
    var kind := BlockOf(Strip(lines[i]));
    if !kind.QuoteSpan? && !kind.Fence? && !kind.Bullet? && !kind.Numbered? {
      LineBlockFlag(lines, i, Strip(lines[i]), kind, first, urls);
    }
  }

  /** A `# ` line is one h1 that takes the flag it is given, and clears it for the rest. */
  lemma HeadingTakesFlag(lines: seq<string>, i: nat, first: bool, urls: map<string, string>)
    requires i < |lines| && BlockOf(Strip(lines[i])).H1?
    ensures Block(lines, i, first, urls) == (i + 1, [Heading1(Strip(Strip(lines[i])[2..]), first)], false)
  {
  }

  /** A `## ` line is never an h1, whatever follows the marker. */
  lemma SecondLevelNotFirst(x: string)
    ensures !BlockOf("## " + x).H1?
  {
    var s := "## " + x;
    assert s[..3] == "## ";
  }

  // ----- Plain lines -----

  /** A blank line emits no fragment and the walk moves to the next line. */
  lemma BlankLineSkipped(lines: seq<string>, i: nat, first: bool, urls: map<string, string>)
    requires i < |lines| && Strip(lines[i]) == ""
    ensures Block(lines, i, first, urls) == (i + 1, [], first)
  {
  }

  /** A line the block pass takes as blank or as a paragraph. */
  predicate ParagraphLine(l: string)
  {
    BlockOf(Strip(l)) == Blank || BlockOf(Strip(l)) == Para
  }

  /** A paragraph for a non-blank line, nothing for a blank one. */
  function ParagraphOf(l: string): seq<Fragment>
  {
    if Strip(l) == [] then [] else [Paragraph(Strip(l))]
  }

  /** One paragraph per non-blank line, in order. */
  function Paragraphs(ls: seq<string>): seq<Fragment>
  {
    if ls == [] then [] else ParagraphOf(ls[0]) + Paragraphs(ls[1..])
  }

  /** Blank lines emit nothing, and paragraphs come out in stream order. */
  lemma {:induction false} ParagraphLines(lines: seq<string>, i: nat, first: bool, urls: map<string, string>)
    requires i <= |lines|
    requires forall k {:trigger ParagraphLine(lines[k])} :: i <= k < |lines| ==> ParagraphLine(lines[k])
    ensures RenderFrom(lines, i, first, urls) == Paragraphs(lines[i..])
    decreases |lines| - i
  {
    if i < |lines| {
      ParagraphStep(lines, i, first, urls);
      ParagraphLines(lines, i + 1, first, urls);
    }
  }

  /** A blank line emits nothing; a paragraph line emits its stripped text; the walk moves on. */
  lemma ParagraphStep(lines: seq<string>, i: nat, first: bool, urls: map<string, string>)
    requires i < |lines| && ParagraphLine(lines[i])
    ensures RenderFrom(lines, i, first, urls) == ParagraphOf(lines[i]) + RenderFrom(lines, i + 1, first, urls)
    ensures Paragraphs(lines[i..]) == ParagraphOf(lines[i]) + Paragraphs(lines[i + 1..])
  {
    RenderFromStep(lines, i, first, urls);
    assert Block(lines, i, first, urls) == (i + 1, ParagraphOf(lines[i]), first);
    assert lines[i..][0] == lines[i];
    assert lines[i..][1..] == lines[i + 1..];
  }
}
