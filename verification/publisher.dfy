/**
 * The publisher's content steps: the upload of the section images and the
 * rewrite of local image references to their uploaded URLs, then the block pass
 * that turns the content stream into fragments. The uploads themselves are
 * abstracted: `existing` is the set of paths that exist and `uploads` maps a path
 * to the URL its upload returns (a missing key is a failed upload).
 */
module Publisher {
  import opened Text
  import opened Patterns
  import opened Render
  import Article

  /** The URL an upload of `path` returns; "" when it fails. */
  function Upload(uploads: map<string, string>, path: string): string
  {
    if path in uploads then uploads[path] else ""
  }

  /** `str(n)` for a one-digit `n`. */
  function DigitText(n: nat): (r: string)
    requires 1 <= n <= 9
    ensures |r| == 1 && IsDigit(r[0]) && r[0] as int - '0' as int == n
  {
    [('0' as int + n) as char]
  }

  /** `article_dir / "assets" / f"{n}.png"` */
  function TitleAssetPath(dir: string, n: nat): string
    requires 1 <= n <= 9
  {
    Article.JoinPath(dir, "assets/" + DigitText(n) + ".png")
  }

  /** Section number `n` gets a URL when its asset exists and its upload succeeds. */
  predicate TitleUploaded(dir: string, existing: set<string>, uploads: map<string, string>, n: nat)
    requires 1 <= n <= 9
  {
    TitleAssetPath(dir, n) in existing && Upload(uploads, TitleAssetPath(dir, n)) != ""
  }

  /** The URLs recorded by the section-image loop for the numbers `1 <= n < upTo`. */
  function TitleUploads(dir: string, existing: set<string>, uploads: map<string, string>, upTo: nat): (r: map<string, string>)
    requires upTo <= 10
    decreases upTo
  {
    if upTo <= 1 then map[]
    else
      var n := upTo - 1;
      var m := TitleUploads(dir, existing, uploads, n);
      if TitleUploaded(dir, existing, uploads, n) then m[DigitText(n) := Upload(uploads, TitleAssetPath(dir, n))]
      else m
  }

  /**
   * Section number `n` has an entry after the loop over `1 <= n < upTo` exactly when
   * its asset exists and its upload succeeded, and the entry is the uploaded URL.
   */
  lemma {:induction false} TitleUploadsHas(dir: string, existing: set<string>, uploads: map<string, string>, upTo: nat, n: nat)
    requires upTo <= 10 && 1 <= n <= 9
    ensures DigitText(n) in TitleUploads(dir, existing, uploads, upTo)
        <==> n < upTo && TitleUploaded(dir, existing, uploads, n)
    ensures DigitText(n) in TitleUploads(dir, existing, uploads, upTo)
        ==> TitleUploads(dir, existing, uploads, upTo)[DigitText(n)] == Upload(uploads, TitleAssetPath(dir, n))
    decreases upTo
  {
    if upTo > 1 {
      TitleUploadsHas(dir, existing, uploads, upTo - 1, n);
      if n != upTo - 1 {
        assert DigitText(n)[0] != DigitText(upTo - 1)[0];
      }
    }
  }

  /** The only keys are the one-digit numbers already tried. */
  lemma {:induction false} TitleUploadsKeys(dir: string, existing: set<string>, uploads: map<string, string>, upTo: nat)
    requires upTo <= 10
    ensures forall k :: k in TitleUploads(dir, existing, uploads, upTo) ==>
      |k| == 1 && 1 <= k[0] as int - '0' as int < upTo
    decreases upTo
  {
    if upTo > 1 {
      TitleUploadsKeys(dir, existing, uploads, upTo - 1);
    }
  }

  /** The content after one image reference has been considered for rewriting. */
  function RewriteOne(content: string, ref: ImageRef, dir: string, existing: set<string>, uploads: map<string, string>): string
  {
    if StartsWith(ref.src, "http") then content
    else
      var full := Article.JoinPath(dir, ref.src);
      var url := Upload(uploads, full);
      if full in existing && url != "" then
        ReplaceAll(content, "](" + ref.src + ")", "](" + url + ")")
      else content
  }

  /** The references considered in order, each rewrite applied to the result of the last. */
  function RewriteAll(content: string, refs: seq<ImageRef>, dir: string, existing: set<string>, uploads: map<string, string>): string
    decreases |refs|
  {
    if refs == [] then content
    else RewriteAll(RewriteOne(content, refs[0], dir, existing, uploads), refs[1..], dir, existing, uploads)
  }

  /** References to remote images are left as they are. */
  lemma {:induction false} RewriteAllRemote(content: string, refs: seq<ImageRef>, dir: string, existing: set<string>, uploads: map<string, string>)
    requires forall k :: 0 <= k < |refs| ==> StartsWith(refs[k].src, "http")
    ensures RewriteAll(content, refs, dir, existing, uploads) == content
    decreases |refs|
  {
    if refs != [] {
      RewriteAllRemote(content, refs[1..], dir, existing, uploads);
    }
  }

  /** When no upload succeeds, no reference is rewritten. */
  lemma {:induction false} RewriteAllNoUploads(content: string, refs: seq<ImageRef>, dir: string, existing: set<string>, uploads: map<string, string>)
    requires forall p :: p in uploads ==> uploads[p] == ""
    ensures RewriteAll(content, refs, dir, existing, uploads) == content
    decreases |refs|
  {
    if refs != [] {
      RewriteAllNoUploads(content, refs[1..], dir, existing, uploads);
    }
  }

  /** A reference whose text does not occur leaves the content unchanged. */
  lemma RewriteOneAbsent(content: string, ref: ImageRef, dir: string, existing: set<string>, uploads: map<string, string>)
    requires !Contains(content, "](" + ref.src + ")")
    ensures RewriteOne(content, ref, dir, existing, uploads) == content
  {
    if !StartsWith(ref.src, "http") {
      var url := Upload(uploads, Article.JoinPath(dir, ref.src));
      ReplaceAllAbsent(content, "](" + ref.src + ")", "](" + url + ")");
    }
  }

  /**
   * The text `](src)` cannot start inside a text that does not hold it and run on
   * into a later `](src)`: its only `)` is its last character.
   */
  lemma NoEarlyLink(a: string, src: string, b: string)
    requires ')' !in src
    requires !Contains(a, "](" + src + ")")
    ensures forall j :: 0 <= j < |a| ==> !OccursAt(a + ("](" + src + ")") + b, "](" + src + ")", j)
  {
    var pat := "](" + src + ")";
    var s := a + pat + b;
    var n := |pat|;
    forall j | 0 <= j < |a| ensures !OccursAt(s, pat, j) {
      if j + n <= |s| {
        if j + n <= |a| {
          assert a[j..j + n] == s[j..j + n];
          assert !OccursAt(a, pat, j);
        } else {
          var d := j + n - 1 - |a|;
          assert s[j..j + n][n - 1] == s[j + n - 1] == pat[d];
          if d >= 2 { assert pat[d] == src[d - 2]; }
          assert pat[d] != ')';
        }
      }
    }
  }

  /**
   * A local reference whose file exists and whose upload succeeds is rewritten, where
   * it is written, to the uploaded URL; the text around it is kept.
   */
  lemma RewriteOneLocal(a: string, b: string, ref: ImageRef, dir: string, existing: set<string>, uploads: map<string, string>)
    requires WellFormedRef(ref) && !StartsWith(ref.src, "http")
    requires Article.JoinPath(dir, ref.src) in existing
    requires Upload(uploads, Article.JoinPath(dir, ref.src)) != ""
    requires !Contains(a, "](" + ref.src + ")") && !Contains(b, "](" + ref.src + ")")
    ensures RewriteOne(a + ("](" + ref.src + ")") + b, ref, dir, existing, uploads)
      == a + ("](" + Upload(uploads, Article.JoinPath(dir, ref.src)) + ")") + b
  {
    var pat := "](" + ref.src + ")";
    NoEarlyLink(a, ref.src, b);
    ReplaceAllOnce(a, pat, "](" + Upload(uploads, Article.JoinPath(dir, ref.src)) + ")", b);
  }

  /**
   * Content holding one local image whose file exists and uploads comes out of the
   * whole rewrite with that image pointing at its URL and everything else kept.
   */
  lemma RewriteSingleLocal(a: string, b: string, ref: ImageRef, dir: string, existing: set<string>, uploads: map<string, string>)
    requires WellFormedRef(ref) && !StartsWith(ref.src, "http")
    requires Article.JoinPath(dir, ref.src) in existing
    requires Upload(uploads, Article.JoinPath(dir, ref.src)) != ""
    requires '!' !in a && '!' !in b
    requires !Contains(a + "![" + ref.alt, "](" + ref.src + ")") && !Contains(b, "](" + ref.src + ")")
    ensures var url := Upload(uploads, Article.JoinPath(dir, ref.src));
      RewriteAll(a + ImageText(ref) + b, FindAllImages(a + ImageText(ref) + b, 0), dir, existing, uploads)
        == a + ImageText(ImageRef(ref.alt, url)) + b
  {
    var head := a + "![" + ref.alt;
    var url := Upload(uploads, Article.JoinPath(dir, ref.src));
    FindOneImage(a, ref, b);
    LinkLayout(a, ref.alt, ref.src, b);
    RewriteOneLocal(head, b, ref, dir, existing, uploads);
    LinkLayout(a, ref.alt, url, b);
  }

  /** An image written between two texts, seen as the text up to its alt, its link, and the rest. */
  lemma LinkLayout(a: string, alt: string, src: string, b: string)
    ensures a + ImageText(ImageRef(alt, src)) + b == (a + "![" + alt) + ("](" + src + ")") + b
  {
    assert ImageText(ImageRef(alt, src)) == "![" + alt + ("](" + src + ")");
  }

  class WechatPublisher {
    const articleDir: string
    /** The configured author, shown in the footer. */
    const author: string
    /** Section number to uploaded URL. */
    var titleImageUrls: map<string, string>

    constructor (articleDir: string, author: string)
      ensures this.articleDir == articleDir && this.author == author && titleImageUrls == map[]
    {
      this.articleDir := articleDir;
      this.author := author;
      titleImageUrls := map[];
    }

    /**
     * `_process_content` on the parser's content: upload the section images
     * `assets/1.png` to `assets/9.png`, rewrite the local image references found in
     * the content, then render.
     */
    method ProcessContent(content: string, existing: set<string>, uploads: map<string, string>) returns (parts: seq<Fragment>)
      modifies this
      ensures titleImageUrls == old(titleImageUrls) + TitleUploads(articleDir, existing, uploads, 10)
      ensures parts == Document(RewriteAll(content, FindAllImages(content, 0), articleDir, existing, uploads))
    {
      UploadTitleImages(existing, uploads);
      var rewritten := RewriteImages(content, existing, uploads);
      parts := MarkdownToHtml(rewritten);
    }

    /** The section-image loop: every number whose asset exists and uploads is recorded. */
    method UploadTitleImages(existing: set<string>, uploads: map<string, string>)
      modifies this
      ensures titleImageUrls == old(titleImageUrls) + TitleUploads(articleDir, existing, uploads, 10)
    {
      var n := 1;
      while n < 10
        invariant 1 <= n <= 10
        invariant titleImageUrls == old(titleImageUrls) + TitleUploads(articleDir, existing, uploads, n)
        decreases 10 - n
      {
        var path := TitleAssetPath(articleDir, n);
        if path in existing {
          var url := Upload(uploads, path);
          if url != "" {
            titleImageUrls := titleImageUrls[DigitText(n) := url];
          }
        }
        n := n + 1;
      }
    }

    /** The reference loop: local images that exist and upload are pointed at their URL. */
    method RewriteImages(content: string, existing: set<string>, uploads: map<string, string>) returns (r: string)
      ensures r == RewriteAll(content, FindAllImages(content, 0), articleDir, existing, uploads)
    {
      var images := FindAllImages(content, 0);
      r := content;
      var k := 0;
      while k < |images|
        invariant k <= |images|
        invariant RewriteAll(r, images[k..], articleDir, existing, uploads)
               == RewriteAll(content, images, articleDir, existing, uploads)
        decreases |images| - k
      {
        var ref := images[k];
        assert images[k..][1..] == images[k + 1..];
        if !StartsWith(ref.src, "http") {
          var full := Article.JoinPath(articleDir, ref.src);
          if full in existing {
            var url := Upload(uploads, full);
            if url != "" {
              r := ReplaceAll(r, "](" + ref.src + ")", "](" + url + ")");
            }
          }
        }
        k := k + 1;
      }
    }

    /** The fragments of the whole article for a content stream `md`. */
    function Document(md: string): seq<Fragment>
      reads this
    {
      [Container] + RenderFrom(Split(md, '\n'), 0, true, titleImageUrls) + [Footer(author), Close]
    }

    /**
     * `_markdown_to_html`: the outer container, the fragments of the blocks in stream
     * order, then the footer and the closing tag.
     */
    method MarkdownToHtml(md: string) returns (parts: seq<Fragment>)
      ensures parts == [Container] + RenderFrom(Split(md, '\n'), 0, true, titleImageUrls) + [Footer(author), Close]
    {
      var lines := Split(md, '\n');
      var urls := titleImageUrls;
      parts := [Container];
      var first := true;
      var i: nat := 0;
      while i < |lines|
        invariant parts + RenderFrom(lines, i, first, urls) == [Container] + RenderFrom(lines, 0, true, urls)
      {
        var frags;
        ghost var i0, first0, parts0 := i, first, parts;
        i, frags, first := RenderBlock(lines, i, first);
        RenderFromStep(lines, i0, first0, urls);
        parts := parts + frags;
        Regroup(parts0, frags, RenderFrom(lines, i, first, urls));
      }
      parts := parts + [Footer(author), Close];
    }

    /**
     * One turn of the loop of `_markdown_to_html`, at line `i0`: the rules that read
     * a run of lines have inner loops of their own; the others take one line.
     */
    method RenderBlock(lines: seq<string>, i0: nat, first0: bool) returns (i: nat, frags: seq<Fragment>, first: bool)
      requires i0 < |lines|
      ensures (i, frags, first) == Block(lines, i0, first0, titleImageUrls)
    {
      var line := Strip(lines[i0]);
      var kind := BlockOf(line);
      first := first0;
      if kind.QuoteSpan? {
        i, frags := RenderQuote(lines, i0);
      } else if kind.Fence? {
        i, frags := RenderCode(lines, i0);
      } else if kind.Bullet? || kind.Numbered? {
        i, frags := RenderList(lines, i0, kind.Numbered?);
      } else {
        var b := LineBlock(lines, i0, line, kind, first0, titleImageUrls);
        i, frags, first := b.0, b.1, b.2;
      }
    }

    /**
     * A quote span opened at line `i0`: images and paragraphs for its lines up to the
     * end sentinel, which is skipped.
     */
    static method RenderQuote(lines: seq<string>, i0: nat) returns (i: nat, frags: seq<Fragment>)
      requires i0 < |lines|
      ensures (i, frags) == QuoteBlock(lines, i0)
    {
      i, frags := i0 + 1, [];
      while i < |lines| && Strip(lines[i]) != Article.QuoteEnd
        invariant i0 + 1 <= i <= |lines|
        invariant QuoteStop(lines, i) == QuoteStop(lines, i0 + 1)
        invariant frags == QuoteFrags(lines, i0 + 1, i)
        decreases |lines| - i
      {
        var quoteLine := Strip(lines[i]);
        if quoteLine != [] {
          var f := RenderQuoteLine(quoteLine);
          frags := frags + [f];
        }
        i := i + 1;
      }
      i := i + 1;
    }

    /** A non-blank line inside a quote span: an image when it is one, else a paragraph. */
    static method RenderQuoteLine(quoteLine: string) returns (f: Fragment)
      requires quoteLine != []
      ensures [f] == QuoteLine(quoteLine)
    {
      var m := MatchImage(quoteLine);
      if m.Some? {
        f := Image(m.value.src, m.value.alt);
      } else {
        f := Paragraph(quoteLine);
      }
    }

    /**
     * A fenced block opened at line `i0`: the raw lines up to the closing fence,
     * joined and escaped; the closing fence is skipped.
     */
    static method RenderCode(lines: seq<string>, i0: nat) returns (i: nat, frags: seq<Fragment>)
      requires i0 < |lines|
      ensures (i, frags) == FenceBlock(lines, i0)
    {
      var codeLines;
      i, codeLines := CollectCode(lines, i0 + 1);
      frags := [CodeBlock(Escape(Join(codeLines, "\n")))];
      i := i + 1;
    }

    /** The inner loop of a fenced block: the raw lines up to the closing fence. */
    static method CollectCode(lines: seq<string>, i0: nat) returns (i: nat, codeLines: seq<string>)
      requires i0 <= |lines|
      ensures i == FenceEnd(lines, i0) && codeLines == lines[i0..i]
    {
      i, codeLines := i0, [];
      while i < |lines| && !IsFence(Strip(lines[i]))
        invariant i0 <= i <= |lines|
        invariant forall j {:trigger IsFence(Strip(lines[j]))} :: i0 <= j < i ==> !IsFence(Strip(lines[j]))
        invariant codeLines == lines[i0..i]
        decreases |lines| - i
      {
        assert lines[i0..i + 1] == lines[i0..i] + [lines[i]];
        codeLines := codeLines + [lines[i]];
        i := i + 1;
      }
      FenceEndIs(lines, i0, i);
    }

    /**
     * A list run from line `i0`: the items of the lines that hold one, as one list;
     * a blank line after them is consumed, any other line is left for the next block.
     */
    static method RenderList(lines: seq<string>, i0: nat, ordered: bool) returns (i: nat, frags: seq<Fragment>)
      requires i0 < |lines| && ItemOf(Strip(lines[i0]), ordered).Some?
      ensures (i, frags) == ListBlock(lines, i0, ordered)
    {
      var items;
      i, items := CollectList(lines, i0, ordered);
      frags := [if ordered then NumberedList(items) else BulletList(items)];
    }

    /** The inner loop of a list run. */
    static method CollectList(lines: seq<string>, i0: nat, ordered: bool) returns (i: nat, items: seq<string>)
      requires i0 <= |lines|
      ensures i == AfterList(lines, ListStop(lines, i0, ordered))
      ensures items == ListItems(lines, i0, ListStop(lines, i0, ordered), ordered)
    {
      i, items := i0, [];
      ghost var stopped := false;
      while i < |lines|
        invariant i0 <= i <= |lines| && !stopped
        invariant forall j {:trigger ItemOf(Strip(lines[j]), ordered)} :: i0 <= j < i ==> ItemOf(Strip(lines[j]), ordered).Some?
        invariant items == ListItems(lines, i0, i, ordered)
        decreases |lines| - i
      {
        var l := Strip(lines[i]);
        var item := ItemOf(l, ordered);
        if item.Some? {
          items := items + [item.value];
          i := i + 1;
        } else if l == [] {
          ListStopIs(lines, i0, ordered, i);
          stopped := true;
          i := i + 1;
          break;
        } else {
          ListStopIs(lines, i0, ordered, i);
          stopped := true;
          break;
        }
      }
      if !stopped {
        ListStopIs(lines, i0, ordered, i);
      }
    }
  }
}
