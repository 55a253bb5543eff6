/**
 * Hand-written matchers, one per regular expression the article pipeline uses.
 * Each is deterministic: the pattern's greedy runs cannot give characters back
 * usefully, so the first candidate is the only one.
 */
module Patterns {
  import opened Text

  /** The end of the maximal run of digits starting at `k`. */
  function DigitRunEnd(s: string, k: nat): (r: nat)
    requires k <= |s|
    decreases |s| - k
    ensures k <= r <= |s|
    ensures forall j :: k <= j < r ==> IsDigit(s[j])
    ensures r < |s| ==> !IsDigit(s[r])
  {
    if k < |s| && IsDigit(s[k]) then DigitRunEnd(s, k + 1) else k
  }

  predicate AllDigits(d: string)
  {
    forall k :: 0 <= k < |d| ==> IsDigit(d[k])
  }

  /** A markdown image reference `![alt](src)` found in a text. */
  datatype ImageRef = ImageRef(alt: string, src: string)

  /** The text an image reference is written as. */
  function ImageText(r: ImageRef): string
  {
    "![" + r.alt + "](" + r.src + ")"
  }

  /** An image reference the pattern `!\[([^\]]*)\]\(([^)]+)\)` can produce. */
  predicate WellFormedRef(r: ImageRef)
  {
    ']' !in r.alt && r.src != [] && ')' !in r.src
  }

  /**
   * `re.match(r'!\[([^\]]*)\]\(([^)]+)\)', s[p..])`: the reference and the index just past it.
   */
  function MatchImageAt(s: string, p: nat): (r: Option<(ImageRef, nat)>)
    requires p <= |s|
    ensures r.Some? ==> p < r.value.1 <= |s|
  {
    if !OccursAt(s, "![", p) then None
    else
      var k := IndexOfChar(s, ']', p + 2);
      if k + 1 >= |s| || s[k + 1] != '(' then None
      else
        var m := IndexOfChar(s, ')', k + 2);
        if m == |s| || m == k + 2 then None
        else Some((ImageRef(s[p + 2..k], s[k + 2..m]), m + 1))
  }

  /** A match is a well-formed reference, written out exactly where it was found. */
  lemma MatchImageSound(s: string, p: nat)
    requires p <= |s|
    ensures MatchImageAt(s, p).Some? ==> WellFormedRef(MatchImageAt(s, p).value.0)
    ensures MatchImageAt(s, p).Some? ==>
      s[p..MatchImageAt(s, p).value.1] == ImageText(MatchImageAt(s, p).value.0)
  {
    MatchImageWellFormed(s, p);
    if MatchImageAt(s, p).Some? {
      var k := IndexOfChar(s, ']', p + 2);
      var m := IndexOfChar(s, ')', k + 2);
      assert MatchImageAt(s, p) == Some((ImageRef(s[p + 2..k], s[k + 2..m]), m + 1));
      assert s[p..p + 2] == "![";
      ImageTextAt(s, p, k, m);
    }
  }

  /** Text laid out as `![`, then `]`, `(` at `k` and `)` at `m` is the written form of its parts. */
  lemma ImageTextAt(s: string, p: nat, k: nat, m: nat)
    requires p + 2 <= k && k + 2 <= m < |s|
    requires s[p..p + 2] == "![" && s[k] == ']' && s[k + 1] == '(' && s[m] == ')'
    ensures s[p..m + 1] == ImageText(ImageRef(s[p + 2..k], s[k + 2..m]))
  {
    var alt, src := s[p + 2..k], s[k + 2..m];
    assert s[p..k] == s[p..p + 2] + alt;
    assert s[p..k + 2] == s[p..k] + "](";
    assert s[p..m] == s[p..k + 2] + src;
    assert s[p..m + 1] == s[p..m] + ")";
  }

  /** A match is a well-formed reference: the character classes of the pattern hold of its parts. */
  lemma MatchImageWellFormed(s: string, p: nat)
    requires p <= |s|
    ensures MatchImageAt(s, p).Some? ==> WellFormedRef(MatchImageAt(s, p).value.0)
  {
    if MatchImageAt(s, p).Some? {
      var k := IndexOfChar(s, ']', p + 2);
      var m := IndexOfChar(s, ')', k + 2);
      var alt, src := s[p + 2..k], s[k + 2..m];
      assert MatchImageAt(s, p).value.0 == ImageRef(alt, src);
      assert ']' !in alt by {
        forall j | 0 <= j < |alt| ensures alt[j] != ']' { assert alt[j] == s[p + 2 + j]; }
      }
      assert ')' !in src by {
        forall j | 0 <= j < |src| ensures src[j] != ')' { assert src[j] == s[k + 2 + j]; }
      }
    }
  }

  /** `re.match` of the image pattern at the start of a line. */
  function MatchImage(s: string): (r: Option<ImageRef>)
  {
    var m := MatchImageAt(s, 0);
    if m.Some? then Some(m.value.0) else None
  }

  /** Every well-formed reference is recognised at the start of any text. */
  lemma MatchImageComplete(ref: ImageRef, rest: string)
    requires WellFormedRef(ref)
    ensures MatchImageAt(ImageText(ref) + rest, 0) == Some((ref, |ImageText(ref)|))
  {
    var s := ImageText(ref) + rest;
    assert s[0..|ImageText(ref)|] == ImageText(ref);
    MatchImageCompleteAt(s, 0, ref);
  }

  /** Every well-formed reference is recognised where it is written, whatever surrounds it. */
  lemma MatchImageCompleteAt(s: string, p: nat, ref: ImageRef)
    requires WellFormedRef(ref)
    requires p + |ImageText(ref)| <= |s| && s[p..p + |ImageText(ref)|] == ImageText(ref)
    ensures MatchImageAt(s, p) == Some((ref, p + |ImageText(ref)|))
  {
    var t := ImageText(ref);
    var a, n := |ref.alt|, |ref.src|;
    ImageTextParts(ref);
    SliceWithin(s, p, t, 0, 2);
    SliceWithin(s, p, t, 2, 2 + a);
    CharWithin(s, p, t, 2 + a);
    CharWithin(s, p, t, 3 + a);
    SliceWithin(s, p, t, 4 + a, 4 + a + n);
    CharWithin(s, p, t, 4 + a + n);
    MatchWritten(s, p, ref, p + |ImageText(ref)|);
  }

  /** The pattern matches the reference laid out part by part at `p`, and ends at `e`. */
  lemma MatchWritten(s: string, p: nat, ref: ImageRef, e: nat)
    requires WellFormedRef(ref)
    requires e == p + 5 + |ref.alt| + |ref.src| <= |s|
    requires s[p..p + 2] == "![" && s[p + 2..p + 2 + |ref.alt|] == ref.alt
    requires s[p + 2 + |ref.alt|] == ']' && s[p + 3 + |ref.alt|] == '('
    requires s[p + 4 + |ref.alt|..p + 4 + |ref.alt| + |ref.src|] == ref.src
    requires s[p + 4 + |ref.alt| + |ref.src|] == ')'
    ensures MatchImageAt(s, p) == Some((ref, e))
  {
    RunTo(s, p + 2, ref.alt, ']');
    RunTo(s, p + 4 + |ref.alt|, ref.src, ')');
    MatchImageAtIs(s, p, p + 2 + |ref.alt|, p + 4 + |ref.alt| + |ref.src|, ref, e);
  }

  /** A run free of `c` written at `q` and followed by `c` ends at the first `c` from `q`. */
  lemma RunTo(s: string, q: nat, run: string, c: char)
    requires q + |run| < |s| && s[q..q + |run|] == run && s[q + |run|] == c && c !in run
    ensures IndexOfChar(s, c, q) == q + |run|
  {
    forall j | q <= j < q + |run| ensures s[j] != c {
      assert s[j] == run[j - q];
    }
    IndexOfCharAt(s, c, q, q + |run|);
  }

  /** Where each part of a written reference sits in its text. */
  lemma ImageTextParts(r: ImageRef)
    ensures var t, a, n := ImageText(r), |r.alt|, |r.src|;
      |t| == 5 + a + n && t[..2] == "![" && t[2..2 + a] == r.alt && t[2 + a] == ']' && t[3 + a] == '('
      && t[4 + a..4 + a + n] == r.src && t[4 + a + n] == ')'
  {
    var a, n := |r.alt|, |r.src|;
    var t := ImageText(r);
    var u := "![" + r.alt;
    var v := u + "](";
    var w := v + r.src;
    assert t == w + ")";
    assert t[..2] == u[..2] == "![";
    assert t[2..2 + a] == u[2..] == r.alt;
    assert t[2 + a] == v[2 + a] == ']';
    assert t[3 + a] == v[3 + a] == '(';
    assert t[4 + a..4 + a + n] == w[4 + a..] == r.src;
  }

  /** The pattern matches at `p` once the bracket and the parenthesis are found at `k` and `m`. */
  lemma MatchImageAtIs(s: string, p: nat, k: nat, m: nat, ref: ImageRef, e: nat)
    requires OccursAt(s, "![", p) && p + 2 <= k
    requires k < |s| && k == IndexOfChar(s, ']', p + 2) && k + 1 < |s| && s[k + 1] == '('
    requires m < |s| && m == IndexOfChar(s, ')', k + 2) && m != k + 2
    requires ref == ImageRef(s[p + 2..k], s[k + 2..m]) && e == m + 1
    ensures MatchImageAt(s, p) == Some((ref, e))
  {
  }

  lemma IndexOfCharAt(s: string, c: char, k: nat, m: nat)
    requires k <= m < |s| && s[m] == c
    requires forall j :: k <= j < m ==> s[j] != c
    ensures IndexOfChar(s, c, k) == m
  {
  }

  /** `re.findall` of the image pattern over `s[p..]`, as (alt, src) pairs, left to right. */
  function FindAllImages(s: string, p: nat): (r: seq<ImageRef>)
    requires p <= |s|
    decreases |s| - p
    ensures forall k :: 0 <= k < |r| ==> WellFormedRef(r[k])
  {
    if p == |s| then []
    else
      MatchImageWellFormed(s, p);
      match MatchImageAt(s, p)
      case Some((ref, e)) => [ref] + FindAllImages(s, e)
      case None => FindAllImages(s, p + 1)
  }

  /** A text without the character `!` holds no image reference. */
  lemma {:induction false} FindAllImagesNone(s: string, p: nat)
    requires p <= |s|
    requires '!' !in s
    ensures FindAllImages(s, p) == []
    decreases |s| - p
  {
    if p < |s| {
      assert !OccursAt(s, "![", p) by {
        if p + 2 <= |s| { assert s[p..p + 2][0] == s[p]; }
      }
      FindAllImagesNone(s, p + 1);
    }
  }

  /** The scan passes over positions that hold no `!`: none of them starts a reference. */
  lemma {:induction false} FindAllImagesSkip(s: string, p: nat, q: nat)
    requires p <= q <= |s|
    requires forall j :: p <= j < q ==> s[j] != '!'
    ensures FindAllImages(s, p) == FindAllImages(s, q)
    decreases q - p
  {
    if p < q {
      assert !OccursAt(s, "![", p) by {
        if p + 2 <= |s| { assert s[p..p + 2][0] == s[p]; }
      }
      FindAllImagesSkip(s, p + 1, q);
    }
  }

  /** Where a reference matches, the scan records it and resumes right after it. */
  lemma FindAllImagesMatch(s: string, p: nat, ref: ImageRef, e: nat)
    requires p < |s| && MatchImageAt(s, p) == Some((ref, e))
    ensures e <= |s| && FindAllImages(s, p) == [ref] + FindAllImages(s, e)
  {
  }

  /** Text pieces `gaps` with the references `refs` written between them, in order. */
  function Interleave(gaps: seq<string>, refs: seq<ImageRef>): string
    requires |gaps| == |refs| + 1
    decreases refs
  {
    if refs == [] then gaps[0]
    else gaps[0] + ImageText(refs[0]) + Interleave(gaps[1..], refs[1..])
  }

  /**
   * Every well-formed reference written in a text whose other pieces hold no `!` is
   * found, in order, and nothing else is: `findall` gives back exactly `refs`.
   */
  lemma FindAllImagesOfText(pre: string, gaps: seq<string>, refs: seq<ImageRef>)
    requires |gaps| == |refs| + 1
    requires forall k :: 0 <= k < |gaps| ==> '!' !in gaps[k]
    requires forall k :: 0 <= k < |refs| ==> WellFormedRef(refs[k])
    ensures FindAllImages(pre + Interleave(gaps, refs), |pre|) == refs
  {
    var s := pre + Interleave(gaps, refs);
    assert s[|pre|..] == Interleave(gaps, refs);
    FindAllImagesWritten(s, |pre|, gaps, refs);
  }

  /** A text with exactly one `!`, the one opening a written reference, yields that reference. */
  lemma FindOneImage(a: string, ref: ImageRef, b: string)
    requires WellFormedRef(ref) && '!' !in a && '!' !in b
    ensures FindAllImages(a + ImageText(ref) + b, 0) == [ref]
  {
    var s := a + ImageText(ref) + b;
    assert Interleave([b], []) == b;
    assert Interleave([a, b], [ref]) == s;
    FindAllImagesOfText([], [a, b], [ref]);
    assert [] + s == s;
  }

  /** The same, for the text `s` from position `p` on. */
  lemma {:induction false} FindAllImagesWritten(s: string, p: nat, gaps: seq<string>, refs: seq<ImageRef>)
    requires |gaps| == |refs| + 1
    requires forall k :: 0 <= k < |gaps| ==> '!' !in gaps[k]
    requires forall k :: 0 <= k < |refs| ==> WellFormedRef(refs[k])
    requires p <= |s| && s[p..] == Interleave(gaps, refs)
    ensures FindAllImages(s, p) == refs
    decreases refs
  {
    var g := gaps[0];
    var q := p + |g|;
    if refs == [] {
      assert s[p..] == g + [] + [];
      SlicePieces(s, p, g, [], []);
      NoCharIn(s, p, q, '!');
      FindAllImagesSkip(s, p, q);
      assert FindAllImages(s, q) == [];
    } else {
      var ref, rest := refs[0], Interleave(gaps[1..], refs[1..]);
      var e := q + |ImageText(ref)|;
      assert s[p..] == g + ImageText(ref) + rest;
      SlicePieces(s, p, g, ImageText(ref), rest);
      NoCharIn(s, p, q, '!');
      FindAllImagesPiece(s, p, q, ref, e);
      FindAllImagesWritten(s, e, gaps[1..], refs[1..]);
      assert FindAllImages(s, p) == [ref] + refs[1..];
    }
  }

  /** Positions without `!` then a reference: the scan finds that reference first, then goes on after it. */
  lemma FindAllImagesPiece(s: string, p: nat, q: nat, ref: ImageRef, e: nat)
    requires p <= q <= |s| && forall j :: p <= j < q ==> s[j] != '!'
    requires WellFormedRef(ref)
    requires e == q + |ImageText(ref)| <= |s| && s[q..e] == ImageText(ref)
    ensures FindAllImages(s, p) == [ref] + FindAllImages(s, e)
  {
    FindAllImagesSkip(s, p, q);
    MatchImageCompleteAt(s, q, ref);
    FindAllImagesMatch(s, q, ref, e);
  }

  /** The three pieces of a text written from `p` on sit where their lengths say. */
  lemma SlicePieces(s: string, p: nat, x: string, y: string, z: string)
    requires p <= |s| && s[p..] == x + y + z
    ensures p + |x| + |y| + |z| == |s|
    ensures s[p..p + |x|] == x && s[p + |x|..p + |x| + |y|] == y && s[p + |x| + |y|..] == z
  {
    assert s[p..p + |x|] == s[p..][..|x|];
    assert s[p + |x|..p + |x| + |y|] == s[p..][|x|..|x| + |y|];
    assert s[p + |x| + |y|..] == s[p..][|x| + |y|..];
  }

  /** A character missing from a stretch of text is missing from each of its positions. */
  lemma NoCharIn(s: string, p: nat, q: nat, c: char)
    requires p <= q <= |s| && c !in s[p..q]
    ensures forall j :: p <= j < q ==> s[j] != c
  {
    forall j | p <= j < q ensures s[j] != c {
      assert s[j] == s[p..q][j - p];
    }
  }

  /** `re.match(r'^【标题(\d+)】$', s)`: the section number of a numbered section marker. */
  function SectionMarkerNumber(s: string): (r: Option<string>)
    ensures r.Some? ==> r.value != [] && AllDigits(r.value) && s == "【标题" + r.value + "】"
  {
    if |s| >= 5 && s[..3] == "【标题" && s[|s| - 1] == '】' && AllDigits(s[3..|s| - 1]) then
      assert s == s[..3] + s[3..|s| - 1] + [s[|s| - 1]];
      Some(s[3..|s| - 1])
    else None
  }

  /** Every numbered section marker is recognised, with its number. */
  lemma SectionMarkerComplete(d: string)
    requires d != [] && AllDigits(d)
    ensures SectionMarkerNumber("【标题" + d + "】") == Some(d)
  {
    var s := "【标题" + d + "】";
    assert s[..3] == "【标题";
    assert s[3..|s| - 1] == d;
  }

  const TitleImagePrefix := "__TITLE_IMAGE_"

  /** The sentinel the parser emits for section `n`, without its line break. */
  function TitleImageSentinel(n: string): string
  {
    TitleImagePrefix + n + "__"
  }

  /** `re.match(r'__TITLE_IMAGE_(\d+)__', s)`: the section number, anchored at the start only. */
  function MatchTitleImage(s: string): (r: Option<string>)
    ensures r.Some? ==> r.value != [] && AllDigits(r.value) && StartsWith(s, TitleImageSentinel(r.value))
  {
    if !StartsWith(s, TitleImagePrefix) then None
    else
      var e := DigitRunEnd(s, 14);
      if e == 14 || !OccursAt(s, "__", e) then None
      else
        assert s[..e + 2] == TitleImagePrefix + s[14..e] + "__";
        Some(s[14..e])
  }

  /** The sentinel for a section number is recognised, whatever follows it. */
  lemma MatchTitleImageComplete(d: string, rest: string)
    requires d != [] && AllDigits(d)
    ensures MatchTitleImage(TitleImageSentinel(d) + rest) == Some(d)
  {
    var s := TitleImageSentinel(d) + rest;
    assert s[..14] == TitleImagePrefix;
    var e := 14 + |d|;
    assert s[e] == '_';
    forall j | 14 <= j < e ensures IsDigit(s[j]) {
      assert s[j] == d[j - 14];
    }
    DigitRunEndAt(s, 14, e);
    assert s[e..e + 2] == "__";
    assert s[14..e] == d;
  }

  lemma DigitRunEndAt(s: string, k: nat, e: nat)
    requires k <= e <= |s| && (e < |s| ==> !IsDigit(s[e]))
    requires forall j :: k <= j < e ==> IsDigit(s[j])
    ensures DigitRunEnd(s, k) == e
    decreases e - k
  {
    if k < e { DigitRunEndAt(s, k + 1, e); }
  }

  /** `re.match(r'^\d+\. ', s)`: the length of the ordered-list marker, if there is one. */
  function OrderedMarker(s: string): (r: Option<nat>)
    ensures r.Some? ==> 3 <= r.value <= |s| && s[r.value - 2..r.value] == ". "
    ensures r.Some? ==> AllDigits(s[..r.value - 2])
  {
    var e := DigitRunEnd(s, 0);
    if e > 0 && OccursAt(s, ". ", e) then Some(e + 2) else None
  }

  /** `re.sub(r'^#+\s*', '', s)`: leading hashes, and the whitespace after them, removed. */
  function DropHashes(s: string): (r: string)
    ensures |r| <= |s| && r == s[|s| - |r|..]
    ensures s != [] && s[0] == '#' ==> |r| < |s| && (r == [] || !IsSpace(r[0]))
    ensures (s == [] || s[0] != '#') ==> r == s
  {
    if s != [] && s[0] == '#' then TrimStart(DropLeading(s, '#')) else s
  }

  /** `s` without its leading run of `c`. */
  function DropLeading(s: string, c: char): (r: string)
    ensures |r| <= |s| && r == s[|s| - |r|..]
    ensures r == [] || r[0] != c
    ensures forall k :: 0 <= k < |s| - |r| ==> s[k] == c
  {
    if s != [] && s[0] == c then DropLeading(s[1..], c) else s
  }
}
