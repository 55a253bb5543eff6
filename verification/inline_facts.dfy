/** What the inline pass guarantees: plain text passes through, and bold wins over italic. */
module InlineFacts {
  import opened Text
  import opened Inline

  /** A substitution leaves alone a text without its opening character. */
  lemma {:induction false} SubFromPlain(s: string, rule: Rule, p: nat)
    requires p <= |s| && Opener(rule) !in s
    ensures SubFrom(s, rule, p) == s[p..]
    decreases |s| - p
  {
    if p < |s| {
      SubFromPlain(s, rule, p + 1);
      assert s[p..] == [s[p]] + s[p + 1..];
    }
  }

  /** Text with no `*`, `[` or backtick passes through the inline pass unchanged. */
  lemma PlainTextUnchanged(text: string)
    requires NoMarkup(text)
    ensures ProcessInline(text) == text
  {
    SubFromPlain(text, Bold, 0);
    SubFromPlain(text, Italic, 0);
    SubFromPlain(text, Link, 0);
    SubFromPlain(text, Code, 0);
  }

  lemma CloseFromAt(s: string, k: nat, delim: string, e: nat)
    requires k <= e && e + |delim| <= |s| && delim != [] && OccursAt(s, delim, e)
    requires forall j :: k <= j < e ==> s[j] != '\n' && !OccursAt(s, delim, j)
    ensures CloseFrom(s, k, delim) == Some(e)
    decreases e - k
  {
    if k < e { CloseFromAt(s, k + 1, delim, e); }
  }

  lemma OpenHeadNoMarkup()
    ensures NoMarkup(BoldOpenHead)
  {
  }

  lemma OpenTailNoMarkup()
    ensures NoMarkup(BoldOpenTail)
  {
  }

  lemma PrimaryNoMarkup()
    ensures NoMarkup(Primary)
  {
  }

  /** The bold span's own text holds no markup character, so later passes leave it alone. */
  lemma SpanHasNoMarkup()
    ensures NoMarkup(BoldOpen) && NoMarkup(BoldClose)
  {
    OpenHeadNoMarkup();
    PrimaryNoMarkup();
    OpenTailNoMarkup();
  }

  /** The bold pass turns `**x**` into the bold span. */
  lemma BoldPass(x: string)
    requires x != [] && '*' !in x && '\n' !in x
    ensures Sub("**" + x + "**", Bold) == BoldOpen + x + BoldClose
  {
    var s := "**" + x + "**";
    var e := 2 + |x|;
    assert OccursAt(s, "**", 0) by { assert s[0..2] == "**"; }
    assert s[2] == x[0];
    assert OccursAt(s, "**", e) by { assert s[e..e + 2] == "**"; }
    forall j | 3 <= j < e ensures s[j] != '\n' && !OccursAt(s, "**", j) {
      assert s[j] == x[j - 2];
      assert s[j..j + 2][0] == s[j];
    }
    CloseFromAt(s, 3, "**", e);
    assert s[2..e] == x;
    assert MatchAt(s, 0, Bold) == Some((|s|, BoldOpen + x + BoldClose));
    assert SubFrom(s, Bold, |s|) == [];
  }

  /**
   * `**x**` becomes the bold span, not an `<em>` span, because bold is
   * substituted before italic (for x without markup characters or line breaks).
   */
  lemma BoldBeforeItalic(x: string)
    requires x != [] && NoMarkup(x) && '\n' !in x
    ensures ProcessInline("**" + x + "**") == BoldOpen + x + BoldClose
  {
    BoldPass(x);
    var b := BoldOpen + x + BoldClose;
    SpanHasNoMarkup();
    assert NoMarkup(b);
    SubFromPlain(b, Italic, 0);
    SubFromPlain(b, Link, 0);
    SubFromPlain(b, Code, 0);
  }
}
