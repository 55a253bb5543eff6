/**
 * The inline-markup pass of the article renderer: four `re.sub` calls applied
 * in a fixed order (bold, italic, link, inline code). Each substitution scans
 * left to right, replaces every non-overlapping match once and never rescans
 * its own output; the next substitution does scan it.
 */
module Inline {
  import opened Text

  const Primary := "#003399"

  const BoldOpenHead := "<span style=\"color: "
  const BoldOpenTail := "; font-weight: bold;\">"
  const BoldOpen := BoldOpenHead + Primary + BoldOpenTail
  const BoldClose := "</span>"
  const CodeOpen := "<code style=\"background: #f5f5f5; padding: 2px 6px; border-radius: 3px; font-size: 14px;\">"

  function LinkHtml(text: string, url: string): string
  {
    "<a href=\"" + url + "\" style=\"color: " + Primary + "; text-decoration: none;\">" + text + "</a>"
  }

  /** The four substitutions, in the order they are applied. */
  datatype Rule =
    | Bold    // \*\*(.+?)\*\*
    | Italic  // \*(.+?)\*
    | Link    // \[([^\]]+)\]\(([^)]+)\)
    | Code    // `([^`]+)`

  /** The character every match of the rule starts with. */
  function Opener(rule: Rule): char
  {
    match rule
    case Bold => '*'
    case Italic => '*'
    case Link => '['
    case Code => '`'
  }

  /**
   * The lazy `.+?` followed by `delim`: the first `k >= from` where `delim` occurs,
   * provided no line break lies in `s[from..k]`.
   */
  function CloseFrom(s: string, k: nat, delim: string): (r: Option<nat>)
    requires k <= |s| && delim != []
    decreases |s| - k
    ensures r.Some? ==> k <= r.value && OccursAt(s, delim, r.value)
    ensures r.Some? ==> forall j :: k <= j < r.value ==> s[j] != '\n' && !OccursAt(s, delim, j)
  {
    if k + |delim| > |s| then None
    else if OccursAt(s, delim, k) then Some(k)
    else if s[k] == '\n' then None
    else CloseFrom(s, k + 1, delim)
  }

  /** A match of `rule` starting at `p`: the index just past it and its replacement. */
  function MatchAt(s: string, p: nat, rule: Rule): (r: Option<(nat, string)>)
    requires p < |s|
    ensures r.Some? ==> p < r.value.0 <= |s| && s[p] == Opener(rule)
  {
    match rule
    case Bold => MatchBold(s, p)
    case Italic => MatchItalic(s, p)
    case Link => MatchLink(s, p)
    case Code => MatchCode(s, p)
  }

  /** `\*\*(.+?)\*\*` at `p`. */
  function MatchBold(s: string, p: nat): (r: Option<(nat, string)>)
    requires p < |s|
    ensures r.Some? ==> p < r.value.0 <= |s| && s[p] == '*'
  {
    if !OccursAt(s, "**", p) || p + 2 >= |s| || s[p + 2] == '\n' then None
    else
      match CloseFrom(s, p + 3, "**")
      case None => None
      case Some(k) =>
        assert s[p..p + 2][0] == s[p];
        Some((k + 2, BoldOpen + s[p + 2..k] + BoldClose))
  }

  /** `\*(.+?)\*` at `p`. */
  function MatchItalic(s: string, p: nat): (r: Option<(nat, string)>)
    requires p < |s|
    ensures r.Some? ==> p < r.value.0 <= |s| && s[p] == '*'
  {
    if s[p] != '*' || p + 1 >= |s| || s[p + 1] == '\n' then None
    else
      match CloseFrom(s, p + 2, "*")
      case None => None
      case Some(k) => Some((k + 1, "<em>" + s[p + 1..k] + "</em>"))
  }

  /** `\[([^\]]+)\]\(([^)]+)\)` at `p`. */
  function MatchLink(s: string, p: nat): (r: Option<(nat, string)>)
    requires p < |s|
    ensures r.Some? ==> p < r.value.0 <= |s| && s[p] == '['
  {
    if s[p] != '[' then None
    else
      var k := IndexOfChar(s, ']', p + 1);
      if k == p + 1 || k + 1 >= |s| || s[k + 1] != '(' then None
      else
        var m := IndexOfChar(s, ')', k + 2);
        if m == |s| || m == k + 2 then None
        else Some((m + 1, LinkHtml(s[p + 1..k], s[k + 2..m])))
  }

  /** `` `([^`]+)` `` at `p`. */
  function MatchCode(s: string, p: nat): (r: Option<(nat, string)>)
    requires p < |s|
    ensures r.Some? ==> p < r.value.0 <= |s| && s[p] == '`'
  {
    if s[p] != '`' then None
    else
      var k := IndexOfChar(s, '`', p + 1);
      if k == |s| || k == p + 1 then None
      else Some((k + 1, CodeOpen + s[p + 1..k] + "</code>"))
  }

  /** `re.sub` of `rule` over `s[p..]`. */
  function SubFrom(s: string, rule: Rule, p: nat): (r: string)
    requires p <= |s|
    decreases |s| - p
  {
    if p == |s| then []
    else
      match MatchAt(s, p, rule)
      case Some((e, rep)) => rep + SubFrom(s, rule, e)
      case None => [s[p]] + SubFrom(s, rule, p + 1)
  }

  function Sub(s: string, rule: Rule): string
  {
    SubFrom(s, rule, 0)
  }

  /** `_process_inline`: bold, then italic, then link, then inline code. */
  function ProcessInline(text: string): string
  {
    Sub(Sub(Sub(Sub(text, Bold), Italic), Link), Code)
  }

  predicate NoMarkup(s: string)
  {
    '*' !in s && '[' !in s && '`' !in s
  }
}
