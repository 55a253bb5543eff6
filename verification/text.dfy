/**
 * String helpers shared by the article pipeline and the cover generator:
 * Python's whitespace class, `str.strip`, `str.startswith`, substring search,
 * `str.replace`, `str.split` on one separator and `str.join`.
 */
module Text {

  /** Python's `str.isspace` (also what `\s` matches in a `str` pattern). */
  predicate IsSpace(c: char)
  {
    || c == ' ' || c == '\t' || c == '\n' || c == '\U{0B}' || c == '\U{0C}' || c == '\r'
    || c == '\U{1C}' || c == '\U{1D}' || c == '\U{1E}' || c == '\U{1F}'
    || c == '\U{85}' || c == '\U{A0}' || c == '\U{1680}'
    || c == '\U{2000}' || c == '\U{2001}' || c == '\U{2002}' || c == '\U{2003}' || c == '\U{2004}' || c == '\U{2005}'
    || c == '\U{2006}' || c == '\U{2007}' || c == '\U{2008}' || c == '\U{2009}' || c == '\U{200A}'
    || c == '\U{2028}' || c == '\U{2029}' || c == '\U{202F}' || c == '\U{205F}' || c == '\U{3000}'
  }

  /** An ASCII decimal digit (see README for `\d`). */
  predicate IsDigit(c: char)
  {
    '0' <= c <= '9'
  }

  predicate StartsWith(s: string, p: string)
  {
    |p| <= |s| && s[..|p|] == p
  }

  /** The first index at or after `k` whose character is not whitespace, or `|s|`. */
  function FirstNonSpace(s: string, k: nat): (r: nat)
    requires k <= |s|
    decreases |s| - k
    ensures k <= r <= |s|
    ensures r < |s| ==> !IsSpace(s[r])
  {
    if k == |s| || !IsSpace(s[k]) then k else FirstNonSpace(s, k + 1)
  }

  /** The end of `s[lo..k]` once its trailing whitespace is removed. */
  function EndNonSpace(s: string, lo: nat, k: nat): (r: nat)
    requires lo <= k <= |s|
    decreases k
    ensures lo <= r <= k
    ensures r > lo ==> !IsSpace(s[r - 1])
  {
    if k == lo || !IsSpace(s[k - 1]) then k else EndNonSpace(s, lo, k - 1)
  }

  /** `s.lstrip()` */
  function TrimStart(s: string): (r: string)
    ensures |r| <= |s| && r == s[|s| - |r|..]
    ensures r == [] || !IsSpace(r[0])
  {
    s[FirstNonSpace(s, 0)..]
  }

  /** `s.strip()`: the longest slice of `s` with no whitespace at either end. */
  function Strip(s: string): (r: string)
    ensures HasNoSpaceEnds(r)
    ensures |r| <= |s|
  {
    var a := FirstNonSpace(s, 0);
    s[a..EndNonSpace(s, a, |s|)]
  }

  /** Everything `strip` removes is whitespace. */
  lemma {:induction false} FirstNonSpaceSkipsSpaces(s: string, k: nat)
    requires k <= |s|
    ensures forall j :: k <= j < FirstNonSpace(s, k) ==> IsSpace(s[j])
    decreases |s| - k
  {
    if k < |s| && IsSpace(s[k]) {
      FirstNonSpaceSkipsSpaces(s, k + 1);
    }
  }

  lemma {:induction false} FirstNonSpaceAt(s: string, k: nat, e: nat)
    requires k <= e <= |s| && (e < |s| ==> !IsSpace(s[e]))
    requires forall j :: k <= j < e ==> IsSpace(s[j])
    ensures FirstNonSpace(s, k) == e
    decreases e - k
  {
    if k < e { FirstNonSpaceAt(s, k + 1, e); }
  }

  /** Everything `strip` removes at the right end is whitespace. */
  lemma {:induction false} EndNonSpaceSkipsSpaces(s: string, lo: nat, k: nat)
    requires lo <= k <= |s|
    ensures forall j :: EndNonSpace(s, lo, k) <= j < k ==> IsSpace(s[j])
    decreases k
  {
    if k > lo && IsSpace(s[k - 1]) {
      EndNonSpaceSkipsSpaces(s, lo, k - 1);
    }
  }

  lemma {:induction false} EndNonSpaceAt(s: string, lo: nat, e: nat, k: nat)
    requires lo <= e <= k <= |s| && (e > lo ==> !IsSpace(s[e - 1]))
    requires forall j :: e <= j < k ==> IsSpace(s[j])
    ensures EndNonSpace(s, lo, k) == e
    decreases k - e
  {
    if e < k { EndNonSpaceAt(s, lo, e, k - 1); }
  }

  /** What `strip` removes is whitespace at both ends, and it keeps one slice of `s`. */
  lemma StripRemovesSpaceOnly(s: string) returns (a: nat)
    ensures a + |Strip(s)| <= |s| && s[a..a + |Strip(s)|] == Strip(s)
    ensures forall j :: 0 <= j < a ==> IsSpace(s[j])
    ensures forall j :: a + |Strip(s)| <= j < |s| ==> IsSpace(s[j])
  {
    a := FirstNonSpace(s, 0);
    FirstNonSpaceSkipsSpaces(s, 0);
    EndNonSpaceSkipsSpaces(s, a, |s|);
    assert s[a..a + |Strip(s)|] == Strip(s);
  }

  /** Whitespace on both sides of a text with no whitespace at its ends is what `strip` removes. */
  lemma StripBoth(w1: string, t: string, w2: string)
    requires forall k :: 0 <= k < |w1| ==> IsSpace(w1[k])
    requires forall k :: 0 <= k < |w2| ==> IsSpace(w2[k])
    requires HasNoSpaceEnds(t)
    ensures Strip(w1 + t + w2) == t
  {
    var s := w1 + t + w2;
    var e := |w1| + |t|;
    forall j | e <= j < |s| ensures IsSpace(s[j]) { assert s[j] == w2[j - e]; }
    forall j | 0 <= j < |w1| ensures IsSpace(s[j]) { assert s[j] == w1[j]; }
    if t == [] {
      FirstNonSpaceAt(s, 0, |s|);
    } else {
      assert s[|w1|] == t[0] && s[e - 1] == t[|t| - 1];
      FirstNonSpaceAt(s, 0, |w1|);
      EndNonSpaceAt(s, |w1|, e, |s|);
      assert s[|w1|..e] == t;
    }
  }

  /** `strip` leaves a text with no whitespace at either end as it is. */
  lemma StripTrimmed(s: string)
    requires HasNoSpaceEnds(s)
    ensures Strip(s) == s
  {
    assert FirstNonSpace(s, 0) == 0;
    assert EndNonSpace(s, 0, |s|) == |s|;
    assert s[0..|s|] == s;
  }

  /** `strip` only removes characters, so it adds none. */
  lemma StripWithout(s: string, c: char)
    requires c !in s
    ensures c !in Strip(s)
  {
    var a := FirstNonSpace(s, 0);
    var b := EndNonSpace(s, a, |s|);
    assert forall j :: 0 <= j < b - a ==> Strip(s)[j] == s[a + j];
  }

  /** Leading whitespace is removed by `lstrip` and by `strip`. */
  lemma StripLeading(w: string, t: string)
    requires forall k :: 0 <= k < |w| ==> IsSpace(w[k])
    ensures HasNoSpaceEnds(t) ==> Strip(w + t) == t
    ensures (t == [] || !IsSpace(t[0])) ==> TrimStart(w + t) == t
  {
    var s := w + t;
    if t == [] || !IsSpace(t[0]) {
      forall j | 0 <= j < |w| ensures IsSpace(s[j]) { assert s[j] == w[j]; }
      assert |w| < |s| ==> s[|w|] == t[0];
      FirstNonSpaceAt(s, 0, |w|);
      assert s[|w|..] == t;
      if t != [] {
        assert s[|s| - 1] == t[|t| - 1];
      }
    }
  }

  predicate HasNoSpaceEnds(s: string)
  {
    s == [] || (!IsSpace(s[0]) && !IsSpace(s[|s| - 1]))
  }

  /** `p` occurs in `s` starting at index `j`. */
  predicate OccursAt(s: string, p: string, j: nat)
  {
    j + |p| <= |s| && s[j..j + |p|] == p
  }

  /** The leftmost occurrence of `p` in `s` at or after `k`, if any. */
  function FindFrom(s: string, p: string, k: nat): (r: Option<nat>)
    requires k <= |s|
    decreases |s| - k
    ensures r.Some? ==> k <= r.value && OccursAt(s, p, r.value)
    ensures r.Some? ==> forall j :: k <= j < r.value ==> !OccursAt(s, p, j)
    ensures r.None? ==> forall j :: k <= j ==> !OccursAt(s, p, j)
  {
    if k + |p| > |s| then None
    else if OccursAt(s, p, k) then Some(k)
    else if k == |s| then None
    else FindFrom(s, p, k + 1)
  }

  /** An occurrence with none before it is the one `FindFrom` reports. */
  lemma FindFromFirst(s: string, p: string, at: nat)
    requires OccursAt(s, p, at)
    requires forall j :: 0 <= j < at ==> !OccursAt(s, p, j)
    ensures FindFrom(s, p, 0) == Some(at)
  {
    assert FindFrom(s, p, 0).Some? ==> FindFrom(s, p, 0).value <= at;
  }

  /** Python's `p in s` for a substring `p`. */
  predicate Contains(s: string, p: string)
  {
    FindFrom(s, p, 0).Some?
  }

  /** A string that has no character of `p` cannot contain `p`, unless `p` is empty. */
  lemma NotContainsWhenCharMissing(s: string, p: string)
    requires p != [] && p[0] !in s
    ensures !Contains(s, p)
  {
    forall j: nat ensures !OccursAt(s, p, j) {
      if j + |p| <= |s| {
        assert s[j..j + |p|][0] == s[j];
      }
    }
  }

  /** `s.replace(pat, rep)`: every leftmost non-overlapping occurrence of `pat` replaced. */
  function ReplaceAll(s: string, pat: string, rep: string): (r: string)
    requires pat != []
    decreases |s|
  {
    if |s| < |pat| then s
    else if s[..|pat|] == pat then rep + ReplaceAll(s[|pat|..], pat, rep)
    else [s[0]] + ReplaceAll(s[1..], pat, rep)
  }

  /** A pattern that does not occur leaves the string unchanged. */
  lemma {:induction false} ReplaceAllAbsent(s: string, pat: string, rep: string)
    requires pat != [] && !Contains(s, pat)
    ensures ReplaceAll(s, pat, rep) == s
    decreases |s|
  {
    if |s| >= |pat| {
      assert s[0..|pat|] == s[..|pat|];
      assert s[..|pat|] != pat;
      var t := s[1..];
      forall j: nat ensures !OccursAt(t, pat, j) {
        assert !OccursAt(s, pat, j + 1);
        if j + |pat| <= |t| {
          assert s[j + 1..j + 1 + |pat|] == t[j..j + |pat|];
        }
      }
      ReplaceAllAbsent(t, pat, rep);
    }
  }

  /**
   * One occurrence of `pat` that no earlier one overlaps, with none after it, is the
   * only thing `replace` changes.
   */
  lemma {:induction false} ReplaceAllOnce(a: string, pat: string, rep: string, b: string)
    requires pat != []
    requires forall j :: 0 <= j < |a| ==> !OccursAt(a + pat + b, pat, j)
    requires !Contains(b, pat)
    ensures ReplaceAll(a + pat + b, pat, rep) == a + rep + b
    decreases |a|
  {
    var s := a + pat + b;
    if a == [] {
      assert s == pat + b;
      assert s[..|pat|] == pat && s[|pat|..] == b;
      ReplaceAllAbsent(b, pat, rep);
      assert a + rep + b == rep + b;
    } else {
      assert s[..|pat|] != pat by { assert !OccursAt(s, pat, 0); assert s[0..|pat|] == s[..|pat|]; }
      var t := a[1..] + pat + b;
      assert s[1..] == t;
      forall j | 0 <= j < |a[1..]| ensures !OccursAt(t, pat, j) {
        assert !OccursAt(s, pat, j + 1);
        if j + |pat| <= |t| {
          assert s[1..][j..j + |pat|] == s[j + 1..j + 1 + |pat|];
        }
      }
      ReplaceAllOnce(a[1..], pat, rep, b);
      assert a + rep + b == [a[0]] + (a[1..] + rep + b);
    }
  }

  /** Replacing a pattern by itself changes nothing. */
  lemma {:induction false} ReplaceAllIdentity(s: string, pat: string)
    requires pat != []
    ensures ReplaceAll(s, pat, pat) == s
    decreases |s|
  {
    if |s| >= |pat| {
      if s[..|pat|] == pat {
        ReplaceAllIdentity(s[|pat|..], pat);
        assert s == s[..|pat|] + s[|pat|..];
      } else {
        ReplaceAllIdentity(s[1..], pat);
        assert s == [s[0]] + s[1..];
      }
    }
  }

  /** Every occurrence of the character `c` replaced by `rep`, one character at a time. */
  function MapChar(s: string, c: char, rep: string): (r: string)
    ensures c !in rep ==> c !in r
    ensures forall d :: d in r && d !in rep ==> d in s
  {
    if s == [] then [] else (if s[0] == c then rep else [s[0]]) + MapChar(s[1..], c, rep)
  }

  /** For a one-character pattern, `str.replace` is the character map. */
  lemma {:induction false} ReplaceCharIsMap(s: string, c: char, rep: string)
    ensures ReplaceAll(s, [c], rep) == MapChar(s, c, rep)
  {
    if s != [] {
      ReplaceCharIsMap(s[1..], c, rep);
      assert s[..1] == [s[0]];
    }
  }

  lemma {:induction false} MapCharAppend(a: string, b: string, c: char, rep: string)
    ensures MapChar(a + b, c, rep) == MapChar(a, c, rep) + MapChar(b, c, rep)
  {
    if a != [] {
      MapCharAppend(a[1..], b, c, rep);
      assert (a + b)[1..] == a[1..] + b;
    } else {
      assert a + b == b;
    }
  }

  /** `sep.join(parts)` */
  function Join(parts: seq<string>, sep: string): (r: string)
    ensures parts == [] ==> r == []
    ensures |parts| == 1 ==> r == parts[0]
  {
    if parts == [] then []
    else if |parts| == 1 then parts[0]
    else parts[0] + sep + Join(parts[1..], sep)
  }

  /** `''.join(parts)` */
  function Concat(parts: seq<string>): (r: string)
  {
    if parts == [] then [] else parts[0] + Concat(parts[1..])
  }

  /** `''.join` turns list concatenation into string concatenation. */
  lemma {:induction false} ConcatAppend(a: seq<string>, b: seq<string>)
    ensures Concat(a + b) == Concat(a) + Concat(b)
  {
    if a != [] {
      ConcatAppend(a[1..], b);
      assert (a + b)[1..] == a[1..] + b;
    } else {
      assert a + b == b;
    }
  }

  /** The first index at or after `k` holding `c`, or `|s|`. */
  function IndexOfChar(s: string, c: char, k: nat): (r: nat)
    requires k <= |s|
    decreases |s| - k
    ensures k <= r <= |s|
    ensures r < |s| ==> s[r] == c
    ensures forall j :: k <= j < r ==> s[j] != c
  {
    if k == |s| || s[k] == c then k else IndexOfChar(s, c, k + 1)
  }

  /** `s.split(sep)` for a one-character separator. */
  function Split(s: string, sep: char): (r: seq<string>)
    decreases |s|
    ensures |r| >= 1
    ensures forall k :: 0 <= k < |r| ==> sep !in r[k]
  {
    var k := IndexOfChar(s, sep, 0);
    if k == |s| then [s] else [s[..k]] + Split(s[k + 1..], sep)
  }

  /** Splitting and re-joining on the same separator gives back the text. */
  lemma {:induction false} JoinSplit(s: string, sep: char)
    ensures Join(Split(s, sep), [sep]) == s
    decreases |s|
  {
    var k := IndexOfChar(s, sep, 0);
    if k < |s| {
      JoinSplit(s[k + 1..], sep);
      assert s == s[..k] + [sep] + s[k + 1..];
    }
  }

  /** Joining separator-free pieces and splitting again gives back the pieces. */
  lemma {:induction false} SplitJoin(parts: seq<string>, sep: char)
    requires parts != []
    requires forall k :: 0 <= k < |parts| ==> sep !in parts[k]
    ensures Split(Join(parts, [sep]), sep) == parts
  {
    if |parts| > 1 {
      var rest := Join(parts[1..], [sep]);
      var s := parts[0] + [sep] + rest;
      SplitJoin(parts[1..], sep);
      assert IndexOfChar(s, sep, 0) == |parts[0]| by {
        assert s[|parts[0]|] == sep;
        forall j | 0 <= j < |parts[0]| ensures s[j] != sep {
          assert s[j] == parts[0][j];
        }
        IndexOfCharFirst(s, sep, |parts[0]|);
      }
      assert s[..|parts[0]|] == parts[0];
      assert s[|parts[0]| + 1..] == rest;
    } else {
      assert IndexOfChar(parts[0], sep, 0) == |parts[0]| by {
        IndexOfCharFirst(parts[0], sep, |parts[0]|);
      }
    }
  }

  lemma IndexOfCharFirst(s: string, c: char, m: nat)
    requires m <= |s| && (m < |s| ==> s[m] == c)
    requires forall j :: 0 <= j < m ==> s[j] != c
    ensures IndexOfChar(s, c, 0) == m
  {
  }

  datatype Option<+T> = None | Some(value: T)

  /** ASCII lower-casing (see README for non-ASCII letters). */
  function Lower(s: string): (r: string)
    ensures |r| == |s|
    ensures forall k :: 0 <= k < |s| ==> r[k] == (if 'A' <= s[k] <= 'Z' then (s[k] as int + 32) as char else s[k])
  {
    if s == [] then [] else [if 'A' <= s[0] <= 'Z' then (s[0] as int + 32) as char else s[0]] + Lower(s[1..])
  }

  /** Text without upper-case ASCII letters is its own lower-case form. */
  lemma LowerUnchanged(s: string)
    requires forall k :: 0 <= k < |s| ==> !('A' <= s[k] <= 'Z')
    ensures Lower(s) == s
  {
    assert forall k :: 0 <= k < |s| ==> Lower(s)[k] == s[k];
  }

  /** A piece of `t` written at `p` in `s` is written at the matching place in `s`. */
  lemma SliceWithin(s: string, p: nat, t: string, a: nat, b: nat)
    requires p + |t| <= |s| && s[p..p + |t|] == t && a <= b <= |t|
    ensures s[p + a..p + b] == t[a..b]
  {
    forall i | 0 <= i < b - a ensures s[p + a..p + b][i] == t[a..b][i] {
      assert s[p + a + i] == s[p..p + |t|][a + i];
    }
  }

  /** A character of `t` written at `p` in `s` is the character at the matching place in `s`. */
  lemma CharWithin(s: string, p: nat, t: string, j: nat)
    requires p + |t| <= |s| && s[p..p + |t|] == t && j < |t|
    ensures s[p + j] == t[j]
  {
    assert s[p + j] == s[p..p + |t|][j];
  }

  /** Regrouping three pieces of a sequence. */
  lemma Regroup<T>(a: seq<T>, b: seq<T>, c: seq<T>)
    ensures a + b + c == a + (b + c)
  {
  }
}
