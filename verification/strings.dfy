/**
  The string operations the output naming relies on: suffix tests, the
  case-insensitive "erase last occurrence" of boost's `ireplace_last` with an
  empty replacement, and the text after the last occurrence of a character
  (the basename after the last '/', the extension after the last '.').
 */
module Strings {
  import opened Common

  predicate EndsWith(s: string, suffix: string) {
    |suffix| <= |s| && s[|s| - |suffix|..] == suffix
  }

  /** ASCII lower-case folding, the comparison boost's case-insensitive
      algorithms perform in the classic locale. */
  function LowerChar(c: char): char {
    if 'A' <= c <= 'Z' then (c as int + 32) as char else c
  }

  predicate EqualsIgnoreCase(a: string, b: string) {
    |a| == |b| && forall i :: 0 <= i < |a| ==> LowerChar(a[i]) == LowerChar(b[i])
  }

  /** `pat` occurs in `s` at position `k`, ignoring case. */
  predicate MatchesAt(s: string, pat: string, k: int) {
    0 <= k && k + |pat| <= |s| && EqualsIgnoreCase(s[k..k + |pat|], pat)
  }

  /** The right-most case-insensitive occurrence of `pat` in `s` that starts
      at or before `from`. */
  function LastMatchFrom(s: string, pat: string, from: int): (r: Option<nat>)
    requires from + |pat| <= |s|
    decreases from + 1
    ensures r.Some? ==> r.value <= from && MatchesAt(s, pat, r.value)
    ensures r.Some? ==> forall j :: r.value < j <= from ==> !MatchesAt(s, pat, j)
    ensures r.None? ==> forall j :: 0 <= j <= from ==> !MatchesAt(s, pat, j)
  {
    if from < 0 then None
    else if EqualsIgnoreCase(s[from..from + |pat|], pat) then Some(from)
    else LastMatchFrom(s, pat, from - 1)
  }

  /** The start of the right-most case-insensitive occurrence of `pat` in `s`,
      the occurrence boost's `ireplace_last` acts on. */
  function LastMatch(s: string, pat: string): (r: Option<nat>)
    ensures r.Some? ==> MatchesAt(s, pat, r.value)
    ensures r.Some? ==> forall j :: r.value < j ==> !MatchesAt(s, pat, j)
    ensures r.None? ==> forall j :: !MatchesAt(s, pat, j)
  {
    if |pat| > |s| then None else LastMatchFrom(s, pat, |s| - |pat|)
  }

  /** `ireplace_last(s, pat, "")`: erase the right-most case-insensitive
      occurrence of `pat`, or leave `s` alone when there is none. */
  function EraseLast(s: string, pat: string): (r: string)
    ensures |r| <= |s|
    ensures (forall j :: !MatchesAt(s, pat, j)) ==> r == s
    ensures forall k :: MatchesAt(s, pat, k) && (forall j :: k < j ==> !MatchesAt(s, pat, j))
              ==> r == s[..k] + s[k + |pat|..]
  {
    match LastMatch(s, pat)
    case None => s
    case Some(k) => s[..k] + s[k + |pat|..]
  }

  /** `pat` occurs somewhere in `s`, ignoring case. */
  predicate Occurs(s: string, pat: string) {
    exists k :: 0 <= k <= |s| && MatchesAt(s, pat, k)
  }

  /** Each character of a match agrees with the pattern up to case. */
  lemma MatchedChar(s: string, pat: string, k: int, j: int)
    requires MatchesAt(s, pat, k) && 0 <= j < |pat|
    ensures LowerChar(s[k + j]) == LowerChar(pat[j])
  {
    assert s[k..k + |pat|][j] == s[k + j];
  }

  /** A match that ends within `s` is a match in `s` itself. */
  lemma OccursInPrefix(s: string, t: string, pat: string, k: int)
    requires MatchesAt(s + t, pat, k) && k + |pat| <= |s|
    ensures MatchesAt(s, pat, k)
  {
    assert (s + t)[k..k + |pat|] == s[k..k + |pat|];
  }

  /** An occurrence in `s` is still one after text is appended. */
  lemma OccursExtends(s: string, t: string, pat: string)
    requires Occurs(s, pat)
    ensures Occurs(s + t, pat)
  {
    var k :| 0 <= k <= |s| && MatchesAt(s, pat, k);
    assert (s + t)[k..k + |pat|] == s[k..k + |pat|];
    assert MatchesAt(s + t, pat, k);
  }

  /** Erasing an occurring pattern removes exactly its length. */
  lemma EraseLastShortens(s: string, pat: string)
    requires Occurs(s, pat)
    ensures |EraseLast(s, pat)| == |s| - |pat|
  {
    var k :| 0 <= k <= |s| && MatchesAt(s, pat, k);
    assert LastMatch(s, pat).Some?;
  }

  /** Erasing a non-empty pattern changes nothing exactly when it does not occur. */
  lemma EraseLastIdentity(s: string, pat: string)
    requires |pat| > 0
    ensures EraseLast(s, pat) == s <==> !Occurs(s, pat)
  {
    if Occurs(s, pat) {
      EraseLastShortens(s, pat);
    }
  }

  /** The text after the last occurrence of `c` in `s`, or `None` when `c`
      does not occur: the longest suffix of `s` free of `c`, which `c`
      immediately precedes. */
  function AfterLast(s: string, c: char): (r: Option<string>)
    ensures r.None? <==> c !in s
    ensures r.Some? ==> c !in r.value && EndsWith(s, r.value)
    ensures r.Some? ==> |r.value| < |s| && s[|s| - |r.value| - 1] == c
  {
    if s == [] then None
    else if s[|s| - 1] == c then Some([])
    else
      var init := s[..|s| - 1];
      assert s == init + [s[|s| - 1]];
      match AfterLast(init, c)
      case None => None
      case Some(t) => Some(t + [s[|s| - 1]])
  }

  /** Last component of a '/'-separated path: what is left of `boost::split`
      on '/' after taking the last piece. */
  function BaseName(path: string): (r: string)
    ensures '/' !in r && EndsWith(path, r)
    ensures |r| < |path| ==> path[|path| - |r| - 1] == '/'
  {
    match AfterLast(path, '/')
    case None => path
    case Some(t) => t
  }

  /** Text after the last '.', or the empty string when there is no '.'. */
  function FileExtension(path: string): (r: string)
    ensures '.' !in r && EndsWith(path, r)
    ensures '.' in path ==> |r| < |path| && path[|path| - |r| - 1] == '.'
    ensures '.' !in path ==> r == []
  {
    match AfterLast(path, '.')
    case None => []
    case Some(t) => t
  }

  /** A pattern that starts with '.' can only occur where a '.' stands:
      no letter folds to '.'. */
  lemma MatchStartsAtDot(s: string, pat: string, k: int)
    requires |pat| > 0 && pat[0] == '.'
    requires MatchesAt(s, pat, k)
    ensures s[k] == '.'
  {
    assert s[k..k + |pat|][0] == s[k];
  }

  /** Erasing the last occurrence of a pattern from text that ends with it
      takes exactly that ending off. */
  lemma EraseLastOfSuffix(s: string, pat: string)
    ensures EraseLast(s + pat, pat) == s
  {
    var u := s + pat;
    assert u[|s|..|s| + |pat|] == pat;
    assert MatchesAt(u, pat, |s|);
    assert u[..|s|] == s;
  }

  /** A pattern starting with '.' does not occur in text without a '.'. */
  lemma NoDottedPatternIn(s: string, pat: string)
    requires '.' !in s
    requires |pat| > 0 && pat[0] == '.'
    ensures !Occurs(s, pat)
  {
    forall j | 0 <= j <= |s| && MatchesAt(s, pat, j)
      ensures false
    {
      MatchStartsAtDot(s, pat, j);
    }
  }

  /** One character other than `c` appended to the text. */
  lemma AfterLastSnoc(s: string, c: char, x: char)
    requires x != c
    ensures AfterLast(s + [x], c).None? <==> AfterLast(s, c).None?
    ensures AfterLast(s, c).Some? ==> AfterLast(s + [x], c) == Some(AfterLast(s, c).value + [x])
  {
    var u := s + [x];
    assert u[..|u| - 1] == s;
  }

  /** Text appended after the last `c` is still after the last `c`. */
  lemma {:induction false} AfterLastExtend(s: string, c: char, t: string)
    requires c !in t
    ensures AfterLast(s + t, c).None? <==> AfterLast(s, c).None?
    ensures AfterLast(s, c).Some? ==> AfterLast(s + t, c) == Some(AfterLast(s, c).value + t)
    decreases |t|
  {
    if t == [] {
      assert s + t == s;
      if AfterLast(s, c).Some? {
        assert AfterLast(s, c).value + t == AfterLast(s, c).value;
      }
    } else {
      var init := t[..|t| - 1];
      var x := t[|t| - 1];
      assert t == init + [x];
      AfterLastExtend(s, c, init);
      var u := s + init;
      assert u + [x] == s + t;
      AfterLastSnoc(u, c, x);
      ExtendTwice(AfterLast(s, c), AfterLast(u, c), AfterLast(s + t, c), init, [x]);
    }
  }

  /** Extending an optional text by `t` and then by `t'` extends it by `t + t'`. */
  lemma ExtendTwice(a: Option<string>, b: Option<string>, d: Option<string>, t: string, t': string)
    requires b.None? <==> a.None?
    requires a.Some? ==> b == Some(a.value + t)
    requires d.None? <==> b.None?
    requires b.Some? ==> d == Some(b.value + t')
    ensures d.None? <==> a.None?
    ensures a.Some? ==> d == Some(a.value + (t + t'))
  {
    if a.Some? {
      assert a.value + t + t' == a.value + (t + t');
    }
  }

  /** The basename is the only '/'-free suffix of the path that is the whole
      path or stands right after a '/'. */
  lemma BaseNameUnique(path: string, r: string)
    requires '/' !in r && EndsWith(path, r)
    requires |r| < |path| ==> path[|path| - |r| - 1] == '/'
    ensures r == BaseName(path)
  {
  }

  /** Appending '/'-free text to a path that has a '/' extends its basename
      by that text. */
  lemma BaseNameAppend(path: string, t: string)
    requires '/' in path && '/' !in t
    ensures BaseName(path + t) == BaseName(path) + t
  {
    AfterLastExtend(path, '/', t);
  }

  /** The extension of `s + "." + ext` is `ext` when `ext` has no '.'. */
  lemma {:induction false} FileExtensionOf(s: string, ext: string)
    requires '.' !in ext
    ensures FileExtension(s + "." + ext) == ext
  {
    AfterLastExtend(s + ".", '.', ext);
    var u := s + ".";
    assert u[|u| - 1] == '.';
    assert AfterLast(u, '.') == Some([]);
    assert [] + ext == ext;
  }
}
