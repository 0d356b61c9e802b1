/**
 * The two java.lang.String operations the diagnostics reader relies on:
 * `trim()` and `split(":", 2)`. Strings are modelled as `seq<char>`, whose
 * elements are Unicode scalar values rather than Java's UTF-16 code units;
 * both operations only inspect characters at or below U+0020 and the colon,
 * which are single code units, so the difference does not affect them.
 */
module JavaStrings {

  /** `String.trim` removes every character whose code is at most U+0020. */
  predicate IsTrimmable(c: char) {
    c <= ' '
  }

  /** Every character of `s` is one that `trim` would remove. */
  predicate AllTrimmable(s: string) {
    forall k :: 0 <= k < |s| ==> IsTrimmable(s[k])
  }

  /** `s` has nothing for `trim` to remove at either end. */
  predicate Trimmed(s: string) {
    s == [] || (!IsTrimmable(s[0]) && !IsTrimmable(s[|s| - 1]))
  }

  /**
   * `r` is `s` with a run of trimmable characters removed from each end and
   * no trimmable character left at either end of `r`.
   */
  ghost predicate IsTrimOf(r: string, s: string) {
    exists i, j :: TrimBounds(r, s, i, j)
  }

  /** `r` is `s[i..j]`, nothing trimmable is left at its ends and all around it is. */
  predicate TrimBounds(r: string, s: string, i: int, j: int) {
    Trimmed(r) && 0 <= i <= j <= |s| && r == s[i..j] &&
    AllTrimmable(s[..i]) && AllTrimmable(s[j..])
  }

  /** Drops the leading trimmable characters of `s`. */
  function TrimStart(s: string): string {
    if s != [] && IsTrimmable(s[0]) then TrimStart(s[1..]) else s
  }

  /** Drops the trailing trimmable characters of `s`. */
  function TrimEnd(s: string): string {
    if s != [] && IsTrimmable(s[|s| - 1]) then TrimEnd(s[..|s| - 1]) else s
  }

  /** `String.trim`: both ends stripped of characters at or below U+0020. */
  function Trim(s: string): string {
    TrimEnd(TrimStart(s))
  }

  /** `TrimStart` removes exactly the leading run of trimmable characters. */
  lemma {:induction false} TrimStartSpec(s: string)
    ensures var r := TrimStart(s);
      |r| <= |s| && r == s[|s| - |r|..] &&
      (r == [] || !IsTrimmable(r[0])) && AllTrimmable(s[..|s| - |r|])
  {
    if s != [] && IsTrimmable(s[0]) {
      TrimStartSpec(s[1..]);
      var r := TrimStart(s);
      assert s[..|s| - |r|] == [s[0]] + s[1..][..|s| - 1 - |r|];
    }
  }

  /** `TrimEnd` removes exactly the trailing run of trimmable characters. */
  lemma {:induction false} TrimEndSpec(s: string)
    ensures var r := TrimEnd(s);
      |r| <= |s| && r == s[..|r|] &&
      (r == [] || !IsTrimmable(r[|r| - 1])) && AllTrimmable(s[|r|..])
  {
    if s != [] && IsTrimmable(s[|s| - 1]) {
      TrimEndSpec(s[..|s| - 1]);
      var r := TrimEnd(s);
      assert s[|r|..] == s[..|s| - 1][|r|..] + [s[|s| - 1]];
    }
  }

  /** `Trim` keeps a middle slice with nothing trimmable at its ends and only trimmable text around it. */
  lemma TrimSpec(s: string)
    ensures IsTrimOf(Trim(s), s)
  {
    var t := TrimStart(s);
    TrimStartSpec(s);
    TrimEndSpec(t);
    var r := TrimEnd(t);
    var i := |s| - |t|;
    assert s[i + |r|..] == t[|r|..];
    assert TrimBounds(r, s, i, i + |r|);
  }

  /** The result of `trim` never starts or ends with a trimmable character. */
  lemma TrimTrimmed(s: string)
    ensures Trimmed(Trim(s))
  {
    TrimSpec(s);
  }

  /** A non-trimmable character cannot lie inside a removable leading run. */
  lemma SolidAfterLead(s: string, i: int, k: int)
    requires 0 <= i <= |s| && AllTrimmable(s[..i])
    requires 0 <= k < |s| && !IsTrimmable(s[k])
    ensures i <= k
  {

  }

  /** A non-trimmable character cannot lie inside a removable trailing run. */
  lemma SolidBeforeTail(s: string, j: int, k: int)
    requires 0 <= j <= |s| && AllTrimmable(s[j..])
    requires 0 <= k < |s| && !IsTrimmable(s[k])
    ensures k < j
  {

  }

  /** Two ways of trimming the same string agree. */
  lemma TrimBoundsUnique(r: string, t: string, s: string, i: int, j: int, i': int, j': int)
    requires TrimBounds(r, s, i, j) && TrimBounds(t, s, i', j')
    ensures r == t
  {
    if r != [] {
      assert s[i] == r[0] && s[j - 1] == r[|r| - 1];
      SolidAfterLead(s, i', i);
      SolidBeforeTail(s, j', j - 1);
    }
    if t != [] {
      assert s[i'] == t[0] && s[j' - 1] == t[|t| - 1];
      SolidAfterLead(s, i, i');
      SolidBeforeTail(s, j, j' - 1);
    }
  }

  /** The result of `trim` is the only string that `IsTrimOf` allows. */
  lemma TrimUnique(r: string, s: string)
    requires IsTrimOf(r, s)
    ensures r == Trim(s)
  {
    var t := Trim(s);
    TrimSpec(s);
    var i, j :| TrimBounds(r, s, i, j);
    var i', j' :| TrimBounds(t, s, i', j');
    TrimBoundsUnique(r, t, s, i, j, i', j');
  }

  /** Trimming a string that has nothing to strip returns it unchanged. */
  lemma TrimOfTrimmed(s: string)
    requires Trimmed(s)
    ensures Trim(s) == s
  {
    assert TrimBounds(s, s, 0, |s|);
    TrimUnique(s, s);
  }

  /** `trim` is idempotent. */
  lemma TrimIdempotent(s: string)
    ensures Trim(Trim(s)) == Trim(s)
  {
    TrimTrimmed(s);
    TrimOfTrimmed(Trim(s));
  }

  /** Padding a trimmed string with trimmable characters does not change its trim. */
  lemma TrimOfPadded(pre: string, t: string, post: string)
    requires AllTrimmable(pre) && Trimmed(t) && AllTrimmable(post)
    ensures Trim(pre + t + post) == t
  {
    var s := pre + t + post;
    assert s[|pre|..|pre| + |t|] == t;
    assert s[..|pre|] == pre;
    assert s[|pre| + |t|..] == post;
    assert TrimBounds(t, s, |pre|, |pre| + |t|);
    TrimUnique(t, s);
  }

  /**
   * `s.split(sep, 2)` for a one-character separator: one part when `sep` does
   * not occur, otherwise the text before the first `sep` and everything after
   * it (further separators included, an empty trailing part kept).
   */
  function SplitOnce(s: string, sep: char): (parts: seq<string>)
    ensures 1 <= |parts| <= 2
    ensures |parts| == 2 <==> sep in s
    ensures |parts| == 1 ==> parts[0] == s
  {
    if s == [] then [s]
    else if s[0] == sep then ["", s[1..]]
    else
      var rest := SplitOnce(s[1..], sep);
      [[s[0]] + rest[0]] + rest[1..]
  }

  /**
   * With two parts, the first is free of `sep` and the two joined by `sep`
   * give the string back.
   */
  lemma {:induction false} SplitOnceJoin(s: string, sep: char)
    requires sep in s
    ensures var parts := SplitOnce(s, sep);
      sep !in parts[0] && s == parts[0] + [sep] + parts[1]
  {
    if s[0] != sep {
      SplitOnceJoin(s[1..], sep);
      assert s == [s[0]] + s[1..];
    }
  }

  /** Splitting at the first separator is determined by where that separator is. */
  lemma {:induction false} SplitOnceAt(pre: string, sep: char, post: string)
    requires sep !in pre
    ensures SplitOnce(pre + [sep] + post, sep) == [pre, post]
  {
    var s := pre + [sep] + post;
    if pre == [] {
      assert s[1..] == post;
    } else {
      assert s[0] == pre[0] && s[1..] == pre[1..] + [sep] + post;
      SplitOnceAt(pre[1..], sep, post);
      assert [s[0]] + pre[1..] == pre;
    }
  }
}
