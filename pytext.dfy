/**
 * The few Python `str` operations the rewriter relies on, over Dafny strings:
 * anchored prefix matching (`re.match` with a literal prefix), `str.strip`,
 * `s.split(c)[1]` and substring search.
 */
module PyText {
  import opened Results

  /** `re.match(prefix + ".*", s)` for a literal prefix: an anchored prefix test. */
  predicate StartsWith(s: string, prefix: string) {
    |prefix| <= |s| && s[..|prefix|] == prefix
  }

  /** Python's `str.isspace()` for one character. */
  predicate IsSpace(c: char) {
    c == ' ' || ('\t' <= c <= '\r') || ('\U{1C}' <= c <= '\U{1F}') ||
    c == '\U{85}' || c == '\U{A0}' || c == '\U{1680}' || ('\U{2000}' <= c <= '\U{200A}') ||
    c == '\U{2028}' || c == '\U{2029}' || c == '\U{202F}' || c == '\U{205F}' || c == '\U{3000}'
  }

  predicate AllSpace(s: string) {
    forall i :: 0 <= i < |s| ==> IsSpace(s[i])
  }

  /** Where the text of `s` starts once the whitespace from index `k` on is skipped. */
  function SkipSpace(s: string, k: nat): (i: nat)
    requires k <= |s|
    ensures k <= i <= |s|
    ensures forall j :: k <= j < i ==> IsSpace(s[j])
    ensures i == |s| || !IsSpace(s[i])
    decreases |s| - k
  {
    if k < |s| && IsSpace(s[k]) then SkipSpace(s, k + 1) else k
  }

  /** Where the text of `s[lo..k]` ends once its trailing whitespace is dropped. */
  function DropSpace(s: string, lo: nat, k: nat): (j: nat)
    requires lo <= k <= |s|
    ensures lo <= j <= k
    ensures forall m :: j <= m < k ==> IsSpace(s[m])
    ensures j == lo || !IsSpace(s[j - 1])
    decreases k
  {
    if lo < k && IsSpace(s[k - 1]) then DropSpace(s, lo, k - 1) else k
  }

  /** Index of the first non-whitespace character of `s`, or `|s|`. */
  function StripStart(s: string): nat
    ensures StripStart(s) <= |s|
  {
    SkipSpace(s, 0)
  }

  /**
   * `s.strip()`: a contiguous part of `s` that neither starts nor ends with
   * whitespace, and everything cut off on either side is whitespace.
   */
  function Strip(s: string): (r: string)
    ensures r == [] || (!IsSpace(r[0]) && !IsSpace(r[|r| - 1]))
    ensures var i := StripStart(s);
      i + |r| <= |s| && r == s[i..i + |r|] && AllSpace(s[..i]) && AllSpace(s[i + |r|..])
  {
    var i := StripStart(s);
    var j := DropSpace(s, i, |s|);
    assert AllSpace(s[..i]) by {
      forall m | 0 <= m < i ensures IsSpace(s[..i][m]) { assert s[..i][m] == s[m]; }
    }
    assert AllSpace(s[j..]) by {
      forall m | 0 <= m < |s| - j ensures IsSpace(s[j..][m]) { assert s[j..][m] == s[j + m]; }
    }
    s[i..j]
  }

  lemma {:induction false} SkipSpaceStopsAt(s: string, k: nat, p: nat)
    requires k <= p <= |s|
    requires forall m :: k <= m < p ==> IsSpace(s[m])
    requires p == |s| || !IsSpace(s[p])
    ensures SkipSpace(s, k) == p
    decreases p - k
  {
    if k < p {
      SkipSpaceStopsAt(s, k + 1, p);
    }
  }

  lemma {:induction false} DropSpaceStopsAt(s: string, lo: nat, k: nat, p: nat)
    requires lo <= p <= k <= |s|
    requires forall m :: p <= m < k ==> IsSpace(s[m])
    requires p == lo || !IsSpace(s[p - 1])
    ensures DropSpace(s, lo, k) == p
    decreases k
  {
    if p < k {
      DropSpaceStopsAt(s, lo, k - 1, p);
    }
  }

  /** Whitespace on both sides of a text with no whitespace at its ends is exactly what `strip` removes. */
  lemma StripPadded(pre: string, core: string, post: string)
    requires AllSpace(pre) && AllSpace(post)
    requires core == [] || (!IsSpace(core[0]) && !IsSpace(core[|core| - 1]))
    ensures Strip(pre + core + post) == core
  {
    var s := pre + core + post;
    var i := |pre| + |core|;
    assert forall m :: 0 <= m < |pre| ==> s[m] == pre[m];
    assert forall m :: i <= m < |s| ==> s[m] == post[m - i];
    if core == [] {
      SkipSpaceStopsAt(s, 0, |s|);
      DropSpaceStopsAt(s, |s|, |s|, |s|);
    } else {
      assert s[|pre|] == core[0] && s[i - 1] == core[|core| - 1];
      SkipSpaceStopsAt(s, 0, |pre|);
      DropSpaceStopsAt(s, |pre|, |s|, i);
      assert s[|pre|..i] == core;
    }
  }

  /** Index of the first `c` in `s`, or `|s|` when `s` has none. */
  function IndexOf(s: string, c: char): (r: nat)
    ensures r <= |s|
    ensures c !in s[..r]
    ensures r < |s| ==> s[r] == c
  {
    if s == [] || s[0] == c then 0 else 1 + IndexOf(s[1..], c)
  }

  /** The first `c` stands where nothing before it is a `c`. */
  lemma IndexOfAt(s: string, c: char, i: nat)
    requires i < |s| && s[i] == c && c !in s[..i]
    ensures IndexOf(s, c) == i
  {
  }

  /**
   * `s.split(c)[1]`: the text between the first and the second `c` (or the
   * end of `s`); `None` where Python raises `IndexError`, because `s` holds no `c`.
   */
  function SecondField(s: string, c: char): (r: Option<string>)
    ensures r.None? <==> c !in s
    ensures r.Some? ==> c !in r.value
    ensures r.Some? ==>
      var start := IndexOf(s, c) + 1;
      var end := start + |r.value|;
      c !in s[..start - 1] && s[start - 1] == c && end <= |s| &&
      r.value == s[start..end] && (end == |s| || s[end] == c)
  {
    var i := IndexOf(s, c);
    if i == |s| then
      assert s[..i] == s;
      None
    else
      var rest := s[i + 1..];
      Some(rest[..IndexOf(rest, c)])
  }

  /**
   * The text after the first `c` of a line, up to the next `c` or the end of
   * the line, is its second field, whatever follows that next `c`.
   */
  lemma SecondFieldOf(head: string, c: char, field: string, rest: string)
    requires c !in head && c !in field
    requires rest == [] || rest[0] == c
    ensures SecondField(head + [c] + field + rest, c) == Some(field)
  {
    var s := head + [c] + field + rest;
    var start := |head| + 1;
    assert s[..|head|] == head;
    IndexOfAt(s, c, |head|);
    var t := s[start..];
    assert t == field + rest;
    if rest == [] {
      assert t == field;
      assert IndexOf(t, c) == |field|;
    } else {
      assert t[..|field|] == field;
      IndexOfAt(t, c, |field|);
    }
    assert t[..|field|] == field;
  }

  /** `t in s` for strings: `t` occurs as a contiguous part of `s`. */
  predicate Contains(s: string, t: string) {
    exists i :: 0 <= i <= |s| && StartsWith(s[i..], t)
  }
}
