/** The handful of `java.lang.String` operations the account core relies on:
    `trim`, `isEmpty`, `contains` with a one-character needle, `indexOf`,
    `lastIndexOf`, `startsWith` and `substring`. A Java string is modelled as a
    sequence of `char`; `length()` is `|s|`. */
module Text {
  import opened Wrappers

  /** `String.trim` strips every leading and trailing character whose code is at
      most U+0020, not only the space character. */
  predicate IsTrimmable(c: char) {
    c <= ' '
  }

  /** A string that `trim().isEmpty()` reports as empty. */
  predicate AllTrimmable(s: string) {
    forall k :: 0 <= k < |s| ==> IsTrimmable(s[k])
  }

  /** Index of the first character at or after `i` that `trim` keeps. */
  function LeadingEnd(s: string, i: nat): (lo: nat)
    requires i <= |s|
    ensures i <= lo <= |s|
    ensures forall k :: i <= k < lo ==> IsTrimmable(s[k])
    ensures lo < |s| ==> !IsTrimmable(s[lo])
    decreases |s| - i
  {
    if i < |s| && IsTrimmable(s[i]) then LeadingEnd(s, i + 1) else i
  }

  /** End (exclusive) of the kept region when scanning back from `len`, never
      passing `lo`. */
  function TrailingStart(s: string, lo: nat, len: nat): (hi: nat)
    requires lo <= len <= |s|
    ensures lo <= hi <= len
    ensures forall k :: hi <= k < len ==> IsTrimmable(s[k])
    ensures hi > lo ==> !IsTrimmable(s[hi - 1])
  {
    if lo < len && IsTrimmable(s[len - 1]) then TrailingStart(s, lo, len - 1) else len
  }

  /** `String.trim`: the longest infix of `s` that neither starts nor ends with a
      trimmable character, obtained by dropping only trimmable characters. */
  function Trim(s: string): (t: string)
    ensures |t| <= |s|
    ensures t == [] <==> AllTrimmable(s)
    ensures t != [] ==> !IsTrimmable(t[0]) && !IsTrimmable(t[|t| - 1])
    ensures exists lo :: TrimmedAt(s, t, lo)
  {
    var lo := LeadingEnd(s, 0);
    var hi := TrailingStart(s, lo, |s|);
    assert TrimmedAt(s, s[lo..hi], lo);
    s[lo..hi]
  }

  /** `t` sits at offset `lo` of `s` and everything around it is trimmable. */
  ghost predicate TrimmedAt(s: string, t: string, lo: int) {
    && 0 <= lo <= lo + |t| <= |s|
    && t == s[lo..lo + |t|]
    && (forall k :: 0 <= k < lo ==> IsTrimmable(s[k]))
    && (forall k :: lo + |t| <= k < |s| ==> IsTrimmable(s[k]))
  }

  /** `trim().isEmpty()`, the blank test the registration validator applies. */
  predicate IsBlank(s: string) {
    Trim(s) == []
  }

  /** Trimming a string with no trimmable ends leaves it unchanged. */
  lemma TrimKeepsCleanString(s: string)
    requires s == [] || (!IsTrimmable(s[0]) && !IsTrimmable(s[|s| - 1]))
    ensures Trim(s) == s
  {
    if s != [] {
      assert LeadingEnd(s, 0) == 0;
      assert TrailingStart(s, 0, |s|) == |s|;
    }
  }

  /** `trim` is idempotent. */
  lemma TrimIdempotent(s: string)
    ensures Trim(Trim(s)) == Trim(s)
  {
    TrimKeepsCleanString(Trim(s));
  }

  /** `String.indexOf(c, from)`: the first position at or after `from` holding `c`. */
  function IndexOf(s: string, c: char, from: nat): (r: Option<nat>)
    ensures r.Some? ==> from <= r.value < |s| && s[r.value] == c
    ensures r.Some? ==> forall k :: from <= k < r.value ==> s[k] != c
    ensures r.None? ==> forall k :: from <= k < |s| ==> s[k] != c
    decreases |s| - from
  {
    if from >= |s| then None
    else if s[from] == c then Some(from)
    else IndexOf(s, c, from + 1)
  }

  /** `String.lastIndexOf(c)` restricted to the first `len` characters. */
  function LastIndexOf(s: string, c: char, len: nat): (r: Option<nat>)
    requires len <= |s|
    ensures r.Some? ==> r.value < len && s[r.value] == c
    ensures r.Some? ==> forall k :: r.value < k < len ==> s[k] != c
    ensures r.None? ==> forall k :: 0 <= k < len ==> s[k] != c
  {
    if len == 0 then None
    else if s[len - 1] == c then Some(len - 1)
    else LastIndexOf(s, c, len - 1)
  }

  /** `String.contains` with a one-character needle. */
  predicate Contains(s: string, c: char) {
    IndexOf(s, c, 0).Some?
  }

  /** `contains` agrees with sequence membership. */
  lemma ContainsIsMembership(s: string, c: char)
    ensures Contains(s, c) <==> c in s
  {
    if c in s {
      var k :| 0 <= k < |s| && s[k] == c;
      assert IndexOf(s, c, 0).Some?;
    }
  }

  /** `String.startsWith`. */
  predicate StartsWith(s: string, prefix: string) {
    |prefix| <= |s| && s[..|prefix|] == prefix
  }
}
