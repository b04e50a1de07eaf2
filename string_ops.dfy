/**
 * The JavaScript string operations the service relies on: `trim` and
 * `startsWith`, plus the occurrence and subsequence notions used to state
 * what fence removal does.
 */
module StringOps {

  /**
   * The code points `String.prototype.trim` removes: ECMAScript's WhiteSpace
   * (TAB, VT, FF, ZWNBSP and every Unicode space separator) and
   * LineTerminator (LF, CR, LS, PS).
   */
  predicate IsWhitespace(c: char) {
    || c == '\t' || c == '\U{000B}' || c == '\U{000C}' || c == ' ' || c == '\U{00A0}'
    || c == '\U{FEFF}' || c == '\U{1680}' || ('\U{2000}' <= c <= '\U{200A}')
    || c == '\U{202F}' || c == '\U{205F}' || c == '\U{3000}'
    || c == '\n' || c == '\r' || c == '\U{2028}' || c == '\U{2029}'
  }

  /** Neither end of `s` is whitespace. */
  predicate NoOuterSpace(s: string) {
    s == [] || (!IsWhitespace(s[0]) && !IsWhitespace(s[|s| - 1]))
  }

  /** Every character of `s` is whitespace. */
  predicate AllWhitespace(s: string) {
    forall k :: 0 <= k < |s| ==> IsWhitespace(s[k])
  }

  /** The first position at or after `i` that does not hold whitespace, or `|s|`. */
  function SkipSpaceForward(s: string, i: nat): (e: nat)
    requires i <= |s|
    ensures i <= e <= |s|
    ensures forall k :: i <= k < e ==> IsWhitespace(s[k])
    ensures e < |s| ==> !IsWhitespace(s[e])
    decreases |s| - i
  {
    if i < |s| && IsWhitespace(s[i]) then SkipSpaceForward(s, i + 1) else i
  }

  /** Where the run of whitespace ending at `j` starts, looking back no further than `lo`. */
  function SkipSpaceBackward(s: string, lo: nat, j: nat): (b: nat)
    requires lo <= j <= |s|
    ensures lo <= b <= j
    ensures forall k :: b <= k < j ==> IsWhitespace(s[k])
    ensures b > lo ==> !IsWhitespace(s[b - 1])
    decreases j
  {
    if j > lo && IsWhitespace(s[j - 1]) then SkipSpaceBackward(s, lo, j - 1) else j
  }

  /** Where `Trim(s)` begins in `s`. */
  function TrimOffset(s: string): (i: nat)
    ensures i <= |s|
  {
    SkipSpaceForward(s, 0)
  }

  /**
   * JavaScript `s.trim()`: the slice of `s` left once the whitespace at its
   * start and at its end is removed. Everything removed is whitespace and
   * the result has none at either end.
   */
  function Trim(s: string): (r: string)
    ensures NoOuterSpace(r)
    ensures TrimOffset(s) + |r| <= |s|
    ensures r == s[TrimOffset(s)..TrimOffset(s) + |r|]
    ensures forall k :: 0 <= k < TrimOffset(s) ==> IsWhitespace(s[k])
    ensures forall k :: TrimOffset(s) + |r| <= k < |s| ==> IsWhitespace(s[k])
  {
    var i := SkipSpaceForward(s, 0);
    s[i..SkipSpaceBackward(s, i, |s|)]
  }

  /** Trimming text that has no whitespace at either end leaves it unchanged. */
  lemma TrimTrimmed(s: string)
    requires NoOuterSpace(s)
    ensures Trim(s) == s
  {
    assert TrimOffset(s) == 0;
    assert s[0..|s|] == s;
  }

  /** One whitespace character on each side of a trimmed text is removed by trimming. */
  lemma TrimWrapped(c1: char, t: string, c2: char)
    requires IsWhitespace(c1) && IsWhitespace(c2)
    requires |t| > 0 && NoOuterSpace(t)
    ensures Trim([c1] + t + [c2]) == t
  {
    var s := [c1] + t + [c2];
    assert s[0] == c1 && s[1] == t[0];
    assert SkipSpaceForward(s, 1) == 1;
    assert s[|s| - 1] == c2 && s[|s| - 2] == t[|t| - 1];
    assert SkipSpaceBackward(s, 1, |s| - 1) == |s| - 1;
    assert s[1..|s| - 1] == t;
  }

  /** Trimming yields the empty string exactly when the input is all whitespace. */
  lemma TrimEmptyIffBlank(s: string)
    ensures Trim(s) == [] <==> AllWhitespace(s)
  {
  }

  /** JavaScript `s.startsWith(p)`. */
  predicate StartsWith(s: string, p: string) {
    |p| <= |s| && s[..|p|] == p
  }

  /** `s` starts with `p` exactly when `p` is no longer and agrees with `s` at each of its positions. */
  lemma StartsWithCharwise(s: string, p: string)
    ensures StartsWith(s, p) <==> |p| <= |s| && forall k :: 0 <= k < |p| ==> s[k] == p[k]
  {
    if |p| <= |s| && forall k :: 0 <= k < |p| ==> s[k] == p[k] {
      assert s[..|p|] == p;
    }
  }

  /** `p` occurs in `t` at offset `k`. */
  predicate OccursAt(t: string, p: string, k: nat) {
    k + |p| <= |t| && t[k..k + |p|] == p
  }

  /** `p` occurs somewhere in `t`. */
  predicate Contains(t: string, p: string) {
    exists k: nat | k <= |t| :: OccursAt(t, p, k)
  }

  /** A slice of a slice is a slice. */
  lemma SliceOfSlice(t: string, i: nat, j: nat, a: nat, b: nat)
    requires i <= j <= |t| && a <= b <= j - i
    ensures t[i..j][a..b] == t[i + a..i + b]
  {
    assert forall n :: 0 <= n < b - a ==> t[i..j][a..b][n] == t[i + a + n];
  }

  /** A slice of a text free of `p` is free of `p`. */
  lemma {:induction false} SliceAvoids(t: string, p: string, i: nat, j: nat)
    requires i <= j <= |t|
    requires !Contains(t, p)
    ensures !Contains(t[i..j], p)
  {
    forall k: nat | k <= j - i ensures !OccursAt(t[i..j], p, k) {
      if OccursAt(t[i..j], p, k) {
        SliceOfSlice(t, i, j, k, k + |p|);
        assert OccursAt(t, p, i + k);
      }
    }
  }

  /** Trimming a text free of `p` leaves it free of `p`. */
  lemma TrimAvoids(s: string, p: string)
    requires !Contains(s, p)
    ensures !Contains(Trim(s), p)
  {
    var i := TrimOffset(s);
    SliceAvoids(s, p, i, i + |Trim(s)|);
  }

  /** `a` can be obtained from `b` by deleting characters. */
  predicate IsSubsequence(a: string, b: string)
    decreases |b|
  {
    || |a| == 0
    || (|b| > 0 && ((a[0] == b[0] && IsSubsequence(a[1..], b[1..])) || IsSubsequence(a, b[1..])))
  }

  /** Every prefix of `b` is a subsequence of `b`. */
  lemma {:induction false} PrefixIsSubsequence(b: string, j: nat)
    requires j <= |b|
    ensures IsSubsequence(b[..j], b)
    decreases j
  {
    if j > 0 {
      PrefixIsSubsequence(b[1..], j - 1);
      assert b[..j][1..] == b[1..][..j - 1];
    }
  }

  /** A subsequence of a suffix of `b` is a subsequence of `b`. */
  lemma {:induction false} SuffixSubsequence(a: string, b: string, i: nat)
    requires i <= |b|
    requires IsSubsequence(a, b[i..])
    ensures IsSubsequence(a, b)
    decreases i
  {
    if i > 0 {
      assert b[i - 1..][1..] == b[i..];
      SuffixSubsequence(a, b, i - 1);
    }
  }

  /** Every slice of `b` is a subsequence of `b`. */
  lemma SliceIsSubsequence(b: string, i: nat, j: nat)
    requires i <= j <= |b|
    ensures IsSubsequence(b[i..j], b)
  {
    PrefixIsSubsequence(b[i..], j - i);
    assert b[i..][..j - i] == b[i..j];
    SuffixSubsequence(b[i..j], b, i);
  }

  /** Trimming only deletes characters. */
  lemma TrimIsSubsequence(s: string)
    ensures IsSubsequence(Trim(s), s)
  {
    var i := TrimOffset(s);
    SliceIsSubsequence(s, i, i + |Trim(s)|);
  }

  /** Deleting characters twice is deleting characters. */
  lemma {:induction false} SubsequenceTransitive(a: string, b: string, c: string)
    requires IsSubsequence(a, b) && IsSubsequence(b, c)
    ensures IsSubsequence(a, c)
    decreases |c|
  {
    if |a| == 0 {
    } else if IsSubsequence(b, c[1..]) {
      SubsequenceTransitive(a, b, c[1..]);
    } else if a[0] == b[0] && IsSubsequence(a[1..], b[1..]) {
      SubsequenceTransitive(a[1..], b[1..], c[1..]);
    } else {
      SubsequenceTransitive(a, b[1..], c[1..]);
    }
  }
}
