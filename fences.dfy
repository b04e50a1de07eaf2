/**
 * The markdown fence removal `text.replace(/```json|```/g, "")`.
 *
 * A global regular-expression replace scans left to right: at each position
 * it tries the alternatives in order ("```json" first, then "```"); a match
 * is deleted and the scan resumes after it, otherwise the character is kept
 * and the scan moves on by one.
 */
module Fences {
  import opened StringOps

  /** The bare markdown code fence. */
  const Fence: string := "```"

  /** A code fence with the `json` language tag. */
  const JsonFence: string := "```json"

  /**
   * The global replace of `/```json|```/g` by the empty string. Both
   * alternatives begin with a backtick, so any other character is kept
   * without trying them.
   */
  function StripFences(s: string): (r: string)
    ensures |r| <= |s|
    decreases |s|
  {
    if |s| == 0 then ""
    else if s[0] != '`' then [s[0]] + StripFences(s[1..])
    else if StartsWith(s, JsonFence) then StripFences(s[|JsonFence|..])
    else if StartsWith(s, Fence) then StripFences(s[|Fence|..])
    else [s[0]] + StripFences(s[1..])
  }

  /** Where no fence starts, the scan keeps the character and moves on. */
  lemma StripKeeps(s: string)
    requires |s| > 0 && !StartsWith(s, Fence)
    ensures StripFences(s) == [s[0]] + StripFences(s[1..])
  {
  }

  /** A text that begins with something other than a backtick keeps its first character. */
  lemma StripKeepsHead(s: string)
    requires |s| > 0 && s[0] != '`'
    ensures StripFences(s) == [s[0]] + StripFences(s[1..])
  {
    if |Fence| <= |s| {
      assert s[..|Fence|][0] == s[0];
    }
    StripKeeps(s);
  }

  /** Putting `c` in front of a fence-free text creates no fence unless `c` completes one. */
  lemma ConsAvoidsFence(c: char, t: string)
    requires !Contains(t, Fence)
    requires !(c == '`' && |t| >= 2 && t[0] == '`' && t[1] == '`')
    ensures !Contains([c] + t, Fence)
  {
    var u := [c] + t;
    forall k: nat | k <= |u| ensures !OccursAt(u, Fence, k) {
      if k == 0 {
        if |u| >= |Fence| {
          assert u[..|Fence|] == [c, t[0], t[1]];
        }
      } else if OccursAt(u, Fence, k) {
        assert u[k..k + 3] == t[k - 1..k + 2];
        assert OccursAt(t, Fence, k - 1);
      }
    }
  }

  /**
   * No "```" survives the replace, even where deleting a fence brings
   * backticks on either side of it together.
   */
  lemma {:induction false} StripRemovesAllFences(s: string)
    ensures !Contains(StripFences(s), Fence)
    decreases |s|
  {
    if |s| == 0 {
    } else if StartsWith(s, JsonFence) {
      StripRemovesAllFences(s[|JsonFence|..]);
    } else if StartsWith(s, Fence) {
      StripRemovesAllFences(s[|Fence|..]);
    } else {
      StripKeeps(s);
      StripRemovesAllFences(s[1..]);
      var t := StripFences(s[1..]);
      if s[0] == '`' && |s| > 1 {
        if s[1] != '`' {
          StripKeepsHead(s[1..]);
        } else {
          // s begins with exactly two backticks: the second is kept and so is what follows it
          assert !StartsWith(s[1..], Fence) by {
            if |s| > |Fence| { assert s[1..][..|Fence|][1] == s[2]; }
          }
          StripKeeps(s[1..]);
          assert s[1..][1..] == s[2..];
          if |s| > 2 {
            StripKeepsHead(s[2..]);
          }
        }
      }
      ConsAvoidsFence(s[0], t);
    }
  }

  /** The replace only deletes: its result is a subsequence of its input. */
  lemma {:induction false} StripIsSubsequence(s: string)
    ensures IsSubsequence(StripFences(s), s)
    decreases |s|
  {
    if |s| == 0 {
    } else if StartsWith(s, JsonFence) {
      StripIsSubsequence(s[|JsonFence|..]);
      SuffixSubsequence(StripFences(s), s, |JsonFence|);
    } else if StartsWith(s, Fence) {
      StripIsSubsequence(s[|Fence|..]);
      SuffixSubsequence(StripFences(s), s, |Fence|);
    } else {
      StripIsSubsequence(s[1..]);
      var r := StripFences(s);
      assert r[0] == s[0] && r[1..] == StripFences(s[1..]);
    }
  }

  /** A text without fences passes through the replace unchanged. */
  lemma {:induction false} StripFenceFree(s: string)
    requires !Contains(s, Fence)
    ensures StripFences(s) == s
    decreases |s|
  {
    if |s| > 0 {
      assert !OccursAt(s, Fence, 0);
      StripKeeps(s);
      SliceAvoids(s, Fence, 1, |s|);
      assert s[1..|s|] == s[1..];
      StripFenceFree(s[1..]);
    }
  }

  /** Applying the replace a second time changes nothing. */
  lemma StripIdempotent(s: string)
    ensures StripFences(StripFences(s)) == StripFences(s)
  {
    StripRemovesAllFences(s);
    StripFenceFree(StripFences(s));
  }

  /**
   * "```json" goes as one token: the tag is not left behind, whereas a
   * scan that tried "```" first would leave "json".
   */
  lemma StripTakesJsonFenceWhole(t: string)
    ensures StripFences(JsonFence + t) == StripFences(t)
  {
    var s := JsonFence + t;
    assert s[..|JsonFence|] == JsonFence;
    assert s[|JsonFence|..] == t;
  }

  /**
   * The scan is leftmost: in "````json" the first three backticks are the
   * match, so the "```json" that starts one position later is not removed
   * and "`json" is left.
   */
  lemma StripStrayTickBeforeJsonFence()
    ensures StripFences("````json") == "`json"
  {
    var s := "````json";
    assert s[..|JsonFence|][3] != JsonFence[3];
    assert s[..|Fence|] == Fence;
    assert s[|Fence|..] == "`json";
    var u := "`json";
    assert u[..|Fence|][1] != Fence[1];
    assert u[1..] == "json";
    StripBacktickFree("json", "");
    assert "json" + "" == "json";
  }

  /** A bare fence is removed entirely. */
  lemma StripBareFence()
    ensures StripFences(Fence) == ""
  {
    assert Fence[..|Fence|] == Fence;
    assert Fence[|Fence|..] == "";
  }

  /** Text without backticks passes through the scan untouched, whatever follows it. */
  lemma {:induction false} StripBacktickFree(p: string, q: string)
    requires forall k :: 0 <= k < |p| ==> p[k] != '`'
    ensures StripFences(p + q) == p + StripFences(q)
    decreases |p|
  {
    if |p| > 0 {
      StripBacktickFree(p[1..], q);
      StripKeepsHead(p + q);
      assert (p + q)[1..] == p[1..] + q;
      assert p == [p[0]] + p[1..];
    } else {
      assert p + q == q;
    }
  }

  /** Text without backticks holds no fence. */
  lemma BacktickFreeAvoidsFence(s: string)
    requires forall k :: 0 <= k < |s| ==> s[k] != '`'
    ensures !Contains(s, Fence)
  {
    forall k: nat | k <= |s| ensures !OccursAt(s, Fence, k) {
      if k + |Fence| <= |s| {
        assert s[k..k + |Fence|][0] == s[k];
      }
    }
  }

  /**
   * A fence-free text followed by a closing fence comes out as the text:
   * backticks at its end that run into the closing fence are kept, and the
   * closing fence is removed.
   */
  lemma {:induction false} StripBodyThenFence(b: string)
    requires !Contains(b, Fence)
    ensures StripFences(b + Fence) == b
    decreases |b|
  {
    var s := b + Fence;
    if |b| >= |Fence| {
      assert !OccursAt(b, Fence, 0);
      assert s[..|Fence|] == b[..|Fence|];
    }
    if |b| == 0 {
      assert s == Fence;
      StripBareFence();
    } else if StartsWith(s, Fence) {
      // only a text of one or two backticks runs into the closing fence
      if |b| == 1 {
        assert s == "````";
        assert s[|Fence|..] == "`";
      } else if |b| == 2 {
        assert s == "`````";
        assert s[|Fence|..] == "``";
        assert "``"[1..] == "`";
      }
    } else {
      StripKeeps(s);
      assert s[0] == b[0] && s[1..] == b[1..] + Fence;
      SliceAvoids(b, Fence, 1, |b|);
      assert b[1..] == b[1..|b|];
      StripBodyThenFence(b[1..]);
      assert b == [b[0]] + b[1..];
    }
  }

  /** Trimming after the scan still leaves no fence. */
  lemma TrimmedStripAvoidsFence(t: string)
    ensures !Contains(Trim(StripFences(t)), Fence)
  {
    StripRemovesAllFences(t);
    TrimAvoids(StripFences(t), Fence);
  }

  /** Trimming after the scan still only deletes characters. */
  lemma TrimmedStripIsSubsequence(t: string)
    ensures IsSubsequence(Trim(StripFences(t)), t)
  {
    var u := StripFences(t);
    StripIsSubsequence(t);
    TrimIsSubsequence(u);
    SubsequenceTransitive(Trim(u), u, t);
  }
}
