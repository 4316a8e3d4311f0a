/**
 * Python's `str.lstrip(c)` and `str.rstrip(c)` for a single character `c`:
 * remove the run of `c` at one end of a string and touch nothing else.
 */
module Trim {

  /** Every character of `s` is `c` (true of the empty string). */
  predicate AllChar(s: string, c: char) {
    forall i :: 0 <= i < |s| ==> s[i] == c
  }

  /** `s` contains a character other than `c`. */
  predicate HasOther(s: string, c: char) {
    exists i :: 0 <= i < |s| && s[i] != c
  }

  /**
   * `s.lstrip(c)`: `s` is a run of `c` followed by the result, and the result
   * does not start with `c`.
   */
  function StripLeft(s: string, c: char): (r: string)
    ensures |r| <= |s| && r == s[|s| - |r|..]
    ensures AllChar(s[..|s| - |r|], c)
    ensures r == [] || r[0] != c
    decreases |s|
  {
    if |s| > 0 && s[0] == c then StripLeft(s[1..], c) else s
  }

  /**
   * `s.rstrip(c)`: `s` is the result followed by a run of `c`, and the result
   * does not end with `c`.
   */
  function StripRight(s: string, c: char): (r: string)
    ensures |r| <= |s| && r == s[..|r|]
    ensures AllChar(s[|r|..], c)
    ensures r == [] || r[|r| - 1] != c
    decreases |s|
  {
    if |s| > 0 && s[|s| - 1] == c then StripRight(s[..|s| - 1], c) else s
  }

  /**
   * `s.lstrip(c).rstrip(c)`: no `c` at either end, and empty exactly when
   * `s` is all `c` (StripIsSlice adds that it is a slice of `s`).
   */
  function Strip(s: string, c: char): (r: string)
    ensures |r| <= |s|
    ensures r == [] <==> AllChar(s, c)
    ensures r == [] || (r[0] != c && r[|r| - 1] != c)
  {
    var l := StripLeft(s, c);
    StripLeftEmptyIff(s, c);
    if l == [] then StripRight(l, c)
    else
      assert HasOther(l, c) by {
        assert l[0] != c;
      }
      StripRightEmptyIff(l, c);
      StripRight(l, c)
  }

  /**
   * Strip keeps one contiguous slice of `s`, starting at offset `i`; only runs
   * of `c` lie outside it.
   */
  lemma StripIsSlice(s: string, c: char) returns (i: nat)
    ensures i + |Strip(s, c)| <= |s|
    ensures Strip(s, c) == s[i..i + |Strip(s, c)|]
    ensures forall k :: 0 <= k < i ==> s[k] == c
    ensures forall k :: i + |Strip(s, c)| <= k < |s| ==> s[k] == c
  {
    var l := StripLeft(s, c);
    var r := StripRight(l, c);
    i := |s| - |l|;
    forall k | 0 <= k < i
      ensures s[k] == c
    {
      assert s[..i][k] == s[k];
    }
    forall k | i + |r| <= k < |s|
      ensures s[k] == c
    {
      assert l[|r|..][k - i - |r|] == s[k];
    }
    assert s[i..][..|r|] == s[i..i + |r|];
  }

  /** Stripping both ends twice is stripping them once. */
  lemma StripIdempotent(s: string, c: char)
    ensures Strip(Strip(s, c), c) == Strip(s, c)
  {
    var l := StripLeft(s, c);
    var r := StripRight(l, c);
    StripLeftUnique(r, c, 0);
    StripRightIdempotent(l, c);
  }

  /**
   * The contract of StripLeft pins the result down: any split of `s` into a
   * run of `c` and a rest that does not start with `c` is the one it returns.
   */
  lemma {:induction false} StripLeftUnique(s: string, c: char, k: nat)
    requires k <= |s| && AllChar(s[..k], c)
    requires k == |s| || s[k] != c
    ensures StripLeft(s, c) == s[k..]
    decreases k
  {
    if k > 0 {
      assert s[..k][0] == s[0];
      assert s[1..][..k - 1] == s[..k][1..];
      StripLeftUnique(s[1..], c, k - 1);
    }
  }

  /** The mirror image of StripLeftUnique. */
  lemma {:induction false} StripRightUnique(s: string, c: char, k: nat)
    requires k <= |s| && AllChar(s[k..], c)
    requires k == 0 || s[k - 1] != c
    ensures StripRight(s, c) == s[..k]
    decreases |s| - k
  {
    if k < |s| {
      var s' := s[..|s| - 1];
      assert s[k..][|s| - 1 - k] == s[|s| - 1];
      assert s'[k..] == s[k..][..|s| - 1 - k];
      StripRightUnique(s', c, k);
      assert s'[..k] == s[..k];
    }
  }

  /** Only a string made entirely of `c` strips to nothing. */
  lemma StripLeftEmptyIff(s: string, c: char)
    ensures StripLeft(s, c) == [] <==> AllChar(s, c)
  {
    if AllChar(s, c) {
      StripLeftUnique(s, c, |s|);
    } else {
      assert s[..|s|] == s;
    }
  }

  /** The mirror image of StripLeftEmptyIff. */
  lemma StripRightEmptyIff(s: string, c: char)
    ensures StripRight(s, c) == [] <==> AllChar(s, c)
  {
    if AllChar(s, c) {
      StripRightUnique(s, c, 0);
    } else {
      assert s[0..] == s;
    }
  }

  /** Stripping twice is stripping once. */
  lemma StripLeftIdempotent(s: string, c: char)
    ensures StripLeft(StripLeft(s, c), c) == StripLeft(s, c)
  {
    StripLeftUnique(StripLeft(s, c), c, 0);
  }

  /** Stripping twice is stripping once. */
  lemma StripRightIdempotent(s: string, c: char)
    ensures StripRight(StripRight(s, c), c) == StripRight(s, c)
  {
    var r := StripRight(s, c);
    StripRightUnique(r, c, |r|);
  }

  /** Extra copies of `c` in front make no difference. */
  lemma {:induction false} StripLeftRunPrefix(p: string, s: string, c: char)
    requires AllChar(p, c)
    ensures StripLeft(p + s, c) == StripLeft(s, c)
    decreases |p|
  {
    if |p| > 0 {
      assert (p + s)[1..] == p[1..] + s;
      StripLeftRunPrefix(p[1..], s, c);
    } else {
      assert p + s == s;
    }
  }

  /** Extra copies of `c` at the end make no difference. */
  lemma {:induction false} StripRightRunSuffix(s: string, p: string, c: char)
    requires AllChar(p, c)
    ensures StripRight(s + p, c) == StripRight(s, c)
    decreases |p|
  {
    if |p| > 0 {
      assert (s + p)[..|s + p| - 1] == s + p[..|p| - 1];
      StripRightRunSuffix(s, p[..|p| - 1], c);
    } else {
      assert s + p == s;
    }
  }

  /** Whatever follows the first non-`c` character is kept verbatim. */
  lemma {:induction false} StripLeftAppend(s: string, t: string, c: char)
    requires HasOther(s, c)
    ensures StripLeft(s + t, c) == StripLeft(s, c) + t
    decreases |s|
  {
    assert (s + t)[0] == s[0];
    if s[0] == c {
      assert HasOther(s[1..], c) by {
        var i :| 0 <= i < |s| && s[i] != c;
        assert s[1..][i - 1] == s[i];
      }
      assert (s + t)[1..] == s[1..] + t;
      StripLeftAppend(s[1..], t, c);
    }
  }

  /** Whatever precedes the last non-`c` character is kept verbatim. */
  lemma {:induction false} StripRightPrepend(t: string, s: string, c: char)
    requires HasOther(s, c)
    ensures StripRight(t + s, c) == t + StripRight(s, c)
    decreases |s|
  {
    assert (t + s)[|t + s| - 1] == s[|s| - 1];
    if s[|s| - 1] == c {
      assert HasOther(s[..|s| - 1], c) by {
        var i :| 0 <= i < |s| && s[i] != c;
        assert s[..|s| - 1][i] == s[i];
      }
      assert (t + s)[..|t + s| - 1] == t + s[..|s| - 1];
      StripRightPrepend(t, s[..|s| - 1], c);
    }
  }

  /** Runs of `c` concatenate to a run of `c`. */
  lemma AllCharConcat(a: string, b: string, c: char)
    requires AllChar(a, c) && AllChar(b, c)
    ensures AllChar(a + b, c)
  {
    forall i | 0 <= i < |a + b|
      ensures (a + b)[i] == c
    {
      if i >= |a| {
        assert (a + b)[i] == b[i - |a|];
      }
    }
  }

  /** A string holding a non-`c` character strips the same with `c` runs added at its ends. */
  lemma StripRunEndsOther(p: string, s: string, q: string, c: char)
    requires AllChar(p, c) && AllChar(q, c) && HasOther(s, c)
    ensures Strip(p + (s + q), c) == Strip(s, c)
  {
    StripLeftRunPrefix(p, s + q, c);
    StripLeftAppend(s, q, c);
    StripRightRunSuffix(StripLeft(s, c), q, c);
  }

  /** A string made of `c` alone stays empty with `c` runs added at its ends. */
  lemma StripRunEndsAll(p: string, s: string, q: string, c: char)
    requires AllChar(p, c) && AllChar(q, c) && AllChar(s, c)
    ensures Strip(p + (s + q), c) == [] && Strip(s, c) == []
  {
    AllCharConcat(s, q, c);
    AllCharConcat(p, s + q, c);
    StripLeftEmptyIff(p + (s + q), c);
    StripLeftEmptyIff(s, c);
  }

  /** Runs of `c` added at either end are removed again by Strip. */
  lemma StripRunEnds(p: string, s: string, q: string, c: char)
    requires AllChar(p, c) && AllChar(q, c)
    ensures Strip(p + s + q, c) == Strip(s, c)
  {
    assert p + s + q == p + (s + q);
    if HasOther(s, c) {
      StripRunEndsOther(p, s, q, c);
    } else {
      StripRunEndsAll(p, s, q, c);
    }
  }
}
