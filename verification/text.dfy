/** Text operations the services and components rely on: JavaScript's
    `String.prototype.includes` (case-sensitive substring search), template
    prefixing and its inverse. Characters are Unicode code points; every
    pattern searched for in this model is ASCII, so the answers agree with
    the UTF-16 search JavaScript performs. */
module Text {
  import opened Wrappers

  /** `w[j..]` sits in `s` at offset `i + j`: the inner loop of the search. */
  predicate MatchesAt(s: string, w: string, i: nat, j: nat)
    decreases |w| - j
  {
    j >= |w| || (i + j < |s| && s[i + j] == w[j] && MatchesAt(s, w, i, j + 1))
  }

  /** Some occurrence of `w` in `s` starts at offset `i` or later: the outer loop. */
  predicate SearchFrom(s: string, w: string, i: nat)
    decreases |s| - i
  {
    i + |w| <= |s| && (MatchesAt(s, w, i, 0) || SearchFrom(s, w, i + 1))
  }

  /** `s.includes(w)`. */
  predicate Includes(s: string, w: string) {
    SearchFrom(s, w, 0)
  }

  predicate StartsWith(s: string, p: string) {
    |p| <= |s| && s[..|p|] == p
  }

  /** The declarative meaning of `includes`: `w` is a factor of `s`. */
  ghost predicate Occurs(s: string, w: string) {
    exists i :: 0 <= i <= |s| && StartsWith(s[i..], w)
  }

  lemma {:induction false} MatchesAtIff(s: string, w: string, i: nat, j: nat)
    requires j <= |w| && i + |w| <= |s|
    ensures MatchesAt(s, w, i, j) <==> s[i + j..i + |w|] == w[j..]
    decreases |w| - j
  {
    if j < |w| {
      MatchesAtIff(s, w, i, j + 1);
      assert s[i + j..i + |w|] == [s[i + j]] + s[i + j + 1..i + |w|];
      assert w[j..] == [w[j]] + w[j + 1..];
    }
  }

  lemma {:induction false} SearchFromIff(s: string, w: string, i: nat)
    ensures SearchFrom(s, w, i) <==> exists k :: i <= k <= |s| && StartsWith(s[k..], w)
    decreases |s| - i
  {
    if i + |w| <= |s| {
      MatchesAtIff(s, w, i, 0);
      assert StartsWith(s[i..], w) <==> s[i..i + |w|] == w;
      SearchFromIff(s, w, i + 1);
      if StartsWith(s[i..], w) {
        assert SearchFrom(s, w, i);
      }
      if SearchFrom(s, w, i) && !MatchesAt(s, w, i, 0) {
        var k :| i + 1 <= k <= |s| && StartsWith(s[k..], w);
      }
      if k :| i <= k <= |s| && StartsWith(s[k..], w) {
        if k > i {
          assert SearchFrom(s, w, i + 1);
        }
      }
    } else {
      forall k | i <= k <= |s|
        ensures !StartsWith(s[k..], w)
      {
      }
    }
  }

  /** The search computes exactly the declarative factor relation. */
  lemma IncludesIffOccurs(s: string, w: string)
    ensures Includes(s, w) <==> Occurs(s, w)
  {
    SearchFromIff(s, w, 0);
  }

  /** Removes the prefix `p` from `s`, if `s` starts with it. */
  function StripPrefix(p: string, s: string): (r: Option<string>)
    ensures r.Some? <==> StartsWith(s, p)
    ensures r.Some? ==> s == p + r.value
  {
    if StartsWith(s, p) then Some(s[|p|..]) else None
  }

  /** Stripping a prefix undoes prepending it. */
  lemma StripPrefixOfConcat(p: string, t: string)
    ensures StripPrefix(p, p + t) == Some(t)
  {
    assert (p + t)[..|p|] == p;
    assert (p + t)[|p|..] == t;
  }

  /** Some character of `w[j..]` disagrees with `p` at offset `i`, while
      still inside `p`: no text appended after `p` can complete `w` at `i`. */
  predicate MismatchWithin(p: string, w: string, i: nat, j: nat)
    decreases |w| - j
  {
    j < |w| && i + j < |p| && (p[i + j] != w[j] || MismatchWithin(p, w, i, j + 1))
  }

  predicate ClearFrom(p: string, w: string, i: nat)
    decreases |p| - i
  {
    i >= |p| || (MismatchWithin(p, w, i, 0) && ClearFrom(p, w, i + 1))
  }

  /** No occurrence of `w` can start inside `p`, whatever text follows `p`. */
  predicate Clear(p: string, w: string) {
    ClearFrom(p, w, 0)
  }

  lemma {:induction false} MatchesAtShift(p: string, s: string, w: string, i: nat, j: nat)
    ensures MatchesAt(p + s, w, |p| + i, j) <==> MatchesAt(s, w, i, j)
    decreases |w| - j
  {
    if j < |w| {
      MatchesAtShift(p, s, w, i, j + 1);
      if |p| + i + j < |p + s| {
        assert (p + s)[|p| + i + j] == s[i + j];
      }
    }
  }

  lemma {:induction false} SearchFromShift(p: string, s: string, w: string, i: nat)
    ensures SearchFrom(p + s, w, |p| + i) <==> SearchFrom(s, w, i)
    decreases |s| - i
  {
    MatchesAtShift(p, s, w, i, 0);
    if i + |w| <= |s| {
      SearchFromShift(p, s, w, i + 1);
    }
  }

  lemma {:induction false} MismatchBlocks(p: string, s: string, w: string, i: nat, j: nat)
    requires MismatchWithin(p, w, i, j)
    ensures !MatchesAt(p + s, w, i, j)
    decreases |w| - j
  {
    assert (p + s)[i + j] == p[i + j];
    if p[i + j] == w[j] {
      MismatchBlocks(p, s, w, i, j + 1);
    }
  }

  lemma {:induction false} ClearSkipsPrefix(p: string, s: string, w: string, i: nat)
    requires i <= |p| && ClearFrom(p, w, i)
    ensures SearchFrom(p + s, w, i) <==> SearchFrom(p + s, w, |p|)
    decreases |p| - i
  {
    if i < |p| {
      MismatchBlocks(p, s, w, i, 0);
      ClearSkipsPrefix(p, s, w, i + 1);
    }
  }

  /** Behind a clear prefix, `includes` sees only the appended text. */
  lemma IncludesAfterClearPrefix(p: string, s: string, w: string)
    requires Clear(p, w)
    ensures Includes(p + s, w) <==> Includes(s, w)
  {
    ClearSkipsPrefix(p, s, w, 0);
    SearchFromShift(p, s, w, 0);
  }

  /** Positions where the first character of `w` does not occur cannot start
      an occurrence, so the search may skip over them. */
  lemma {:induction false} SkipFirstCharFree(s: string, w: string, i: nat, j: nat)
    requires 0 < |w| && i <= j <= |s| && w[0] !in s[i..j]
    ensures SearchFrom(s, w, i) <==> SearchFrom(s, w, j)
    decreases j - i
  {
    if i < j {
      assert s[i] == s[i..j][0];
      assert s[i + 1..j] == s[i..j][1..];
      SkipFirstCharFree(s, w, i + 1, j);
    }
  }

  /** A text without the first character of `w` does not include `w`. */
  lemma FirstCharAbsent(s: string, w: string)
    requires 0 < |w| && w[0] !in s
    ensures !Includes(s, w)
  {
    assert s[0..|s|] == s;
    SkipFirstCharFree(s, w, 0, |s|);
  }
}
