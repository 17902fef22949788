/** The two Python string operations the app uses on crossover labels:
    the substring test `t in s` and `s.replace(pat, rep)`. */
module Text {

  /** t occurs in s starting at index k. */
  predicate OccursAt(s: string, t: string, k: nat)
  {
    k + |t| <= |s| && s[k..k + |t|] == t
  }

  /** Python's `t in s`: t occurs in s as a contiguous substring. */
  function Contains(s: string, t: string): (b: bool)
    ensures b <==> exists k: nat :: OccursAt(s, t, k)
    decreases |s|
  {
    if |t| > |s| then false
    else if s[..|t|] == t then assert OccursAt(s, t, 0); true
    else
      var rest := Contains(s[1..], t);
      ShiftOccurrences(s, t);
      rest
  }

  /** When t does not start s, it occurs in s exactly when it occurs in s[1..]. */
  lemma ShiftOccurrences(s: string, t: string)
    requires |t| <= |s| && s[..|t|] != t
    ensures (exists k: nat :: OccursAt(s, t, k)) <==> (exists k: nat :: OccursAt(s[1..], t, k))
  {
    forall k: nat | OccursAt(s[1..], t, k)
      ensures OccursAt(s, t, k + 1)
    {
      assert s[1..][k..k + |t|] == s[k + 1..k + 1 + |t|];
    }
    forall k: nat | OccursAt(s, t, k)
      ensures k >= 1 && OccursAt(s[1..], t, k - 1)
    {
      assert s[1..][k - 1..k - 1 + |t|] == s[k..k + |t|];
    }
  }

  /** Python's `s.replace(pat, rep)` for a non-empty pattern: every
      occurrence, scanning left to right without overlaps, is replaced. */
  function Replace(s: string, pat: string, rep: string): (r: string)
    requires |pat| > 0
    ensures |rep| <= |pat| ==> |r| <= |s|
    decreases |s|
  {
    if |s| < |pat| then s
    else if s[..|pat|] == pat then rep + Replace(s[|pat|..], pat, rep)
    else [s[0]] + Replace(s[1..], pat, rep)
  }

  /** A string ending in t contains t. */
  lemma {:induction false} ContainsSuffix(a: string, t: string)
    ensures Contains(a + t, t)
    decreases |a|
  {
    if |a| > 0 {
      assert (a + t)[1..] == a[1..] + t;
      ContainsSuffix(a[1..], t);
    } else {
      assert (a + t)[..|t|] == t;
    }
  }

  /** A string without the first character of t does not contain t. */
  lemma {:induction false} NotContains(s: string, t: string)
    requires |t| > 0 && t[0] !in s
    ensures !Contains(s, t)
    decreases |s|
  {
    if |t| <= |s| {
      assert s[..|t|][0] == s[0];
      assert forall c :: c in s[1..] ==> c in s;
      NotContains(s[1..], t);
    }
  }

  /** A string in which the pattern does not occur is returned unchanged. */
  lemma {:induction false} ReplaceAbsent(s: string, pat: string, rep: string)
    requires |pat| > 0
    ensures !Contains(s, pat) ==> Replace(s, pat, rep) == s
    decreases |s|
  {
    if |s| >= |pat| && !Contains(s, pat) {
      assert s[..|pat|] != pat by {
        assert OccursAt(s, pat, 0) ==> Contains(s, pat);
      }
      assert !Contains(s[1..], pat);
      ReplaceAbsent(s[1..], pat, rep);
      assert [s[0]] + s[1..] == s;
    }
  }

  /** A string whose first character cannot start the pattern keeps that
      character and is replaced from the second one on. */
  lemma ReplaceStep(s: string, pat: string, rep: string)
    requires |pat| > 0 && |s| > 0 && s[0] != pat[0]
    ensures Replace(s, pat, rep) == [s[0]] + Replace(s[1..], pat, rep)
  {
    if |s| >= |pat| {
      assert s[..|pat|][0] == s[0];
    }
  }

  /** Replacement leaves alone a prefix that cannot start the pattern. */
  lemma {:induction false} ReplaceSkips(a: string, b: string, pat: string, rep: string)
    requires |pat| > 0 && pat[0] !in a
    ensures Replace(a + b, pat, rep) == a + Replace(b, pat, rep)
    decreases |a|
  {
    if |a| > 0 {
      var s, t := a + b, a[1..];
      assert s[0] == a[0] && s[1..] == t + b;
      ReplaceStep(s, pat, rep);
      assert pat[0] !in t by {
        assert forall c :: c in t ==> c in a;
      }
      ReplaceSkips(t, b, pat, rep);
      calc {
        Replace(s, pat, rep);
        [a[0]] + Replace(t + b, pat, rep);
        [a[0]] + (t + Replace(b, pat, rep));
        { assert [a[0]] + t == a; }
        a + Replace(b, pat, rep);
      }
    } else {
      assert a + b == b;
    }
  }

  /** The pattern itself is replaced by the replacement. */
  lemma ReplaceWhole(pat: string, rep: string)
    requires |pat| > 0
    ensures Replace(pat, pat, rep) == rep
  {
    assert pat[..|pat|] == pat;
    assert pat[|pat|..] == [];
  }

}
