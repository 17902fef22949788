/** Exponential moving averages as pandas computes them with
    `Series.ewm(span=s, adjust=False).mean()` on a column without NaN:
    the first value is the first close, every later value moves a fraction
    `2/(s+1)` of the way from the previous average towards the new close.
    Prices are exact reals; floating-point rounding is not modelled. */
module Ema {

  /** The spans of the three averages the app draws and compares. */
  const FastSpan: nat := 5
  const MediumSpan: nat := 8
  const SlowSpan: nat := 13

  /** The smoothing factor pandas derives from `span`. */
  function Alpha(span: nat): (a: real)
    requires span >= 1
    ensures 0.0 < a <= 1.0
    ensures span > 1 ==> a < 1.0
  {
    2.0 / (span as real + 1.0)
  }

  /** One smoothing step: move the fraction `a` of the way from `prev` to `x`. */
  function Smooth(a: real, x: real, prev: real): real
  {
    a * x + (1.0 - a) * prev
  }

  /** `close.ewm(span=span, adjust=False).mean()`, built bar by bar. */
  function Ewm(close: seq<real>, span: nat): (e: seq<real>)
    requires span >= 1
    ensures |e| == |close|
    decreases |close|
  {
    if |close| == 0 then []
    else if |close| == 1 then [close[0]]
    else
      var prev := Ewm(close[..|close| - 1], span);
      prev + [Smooth(Alpha(span), close[|close| - 1], prev[|close| - 2])]
  }

  /** The recurrence that defines the adjust=False average, index by index:
      seeded with the first close, then `a*close[i] + (1-a)*e[i-1]`. */
  ghost predicate IsEwmOf(e: seq<real>, close: seq<real>, span: nat)
    requires span >= 1
  {
    && |e| == |close|
    && (|close| > 0 ==> e[0] == close[0])
    && forall i :: 1 <= i < |close| ==> e[i] == Smooth(Alpha(span), close[i], e[i - 1])
  }

  /** Ewm satisfies the recurrence at every index. */
  lemma {:induction false} EwmRecurrence(close: seq<real>, span: nat)
    requires span >= 1
    ensures IsEwmOf(Ewm(close, span), close, span)
    decreases |close|
  {
    if |close| > 1 {
      var init := close[..|close| - 1];
      EwmRecurrence(init, span);
      var e := Ewm(close, span);
      var prev := Ewm(init, span);
      assert e[..|close| - 1] == prev;
      forall i | 1 <= i < |close|
        ensures e[i] == Smooth(Alpha(span), close[i], e[i - 1])
      {
        if i < |close| - 1 {
          assert close[i] == init[i];
        }
      }
    }
  }

  /** The recurrence determines the series: any sequence obeying it is Ewm. */
  lemma {:induction false} EwmUnique(e: seq<real>, close: seq<real>, span: nat)
    requires span >= 1
    requires IsEwmOf(e, close, span)
    ensures e == Ewm(close, span)
    decreases |close|
  {
    if |close| > 1 {
      var n := |close|;
      var init := close[..n - 1];
      assert IsEwmOf(e[..n - 1], init, span) by {
        forall i | 1 <= i < n - 1
          ensures e[..n - 1][i] == Smooth(Alpha(span), init[i], e[..n - 1][i - 1])
        {
          assert e[i] == Smooth(Alpha(span), close[i], e[i - 1]);
        }
      }
      EwmUnique(e[..n - 1], init, span);
      var prev := Ewm(init, span);
      assert Ewm(close, span) == prev + [Smooth(Alpha(span), close[n - 1], prev[n - 2])];
      assert e == e[..n - 1] + [e[n - 1]];
    }
  }

  /** Averages are causal: the average up to bar k ignores later closes. */
  lemma {:induction false} EwmPrefix(close: seq<real>, span: nat, k: nat)
    requires span >= 1
    requires k <= |close|
    ensures Ewm(close[..k], span) == Ewm(close, span)[..k]
  {
    var e := Ewm(close, span);
    EwmRecurrence(close, span);
    assert IsEwmOf(e[..k], close[..k], span) by {
      forall i | 1 <= i < k
        ensures e[..k][i] == Smooth(Alpha(span), close[..k][i], e[..k][i - 1])
      {
        assert e[i] == Smooth(Alpha(span), close[i], e[i - 1]);
      }
    }
    EwmUnique(e[..k], close[..k], span);
  }

  /** One smoothing step stays between any bounds of its two inputs. */
  lemma ConvexStep(a: real, x: real, y: real, lo: real, hi: real)
    requires 0.0 <= a <= 1.0
    requires lo <= x <= hi && lo <= y <= hi
    ensures lo <= Smooth(a, x, y) <= hi
  {
    assert a * (x - lo) >= 0.0;
    assert (1.0 - a) * (y - lo) >= 0.0;
    assert a * (hi - x) >= 0.0;
    assert (1.0 - a) * (hi - y) >= 0.0;
  }

  /** Every average is a convex combination of the closes seen so far, so it
      lies within any bounds those closes respect. */
  lemma {:induction false} EwmWithin(close: seq<real>, span: nat, i: nat, lo: real, hi: real)
    requires span >= 1
    requires i < |close|
    requires forall j :: 0 <= j <= i ==> lo <= close[j] <= hi
    ensures lo <= Ewm(close, span)[i] <= hi
  {
    EwmRecurrence(close, span);
    if i > 0 {
      EwmWithin(close, span, i - 1, lo, hi);
      ConvexStep(Alpha(span), close[i], Ewm(close, span)[i - 1], lo, hi);
    }
  }

  /** The smallest element of a non-empty sequence. */
  function Min(s: seq<real>): (m: real)
    requires |s| > 0
    ensures m in s
    ensures forall j :: 0 <= j < |s| ==> m <= s[j]
  {
    if |s| == 1 then s[0]
    else
      var rest := Min(s[1..]);
      assert forall j :: 1 <= j < |s| ==> s[j] == s[1..][j - 1];
      if s[0] <= rest then s[0] else rest
  }

  /** The largest element of a non-empty sequence. */
  function Max(s: seq<real>): (m: real)
    requires |s| > 0
    ensures m in s
    ensures forall j :: 0 <= j < |s| ==> s[j] <= m
  {
    if |s| == 1 then s[0]
    else
      var rest := Max(s[1..]);
      assert forall j :: 1 <= j < |s| ==> s[j] == s[1..][j - 1];
      if s[0] >= rest then s[0] else rest
  }

  /** The average at bar i lies between the lowest and the highest close of
      bars 0..i. */
  lemma EwmBetweenMinMax(close: seq<real>, span: nat, i: nat)
    requires span >= 1
    requires i < |close|
    ensures Min(close[..i + 1]) <= Ewm(close, span)[i] <= Max(close[..i + 1])
  {
    var w := close[..i + 1];
    forall j | 0 <= j <= i
      ensures Min(w) <= close[j] <= Max(w)
    {
      assert close[j] == w[j];
    }
    EwmWithin(close, span, i, Min(w), Max(w));
  }

  /** A flat price series gives a flat average equal to that price. */
  lemma EwmOfConstant(close: seq<real>, span: nat, c: real)
    requires span >= 1
    requires forall j :: 0 <= j < |close| ==> close[j] == c
    ensures forall i :: 0 <= i < |close| ==> Ewm(close, span)[i] == c
  {
    forall i | 0 <= i < |close|
      ensures Ewm(close, span)[i] == c
    {
      EwmWithin(close, span, i, c, c);
    }
  }

}
