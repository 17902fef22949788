/** The 14-bar relative strength index as the app computes it with pandas:
    `diff()`, `where(...)` to split moves into gains and losses, a simple
    `rolling(window=14).mean()` of each, then `100 - 100 / (1 + gain / loss)`.
    Values are exact reals; `None` is the NaN pandas leaves where the RSI is
    not defined. */
module RelativeStrength {
  import opened Wrappers

  /** The rolling window of the RSI, in bars. */
  const Window: nat := 14

  /** `close.diff()`: the move from the previous bar, NaN at the first bar. */
  function Diff(close: seq<real>): (d: seq<Option<real>>)
    ensures |d| == |close|
    ensures |close| > 0 ==> d[0] == None
  {
    seq(|close|, i requires 0 <= i < |close| => if i == 0 then None else Some(close[i] - close[i - 1]))
  }

  /** `delta.where(delta > 0, 0)` at one bar: a NaN delta fails the test and
      is replaced by 0 like any other non-positive delta. */
  function UpMove(d: Option<real>): (g: real)
    ensures g >= 0.0
  {
    if d.Some? && d.value > 0.0 then d.value else 0.0
  }

  /** `-delta.where(delta < 0, 0)` at one bar, NaN again becoming 0. */
  function DownMove(d: Option<real>): (l: real)
    ensures l >= 0.0
  {
    -(if d.Some? && d.value < 0.0 then d.value else 0.0)
  }

  /** The gain column fed to the rolling mean. */
  function Gains(close: seq<real>): (g: seq<real>)
    ensures |g| == |close|
    ensures forall i :: 0 <= i < |g| ==> g[i] >= 0.0
  {
    var d := Diff(close);
    seq(|d|, i requires 0 <= i < |d| => UpMove(d[i]))
  }

  /** The loss column fed to the rolling mean. */
  function Losses(close: seq<real>): (l: seq<real>)
    ensures |l| == |close|
    ensures forall i :: 0 <= i < |l| ==> l[i] >= 0.0
  {
    var d := Diff(close);
    seq(|d|, i requires 0 <= i < |d| => DownMove(d[i]))
  }

  function Sum(s: seq<real>): real
    decreases |s|
  {
    if |s| == 0 then 0.0 else Sum(s[..|s| - 1]) + s[|s| - 1]
  }

  /** A sum of non-negative terms is non-negative, and zero exactly when every
      term is zero. */
  lemma {:induction false} SumNonnegative(s: seq<real>)
    ensures (forall j :: 0 <= j < |s| ==> s[j] >= 0.0) ==>
              Sum(s) >= 0.0 && (Sum(s) == 0.0 <==> forall j :: 0 <= j < |s| ==> s[j] == 0.0)
    decreases |s|
  {
    if |s| > 0 && forall j :: 0 <= j < |s| ==> s[j] >= 0.0 {
      var init := s[..|s| - 1];
      SumNonnegative(init);
      assert forall j :: 0 <= j < |init| ==> init[j] == s[j];
    }
  }

  /** The arithmetic mean of a non-empty window. */
  function Mean(s: seq<real>): (m: real)
    requires |s| > 0
    ensures (forall j :: 0 <= j < |s| ==> s[j] >= 0.0) ==>
              m >= 0.0 && (m == 0.0 <==> forall j :: 0 <= j < |s| ==> s[j] == 0.0)
  {
    SumNonnegative(s);
    Sum(s) / |s| as real
  }

  /** `s.rolling(window=w).mean()` on a column without NaN: the mean of the w
      values ending at bar i, and NaN while fewer than w values exist. */
  function RollingMean(s: seq<real>, w: nat): (m: seq<Option<real>>)
    requires w >= 1
    ensures |m| == |s|
    ensures forall i :: 0 <= i < |s| ==> (m[i].Some? <==> i + 1 >= w)
    ensures forall i :: 0 <= i < |s| && m[i].Some? ==> m[i].value == Mean(s[i + 1 - w..i + 1])
  {
    seq(|s|, i requires 0 <= i < |s| => if i + 1 >= w then Some(Mean(s[i + 1 - w..i + 1])) else None)
  }

  /** Average gain of the trailing window; a non-negative number once defined. */
  function AvgGain(close: seq<real>): (g: seq<Option<real>>)
    ensures |g| == |close|
    ensures forall i :: 0 <= i < |g| ==> (g[i].Some? <==> i >= Window - 1)
    ensures forall i :: 0 <= i < |g| && g[i].Some? ==> g[i].value >= 0.0
  {
    var gains := Gains(close);
    var m := RollingMean(gains, Window);
    assert forall i :: Window - 1 <= i < |m| ==> m[i] == Some(Mean(gains[i + 1 - Window..i + 1]));
    m
  }

  /** Average loss of the trailing window; a non-negative number once defined. */
  function AvgLoss(close: seq<real>): (l: seq<Option<real>>)
    ensures |l| == |close|
    ensures forall i :: 0 <= i < |l| ==> (l[i].Some? <==> i >= Window - 1)
    ensures forall i :: 0 <= i < |l| && l[i].Some? ==> l[i].value >= 0.0
  {
    var losses := Losses(close);
    var m := RollingMean(losses, Window);
    assert forall i :: Window - 1 <= i < |m| ==> m[i] == Some(Mean(losses[i + 1 - Window..i + 1]));
    m
  }

  /** `100 - (100 / (1 + gain / loss))` at one bar. Under IEEE-754 a positive
      gain over a zero loss is +inf, so the RSI is 100; zero over zero is NaN,
      so the RSI is undefined. The result is 100·gain/(gain+loss) otherwise,
      so it lies in [0, 100], and it is 100 only in the +inf case. */
  function RsiOf(avgGain: real, avgLoss: real): (r: Option<real>)
    requires avgGain >= 0.0 && avgLoss >= 0.0
    ensures r.None? <==> avgGain == 0.0 && avgLoss == 0.0
    ensures r.Some? ==> 0.0 <= r.value <= 100.0
    ensures r == Some(100.0) <==> avgLoss == 0.0 && avgGain > 0.0
    ensures r == Some(0.0) <==> avgGain == 0.0 && avgLoss > 0.0
    ensures avgLoss > 0.0 ==> r == Some(100.0 * avgGain / (avgGain + avgLoss))
  {
    if avgLoss > 0.0 then
      RatioForm(avgGain, avgLoss);
      Some(100.0 - 100.0 / (1.0 + avgGain / avgLoss))
    else if avgGain > 0.0 then
      Some(100.0)
    else
      None
  }

  /** The textbook form of the RSI ratio, for a positive average loss. */
  lemma RatioForm(g: real, l: real)
    requires g >= 0.0 && l > 0.0
    ensures 100.0 - 100.0 / (1.0 + g / l) == 100.0 * g / (g + l)
  {
    var d := g + l;
    var q := 1.0 + g / l;
    assert q * l == d;
    var x := 100.0 / q;
    assert x * q == 100.0;
    assert x * d == (x * q) * l;
    assert (100.0 - x) * d == 100.0 * g;
    Quotient(100.0 - x, d, 100.0 * g);
  }

  lemma Quotient(a: real, b: real, c: real)
    requires b != 0.0 && a * b == c
    ensures a == c / b
  {
  }

  /** The RSI column: undefined wherever either average is NaN. */
  function Rsi(close: seq<real>): (r: seq<Option<real>>)
    ensures |r| == |close|
  {
    var g, l := AvgGain(close), AvgLoss(close);
    seq(|close|, i requires 0 <= i < |close| =>
      if g[i].Some? && l[i].Some? then RsiOf(g[i].value, l[i].value) else None)
  }

  /** Gains and losses: both non-negative, never both non-zero, zero at the
      first bar, and their difference recovers the price move elsewhere. */
  lemma GainLossSplit(close: seq<real>, i: nat)
    requires i < |close|
    ensures Gains(close)[i] >= 0.0 && Losses(close)[i] >= 0.0
    ensures Gains(close)[i] == 0.0 || Losses(close)[i] == 0.0
    ensures i == 0 ==> Gains(close)[i] == 0.0 && Losses(close)[i] == 0.0
    ensures i > 0 ==> Gains(close)[i] - Losses(close)[i] == close[i] - close[i - 1]
  {
  }

  /** The first bar whose move lies in the window ending at bar i. The NaN
      delta of bar 0 counts as a zero gain and a zero loss, so the window of
      bar 13 already holds 14 values. */
  function WindowStart(i: nat): nat
  {
    if i + 1 >= Window then i + 1 - Window else 0
  }

  /** Over bars a..b-1 the gains minus the losses add up to the net price
      change, bar 0 contributing nothing. */
  lemma {:induction false} Telescope(close: seq<real>, a: nat, b: nat)
    requires a < b <= |close|
    ensures Sum(Gains(close)[a..b]) - Sum(Losses(close)[a..b]) == close[b - 1] - close[if a == 0 then 0 else a - 1]
    decreases b - a
  {
    var g, l := Gains(close), Losses(close);
    assert g[a..b][..b - 1 - a] == g[a..b - 1];
    assert l[a..b][..b - 1 - a] == l[a..b - 1];
    GainLossSplit(close, b - 1);
    if a < b - 1 {
      Telescope(close, a, b - 1);
    } else {
      assert g[a..b - 1] == [] && l[a..b - 1] == [];
    }
  }

  /** Once defined, average gain minus average loss is the net price change
      over the window divided by 14. At bar 13 that change is measured from
      bar 0 (13 moves); from bar 14 on, from 14 bars back (14 moves). */
  lemma AvgGainMinusAvgLoss(close: seq<real>, i: nat)
    requires Window - 1 <= i < |close|
    ensures AvgGain(close)[i].Some? && AvgLoss(close)[i].Some?
    ensures AvgGain(close)[i].value - AvgLoss(close)[i].value
              == (close[i] - close[if i >= Window then i - Window else 0]) / Window as real
  {
    var lo := i + 1 - Window;
    var gw, lw := Gains(close)[lo..i + 1], Losses(close)[lo..i + 1];
    assert AvgGain(close)[i].value == Sum(gw) / Window as real;
    assert AvgLoss(close)[i].value == Sum(lw) / Window as real;
    Telescope(close, lo, i + 1);
  }

  /** The value of both averages once defined: the sum of the window's
      gains, or losses, divided by 14. */
  lemma AveragesValue(close: seq<real>, i: nat)
    requires Window - 1 <= i < |close|
    ensures var lo := i + 1 - Window;
      && AvgGain(close)[i] == Some(Sum(Gains(close)[lo..i + 1]) / Window as real)
      && AvgLoss(close)[i] == Some(Sum(Losses(close)[lo..i + 1]) / Window as real)
  {
  }

  /** The RSI of a window whose gains add up to G and whose losses add up
      to L: 100·G/(G+L), or NaN when the window is flat. */
  function WindowRsi(G: real, L: real): Option<real>
  {
    if G + L == 0.0 then None else Some(100.0 * G / (G + L))
  }

  /** The value of the RSI column at a bar from 13 on: with G the sum of the
      window's gains and L the sum of its losses, it is 100·G/(G+L), and NaN
      exactly when the window is flat (G + L = 0). */
  lemma RsiValue(close: seq<real>, i: nat)
    requires Window - 1 <= i < |close|
    ensures var lo := i + 1 - Window;
      var G, L := Sum(Gains(close)[lo..i + 1]), Sum(Losses(close)[lo..i + 1]);
      Rsi(close)[i] == WindowRsi(G, L)
  {
    var lo := i + 1 - Window;
    var gw, lw := Gains(close)[lo..i + 1], Losses(close)[lo..i + 1];
    RsiOfAverages(close, i);
    AveragesValue(close, i);
    assert Sum(gw) >= 0.0 && Sum(lw) >= 0.0;
    RsiOfScaled(Sum(gw), Sum(lw), Window as real);
  }

  /** Where both averages are defined, the RSI column holds their `RsiOf`. */
  lemma RsiOfAverages(close: seq<real>, i: nat)
    requires Window - 1 <= i < |close|
    ensures AvgGain(close)[i].Some? && AvgLoss(close)[i].Some?
    ensures Rsi(close)[i] == RsiOf(AvgGain(close)[i].value, AvgLoss(close)[i].value)
  {
  }

  /** The RSI of two sums divided by the same positive length is the RSI of
      the sums themselves: 100·G/(G+L), or NaN when both are zero. */
  lemma RsiOfScaled(G: real, L: real, n: real)
    requires G >= 0.0 && L >= 0.0 && n > 0.0
    ensures RsiOf(G / n, L / n) == WindowRsi(G, L)
  {
    if G + L == 0.0 {
      assert G / n == 0.0 && L / n == 0.0;
    } else if L > 0.0 {
      assert L / n > 0.0;
      var g, l := G / n, L / n;
      assert g + l == (G + L) / n;
      assert (100.0 * g) * (G + L) == 100.0 * G * (g + l);
      Quotient(100.0 * g / (g + l), G + L, 100.0 * G);
    } else {
      assert G / n > 0.0 && L / n == 0.0;
      assert 100.0 * G / (G + L) == 100.0;
    }
  }

  /** The RSI is local: at a bar from 13 on it depends only on the closes of
      its window, from bar 0 at bar 13 and from 14 bars back after that. Two
      series that agree there have the same RSI at that bar. */
  lemma RsiLocal(close: seq<real>, close': seq<real>, i: nat)
    requires Window - 1 <= i < |close| && i < |close'|
    requires forall j :: (if i >= Window then i - Window else 0) <= j <= i ==> close[j] == close'[j]
    ensures Rsi(close)[i] == Rsi(close')[i]
  {
    var lo := i + 1 - Window;
    assert Gains(close)[lo..i + 1] == Gains(close')[lo..i + 1];
    assert Losses(close)[lo..i + 1] == Losses(close')[lo..i + 1];
    assert AvgGain(close)[i] == Some(Mean(Gains(close)[lo..i + 1]));
    assert AvgGain(close')[i] == Some(Mean(Gains(close')[lo..i + 1]));
    assert AvgLoss(close)[i] == Some(Mean(Losses(close)[lo..i + 1]));
    assert AvgLoss(close')[i] == Some(Mean(Losses(close')[lo..i + 1]));
  }

  /** The window of bar i has no price move at all. */
  ghost predicate FlatWindow(close: seq<real>, i: nat)
    requires i < |close|
  {
    forall j :: WindowStart(i) <= j <= i && j >= 1 ==> close[j] == close[j - 1]
  }

  /** The window of bar i has no falling move. */
  ghost predicate NoDownMove(close: seq<real>, i: nat)
    requires i < |close|
  {
    forall j :: WindowStart(i) <= j <= i && j >= 1 ==> close[j] >= close[j - 1]
  }

  /** The window of bar i has no rising move. */
  ghost predicate NoUpMove(close: seq<real>, i: nat)
    requires i < |close|
  {
    forall j :: WindowStart(i) <= j <= i && j >= 1 ==> close[j] <= close[j - 1]
  }

  /** The mean of a window of non-negative values is zero exactly when every
      value in it is zero. */
  lemma MeanZero(s: seq<real>, lo: nat, hi: nat)
    requires lo <= hi < |s|
    requires forall j :: 0 <= j < |s| ==> s[j] >= 0.0
    ensures Mean(s[lo..hi + 1]) == 0.0 <==> forall j :: lo <= j <= hi ==> s[j] == 0.0
  {
    var w := s[lo..hi + 1];
    assert forall k :: 0 <= k < |w| ==> w[k] == s[lo + k];
    if forall j :: lo <= j <= hi ==> s[j] == 0.0 {
      forall k | 0 <= k < |w|
        ensures w[k] == 0.0
      {
        assert w[k] == s[lo + k];
      }
    }
  }

  /** At a defined bar, the average gain is zero exactly when the window has
      no rising move. */
  lemma AvgGainZero(close: seq<real>, i: nat)
    requires Window - 1 <= i < |close|
    ensures AvgGain(close)[i].Some?
    ensures AvgGain(close)[i].value == 0.0 <==> NoUpMove(close, i)
  {
    var lo := i + 1 - Window;
    var g := Gains(close);
    assert AvgGain(close)[i] == Some(Mean(g[lo..i + 1]));
    MeanZero(g, lo, i);
    forall j | lo <= j <= i
      ensures g[j] == 0.0 <==> j == 0 || close[j] <= close[j - 1]
    {
      GainLossSplit(close, j);
    }
  }

  /** At a defined bar, the average loss is zero exactly when the window has
      no falling move. */
  lemma AvgLossZero(close: seq<real>, i: nat)
    requires Window - 1 <= i < |close|
    ensures AvgLoss(close)[i].Some?
    ensures AvgLoss(close)[i].value == 0.0 <==> NoDownMove(close, i)
  {
    var lo := i + 1 - Window;
    var l := Losses(close);
    assert AvgLoss(close)[i] == Some(Mean(l[lo..i + 1]));
    MeanZero(l, lo, i);
    forall j | lo <= j <= i
      ensures l[j] == 0.0 <==> j == 0 || close[j] >= close[j - 1]
    {
      GainLossSplit(close, j);
    }
  }

  /** The RSI is NaN for bars 0..12 and defined from bar 13 on, except where
      the whole window is flat (zero over zero). */
  lemma RsiDefinedIff(close: seq<real>, i: nat)
    requires i < |close|
    ensures Rsi(close)[i].Some? <==> i >= Window - 1 && !FlatWindow(close, i)
  {
    if i >= Window - 1 {
      AvgGainZero(close, i);
      AvgLossZero(close, i);
      assert FlatWindow(close, i) <==> NoUpMove(close, i) && NoDownMove(close, i);
    }
  }

  /** Every defined RSI value lies in [0, 100]. */
  lemma RsiInRange(close: seq<real>, i: nat)
    requires i < |close|
    ensures Rsi(close)[i].Some? ==> i >= Window - 1 && 0.0 <= Rsi(close)[i].value <= 100.0
  {
  }

  /** The RSI is exactly 100 when the window holds a rise and no fall (a
      positive average gain over a zero average loss). */
  lemma RsiHundredIff(close: seq<real>, i: nat)
    requires i < |close|
    ensures Rsi(close)[i] == Some(100.0) <==> i >= Window - 1 && NoDownMove(close, i) && !FlatWindow(close, i)
  {
    if i >= Window - 1 {
      AvgGainZero(close, i);
      AvgLossZero(close, i);
      assert FlatWindow(close, i) <==> NoUpMove(close, i) && NoDownMove(close, i);
    }
  }

  /** A constant price series never has a defined RSI. */
  lemma RsiOfConstant(close: seq<real>, c: real)
    requires forall j :: 0 <= j < |close| ==> close[j] == c
    ensures forall i :: 0 <= i < |close| ==> Rsi(close)[i] == None
  {
    forall i | 0 <= i < |close|
      ensures Rsi(close)[i] == None
    {
      RsiDefinedIff(close, i);
    }
  }

  /** A strictly rising price series has RSI 100 from bar 13 on. */
  lemma RsiOfRising(close: seq<real>)
    requires forall j :: 1 <= j < |close| ==> close[j - 1] < close[j]
    ensures forall i :: Window - 1 <= i < |close| ==> Rsi(close)[i] == Some(100.0)
  {
    forall i | Window - 1 <= i < |close|
      ensures Rsi(close)[i] == Some(100.0)
    {
      RsiHundredIff(close, i);
      assert !FlatWindow(close, i) by {
        assert close[i - 1] < close[i];
      }
    }
  }

}
