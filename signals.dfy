/** The analysis of one price series: `add_indicators_and_find_crossovers`,
    which adds the three EMA columns, the RSI column and the crossover
    column to the frame, and the "last 5 crossovers" view the app lists,
    newest first, with each label decoded into a direction and a
    description. The bar index stands for the frame's date index, which is
    strictly increasing. */
module Signals {
  import opened Wrappers
  import opened Ema
  import opened RelativeStrength
  import opened Crossover

  /** The data frame after the analysis: the input closes and the five
      columns the analysis adds, all aligned bar by bar. */
  datatype Frame = Frame(
    close: seq<real>,
    ema5: seq<real>,
    ema8: seq<real>,
    ema13: seq<real>,
    rsi: seq<Option<real>>,
    crossover: seq<string>)

  /** Every column of the frame has one value per bar. */
  ghost predicate Aligned(f: Frame)
  {
    && |f.ema5| == |f.close|
    && |f.ema8| == |f.close|
    && |f.ema13| == |f.close|
    && |f.rsi| == |f.close|
    && |f.crossover| == |f.close|
  }

  /** `add_indicators_and_find_crossovers(data)` on the close column. */
  method AddIndicatorsAndFindCrossovers(close: seq<real>) returns (f: Frame)
    ensures Aligned(f) && f.close == close
    ensures f.ema5 == Ewm(close, FastSpan)
    ensures f.ema8 == Ewm(close, MediumSpan)
    ensures f.ema13 == Ewm(close, SlowSpan)
    ensures f.rsi == Rsi(close)
    ensures f.crossover == Column(f.ema5, f.ema8, f.ema13)
  {
    var ema5 := Ewm(close, FastSpan);
    var ema8 := Ewm(close, MediumSpan);
    var ema13 := Ewm(close, SlowSpan);
    var rsi := Rsi(close);
    var crossover := FindCrossovers(ema5, ema8, ema13);
    f := Frame(close, ema5, ema8, ema13, rsi, crossover);
  }

  /** One row of the filtered frame: its bar and its crossover label. */
  datatype Row = Row(bar: nat, crossover: string)

  /** `data[data['Crossover'] != '']`: the labelled bars in ascending order. */
  function Labelled(column: seq<string>): (rows: seq<Row>)
    ensures forall k :: 0 <= k < |rows| ==>
              rows[k].bar < |column| && rows[k].crossover == column[rows[k].bar] && rows[k].crossover != NoLabel
    ensures forall k, m :: 0 <= k < m < |rows| ==> rows[k].bar < rows[m].bar
    decreases |column|
  {
    if |column| == 0 then []
    else
      var last := |column| - 1;
      var init := column[..last];
      var rows := Labelled(init);
      assert forall b :: 0 <= b < last ==> init[b] == column[b];
      if column[last] != NoLabel then rows + [Row(last, column[last])] else rows
  }

  /** No labelled bar is filtered out. */
  lemma {:induction false} LabelledComplete(column: seq<string>, b: nat)
    requires b < |column| && column[b] != NoLabel
    ensures Row(b, column[b]) in Labelled(column)
    decreases |column|
  {
    var last := |column| - 1;
    if b < last {
      var init := column[..last];
      LabelledComplete(init, b);
    }
  }

  function MinNat(a: nat, b: nat): nat
  {
    if a <= b then a else b
  }

  /** `tail(k)`: the last k rows, or all of them when there are fewer. */
  function Tail<T>(s: seq<T>, k: nat): (t: seq<T>)
    ensures |t| == MinNat(k, |s|)
  {
    s[|s| - MinNat(k, |s|)..]
  }

  /** `sort_index(ascending=False)` on rows whose bars ascend: the same rows
      in reverse order. */
  function NewestFirst(rows: seq<Row>): (r: seq<Row>)
    ensures |r| == |rows|
  {
    seq(|rows|, m requires 0 <= m < |rows| => rows[|rows| - 1 - m])
  }

  /** Reversal is the descending sort on rows whose bars strictly ascend. */
  lemma NewestFirstDescending(rows: seq<Row>)
    requires forall k, m :: 0 <= k < m < |rows| ==> rows[k].bar < rows[m].bar
    ensures forall k, m :: 0 <= k < m < |NewestFirst(rows)| ==> NewestFirst(rows)[k].bar > NewestFirst(rows)[m].bar
  {
    var r := NewestFirst(rows);
    forall k, m | 0 <= k < m < |r|
      ensures r[k].bar > r[m].bar
    {
      assert r[k] == rows[|rows| - 1 - k] && r[m] == rows[|rows| - 1 - m];
    }
  }

  /** How many crossovers the app lists. */
  const Shown: nat := 5

  /** `data[data['Crossover'] != ''].tail(k).sort_index(ascending=False)`. */
  function LastCrossovers(column: seq<string>, k: nat): (r: seq<Row>)
    ensures |r| == MinNat(k, |Labelled(column)|)
  {
    NewestFirst(Tail(Labelled(column), k))
  }

  /** Row m of the newest-first tail is row m from the end. */
  lemma NewestFirstTailAt(rows: seq<Row>, k: nat, m: nat)
    requires m < |NewestFirst(Tail(rows, k))|
    ensures |NewestFirst(Tail(rows, k))| <= |rows|
    ensures NewestFirst(Tail(rows, k))[m] == rows[|rows| - 1 - m]
  {
    var t := Tail(rows, k);
    assert t == rows[|rows| - |t|..];
  }

  /** Row m of the view is row m from the end of the filtered frame. */
  lemma LastCrossoversAt(column: seq<string>, k: nat, m: nat)
    requires m < |LastCrossovers(column, k)|
    ensures |LastCrossovers(column, k)| <= |Labelled(column)|
    ensures LastCrossovers(column, k)[m] == Labelled(column)[|Labelled(column)| - 1 - m]
  {
    NewestFirstTailAt(Labelled(column), k, m);
  }

  /** The view holds at most k rows (exactly k when there are that many),
      all of them labelled bars, newest first. */
  lemma LastCrossoversShape(column: seq<string>, k: nat)
    ensures var r := LastCrossovers(column, k);
      && |r| == MinNat(k, |Labelled(column)|)
      && (forall m :: 0 <= m < |r| ==>
            r[m].bar < |column| && r[m].crossover == column[r[m].bar] && r[m].crossover != NoLabel)
      && (forall m, m' :: 0 <= m < m' < |r| ==> r[m].bar > r[m'].bar)
  {
    var rows := Labelled(column);
    var r := LastCrossovers(column, k);
    var n := |rows|;
    forall m | 0 <= m < |r|
      ensures r[m].bar < |column| && r[m].crossover == column[r[m].bar] && r[m].crossover != NoLabel
    {
      LastCrossoversAt(column, k, m);
    }
    forall m, m' | 0 <= m < m' < |r|
      ensures r[m].bar > r[m'].bar
    {
      LastCrossoversAt(column, k, m);
      LastCrossoversAt(column, k, m');
      assert rows[n - 1 - m'].bar < rows[n - 1 - m].bar;
    }
  }

  /** The view holds the latest labelled bars: a labelled bar it leaves out
      is older than every bar it shows, and it leaves none out unless there
      are more than k. */
  lemma LastCrossoversLatest(column: seq<string>, k: nat, b: nat)
    requires b < |column| && column[b] != NoLabel
    requires forall m :: 0 <= m < |LastCrossovers(column, k)| ==> LastCrossovers(column, k)[m].bar != b
    ensures |Labelled(column)| > k
    ensures forall m :: 0 <= m < |LastCrossovers(column, k)| ==> b < LastCrossovers(column, k)[m].bar
  {
    var rows := Labelled(column);
    var r := LastCrossovers(column, k);
    var n := |rows|;
    LabelledComplete(column, b);
    var j :| 0 <= j < n && rows[j] == Row(b, column[b]);
    if j >= n - |r| {
      LastCrossoversAt(column, k, n - 1 - j);
      assert false;
    }
    forall m | 0 <= m < |r|
      ensures b < r[m].bar
    {
      LastCrossoversAt(column, k, m);
    }
  }

  /** What the app prints for one listed crossover, before date formatting
      and icon choice: the bar, the decoded direction and the description. */
  datatype Entry = Entry(bar: nat, direction: Direction, description: string)

  /** Lines 80-82 of the app: decode every listed row. */
  function Summary(rows: seq<Row>): (entries: seq<Entry>)
    ensures |entries| == |rows|
  {
    seq(|rows|, m requires 0 <= m < |rows| =>
      Entry(rows[m].bar, DirectionOf(rows[m].crossover), DescriptionOf(rows[m].crossover)))
  }

  /** Each listed entry reports a real crossing: the pair it names crosses
      in the decoded direction at that bar, and that pair is the 5/13 one
      whenever the 5/13 pair crosses there. */
  lemma SummaryMeaning(ema5: seq<real>, ema8: seq<real>, ema13: seq<real>, m: nat)
    requires |ema5| == |ema8| == |ema13|
    requires m < |LastCrossovers(Column(ema5, ema8, ema13), Shown)|
    ensures var e := Summary(LastCrossovers(Column(ema5, ema8, ema13), Shown))[m];
      exists p: Slow ::
        && e.description == PairText(p)
        && Crosses(ema5, SlowSeries(p, ema8, ema13), e.direction, e.bar)
        && (p == Ema8 ==> !Crosses(ema5, ema13, Up, e.bar) && !Crosses(ema5, ema13, Down, e.bar))
  {
    var column := Column(ema5, ema8, ema13);
    var rows := LastCrossovers(column, Shown);
    LastCrossoversShape(column, Shown);
    var i := rows[m].bar;
    LabelledBarCrosses(ema5, ema8, ema13, i);
    var p: Slow, d: Direction :| column[i] == Label(p, d) && Crosses(ema5, SlowSeries(p, ema8, ema13), d, i)
      && (p == Ema8 ==> !Crosses(ema5, ema13, Up, i) && !Crosses(ema5, ema13, Down, i));
    DecodeLabel(p, d);
    var e := Summary(rows)[m];
    assert e == Entry(i, DirectionOf(Label(p, d)), DescriptionOf(Label(p, d)));
  }

  /** When the averages touch, the strict rule can report two rises of the
      5-bar EMA through the 8-bar EMA with no fall between them: on the
      closes 0, -9, 7, -2, -10, 4 the pair rises through at bar 2, touches
      exactly at bar 3, falls below at bar 4 unlabelled, and rises again at
      bar 5. */
  lemma TouchBreaksAlternation()
    ensures var close := [0.0, -9.0, 7.0, -2.0, -10.0, 4.0];
      var fast, slow := Ewm(close, FastSpan), Ewm(close, MediumSpan);
      && fast[3] == slow[3]
      && Crosses(fast, slow, Up, 2) && Crosses(fast, slow, Up, 5)
      && forall k :: 2 < k < 5 ==> !Crosses(fast, slow, Down, k)
  {
    var close := [0.0, -9.0, 7.0, -2.0, -10.0, 4.0];
    var fast, slow := Ewm(close, FastSpan), Ewm(close, MediumSpan);
    EwmRecurrence(close, FastSpan);
    EwmRecurrence(close, MediumSpan);
    assert Alpha(FastSpan) == 1.0 / 3.0 && Alpha(MediumSpan) == 2.0 / 9.0;
    assert fast[1] == -3.0 && slow[1] == -2.0;
    assert fast[2] == 1.0 / 3.0 && slow[2] == 0.0;
    assert fast[3] == -4.0 / 9.0 && slow[3] == -4.0 / 9.0;
    assert fast[4] == -98.0 / 27.0 && slow[4] == -208.0 / 81.0;
    assert fast[5] == -88.0 / 81.0 && slow[5] == -808.0 / 729.0;
  }

  /** Bar 1 never carries a label, whatever the closes: all three averages
      start at close[0], so every pair touches at bar 0. */
  lemma SecondBarUnlabelled(close: seq<real>)
    requires |close| >= 2
    ensures Column(Ewm(close, FastSpan), Ewm(close, MediumSpan), Ewm(close, SlowSpan))[1] == NoLabel
  {
    var ema5, ema8, ema13 := Ewm(close, FastSpan), Ewm(close, MediumSpan), Ewm(close, SlowSpan);
    EwmRecurrence(close, FastSpan);
    EwmRecurrence(close, MediumSpan);
    EwmRecurrence(close, SlowSpan);
    TouchingNeverCrosses(ema5, ema8, 1);
    TouchingNeverCrosses(ema5, ema13, 1);
    NoLabelMeaning(ema5, ema8, ema13, 1);
  }

  /** Strictness in practice: after two equal closes every average sits on
      the same value, so the 5-bar EMA rising above the 8-bar EMA on the
      next bar is not labelled. */
  lemma FlatStartRiseUnlabelled()
    ensures var close := [1.0, 1.0, 2.0];
      var ema5, ema8, ema13 := Ewm(close, FastSpan), Ewm(close, MediumSpan), Ewm(close, SlowSpan);
      ema5[2] > ema8[2] && ema5[2] > ema13[2] && Column(ema5, ema8, ema13)[2] == NoLabel
  {
    var close := [1.0, 1.0, 2.0];
    var ema5, ema8, ema13 := Ewm(close, FastSpan), Ewm(close, MediumSpan), Ewm(close, SlowSpan);
    EwmRecurrence(close, FastSpan);
    EwmRecurrence(close, MediumSpan);
    EwmRecurrence(close, SlowSpan);
    assert ema5[1] == 1.0 && ema8[1] == 1.0 && ema13[1] == 1.0;
    assert ema5[2] == 1.0 + Alpha(FastSpan);
    assert ema8[2] == 1.0 + Alpha(MediumSpan);
    assert ema13[2] == 1.0 + Alpha(SlowSpan);
    NoLabelMeaning(ema5, ema8, ema13, 2);
  }

}
