/** Crossover labelling: the `Crossover` column of the data frame, filled in
    place by four masked assignments, and the decoding of a label back into
    a direction and a description for display. */
module Crossover {
  import opened Text

  /** The slower average the 5-bar EMA is compared with. */
  datatype Slow = Ema8 | Ema13

  datatype Direction = Up | Down

  function Opposite(d: Direction): Direction
  {
    match d
    case Up => Down
    case Down => Up
  }

  /** The label text of a pair without its direction, as the app displays it. */
  function PairText(p: Slow): string
  {
    match p
    case Ema8 => "5 crosses 8 "
    case Ema13 => "5 crosses 13 "
  }

  function DirectionText(d: Direction): string
  {
    match d
    case Up => "Up"
    case Down => "Down"
  }

  /** The label written into the column: "5 crosses 8 Up" and so on. */
  function Label(p: Slow, d: Direction): string
  {
    PairText(p) + DirectionText(d)
  }

  /** The initial value of every cell: `data['Crossover'] = ''`. */
  const NoLabel: string := ""

  /** The four labels are pairwise different and none is empty. */
  lemma LabelsDistinct(p: Slow, d: Direction, p': Slow, d': Direction)
    ensures Label(p, d) != NoLabel
    ensures Label(p, d) == Label(p', d') <==> p == p' && d == d'
  {
    // the four labels have four different lengths
  }

  /** The comparison the app makes at bar i for one pair and direction:
      `(fast > slow) & (fast.shift(1) < slow.shift(1))` for Up and the mirror
      for Down. At bar 0 `shift(1)` is NaN and every comparison with NaN is
      false. Both comparisons are strict. */
  predicate Crosses(fast: seq<real>, slow: seq<real>, d: Direction, i: nat)
    requires |fast| == |slow| && i < |fast|
    ensures Crosses(fast, slow, d, i) ==>
              i >= 1 && fast[i] != slow[i] && fast[i - 1] != slow[i - 1] && (fast[i] > slow[i] <==> d == Up)
  {
    i >= 1 &&
    match d
    case Up => fast[i] > slow[i] && fast[i - 1] < slow[i - 1]
    case Down => fast[i] < slow[i] && fast[i - 1] > slow[i - 1]
  }

  /** The boolean mask of one `data.loc[...]` assignment. */
  function Mask(fast: seq<real>, slow: seq<real>, d: Direction): (m: seq<bool>)
    requires |fast| == |slow|
    ensures |m| == |fast|
    ensures forall i :: 0 <= i < |m| ==> (m[i] <==> Crosses(fast, slow, d, i))
  {
    seq(|fast|, i requires 0 <= i < |fast| => Crosses(fast, slow, d, i))
  }

  /** `data.loc[mask, 'Crossover'] = label`: overwrite the masked cells in
      place and leave the others as they were. */
  method AssignWhere(column: array<string>, mask: seq<bool>, value: string)
    requires |mask| == column.Length
    modifies column
    ensures forall i :: 0 <= i < column.Length ==>
              column[i] == (if mask[i] then value else old(column[i]))
  {
    var i := 0;
    while i < column.Length
      invariant 0 <= i <= column.Length
      invariant forall j :: 0 <= j < i ==> column[j] == (if mask[j] then value else old(column[j]))
      invariant forall j :: i <= j < column.Length ==> column[j] == old(column[j])
    {
      if mask[i] {
        column[i] := value;
      }
      i := i + 1;
    }
  }

  /** The label bar i ends up with. Of the four assignments, run in the order
      8 Up, 8 Down, 13 Up, 13 Down, the last one whose condition holds wins. */
  function LabelAt(ema5: seq<real>, ema8: seq<real>, ema13: seq<real>, i: nat): (l: string)
    requires |ema5| == |ema8| == |ema13| && i < |ema5|
    ensures l in {NoLabel, Label(Ema8, Up), Label(Ema8, Down), Label(Ema13, Up), Label(Ema13, Down)}
  {
    if Crosses(ema5, ema13, Down, i) then Label(Ema13, Down)
    else if Crosses(ema5, ema13, Up, i) then Label(Ema13, Up)
    else if Crosses(ema5, ema8, Down, i) then Label(Ema8, Down)
    else if Crosses(ema5, ema8, Up, i) then Label(Ema8, Up)
    else NoLabel
  }

  /** The whole `Crossover` column. */
  function Column(ema5: seq<real>, ema8: seq<real>, ema13: seq<real>): (c: seq<string>)
    requires |ema5| == |ema8| == |ema13|
    ensures |c| == |ema5|
  {
    seq(|ema5|, i requires 0 <= i < |ema5| => LabelAt(ema5, ema8, ema13, i))
  }

  /** Lines 30-34 of the app: blank the column, then run the four masked
      assignments in order, each overwriting what the earlier ones wrote.
      The result is the last-wins column. */
  method FindCrossovers(ema5: seq<real>, ema8: seq<real>, ema13: seq<real>) returns (column: seq<string>)
    requires |ema5| == |ema8| == |ema13|
    ensures column == Column(ema5, ema8, ema13)
  {
    var col := new string[|ema5|](_ => NoLabel);
    AssignWhere(col, Mask(ema5, ema8, Up), Label(Ema8, Up));
    AssignWhere(col, Mask(ema5, ema8, Down), Label(Ema8, Down));
    AssignWhere(col, Mask(ema5, ema13, Up), Label(Ema13, Up));
    AssignWhere(col, Mask(ema5, ema13, Down), Label(Ema13, Down));
    column := col[..];
  }

  /** The slower series a pair compares the 5-bar EMA with. */
  function SlowSeries(p: Slow, ema8: seq<real>, ema13: seq<real>): seq<real>
  {
    match p
    case Ema8 => ema8
    case Ema13 => ema13
  }

  /** Comparisons are strict: a pair that touches on bar i or on bar i-1
      yields no crossing at bar i, and Up and Down never hold together. */
  lemma TouchingNeverCrosses(fast: seq<real>, slow: seq<real>, i: nat)
    requires |fast| == |slow| && i < |fast|
    ensures fast[i] == slow[i] ==> !Crosses(fast, slow, Up, i) && !Crosses(fast, slow, Down, i)
    ensures i >= 1 && fast[i - 1] == slow[i - 1] ==> !Crosses(fast, slow, Up, i) && !Crosses(fast, slow, Down, i)
    ensures !(Crosses(fast, slow, Up, i) && Crosses(fast, slow, Down, i))
  {
  }

  /** Bar 0 never carries a label. */
  lemma FirstBarUnlabelled(ema5: seq<real>, ema8: seq<real>, ema13: seq<real>)
    requires |ema5| == |ema8| == |ema13| > 0
    ensures Column(ema5, ema8, ema13)[0] == NoLabel
  {
  }

  /** What each label means: bar i carries the label of pair p and direction
      d exactly when that pair crosses in that direction at bar i and, for
      the 5/8 pair, the 5/13 pair does not cross at all there. */
  lemma LabelMeaning(ema5: seq<real>, ema8: seq<real>, ema13: seq<real>, i: nat, p: Slow, d: Direction)
    requires |ema5| == |ema8| == |ema13| && i < |ema5|
    ensures Column(ema5, ema8, ema13)[i] == Label(p, d) <==>
              Crosses(ema5, SlowSeries(p, ema8, ema13), d, i) &&
              (p == Ema8 ==> !Crosses(ema5, ema13, Up, i) && !Crosses(ema5, ema13, Down, i))
  {
    var c := Column(ema5, ema8, ema13)[i];
    forall p': Slow, d': Direction
      ensures Label(p', d') == Label(p, d) <==> p' == p && d' == d
    {
      LabelsDistinct(p', d', p, d);
    }
    TouchingNeverCrosses(ema5, ema13, i);
    TouchingNeverCrosses(ema5, ema8, i);
  }

  /** A bar is unlabelled exactly when neither pair crosses there. */
  lemma NoLabelMeaning(ema5: seq<real>, ema8: seq<real>, ema13: seq<real>, i: nat)
    requires |ema5| == |ema8| == |ema13| && i < |ema5|
    ensures Column(ema5, ema8, ema13)[i] == NoLabel <==>
              forall p: Slow, d: Direction :: !Crosses(ema5, SlowSeries(p, ema8, ema13), d, i)
  {
    var c := Column(ema5, ema8, ema13)[i];
    forall p: Slow, d: Direction
      ensures Label(p, d) != NoLabel
    {
      LabelsDistinct(p, d, p, d);
    }
    if c == NoLabel {
      forall p: Slow, d: Direction
        ensures !Crosses(ema5, SlowSeries(p, ema8, ema13), d, i)
      {
        match p
        case Ema8 =>
        case Ema13 =>
      }
    } else {
      assert Crosses(ema5, SlowSeries(Ema13, ema8, ema13), Down, i)
          || Crosses(ema5, SlowSeries(Ema13, ema8, ema13), Up, i)
          || Crosses(ema5, SlowSeries(Ema8, ema8, ema13), Down, i)
          || Crosses(ema5, SlowSeries(Ema8, ema8, ema13), Up, i);
    }
  }

  /** A labelled bar names a pair that crosses there in the named direction;
      it names the 5/8 pair only when the 5/13 pair does not cross. */
  lemma LabelledBarCrosses(ema5: seq<real>, ema8: seq<real>, ema13: seq<real>, i: nat)
    requires |ema5| == |ema8| == |ema13| && i < |ema5|
    requires Column(ema5, ema8, ema13)[i] != NoLabel
    ensures exists p: Slow, d: Direction ::
      && Column(ema5, ema8, ema13)[i] == Label(p, d)
      && Crosses(ema5, SlowSeries(p, ema8, ema13), d, i)
      && (p == Ema8 ==> !Crosses(ema5, ema13, Up, i) && !Crosses(ema5, ema13, Down, i))
  {
    var c := Column(ema5, ema8, ema13)[i];
    if Crosses(ema5, ema13, Down, i) {
      assert c == Label(Ema13, Down) && SlowSeries(Ema13, ema8, ema13) == ema13;
    } else if Crosses(ema5, ema13, Up, i) {
      assert c == Label(Ema13, Up) && SlowSeries(Ema13, ema8, ema13) == ema13;
    } else if Crosses(ema5, ema8, Down, i) {
      assert c == Label(Ema8, Down) && SlowSeries(Ema8, ema8, ema13) == ema8;
    } else {
      assert c == Label(Ema8, Up) && SlowSeries(Ema8, ema8, ema13) == ema8;
    }
  }

  /** Last write wins: when the 5/13 pair crosses at a bar, its label is the
      one kept there, whatever the 5/8 pair does. */
  lemma SlowPairWins(ema5: seq<real>, ema8: seq<real>, ema13: seq<real>, i: nat, d: Direction)
    requires |ema5| == |ema8| == |ema13| && i < |ema5|
    requires Crosses(ema5, ema13, d, i)
    ensures Column(ema5, ema8, ema13)[i] == Label(Ema13, d)
  {
    LabelMeaning(ema5, ema8, ema13, i, Ema13, d);
  }

  /** While two series never touch, a fall below must happen somewhere
      between a bar where `fast` is above and a later bar where it is below. */
  lemma {:induction false} FallBetween(fast: seq<real>, slow: seq<real>, a: nat, b: nat)
    requires |fast| == |slow| && a < b < |fast|
    requires fast[a] > slow[a] && fast[b] < slow[b]
    requires forall k :: a <= k <= b ==> fast[k] != slow[k]
    ensures exists k :: a < k <= b && Crosses(fast, slow, Down, k)
    decreases b - a
  {
    if fast[a + 1] < slow[a + 1] {
      assert Crosses(fast, slow, Down, a + 1);
    } else {
      FallBetween(fast, slow, a + 1, b);
    }
  }

  /** While two series never touch, a rise above must happen somewhere
      between a bar where `fast` is below and a later bar where it is above. */
  lemma {:induction false} RiseBetween(fast: seq<real>, slow: seq<real>, a: nat, b: nat)
    requires |fast| == |slow| && a < b < |fast|
    requires fast[a] < slow[a] && fast[b] > slow[b]
    requires forall k :: a <= k <= b ==> fast[k] != slow[k]
    ensures exists k :: a < k <= b && Crosses(fast, slow, Up, k)
    decreases b - a
  {
    if fast[a + 1] > slow[a + 1] {
      assert Crosses(fast, slow, Up, a + 1);
    } else {
      RiseBetween(fast, slow, a + 1, b);
    }
  }

  /** Crossings of one pair alternate as long as the two series never touch:
      between two crossings in the same direction lies one in the other. */
  lemma Alternate(fast: seq<real>, slow: seq<real>, d: Direction, i: nat, j: nat)
    requires |fast| == |slow| && i < j < |fast|
    requires Crosses(fast, slow, d, i) && Crosses(fast, slow, d, j)
    requires forall k :: i <= k < j ==> fast[k] != slow[k]
    ensures exists k :: i < k < j && Crosses(fast, slow, Opposite(d), k)
  {
    match d
    case Up =>
      FallBetween(fast, slow, i, j - 1);
      var k :| i < k <= j - 1 && Crosses(fast, slow, Down, k);
      assert Crosses(fast, slow, Opposite(d), k);
    case Down =>
      RiseBetween(fast, slow, i, j - 1);
      var k :| i < k <= j - 1 && Crosses(fast, slow, Up, k);
      assert Crosses(fast, slow, Opposite(d), k);
  }

  /** `'Up' if 'Up' in label else 'Down'`. */
  function DirectionOf(text: string): (d: Direction)
    ensures d == Up <==> exists k: nat :: OccursAt(text, "Up", k)
  {
    if Contains(text, "Up") then Up else Down
  }

  /** `label.replace('Up', '').replace('Down', '')`. */
  function DescriptionOf(text: string): (r: string)
    ensures |r| <= |text|
    ensures !Contains(text, "Up") && !Contains(text, "Down") ==> r == text
  {
    var noUp := Replace(text, "Up", "");
    ReplaceAbsent(text, "Up", "");
    ReplaceAbsent(noUp, "Down", "");
    Replace(noUp, "Down", "")
  }

  /** Decoding a label gives back its direction and the pair text. */
  lemma DecodeLabel(p: Slow, d: Direction)
    ensures DirectionOf(Label(p, d)) == d
    ensures DescriptionOf(Label(p, d)) == PairText(p)
  {
    var pair := PairText(p);
    assert 'U' !in pair && 'D' !in pair;
    match d
    case Up =>
      ContainsSuffix(pair, "Up");
      ReplaceSkips(pair, "Up", "Up", "");
      ReplaceWhole("Up", "");
      assert pair + "" == pair;
      ReplaceSkips(pair, [], "Down", "");
      assert pair + [] == pair;
    case Down =>
      assert 'U' !in pair + "Down";
      NotContains(pair + "Down", "Up");
      ReplaceSkips(pair + "Down", [], "Up", "");
      assert pair + "Down" + [] == pair + "Down";
      ReplaceSkips(pair, "Down", "Down", "");
      ReplaceWhole("Down", "");
      assert pair + "" == pair;
  }

}
