# 5-8-13 EMA crossover signals, modelled in Dafny

This project models the signal computation of a small Streamlit app that
charts a stock's daily closes. The computation is `add_indicators_and_find_crossovers`
together with the "last 5 crossovers" list the app prints. Given the close
column of a price frame, in date order, it:

- adds three exponential moving averages with spans 5, 8 and 13, computed as
  `ewm(span, adjust=False).mean()`: the first value is the first close, and
  each later value is `α·close[i] + (1-α)·previous` with `α = 2/(span+1)`;
- adds a 14-bar RSI built from `diff()`, gains and losses split with
  `where(...)`, simple `rolling(14).mean()` averages and `100 - 100/(1 + gain/loss)`;
- adds a `Crossover` column. The column starts blank. Four masked
  assignments then run in order: 5/8 Up, 5/8 Down, 5/13 Up, 5/13 Down. Each
  one overwrites the cells it selects;
- keeps the labelled bars, takes the last 5 and lists them newest first. Each
  label is decoded into a direction (`'Up' in label`) and a description
  (the label with `Up` and `Down` removed).

Prices are exact `real`s. A NaN in a pandas column is `None` of `Option`.
The bar index stands in for the frame's date index, which is strictly
increasing.

Modules:

- `Wrappers` (wrappers.dfy): `Option`.
- `Ema` (ema.dfy): the averages are pure functions over `seq<real>`. The
  lemmas cover the recurrence, its uniqueness, causality, the convex-combination
  bound and constant series.
- `RelativeStrength` (rsi.dfy): the RSI pipeline as pure functions, with lemmas
  for where it is defined, its range, the 100 and 0/0 cases, and the telescoping
  of gains minus losses.
- `Text` (text.dfy): Python's substring test and `str.replace`.
- `Crossover` (crossover.dfy): the label column. `FindCrossovers` blanks an
  array and runs four in-place passes of `AssignWhere`, one per
  `data.loc[mask, 'Crossover'] = label`. It is proved equal to the last-wins
  function `Column`, and the lemmas state what each label means.
- `Signals` (signals.dfy): the whole analysis as one method returning the
  frame, the last-N selection and the decoded summary.

Three behaviours of the code are stated as proved facts. They may surprise
a reader who knows the textbook definitions:

- **The RSI starts at bar 13, not bar 14.** The NaN delta of bar 0 becomes a
  zero gain and a zero loss, so `rolling(14)` already has 14 values at bar 13.
  `AvgGainMinusAvgLoss` shows that the window of bar 13 covers only 13 price
  moves, measured from bar 0.
- **A touch produces no label.** Both comparisons are strict. A pair that is
  equal on bar i-1 or on bar i gives no label at bar i. So the move away from
  a touch is never reported. All averages start at close[0], so bar 1 is
  never labelled (`SecondBarUnlabelled`). `FlatStartRiseUnlabelled` shows the
  same on the closes 1, 1, 2. Because of the same rule, crossings of one pair
  alternate Up/Down only while the two averages never touch (`Alternate`).
  `TouchBreaksAlternation` gives closes on which the 5-bar and 8-bar EMAs
  touch exactly and then cross Up twice with no Down crossing between.
- **A flat window gives no RSI.** When the average gain and the average loss
  are both 0, the RSI is 0/0, which is NaN, and `Rsi` gives `None`. When only
  the average loss is 0, the ratio is +inf and the RSI is exactly 100.

## Model

| member | source | states |
|---|---|---|
| `Ema.Alpha` | app.py:18-20 | the smoothing factor 2/(span+1) lies in (0, 1], and below 1 for every span above 1 |
| `Ema.Ewm` | app.py:18-20 | the average column has exactly one value per close |
| `Ema.EwmRecurrence` | app.py:18-20 | the average starts at close[0] and then follows `α·close[i] + (1-α)·ema[i-1]` at every later bar |
| `Ema.EwmUnique` | app.py:18-20 | any sequence that obeys that recurrence is the average, so the recurrence is a complete reference definition |
| `Ema.EwmPrefix` | app.py:18-20 | the average is causal: computing it on the first k closes gives the first k values of the full column |
| `Ema.EwmWithin` | app.py:18-20 | each average is a convex combination of the closes so far: any bounds those closes keep, the average keeps |
| `Ema.EwmBetweenMinMax` | app.py:18-20 | the average at bar i lies between the lowest and the highest close of bars 0..i |
| `Ema.EwmOfConstant` | app.py:18-20 | a constant price series gives an average equal to that price at every bar |
| `RelativeStrength.Diff` | app.py:23 | the delta column is aligned with the closes and is NaN at bar 0 |
| `RelativeStrength.UpMove` | app.py:24 | a gain is never negative, whatever the delta (a NaN delta gives 0) |
| `RelativeStrength.DownMove` | app.py:25 | a loss is never negative, whatever the delta (a NaN delta gives 0) |
| `RelativeStrength.Gains` | app.py:24 | the gain column is aligned with the closes and non-negative |
| `RelativeStrength.Losses` | app.py:25 | the loss column is aligned with the closes and non-negative |
| `RelativeStrength.GainLossSplit` | app.py:23-25 | at each bar, gain and loss are both ≥ 0 and at most one is non-zero; both are 0 at bar 0; elsewhere gain − loss is the price move |
| `RelativeStrength.Mean` | app.py:24-25 | the mean of non-negative values is non-negative, and it is zero exactly when all the values are zero |
| `RelativeStrength.RollingMean` | app.py:24-25 | the rolling mean is aligned with its input, is defined exactly at the bars with a full window behind them, and there equals the mean of the w values ending at that bar |
| `RelativeStrength.AvgGain` | app.py:24 | the average gain is NaN before bar 13 and a non-negative number from bar 13 on |
| `RelativeStrength.AvgLoss` | app.py:25 | the average loss is NaN before bar 13 and a non-negative number from bar 13 on |
| `RelativeStrength.RsiOf` | app.py:26-27 | the RSI of two averages is undefined exactly for 0/0; otherwise it lies in [0, 100]; it is 100 exactly when the loss is 0 and the gain is positive (the +inf case); it is 0 exactly when the gain is 0 and the loss is positive; and with a positive loss it equals 100·gain/(gain+loss) |
| `RelativeStrength.RatioForm` | app.py:26-27 | `100 - 100/(1 + g/l)` equals the textbook form 100·g/(g+l) when l > 0 |
| `RelativeStrength.Rsi` | app.py:23-27 | the RSI column is aligned with the closes; its value at each bar is given by `RsiValue` |
| `RelativeStrength.AveragesValue` | app.py:23-25 | from bar 13 on, the average gain is the sum of the window's gains divided by 14, and the average loss the sum of its losses divided by 14 |
| `RelativeStrength.RsiOfAverages` | app.py:26-27 | from bar 13 on, the RSI column holds the RSI of the two averages at that bar |
| `RelativeStrength.RsiOfScaled` | app.py:26-27 | dividing the gain sum G and the loss sum L by the window length leaves the RSI at 100·G/(G+L), or NaN when both are zero |
| `RelativeStrength.RsiValue` | app.py:23-27 | from bar 13 on, the RSI is 100·G/(G+L), where G and L are the sums of the gains and losses over the bar's window; it is NaN exactly when G + L = 0 |
| `RelativeStrength.Telescope` | app.py:23-25 | over a run of bars, the gains minus the losses add up to the net price change, with bar 0 contributing nothing |
| `RelativeStrength.AvgGainMinusAvgLoss` | app.py:23-25 | once defined, average gain minus average loss is the price change over the window divided by 14, measured from bar 0 at bar 13 and from 14 bars back after that |
| `RelativeStrength.AvgGainZero` | app.py:23-24 | at a defined bar, the average gain is 0 exactly when no close in the window rises |
| `RelativeStrength.AvgLossZero` | app.py:23-25 | at a defined bar, the average loss is 0 exactly when no close in the window falls |
| `RelativeStrength.RsiDefinedIff` | app.py:23-27 | the RSI is defined exactly from bar 13 on, except where the whole window is flat |
| `RelativeStrength.RsiInRange` | app.py:26-27 | every defined RSI lies in [0, 100] and sits at bar 13 or later |
| `RelativeStrength.RsiHundredIff` | app.py:23-27 | the RSI is exactly 100 when the window has at least one rise and no fall |
| `RelativeStrength.RsiOfConstant` | app.py:23-27 | a constant price series has no defined RSI anywhere |
| `RelativeStrength.RsiOfRising` | app.py:23-27 | a strictly rising price series has RSI 100 at every bar from 13 on |
| `RelativeStrength.RsiLocal` | app.py:23-27 | the RSI at a bar from 13 on depends only on the closes of its window (from bar 0 at bar 13, from 14 bars back after that): two series that agree there have the same RSI at that bar |
| `Crossover.LabelsDistinct` | app.py:31-34 | the four labels are different from each other and from the blank label |
| `Crossover.Crosses` | app.py:31-34 | a crossing happens only from bar 1 on, with the pair strictly apart on both bars, and the 5-bar EMA ends above the slower one exactly for an Up crossing |
| `Crossover.Mask` | app.py:31-34 | each mask is aligned with the averages and is true exactly at the bars where the pair crosses in that direction |
| `Crossover.AssignWhere` | app.py:31-34 | a masked assignment writes the label into the masked cells and leaves every other cell unchanged |
| `Crossover.Column` | app.py:30-34 | the crossover column has one label per bar |
| `Crossover.LabelAt` | app.py:30-34 | the cell of a bar is the blank label or one of the four labels; which one is fixed by `LabelMeaning` and `NoLabelMeaning` |
| `Crossover.FindCrossovers` | app.py:30-34 | blanking the column and then running the four in-place passes in source order gives exactly the last-wins column |
| `Crossover.TouchingNeverCrosses` | app.py:31-34 | comparisons are strict: a pair that is equal on bar i or on bar i-1 gives no crossing at i, and Up and Down never hold together |
| `Crossover.FirstBarUnlabelled` | app.py:30-34 | bar 0 always keeps the blank label |
| `Crossover.LabelMeaning` | app.py:30-34 | a bar has a given label exactly when that pair crosses in that direction there and, for the 5/8 pair, the 5/13 pair does not cross there |
| `Crossover.NoLabelMeaning` | app.py:30-34 | a bar stays blank exactly when neither pair crosses in either direction there |
| `Crossover.LabelledBarCrosses` | app.py:30-34 | each bar holds at most one label, and a labelled bar names a pair and direction that really cross there |
| `Crossover.SlowPairWins` | app.py:33-34 | last write wins: when the 5/13 pair crosses at a bar, its label is the one kept there |
| `Crossover.Alternate` | app.py:31-34 | while the two averages never touch, between two crossings in the same direction there is one in the other direction |
| `Crossover.DecodeLabel` | app.py:81-82 | decoding a label gives back its direction (Up exactly for the labels containing "Up") and the pair text "5 crosses K " |
| `Crossover.DirectionOf` | app.py:81 | the decoded direction is Up exactly when "Up" occurs somewhere in the label text |
| `Crossover.DescriptionOf` | app.py:82 | removing "Up" and "Down" never lengthens the text, and a text containing neither is returned unchanged |
| `Text.Contains` | app.py:81 | Python's `t in s`: true exactly when t occurs in s at some index |
| `Text.Replace` | app.py:82 | `str.replace`: replacing by a text no longer than the pattern never lengthens the string |
| `Text.ReplaceAbsent` | app.py:82 | `str.replace` returns the string unchanged when the pattern does not occur in it |
| `Signals.AddIndicatorsAndFindCrossovers` | app.py:16-36 | the analysis returns the closes with the three averages, the RSI and the crossover column, all aligned with the closes |
| `Signals.Labelled` | app.py:76 | the filtered rows are labelled bars, each with its own label, in strictly ascending bar order |
| `Signals.LabelledComplete` | app.py:76 | the filter drops no labelled bar |
| `Signals.Tail` | app.py:76 | `tail(k)` keeps k rows, or all rows when there are fewer |
| `Signals.NewestFirst` | app.py:76 | the descending sort keeps the number of rows |
| `Signals.NewestFirstDescending` | app.py:76 | on rows whose bars strictly ascend, reversal gives rows whose bars strictly descend, which is what `sort_index(ascending=False)` produces |
| `Signals.NewestFirstTailAt` | app.py:76 | row m of the newest-first tail is row m from the end of the input |
| `Signals.LastCrossoversAt` | app.py:76 | row m of the view is row m from the end of the filtered frame |
| `Signals.LastCrossovers` | app.py:76 | the view holds min(k, number of labelled bars) rows; `LastCrossoversShape` and `LastCrossoversLatest` state which ones and in what order |
| `Signals.LastCrossoversShape` | app.py:76 | the view holds min(k, number of labelled bars) rows; every row is a labelled bar with its label; the bars are strictly descending |
| `Signals.LastCrossoversLatest` | app.py:76 | every labelled bar the view leaves out is older than every bar it shows, and no bar is left out when there are at most k labelled bars |
| `Signals.Summary` | app.py:80-82 | each listed row is decoded into one entry |
| `Signals.SummaryMeaning` | app.py:76-82 | every listed entry names a pair that really crosses at that bar in the decoded direction, and it names the 5/8 pair only when the 5/13 pair does not cross there |
| `Signals.FlatStartRiseUnlabelled` | app.py:18-34 | for the closes 1, 1, 2, the 5-bar EMA ends above both slower averages at bar 2, yet bar 2 has no label |
| `Signals.SecondBarUnlabelled` | app.py:18-34 | for any closes, bar 1 has no label, because all three averages start at close[0] and so every pair touches at bar 0 |
| `Signals.TouchBreaksAlternation` | app.py:18-34 | on the closes 0, -9, 7, -2, -10, 4 the 5-bar and 8-bar EMAs touch exactly at bar 3, and the pair crosses Up at bars 2 and 5 with no Down crossing between them |

## Left out

- `fetch_data` (app.py:9-13) is left out. It downloads prices over the network and reads the clock. The closes are a parameter instead.
- The Streamlit page is left out: title, text, ticker selection, error messages and `st.stop` (app.py:39-68, 114-133). The check for an empty frame at app.py:72 and app.py:78 only decides what to display. The modelled functions accept an empty series and return empty columns.
- The Plotly charts (app.py:88-112) are left out. They only render.
- Date formatting with `strftime` and the choice of icon (app.py:83-85) are left out. A listed entry keeps its bar number.
- The open, high, low and volume columns are left out. The computation reads only `Close`.
- Ema.Ewm: uses exact real arithmetic. The IEEE-754 rounding of pandas is not modelled, so float results may differ in the last bits and may flip a comparison that exact reals decide.
- RelativeStrength.RollingMean: is the exact mean of the window. The running-sum algorithm of pandas, and its rounding, are not modelled. The input never has NaN, so NaN handling in the window is not modelled.
- RelativeStrength.RsiOf: requires both averages to be non-negative. Every caller meets that. For negative inputs, which cannot occur, IEEE-754 would also allow an infinite RSI.
- Signals.NewestFirst: models `sort_index(ascending=False)` as reversal. That is exact only because the date index is strictly increasing, which the model assumes.
- The spans and the RSI window are fixed at 5, 8, 13 and 14, as in the code. No other EMA pairs are monitored.
- No error is raised for empty, unordered or non-positive input. The code checks none of these.
- The closes are NaN-free reals. A NaN close would change `ewm` (which does not skip NaN), `diff`, `rolling` and the crossover comparisons; that case is not modelled.
