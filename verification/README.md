# ShareCharter screener core, modelled in Dafny

ShareCharter screens the tickers of the National Stock Exchange of India
against a predicate formula the user writes in a formula file.
`Charter.py` gives those formulas a small library of rolling-window
indicators. It discovers the formulas the file defines. For every ticker, it
joins the five downloaded OHLCV columns into a gap-free history, binds the
chosen formula's declared parameters to those columns, and calls the
formula. A ticker whose call raises an `Exception` counts as "no match".
Each match is summarised: latest price, percent change against the previous
close, latest volume and a chart link. The matches are then sorted by price, highest
first, and numbered.

This project models that core as pure Dafny functions and methods over
sequences, options and records:

- `Wrappers` (`wrappers.dfy`): `Option` (a value that may be NaN) and
  `Result` (a call that returns or raises).
- `Indicators` (`indicators.dfy`): `sma`, `highest` and `lowest`.
  - A column is `seq<Option<real>>`.
  - The methods compute the columns the way a rolling aggregator does. `Sma`
    keeps a running sum and a running NaN count. `Highest` and `Lowest` scan
    each window.
  - `Sma` is proved equal, position by position, to the brute-force
    reference `MeanAt`. `ExtremeAt` is itself a brute-force fold over each
    window, so for the extremes the scan and the reference are two forms of
    the same brute-force computation; `RollingExtreme` is proved equal to it.
- `Loader` (`loader.dfy`): `load_formulas` over the executed namespace, and
  the check that the chosen name is one of the loaded formulas.
  - The namespace is modelled as a map from name to an `isCallable` flag
    plus an opaque formula value.
- `Panel` (`panel.dfy`): the concatenation of the five columns followed by
  `dropna`.
- `Driver` (`driver.dfy`): the per-ticker loop.
  - A formula is its declared parameter list plus a total function from
    keyword arguments to `Result<bool, string>`. `Failure` stands for a
    raised `Exception`, including one raised by the truth test `bool(...)`.
  - This module also holds parameter binding, failure isolation, the match
    summary and the ticker/symbol naming.
- `Ranking` (`ranking.dfy`): the sort by price and the `Sr.` numbering.
- `Screener` (`screener.dfy`): the whole run, from the executed namespace to
  the ranked report.

Prices and volumes are Dafny `real`, so arithmetic is exact. NaN is `None`.

Behaviour of `Charter.py` that the model keeps as written:

- **Sort stability.** `sort_values` defaults to quicksort, which is not
  stable, so nothing is stated about the order of tied prices
  (Charter.py:135).
- **Parameters outside the five channels.** A declared parameter outside
  `{open, high, low, close, volume}` is left unbound (Charter.py:110). The
  formula then receives fewer arguments, and if that makes the call raise,
  the ticker is a non-match. `Driver.Bind` models this.
- **Formulas with no parameters.** Nothing rejects a formula that declares
  no parameters, so `Loader.LoadFormulas` accepts one.
- **Join.** `pd.concat(axis=1)` is an outer join, and `dropna()` then removes
  every incomplete row (Charter.py:96-102). `Panel.Assemble` models the pair
  positionally. In the code the five columns come from one downloaded frame
  and share one index (Charter.py:69-73, 97-101), so columns of unequal
  length never arise there. Treating a shorter column as NaN past its end
  is a convention of the model that keeps `Assemble` total.

## Model

| member | source | states |
|---|---|---|
| Indicators.Sma | Charter.py:8-9 | For a window `n >= 0`, the output has the input's length. Each position equals the reference `MeanAt`: undefined for the first `n-1` positions, undefined where the trailing window holds a NaN, and otherwise the sum of the trailing `n` values divided by `n`. A negative window is refused, as pandas refuses it. |
| Indicators.Highest | Charter.py:24-25 | The output has the input's length. Position `i` is defined exactly when `1 <= n <= i+1` and the trailing `n` entries are all present. When defined, it is one of those entries and at least as large as each of them. A negative window is refused. |
| Indicators.Lowest | Charter.py:27-28 | The same as `Highest`, except that a defined entry is at most each value of its window. |
| Indicators.RollingExtreme | Charter.py:24-28 | Scanning each window yields the reference `ExtremeAt` at every position, keeping either the maximum or the minimum. The result has the input's length, and a negative window is an error. |
| Indicators.ExtremeAtMeaning | Charter.py:24-28 | The reference rolling max/min is defined exactly when the window is complete and NaN-free. It is then attained inside the window and dominates every entry of it. |
| Indicators.MeanWithinExtremes | Charter.py:8-9 | Wherever `sma` is defined, `lowest` and `highest` over the same window are defined too, and `lowest <= sma <= highest`. |
| Indicators.WindowOfOne | Charter.py:8-9 | With a window of 1, `sma`, `highest` and `lowest` each reproduce the input series, NaNs included. |
| Loader.LoadFormulas | Charter.py:46-51 | Success holds exactly when some entry is callable and not a helper. A name is discovered exactly when it is callable and not one of `sma`, `ema`, `rsi`, `highest` or `lowest`, and each discovered name maps to its own formula. Otherwise loading fails with "no formulas". |
| Loader.HelperBindingsIgnored | Charter.py:46-49 | Whatever the formula file binds to a helper name, the set of discovered formulas is the same as when that name is unbound. |
| Loader.NewFormulaDiscovered | Charter.py:46-51 | Adding a callable, non-helper definition makes loading succeed. The new formula is discovered, and every formula discovered before is kept. |
| Loader.SelectFormula | Charter.py:83-84 | The chosen name is accepted exactly when it is a loaded formula, and then yields that formula. Otherwise the error names the choice and lists the available names. |
| Panel.ChannelNamed | Charter.py:110 | A label is recognised exactly when it is one of `open`, `high`, `low`, `close`, `volume`. |
| Panel.NameOf | Charter.py:96-101 | Every channel's column label is recognised as that same channel. |
| Panel.KeptPositions | Charter.py:96-102 | The surviving positions are exactly the positions where all five channels have a value, listed in strictly increasing order. |
| Panel.Assemble | Charter.py:96-102 | The assembled history has one row per surviving position, in index order. Each row carries the five channel values found at its position. |
| Panel.AssembleKeepsCompleteRows | Charter.py:96-102 | Every row of the history is the row of a position where all five channels are present. Every such position's row is in the history. |
| Panel.AssembleEmpty | Charter.py:104-105 | The history is empty exactly when no position has all five channels present, which is the case where the ticker is skipped. |
| Panel.AssembleGapFree | Charter.py:96-102 | When the five columns have the same length and no NaN, nothing is dropped, and each row reads the five columns back at its position. |
| Panel.ColumnOf | Charter.py:111 | A column of the history has one entry per row, and that entry is the row's value for the channel. |
| Driver.Bind | Charter.py:107-111 | The argument map's keys are exactly the declared parameters that name one of the five channels. Each key maps to that channel's column of the history, and every bound column has the history's length. |
| Driver.SymbolOf | Charter.py:94 | Removing every occurrence of `.NS` never lengthens the code and never introduces a character that is not in it. |
| Driver.SymbolOfTicker | Charter.py:94 | For a symbol without a dot, removing `.NS` from the ticker built for it gives the symbol back. |
| Driver.TruncateToInt | Charter.py:122 | `int()` truncates toward zero. The result is within 1 of the value, and on the zero side of it. |
| Driver.PercentChange | Charter.py:121 | A zero previous close gives exactly 0. Otherwise the change reconstructs the latest price: `prev + prev*pct/100 == latest`. For a positive previous close the sign of the change is the sign of the move. Equal prices give 0. |
| Driver.Summarize | Charter.py:119-130 | The price is the latest close. The volume is truncated toward zero (rounded down for a non-negative volume). A one-row history gives a change of 0, and so does a previous close of 0. Otherwise the change is measured against the second-to-last close: that close scaled by `1 + change/100` gives the price back, and for a positive close the change is positive exactly when the price rose. The name and link carry the symbol. |
| Driver.EvaluateTicker | Charter.py:104-118 | A ticker matches exactly when its assembled history is non-empty and the formula returns true without raising. A raised error or a false result is "no match". A match carries the summary of that ticker's own history. |
| Driver.Screen | Charter.py:93-130 | The report has at most one row per ticker. A row is in the report exactly when it is the match of some ticker of the universe. |
| Driver.ScreenAppend | Charter.py:93-130 | The report for a concatenated universe is the report for each part, in order. The results therefore follow ticker iteration order. |
| Driver.ScreenIsolation | Charter.py:113-118 | Replacing one ticker changes only that ticker's contribution. The matches before it and after it are unchanged and keep their places. |
| Driver.NoMatchDropsOut | Charter.py:113-116 | A ticker that raises, returns false or has no usable history leaves the report exactly as if it were absent from the universe. |
| Driver.ScreenComplete | Charter.py:118-130 | Every ticker that matches has its row in the report. |
| Ranking.Insert | Charter.py:135 | Inserting a row into a price-descending list keeps the list price-descending and adds exactly that row. |
| Ranking.SortByPrice | Charter.py:135 | The sorted rows are a permutation of the input, and their prices never increase. |
| Ranking.Number | Charter.py:137 | The rows are numbered consecutively from the given start, in order. |
| Ranking.Rank | Charter.py:133-137 | The ranked report is a permutation of the matches with prices non-increasing, and `Sr.` runs 1 to the number of rows. No matches give an empty report. |
| Ranking.TopRankHasHighestPrice | Charter.py:135-137 | Rank 1 goes to a row whose price is at least that of every match. |
| Ranking.RankKeepsMatches | Charter.py:133-137 | A row appears in the ranked report exactly when it is one of the matches. |
| Screener.Run | Charter.py:76-137 | The run succeeds exactly when the chosen name is a callable, non-helper entry of the namespace. It fails with "no formulas" exactly when there is no such entry, and otherwise with an error listing the discovered names. On success, the report is the ranked permutation of the chosen formula's matches. |

## Left out

- Fetching the symbol list (`nsetools`) and downloading the OHLCV data
  (`yfinance`) are network I/O. The downloaded columns are an input of the
  model.
- The file-existence check, reading the formula file and `exec` are dynamic
  code loading. The namespace after `exec` is an input of the model.
- `inspect.signature` is reflection. Each formula carries its declared
  parameter list.
- `ema` and `rsi` rest on pandas' exponentially weighted recursion and on
  float NaN/infinity behaviour. `rsi` divides by a zero average loss
  without a guard. Both appear only as helper names that discovery
  excludes.
- What a formula computes is not modelled. A formula is an arbitrary total
  function of its bound arguments, so formulas that call the helpers are
  covered without modelling those calls.
- The interactive prompt, `print` and the rendering of the table are
  presentation.
- `round(..., 2)` on the percent change and the price is floating-point
  presentation. Prices are exact reals. The code sorts by the rounded
  price. Rounding never reverses an order, so the model's order by exact
  price is one of the orders the code can produce.
- Indicators.Sma: the window is an integer. The `int(n)` conversion of a
  fractional window is not modelled.
- Indicators.Highest: the window is an integer. The `int(n)` conversion of
  a fractional window is not modelled.
- Indicators.Lowest: the window is an integer. The `int(n)` conversion of a
  fractional window is not modelled.
- Indicators.Sma: a window of 0 is modelled as all-undefined, which is
  pandas' result for a window with no observations.
- Driver.SymbolOfTicker: the round trip is proved only for symbols that
  contain no dot. Exchange symbols are letters, digits, `&` and `-`.
- Ranking.Rank: nothing is stated about the order of rows with equal
  prices, because the code's sort is not stable.
- Dates are not modelled. The columns are indexed by position, and the
  model binds bare value sequences to the parameters, while `hist[p]` in
  the code keeps the date index. A formula that reads the dates cannot be
  expressed in the model.
- Float arithmetic, including NaN arising inside a formula, is not
  modelled.
- Driver.EvaluateTicker: a formula is a pure, total function of its bound
  arguments. The code calls one Python function object for every ticker. That
  object can keep state in globals, can change the `hist` columns in place,
  and can fail to return. `Driver.ScreenIsolation` and
  `Driver.NoMatchDropsOut` hold only for formulas that keep no state, leave
  their arguments unchanged and terminate.
- Driver.EvaluateTicker: only an `Exception` is contained to its ticker
  (Charter.py:115). `SystemExit`, `KeyboardInterrupt` and `GeneratorExit`
  end the whole run, and are not modelled.
