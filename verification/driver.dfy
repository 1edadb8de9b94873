/** The evaluation driver: for every downloaded ticker, assemble its
    history, bind the chosen formula's declared parameters to columns,
    call it with failures contained to that ticker, and summarise each
    ticker it accepts.

    A formula is its declared parameter list (what signature inspection
    recovers) together with a total function from the bound keyword
    arguments to `Success(b)`, where `b` is the truth value of what the
    formula returned, or `Failure(msg)` when the call or that truth test
    raised an `Exception`.
 */
module Driver {
  import opened Wrappers
  import opened Panel

  /** Keyword arguments: parameter name to column. */
  type Args = map<string, seq<real>>

  /** A user formula as the driver sees it. */
  datatype Formula = Formula(params: seq<string>, call: Args -> Result<bool, string>)

  // ------------------------------------------------------------ binding

  /** The keyword arguments built for a formula: every declared parameter
      that names one of the five channels is bound to that channel's column
      of the history; any other declared name is left unbound. */
  function Bind(params: seq<string>, hist: seq<Row>): (args: Args)
    ensures forall p :: p in args <==> p in params && ChannelNamed(p).Some?
    ensures forall p :: p in args ==> ChannelNamed(p).Some? && args[p] == ColumnOf(hist, ChannelNamed(p).value)
    ensures forall p :: p in args ==> |args[p]| == |hist|
  {
    if |params| == 0 then map[]
    else
      var args := Bind(params[..|params| - 1], hist);
      var p := params[|params| - 1];
      assert forall q :: q in params <==> q in params[..|params| - 1] || q == p;
      match ChannelNamed(p)
      case Some(c) => args[p := ColumnOf(hist, c)]
      case None => args
  }

  // ------------------------------------------------------ ticker naming

  /** The exchange suffix the market-data provider expects on a symbol. */
  const Suffix: string := ".NS"

  /** The provider's ticker for an exchange symbol. */
  function TickerOf(symbol: string): string
  {
    symbol + Suffix
  }

  /** `ticker.replace(".NS", "")`: every non-overlapping occurrence of the
      suffix, scanned from the left, is removed. */
  function SymbolOf(ticker: string): (symbol: string)
    ensures |symbol| <= |ticker|
    ensures forall ch :: ch in symbol ==> ch in ticker
    decreases |ticker|
  {
    if |ticker| < |Suffix| then ticker
    else if ticker[..|Suffix|] == Suffix then SymbolOf(ticker[|Suffix|..])
    else [ticker[0]] + SymbolOf(ticker[1..])
  }

  /** A symbol without a dot is recovered from its ticker. */
  lemma {:induction false} SymbolOfTicker(symbol: string)
    requires '.' !in symbol
    ensures SymbolOf(TickerOf(symbol)) == symbol
  {
    if |symbol| == 0 {
      assert TickerOf(symbol)[|Suffix|..] == [];
    } else {
      assert TickerOf(symbol)[0] == symbol[0] != '.';
      assert TickerOf(symbol)[1..] == TickerOf(symbol[1..]);
      SymbolOfTicker(symbol[1..]);
    }
  }

  /** The charting site's address for an exchange symbol, less the symbol. */
  const LinkPrefix: string := "https://www.tradingview.com/chart/?symbol=NSE:"

  /** The chart link shown for a symbol. */
  function ChartLink(symbol: string): string
  {
    LinkPrefix + symbol
  }

  // ------------------------------------------------------- match summary

  /** Python's `int()` on a float: truncation toward zero. */
  function TruncateToInt(v: real): (k: int)
    ensures v >= 0.0 ==> k as real <= v < k as real + 1.0
    ensures v < 0.0 ==> k as real - 1.0 < v <= k as real
  {
    if v >= 0.0 then v.Floor else -((-v).Floor)
  }

  /** Percentage change from `prev` to `latest`, defined as 0 when `prev` is
      0 instead of dividing by zero. */
  function PercentChange(latest: real, prev: real): (pct: real)
    ensures prev == 0.0 ==> pct == 0.0
    ensures prev != 0.0 ==> prev + prev * pct / 100.0 == latest
    ensures prev > 0.0 ==> (pct > 0.0 <==> latest > prev) && (pct < 0.0 <==> latest < prev)
    ensures latest == prev ==> pct == 0.0
  {
    if prev != 0.0 then (latest - prev) / prev * 100.0 else 0.0
  }

  /** One row of the report. */
  datatype Match = Match(name: string, pctChange: real, price: real, volume: int, link: string)

  /** The report row of an accepted ticker: latest close as the price, the
      change against the close before it (or against itself when the
      history has one row), the latest volume truncated to an integer, and
      the chart link. */
  function Summarize(symbol: string, hist: seq<Row>): (m: Match)
    requires |hist| > 0
    ensures m.name == symbol && m.link == ChartLink(symbol)
    ensures m.price == hist[|hist| - 1].close
    ensures hist[|hist| - 1].volume >= 0.0 ==>
              m.volume as real <= hist[|hist| - 1].volume < m.volume as real + 1.0
    ensures |hist| == 1 ==> m.pctChange == 0.0
    ensures |hist| >= 2 && hist[|hist| - 2].close == 0.0 ==> m.pctChange == 0.0
    ensures |hist| >= 2 && hist[|hist| - 2].close != 0.0 ==>
              hist[|hist| - 2].close * (1.0 + m.pctChange / 100.0) == m.price
    ensures |hist| >= 2 && hist[|hist| - 2].close > 0.0 ==>
              (m.pctChange > 0.0 <==> m.price > hist[|hist| - 2].close) &&
              (m.pctChange < 0.0 <==> m.price < hist[|hist| - 2].close)
  {
    var latest := hist[|hist| - 1].close;
    var prev := if |hist| > 1 then hist[|hist| - 2].close else latest;
    Match(symbol, PercentChange(latest, prev), latest, TruncateToInt(hist[|hist| - 1].volume), ChartLink(symbol))
  }

  // ---------------------------------------------------------- screening

  /** One downloaded ticker: its provider code and raw columns. */
  datatype Ticker = Ticker(code: string, raw: RawHistory)

  /** The outcome for one ticker.  It is a match exactly when its assembled
      history is non-empty and the formula returns a true value without
      raising; an empty history, a false result and a raised `Exception` all
      mean "no match". */
  function EvaluateTicker(f: Formula, t: Ticker): (r: Option<Match>)
    ensures r.Some? <==> |Assemble(t.raw)| > 0 && f.call(Bind(f.params, Assemble(t.raw))) == Success(true)
    ensures r.Some? ==> r.value == Summarize(SymbolOf(t.code), Assemble(t.raw))
  {
    var hist := Assemble(t.raw);
    if |hist| == 0 then None
    else
      match f.call(Bind(f.params, hist))
      case Success(true) => Some(Summarize(SymbolOf(t.code), hist))
      case Success(false) => None
      case Failure(_) => None
  }

  /** The per-ticker evaluation of one formula, as a function value. */
  function Evaluator(f: Formula): Ticker -> Option<Match>
  {
    t => EvaluateTicker(f, t)
  }

  /** The outcome of every ticker of a universe, in ticker order. */
  function Outcomes(f: Formula, universe: seq<Ticker>): (os: seq<Option<Match>>)
    ensures |os| == |universe|
    ensures forall i :: 0 <= i < |universe| ==> os[i] == EvaluateTicker(f, universe[i])
  {
    MapSeq(universe, Evaluator(f))
  }

  /** `m` is the match of some ticker of the universe. */
  predicate MatchOfSome(f: Formula, universe: seq<Ticker>, m: Match)
  {
    exists t :: t in universe && EvaluateTicker(f, t) == Some(m)
  }

  /** The matches of a universe, in ticker order: a row is reported exactly
      when it is the match of some ticker of the universe. */
  function Screen(f: Formula, universe: seq<Ticker>): (ms: seq<Match>)
    ensures |ms| <= |universe|
    ensures forall m :: m in ms <==> MatchOfSome(f, universe, m)
  {
    var os := Outcomes(f, universe);
    forall m
      ensures m in Somes(os) <==> MatchOfSome(f, universe, m)
    {
      SomesMember(os, m);
      if Some(m) in os {
        var i :| 0 <= i < |os| && os[i] == Some(m);
        assert universe[i] in universe;
      }
      if exists t :: t in universe && EvaluateTicker(f, t) == Some(m) {
        var t :| t in universe && EvaluateTicker(f, t) == Some(m);
        var i :| 0 <= i < |universe| && universe[i] == t;
        assert os[i] == Some(m);
      }
    }
    Somes(os)
  }

  /** Screening is done ticker by ticker: the matches of a concatenated
      universe are the matches of each part, in order. */
  lemma ScreenAppend(f: Formula, a: seq<Ticker>, b: seq<Ticker>)
    ensures Screen(f, a + b) == Screen(f, a) + Screen(f, b)
  {
    SomesMapAppend(Evaluator(f), a, b);
  }

  /** Per-ticker isolation: whatever one ticker does (including raising),
      the matches of every other ticker are unchanged and keep their
      places; the ticker contributes only its own outcome. */
  lemma ScreenIsolation(f: Formula, universe: seq<Ticker>, i: nat, t: Ticker)
    requires i < |universe|
    ensures Screen(f, universe[i := t]) ==
              Screen(f, universe[..i]) + AsSeq(EvaluateTicker(f, t)) + Screen(f, universe[i + 1..])
  {
    SomesMapUpdate(Evaluator(f), universe, i, t);
    assert Evaluator(f)(t) == EvaluateTicker(f, t);
  }

  /** Every accepted ticker of the universe appears in the report. */
  lemma ScreenComplete(f: Formula, universe: seq<Ticker>, i: nat)
    requires i < |universe|
    requires EvaluateTicker(f, universe[i]).Some?
    ensures EvaluateTicker(f, universe[i]).value in Screen(f, universe)
  {
    assert universe[i] in universe;
    assert MatchOfSome(f, universe, EvaluateTicker(f, universe[i]).value);
  }

  /** A ticker that raises, returns false or has no usable history drops
      out of the report as if it had never been in the universe. */
  lemma NoMatchDropsOut(f: Formula, universe: seq<Ticker>, i: nat, t: Ticker)
    requires i < |universe|
    requires EvaluateTicker(f, t).None?
    ensures Screen(f, universe[i := t]) == Screen(f, universe[..i] + universe[i + 1..])
  {
    assert Evaluator(f)(t) == EvaluateTicker(f, t);
    SomesMapDrop(Evaluator(f), universe, i, t);
  }
}
