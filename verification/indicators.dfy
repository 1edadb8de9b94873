/** The rolling-window helpers a formula may call: `sma`, `highest` and
    `lowest`.  Each maps a column to a column of the same length whose entry
    at position `i` is computed from the trailing window of `n` entries that
    ends at `i`.  As with pandas' `rolling(n)` (whose minimum number of
    observations defaults to `n`), an entry is undefined (`None`) when fewer
    than `n` entries precede it or when any entry of its window is undefined.

    The methods compute the columns the way a rolling aggregator does (a
    running sum for the mean, one scan per window for the extremes); the
    functions `MeanAt` and `ExtremeAt` are the brute-force reference
    definitions they are proved equal to.
 */
module Indicators {
  import opened Wrappers

  /** A pandas Series of floats; `None` is a NaN entry. */
  type Column = seq<Option<real>>

  /** pandas refuses a negative rolling window. */
  datatype WindowError = NegativeWindow(n: int)

  /** Sum of a sequence of reals, accumulated from the left. */
  function Sum(xs: seq<real>): real
  {
    if |xs| == 0 then 0.0 else Sum(xs[..|xs| - 1]) + xs[|xs| - 1]
  }

  /** No entry of `w` is NaN. */
  predicate Present(w: Column)
  {
    forall k :: 0 <= k < |w| ==> w[k].Some?
  }

  /** The numbers of a column that has no NaN entry. */
  function Values(w: Column): (vs: seq<real>)
    requires Present(w)
    ensures |vs| == |w|
    ensures forall k :: 0 <= k < |w| ==> w[k] == Some(vs[k])
  {
    seq(|w|, k requires 0 <= k < |w| => w[k].value)
  }

  /** The trailing window of `n` entries that ends at position `i`. */
  function Window(s: Column, i: nat, n: nat): (w: Column)
    requires n <= i + 1 <= |s|
    ensures |w| == n
    ensures forall k :: 0 <= k < n ==> w[k] == s[i + 1 - n + k]
  {
    s[i + 1 - n .. i + 1]
  }

  // ---------------------------------------------------------------- sma

  /** Reference definition of `sma(s, n)` at position `i`: the arithmetic
      mean of the trailing `n` values, when there are `n` of them and none
      is NaN. */
  function MeanAt(s: Column, i: nat, n: nat): Option<real>
    requires i < |s|
  {
    if n == 0 || i + 1 < n then None
    else if Present(Window(s, i, n)) then Some(Sum(Values(Window(s, i, n))) / n as real)
    else None
  }

  /** The number a NaN-skipping running sum adds for one entry. */
  function Contribution(x: Option<real>): real
  {
    match x
    case None => 0.0
    case Some(v) => v
  }

  /** Running sum of the non-NaN entries of `w`. */
  function Total(w: Column): real
  {
    if |w| == 0 then 0.0 else Total(w[..|w| - 1]) + Contribution(w[|w| - 1])
  }

  /** Running count of the NaN entries of `w`. */
  function Missing(w: Column): nat
  {
    if |w| == 0 then 0 else Missing(w[..|w| - 1]) + (if w[|w| - 1].None? then 1 else 0)
  }

  lemma {:induction false} TotalCons(x: Option<real>, w: Column)
    ensures Total([x] + w) == Contribution(x) + Total(w)
    ensures Missing([x] + w) == (if x.None? then 1 else 0) + Missing(w)
    decreases |w|
  {
    if |w| > 0 {
      assert ([x] + w)[..|w|] == [x] + w[..|w| - 1];
      TotalCons(x, w[..|w| - 1]);
    }
  }

  lemma {:induction false} TotalOfPresent(w: Column)
    ensures Missing(w) == 0 <==> Present(w)
    ensures Present(w) ==> Total(w) == Sum(Values(w))
    decreases |w|
  {
    if |w| > 0 {
      var p := w[..|w| - 1];
      TotalOfPresent(p);
      if Present(w) {
        assert Present(p);
        assert Values(w)[..|w| - 1] == Values(p);
      }
    }
  }

  /** First index of the running window after `i` entries were consumed. */
  function WindowStart(i: nat, n: nat): nat
  {
    if i >= n then i - n else 0
  }

  /** Moving from `i` to `i + 1` consumed entries, the running window gains
      entry `i` and, once it holds `n` entries, loses entry `i - n`. */
  lemma SlideStep(s: Column, i: nat, n: nat)
    requires i < |s|
    ensures Total(s[WindowStart(i + 1, n)..i + 1]) ==
              Total(s[WindowStart(i, n)..i]) + Contribution(s[i]) - (if i >= n then Contribution(s[i - n]) else 0.0)
    ensures Missing(s[WindowStart(i + 1, n)..i + 1]) ==
              Missing(s[WindowStart(i, n)..i]) + (if s[i].None? then 1 else 0) - (if i >= n && s[i - n].None? then 1 else 0)
  {
    var lo := WindowStart(i, n);
    assert s[lo..i + 1][..i - lo] == s[lo..i];
    if i >= n {
      assert s[lo..i + 1] == [s[lo]] + s[lo + 1..i + 1];
      TotalCons(s[lo], s[lo + 1..i + 1]);
    }
  }

  /** Once the running window is full, its NaN count and sum give the mean. */
  lemma MeanFromRunning(s: Column, i: nat, n: nat)
    requires 0 < n <= i + 1 <= |s|
    ensures MeanAt(s, i, n) ==
              if Missing(s[WindowStart(i + 1, n)..i + 1]) == 0
              then Some(Total(s[WindowStart(i + 1, n)..i + 1]) / n as real)
              else None
  {
    assert s[WindowStart(i + 1, n)..i + 1] == Window(s, i, n);
    TotalOfPresent(Window(s, i, n));
  }

  /** `sma(series, n)`: the rolling mean, computed with a running sum and a
      running NaN count that gain the newest entry and lose the one that
      falls out of the window.  A negative window is refused. */
  method Sma(s: Column, n: int) returns (r: Result<Column, WindowError>)
    ensures r.Failure? <==> n < 0
    ensures r.Success? ==> |r.value| == |s|
    ensures r.Success? ==> forall i :: 0 <= i < |s| ==> r.value[i] == MeanAt(s, i, n)
  {
    if n < 0 {
      return Failure(NegativeWindow(n));
    }
    var out: Column := [];
    var total := 0.0;
    var missing := 0;
    var i := 0;
    while i < |s|
      invariant 0 <= i <= |s|
      invariant |out| == i
      invariant forall k :: 0 <= k < i ==> out[k] == MeanAt(s, k, n)
      invariant total == Total(s[WindowStart(i, n)..i])
      invariant missing == Missing(s[WindowStart(i, n)..i])
    {
      SlideStep(s, i, n);
      total := total + Contribution(s[i]);
      missing := missing + (if s[i].None? then 1 else 0);
      if i >= n {
        total := total - Contribution(s[i - n]);
        missing := missing - (if s[i - n].None? then 1 else 0);
      }
      var mean: Option<real> := None;
      if n > 0 && i + 1 >= n {
        MeanFromRunning(s, i, n);
        if missing == 0 {
          mean := Some(total / n as real);
        }
      }
      out := out + [mean];
      i := i + 1;
    }
    return Success(out);
  }

  // ---------------------------------------------------- highest / lowest

  /** Which end of a window a rolling extreme keeps. */
  datatype Extremum = Max | Min

  /** `a` is at least as extreme as `b`. */
  predicate Dominates(e: Extremum, a: real, b: real)
  {
    match e
    case Max => a >= b
    case Min => a <= b
  }

  /** The largest (`Max`) or smallest (`Min`) element of `xs`: one of its
      elements, and at least as extreme as all of them. */
  function ExtremeOf(e: Extremum, xs: seq<real>): (m: real)
    requires |xs| > 0
    ensures m in xs
    ensures forall k :: 0 <= k < |xs| ==> Dominates(e, m, xs[k])
  {
    if |xs| == 1 then xs[0]
    else
      var m := ExtremeOf(e, xs[..|xs| - 1]);
      assert forall k :: 0 <= k < |xs| - 1 ==> xs[k] == xs[..|xs| - 1][k];
      if Dominates(e, m, xs[|xs| - 1]) then m else xs[|xs| - 1]
  }

  /** Reference definition of `highest(s, n)` (`Max`) and `lowest(s, n)`
      (`Min`) at position `i`. */
  function ExtremeAt(s: Column, i: nat, n: nat, e: Extremum): Option<real>
    requires i < |s|
  {
    if n == 0 || i + 1 < n then None
    else if Present(Window(s, i, n)) then Some(ExtremeOf(e, Values(Window(s, i, n))))
    else None
  }

  /** The extreme of one window, found by a single scan that gives up at the
      first NaN. */
  method ScanWindow(w: Column, e: Extremum) returns (v: Option<real>)
    ensures v == (if |w| > 0 && Present(w) then Some(ExtremeOf(e, Values(w))) else None)
  {
    if |w| == 0 {
      return None;
    }
    var best := 0.0;
    var j := 0;
    while j < |w|
      invariant 0 <= j <= |w|
      invariant Present(w[..j])
      invariant j > 0 ==> best == ExtremeOf(e, Values(w[..j]))
    {
      if w[j].None? {
        assert !Present(w);
        return None;
      }
      assert Present(w[..j + 1]);
      assert Values(w[..j + 1])[..j] == Values(w[..j]);
      if j == 0 || !Dominates(e, best, w[j].value) {
        best := w[j].value;
      }
      j := j + 1;
    }
    assert w[..j] == w;
    return Some(best);
  }

  /** The rolling extreme of every position of `s`. */
  method RollingExtreme(s: Column, n: int, e: Extremum) returns (r: Result<Column, WindowError>)
    ensures r.Failure? <==> n < 0
    ensures r.Success? ==> |r.value| == |s|
    ensures r.Success? ==> forall i :: 0 <= i < |s| ==> r.value[i] == ExtremeAt(s, i, n, e)
  {
    if n < 0 {
      return Failure(NegativeWindow(n));
    }
    var out: Column := [];
    var i := 0;
    while i < |s|
      invariant 0 <= i <= |s|
      invariant |out| == i
      invariant forall k :: 0 <= k < i ==> out[k] == ExtremeAt(s, k, n, e)
    {
      var v: Option<real> := None;
      if n > 0 && i + 1 >= n {
        v := ScanWindow(Window(s, i, n), e);
      }
      out := out + [v];
      i := i + 1;
    }
    return Success(out);
  }

  /** What `ExtremeAt` means, stated on the series itself: defined exactly
      when the window is complete and free of NaN, and then equal to one of
      the window's values and at least as extreme as each of them. */
  lemma ExtremeAtMeaning(s: Column, i: nat, n: nat, e: Extremum)
    requires i < |s|
    ensures ExtremeAt(s, i, n, e).Some? <==>
              1 <= n <= i + 1 && forall k :: i + 1 - n <= k <= i ==> s[k].Some?
    ensures ExtremeAt(s, i, n, e).Some? ==>
              (exists k :: i + 1 - n <= k <= i && s[k] == ExtremeAt(s, i, n, e)) &&
              forall k :: i + 1 - n <= k <= i ==> Dominates(e, ExtremeAt(s, i, n, e).value, s[k].value)
  {
    if 1 <= n <= i + 1 {
      var w := Window(s, i, n);
      if Present(w) {
        var m := ExtremeOf(e, Values(w));
        var j :| 0 <= j < n && Values(w)[j] == m;
        assert s[i + 1 - n + j] == Some(m);
        forall k | i + 1 - n <= k <= i
          ensures Dominates(e, m, s[k].value)
        {
          assert w[k - (i + 1 - n)] == s[k];
        }
      } else {
        var j :| 0 <= j < n && w[j].None?;
        assert s[i + 1 - n + j].None?;
      }
    }
  }

  /** `highest(series, n)`: at each position from `n - 1` on, the largest of
      the trailing `n` values; undefined before that and wherever the window
      holds a NaN. */
  method Highest(s: Column, n: int) returns (r: Result<Column, WindowError>)
    ensures r.Failure? <==> n < 0
    ensures r.Success? ==> |r.value| == |s|
    ensures r.Success? ==> forall i :: 0 <= i < |s| ==>
              (r.value[i].Some? <==> 1 <= n <= i + 1 && forall k :: i + 1 - n <= k <= i ==> s[k].Some?)
    ensures r.Success? ==> forall i :: 0 <= i < |s| && r.value[i].Some? ==>
              (exists k :: i + 1 - n <= k <= i && s[k] == r.value[i]) &&
              forall k :: i + 1 - n <= k <= i ==> r.value[i].value >= s[k].value
  {
    r := RollingExtreme(s, n, Max);
    if r.Success? {
      forall i | 0 <= i < |s| {
        ExtremeAtMeaning(s, i, n, Max);
      }
    }
  }

  /** `lowest(series, n)`: at each position from `n - 1` on, the smallest of
      the trailing `n` values; undefined before that and wherever the window
      holds a NaN. */
  method Lowest(s: Column, n: int) returns (r: Result<Column, WindowError>)
    ensures r.Failure? <==> n < 0
    ensures r.Success? ==> |r.value| == |s|
    ensures r.Success? ==> forall i :: 0 <= i < |s| ==>
              (r.value[i].Some? <==> 1 <= n <= i + 1 && forall k :: i + 1 - n <= k <= i ==> s[k].Some?)
    ensures r.Success? ==> forall i :: 0 <= i < |s| && r.value[i].Some? ==>
              (exists k :: i + 1 - n <= k <= i && s[k] == r.value[i]) &&
              forall k :: i + 1 - n <= k <= i ==> r.value[i].value <= s[k].value
  {
    r := RollingExtreme(s, n, Min);
    if r.Success? {
      forall i | 0 <= i < |s| {
        ExtremeAtMeaning(s, i, n, Min);
      }
    }
  }

  // ------------------------------------------------ relating the helpers

  /** A sum of `|xs|` numbers, each at most (at least) `bound`, is at most
      (at least) `|xs|` times `bound`. */
  lemma {:induction false} SumBounded(e: Extremum, xs: seq<real>, bound: real)
    requires forall k :: 0 <= k < |xs| ==> Dominates(e, bound, xs[k])
    ensures Dominates(e, |xs| as real * bound, Sum(xs))
    decreases |xs|
  {
    if |xs| > 0 {
      SumBounded(e, xs[..|xs| - 1], bound);
    }
  }

  /** Wherever `sma` is defined, so are `lowest` and `highest` over the same
      window, and the mean lies between them. */
  lemma MeanWithinExtremes(s: Column, i: nat, n: nat)
    requires i < |s|
    requires MeanAt(s, i, n).Some?
    ensures ExtremeAt(s, i, n, Min).Some? && ExtremeAt(s, i, n, Max).Some?
    ensures ExtremeAt(s, i, n, Min).value <= MeanAt(s, i, n).value <= ExtremeAt(s, i, n, Max).value
  {
    var xs := Values(Window(s, i, n));
    var lo := ExtremeOf(Min, xs);
    var hi := ExtremeOf(Max, xs);
    SumBounded(Min, xs, lo);
    SumBounded(Max, xs, hi);
    DivideBounds(lo, Sum(xs), hi, n as real);
  }

  /** Dividing `lo * m <= x <= hi * m` by a positive `m`. */
  lemma DivideBounds(lo: real, x: real, hi: real, m: real)
    requires m > 0.0
    requires m * lo <= x <= m * hi
    ensures lo <= x / m <= hi
  {
    assert x / m * m == x;
  }

  /** A window of one entry reproduces the series: `sma(s, 1)`,
      `highest(s, 1)` and `lowest(s, 1)` all equal `s`. */
  lemma WindowOfOne(s: Column, i: nat)
    requires i < |s|
    ensures MeanAt(s, i, 1) == s[i]
    ensures ExtremeAt(s, i, 1, Max) == s[i] && ExtremeAt(s, i, 1, Min) == s[i]
  {
    var w := Window(s, i, 1);
    if s[i].Some? {
      assert Present(w);
      assert Values(w) == [s[i].value];
      assert Sum(Values(w)) == Sum([]) + s[i].value;
    }
  }
}
