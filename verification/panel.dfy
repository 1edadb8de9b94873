/** Panel assembly: the five downloaded columns of one ticker (open, high,
    low, close, volume) are joined side by side on their shared date index
    and every date on which any of the five is NaN is dropped, so the
    formula sees a gap-free history.

    The dates themselves play no part in the screening, so a column is
    indexed by position.  The five columns of a download share one index;
    reading a shorter column as NaN past its end is a convention that keeps
    assembly total for any input.
 */
module Panel {
  import opened Wrappers
  import opened Indicators

  /** The five base channels, in the order the concatenation lists them. */
  datatype Channel = Open | High | Low | Close | Volume

  /** The column label each channel gets in the assembled history; reading
      the label back gives the channel. */
  function NameOf(c: Channel): (name: string)
    ensures ChannelNamed(name) == Some(c)
  {
    match c
    case Open => "open"
    case High => "high"
    case Low => "low"
    case Close => "close"
    case Volume => "volume"
  }

  /** The channel a label names, if it is one of the five. */
  function ChannelNamed(name: string): (c: Option<Channel>)
    ensures c.Some? <==> name in ["open", "high", "low", "close", "volume"]
  {
    if name == "open" then Some(Open)
    else if name == "high" then Some(High)
    else if name == "low" then Some(Low)
    else if name == "close" then Some(Close)
    else if name == "volume" then Some(Volume)
    else None
  }

  /** A recognised label is the label of the channel it names. */
  lemma ChannelNamedInverse(name: string)
    requires ChannelNamed(name).Some?
    ensures NameOf(ChannelNamed(name).value) == name
  {
  }

  /** One ticker's raw download, NaN entries included. */
  datatype RawHistory = RawHistory(open: Column, high: Column, low: Column, close: Column, volume: Column)

  /** One surviving row of the assembled history. */
  datatype Row = Row(open: real, high: real, low: real, close: real, volume: real)

  /** The raw column of one channel. */
  function RawColumn(raw: RawHistory, c: Channel): Column
  {
    match c
    case Open => raw.open
    case High => raw.high
    case Low => raw.low
    case Close => raw.close
    case Volume => raw.volume
  }

  /** The entry of a column at a position of the joined index; NaN past the
      column's end. */
  function EntryAt(col: Column, i: nat): Option<real>
  {
    if i < |col| then col[i] else None
  }

  /** The number of positions in the joined index: the longest column. */
  function Height(raw: RawHistory): (h: nat)
    ensures forall c :: |RawColumn(raw, c)| <= h
  {
    var a := if |raw.open| >= |raw.high| then |raw.open| else |raw.high|;
    var b := if |raw.low| >= |raw.close| then |raw.low| else |raw.close|;
    var c := if a >= b then a else b;
    if c >= |raw.volume| then c else |raw.volume|
  }

  /** Position `i` has a value in every one of the five channels. */
  predicate Complete(raw: RawHistory, i: nat)
  {
    forall c :: EntryAt(RawColumn(raw, c), i).Some?
  }

  /** The row at a complete position. */
  function RowAt(raw: RawHistory, i: nat): (row: Row)
    requires Complete(raw, i)
    ensures forall c :: EntryAt(RawColumn(raw, c), i) == Some(Field(row, c))
  {
    assert EntryAt(RawColumn(raw, Open), i).Some? && EntryAt(RawColumn(raw, High), i).Some?;
    assert EntryAt(RawColumn(raw, Low), i).Some? && EntryAt(RawColumn(raw, Close), i).Some?;
    assert EntryAt(RawColumn(raw, Volume), i).Some?;
    Row(EntryAt(raw.open, i).value, EntryAt(raw.high, i).value, EntryAt(raw.low, i).value,
        EntryAt(raw.close, i).value, EntryAt(raw.volume, i).value)
  }

  /** The value of one channel in a row. */
  function Field(row: Row, c: Channel): real
  {
    match c
    case Open => row.open
    case High => row.high
    case Low => row.low
    case Close => row.close
    case Volume => row.volume
  }

  /** The positions below `n` that survive the drop of incomplete rows, in
      increasing order. */
  function KeptPositions(raw: RawHistory, n: nat): (idx: seq<nat>)
    ensures forall k :: 0 <= k < |idx| ==> idx[k] < n && Complete(raw, idx[k])
    ensures forall i :: 0 <= i < n && Complete(raw, i) ==> i in idx
    ensures forall k, l :: 0 <= k < l < |idx| ==> idx[k] < idx[l]
  {
    if n == 0 then []
    else KeptPositions(raw, n - 1) + (if Complete(raw, n - 1) then [n - 1] else [])
  }

  /** The assembled history: one row per complete position, in the order of
      the index. */
  function Assemble(raw: RawHistory): (hist: seq<Row>)
    ensures var idx := KeptPositions(raw, Height(raw));
            |hist| == |idx| && forall k :: 0 <= k < |idx| ==> hist[k] == RowAt(raw, idx[k])
  {
    var idx := KeptPositions(raw, Height(raw));
    seq(|idx|, k requires 0 <= k < |idx| => RowAt(raw, idx[k]))
  }

  /** A history is empty exactly when no position is complete; this is the
      case in which the ticker is skipped. */
  lemma AssembleEmpty(raw: RawHistory)
    ensures |Assemble(raw)| == 0 <==> forall i :: 0 <= i < Height(raw) ==> !Complete(raw, i)
  {
    var idx := KeptPositions(raw, Height(raw));
    if |idx| > 0 {
      assert Complete(raw, idx[0]);
    }
  }

  /** Dropping NaN rows keeps exactly the complete positions: every row of
      the history is the row of some complete position, and every complete
      position's row is in the history. */
  lemma AssembleKeepsCompleteRows(raw: RawHistory)
    ensures forall row :: row in Assemble(raw) ==>
              exists i :: 0 <= i < Height(raw) && Complete(raw, i) && row == RowAt(raw, i)
    ensures forall i :: 0 <= i < Height(raw) && Complete(raw, i) ==> RowAt(raw, i) in Assemble(raw)
  {
    var idx := KeptPositions(raw, Height(raw));
    var hist := Assemble(raw);
    forall i | 0 <= i < Height(raw) && Complete(raw, i)
      ensures RowAt(raw, i) in hist
    {
      var k :| 0 <= k < |idx| && idx[k] == i;
      assert hist[k] == RowAt(raw, i);
    }
  }

  /** A download without gaps survives assembly intact: nothing is dropped
      and the rows read the columns back position by position. */
  lemma {:induction false} AssembleGapFree(raw: RawHistory, n: nat)
    requires forall c :: |RawColumn(raw, c)| == n
    requires forall c :: Present(RawColumn(raw, c))
    ensures Height(raw) == n
    ensures |Assemble(raw)| == n
    ensures forall i, c :: 0 <= i < n ==> RawColumn(raw, c)[i] == Some(Field(Assemble(raw)[i], c))
  {
    assert |RawColumn(raw, Open)| == n && |RawColumn(raw, High)| == n && |RawColumn(raw, Low)| == n;
    assert |RawColumn(raw, Close)| == n && |RawColumn(raw, Volume)| == n;
    KeptAll(raw, n);
  }

  lemma {:induction false} KeptAll(raw: RawHistory, n: nat)
    requires forall i :: 0 <= i < n ==> Complete(raw, i)
    ensures |KeptPositions(raw, n)| == n
    ensures forall k :: 0 <= k < n ==> KeptPositions(raw, n)[k] == k
  {
    if n > 0 {
      KeptAll(raw, n - 1);
      CountingOn(KeptPositions(raw, n - 1), n - 1);
    }
  }

  /** Appending the next position to the positions `0 .. n-1` gives the
      positions `0 .. n`. */
  lemma CountingOn(idx: seq<nat>, n: nat)
    requires |idx| == n
    requires forall k :: 0 <= k < n ==> idx[k] == k
    ensures |idx + [n]| == n + 1
    ensures forall k :: 0 <= k < n + 1 ==> (idx + [n])[k] == k
  {
  }

  /** A column of the assembled history, read as a pandas Series. */
  function ColumnOf(hist: seq<Row>, c: Channel): (col: seq<real>)
    ensures |col| == |hist|
    ensures forall k :: 0 <= k < |hist| ==> col[k] == Field(hist[k], c)
  {
    seq(|hist|, k requires 0 <= k < |hist| => Field(hist[k], c))
  }
}
