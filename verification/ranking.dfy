/** Result ranking: the report rows are ordered by price, highest first,
    and numbered from 1 in that order.  The order among rows of equal price
    is left unspecified, as the sort the report uses is not stable.
 */
module Ranking {
  import opened Driver

  /** A numbered report row (`Sr.` column first). */
  datatype Ranked = Ranked(sr: nat, entry: Match)

  /** Prices never increase along `ms`. */
  predicate ByPriceDescending(ms: seq<Match>)
  {
    forall i, j :: 0 <= i < j < |ms| ==> ms[i].price >= ms[j].price
  }

  /** Inserts `m` into a price-descending sequence, keeping it so. */
  function Insert(m: Match, ms: seq<Match>): (r: seq<Match>)
    requires ByPriceDescending(ms)
    ensures ByPriceDescending(r)
    ensures multiset(r) == multiset(ms) + multiset{m}
  {
    if |ms| == 0 then [m]
    else if m.price >= ms[0].price then [m] + ms
    else
      var rest := Insert(m, ms[1..]);
      assert ms == [ms[0]] + ms[1..];
      assert forall j :: 0 <= j < |ms[1..]| ==> ms[1..][j].price <= ms[0].price by {
        forall j | 0 <= j < |ms[1..]| ensures ms[1..][j].price <= ms[0].price {
          assert ms[1..][j] == ms[j + 1];
        }
      }
      BoundedByPrice(rest, ms[1..], m, ms[0].price);
      [ms[0]] + rest
  }

  /** A rearrangement of `rest` plus `m` stays under any price bound that
      `rest` and `m` stay under. */
  lemma BoundedByPrice(r: seq<Match>, rest: seq<Match>, m: Match, top: real)
    requires multiset(r) == multiset(rest) + multiset{m}
    requires m.price <= top
    requires forall j :: 0 <= j < |rest| ==> rest[j].price <= top
    ensures forall k :: 0 <= k < |r| ==> r[k].price <= top
  {
    forall k | 0 <= k < |r|
      ensures r[k].price <= top
    {
      assert r[k] in multiset(r);
      if r[k] != m {
        assert r[k] in multiset(rest);
        var j :| 0 <= j < |rest| && rest[j] == r[k];
      }
    }
  }

  /** `sort_values(by="Price", ascending=False)`: a rearrangement of the
      rows whose prices never increase. */
  function SortByPrice(ms: seq<Match>): (r: seq<Match>)
    ensures ByPriceDescending(r)
    ensures multiset(r) == multiset(ms)
  {
    if |ms| == 0 then []
    else
      assert ms == [ms[0]] + ms[1..];
      Insert(ms[0], SortByPrice(ms[1..]))
  }

  /** Attaches the `Sr.` numbers `from`, `from + 1`, ... to the rows. */
  function Number(ms: seq<Match>, from: nat): (r: seq<Ranked>)
    ensures |r| == |ms|
    ensures forall k :: 0 <= k < |ms| ==> r[k] == Ranked(from + k, ms[k])
  {
    if |ms| == 0 then [] else [Ranked(from, ms[0])] + Number(ms[1..], from + 1)
  }

  /** The rows of a ranked report, without their numbers. */
  function Entries(rs: seq<Ranked>): (ms: seq<Match>)
    ensures |ms| == |rs|
    ensures forall k :: 0 <= k < |rs| ==> ms[k] == rs[k].entry
  {
    seq(|rs|, k requires 0 <= k < |rs| => rs[k].entry)
  }

  /** The ranked report: the same rows, highest price first, numbered 1 to
      the number of rows.  No rows give an empty report, with no numbers. */
  function Rank(ms: seq<Match>): (out: seq<Ranked>)
    ensures |out| == |ms|
    ensures |ms| == 0 <==> out == []
    ensures multiset(Entries(out)) == multiset(ms)
    ensures ByPriceDescending(Entries(out))
    ensures forall k :: 0 <= k < |out| ==> out[k].sr == k + 1
  {
    var sorted := SortByPrice(ms);
    assert |sorted| == |multiset(sorted)| == |ms|;
    var out := Number(sorted, 1);
    assert Entries(out) == sorted;
    out
  }

  /** The row ranked 1 carries the highest price of all matches. */
  lemma TopRankHasHighestPrice(ms: seq<Match>, m: Match)
    requires m in ms
    ensures |Rank(ms)| > 0
    ensures Rank(ms)[0].sr == 1 && Rank(ms)[0].entry.price >= m.price
  {
    var es := Entries(Rank(ms));
    assert m in multiset(ms);
    assert m in multiset(es);
    var k :| 0 <= k < |es| && es[k] == m;
  }

  /** Ranking keeps every match and invents none. */
  lemma RankKeepsMatches(ms: seq<Match>, m: Match)
    ensures m in ms <==> exists k :: 0 <= k < |Rank(ms)| && Rank(ms)[k].entry == m
  {
    var es := Entries(Rank(ms));
    assert m in ms <==> m in multiset(ms);
    assert m in es <==> m in multiset(es);
    if m in es {
      var k :| 0 <= k < |es| && es[k] == m;
      assert Rank(ms)[k].entry == m;
    }
  }
}
