/** Failure-compatible wrappers shared by every stage of the screener:
    `Option` stands for a value that may be missing (a pandas NaN), and
    `Result` for a computation that either returns or raises.
 */
module Wrappers {

  /** A value that may be absent; `None` plays the role of NaN. */
  datatype Option<+T> = None | Some(value: T)

  /** A computation that returns `value` or fails with `error`. */
  datatype Result<+T, +E> = Success(value: T) | Failure(error: E)

  /** The zero- or one-element sequence holding an optional value. */
  function AsSeq<T>(o: Option<T>): (s: seq<T>)
    ensures |s| <= 1
    ensures o.Some? <==> |s| == 1
    ensures o.Some? ==> s[0] == o.value
  {
    match o
    case None => []
    case Some(v) => [v]
  }

  /** The values of the present options, in order. */
  function Somes<T>(os: seq<Option<T>>): (vs: seq<T>)
    ensures |vs| <= |os|
  {
    if |os| == 0 then [] else Somes(os[..|os| - 1]) + AsSeq(os[|os| - 1])
  }

  /** A value is kept exactly when it is present among the options. */
  lemma {:induction false} SomesMember<T>(os: seq<Option<T>>, v: T)
    ensures v in Somes(os) <==> Some(v) in os
    decreases |os|
  {
    if |os| > 0 {
      var front := os[..|os| - 1];
      SomesMember(front, v);
      assert os == front + [os[|os| - 1]];
    }
  }

  /** Keeping the present values commutes with concatenation. */
  lemma {:induction false} SomesAppend<T>(xs: seq<Option<T>>, ys: seq<Option<T>>)
    ensures Somes(xs + ys) == Somes(xs) + Somes(ys)
    decreases |ys|
  {
    if |ys| == 0 {
      assert xs + ys == xs;
    } else {
      var ys' := ys[..|ys| - 1];
      var zs := xs + ys;
      assert zs[..|zs| - 1] == xs + ys';
      assert zs[|zs| - 1] == ys[|ys| - 1];
      SomesAppend(xs, ys');
      var a, b, c := Somes(xs), Somes(ys'), AsSeq(ys[|ys| - 1]);
      assert Somes(zs) == (a + b) + c;
      assert Somes(ys) == b + c;
      assert (a + b) + c == a + (b + c);
    }
  }

  /** `g` applied to every element, in order. */
  function MapSeq<A, B>(xs: seq<A>, g: A -> B): (ys: seq<B>)
    ensures |ys| == |xs|
    ensures forall i :: 0 <= i < |xs| ==> ys[i] == g(xs[i])
  {
    seq(|xs|, i requires 0 <= i < |xs| => g(xs[i]))
  }

  /** Mapping and then keeping the present values commutes with
      concatenation. */
  lemma SomesMapAppend<A, B>(g: A -> Option<B>, xs: seq<A>, ys: seq<A>)
    ensures Somes(MapSeq(xs + ys, g)) == Somes(MapSeq(xs, g)) + Somes(MapSeq(ys, g))
  {
    assert MapSeq(xs + ys, g) == MapSeq(xs, g) + MapSeq(ys, g);
    SomesAppend(MapSeq(xs, g), MapSeq(ys, g));
  }

  /** A single option keeps its own value, if any. */
  lemma SomesSingle<T>(o: Option<T>)
    ensures Somes([o]) == AsSeq(o)
  {
  }

  /** Mapping a sequence with one element replaced. */
  lemma MapSeqUpdate<A, B>(g: A -> B, xs: seq<A>, i: nat, x: A)
    requires i < |xs|
    ensures MapSeq(xs[i := x], g) == MapSeq(xs[..i], g) + [g(x)] + MapSeq(xs[i + 1..], g)
  {
  }

  /** Replacing one element changes only that element's contribution. */
  lemma SomesMapUpdate<A, B>(g: A -> Option<B>, xs: seq<A>, i: nat, x: A)
    requires i < |xs|
    ensures Somes(MapSeq(xs[i := x], g)) ==
              Somes(MapSeq(xs[..i], g)) + AsSeq(g(x)) + Somes(MapSeq(xs[i + 1..], g))
  {
    var front, back := MapSeq(xs[..i], g), MapSeq(xs[i + 1..], g);
    MapSeqUpdate(g, xs, i, x);
    SomesAppend(front + [g(x)], back);
    SomesAppend(front, [g(x)]);
    SomesSingle(g(x));
  }

  /** An element without a value contributes nothing: replacing one by it
      is the same as removing that position. */
  lemma SomesMapDrop<A, B>(g: A -> Option<B>, xs: seq<A>, i: nat, x: A)
    requires i < |xs|
    requires g(x).None?
    ensures Somes(MapSeq(xs[i := x], g)) == Somes(MapSeq(xs[..i] + xs[i + 1..], g))
  {
    var front, back := Somes(MapSeq(xs[..i], g)), Somes(MapSeq(xs[i + 1..], g));
    SomesMapUpdate(g, xs, i, x);
    assert AsSeq(g(x)) == [];
    assert Somes(MapSeq(xs[i := x], g)) == front + back by {
      assert front + [] + back == front + back;
    }
    SomesMapAppend(g, xs[..i], xs[i + 1..]);
  }
}
