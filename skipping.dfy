/** The shape of the extraction loop's `try`/`except` (hockey_scrape.py:182-196): every item
    either yields a value, which is appended to the output, or raises, and is skipped after the
    error is logged. */
module Skipping {
  import opened Options

  /** The values of the items that do not fail, in item order. */
  function Kept<A, B>(f: A -> Option<B>, xs: seq<A>): (ys: seq<B>)
    ensures |ys| <= |xs|
  {
    if xs == [] then []
    else
      var init := Kept(f, xs[..|xs| - 1]);
      match f(xs[|xs| - 1])
      case Some(y) => init + [y]
      case None => init
  }

  /** Processing one more item appends its value when it succeeds and nothing otherwise. */
  lemma KeptSnoc<A, B>(f: A -> Option<B>, xs: seq<A>, x: A)
    ensures f(x).Some? ==> Kept(f, xs + [x]) == Kept(f, xs) + [f(x).value]
    ensures f(x).None? ==> Kept(f, xs + [x]) == Kept(f, xs)
  {
    assert (xs + [x])[..|xs|] == xs;
  }

  /** Processing two item sequences one after the other keeps the first's values, then the
      second's. */
  lemma {:induction false} KeptAppend<A, B>(f: A -> Option<B>, xs: seq<A>, zs: seq<A>)
    ensures Kept(f, xs + zs) == Kept(f, xs) + Kept(f, zs)
    decreases |zs|
  {
    if zs == [] {
      assert xs + zs == xs;
    } else {
      var zs' := zs[..|zs| - 1];
      assert xs + zs == (xs + zs') + [zs[|zs| - 1]];
      KeptSnoc(f, xs + zs', zs[|zs| - 1]);
      KeptSnoc(f, zs', zs[|zs| - 1]);
      KeptAppend(f, xs, zs');
    }
  }

  /** A failing item between two stretches contributes nothing and leaves both stretches' values
      as they are. */
  lemma KeptSkipsFailure<A, B>(f: A -> Option<B>, xs: seq<A>, x: A, zs: seq<A>)
    requires f(x).None?
    ensures Kept(f, xs + [x] + zs) == Kept(f, xs) + Kept(f, zs)
  {
    KeptSnoc(f, xs, x);
    KeptAppend(f, xs + [x], zs);
  }

  /** The positions of the items that succeed, in increasing order. */
  ghost function KeptIndices<A, B>(f: A -> Option<B>, xs: seq<A>): seq<nat>
  {
    if xs == [] then []
    else
      var init := KeptIndices(f, xs[..|xs| - 1]);
      if f(xs[|xs| - 1]).Some? then init + [|xs| - 1] else init
  }

  /** `Kept` is the ordered filter of the items: its k-th value comes from the k-th succeeding
      item, and the succeeding positions increase. */
  lemma {:induction false} KeptIsOrderedFilter<A, B>(f: A -> Option<B>, xs: seq<A>)
    ensures |KeptIndices(f, xs)| == |Kept(f, xs)|
    ensures forall k :: 0 <= k < |KeptIndices(f, xs)| ==>
              KeptIndices(f, xs)[k] < |xs| && f(xs[KeptIndices(f, xs)[k]]) == Some(Kept(f, xs)[k])
    ensures forall k, l :: 0 <= k < l < |KeptIndices(f, xs)| ==>
              KeptIndices(f, xs)[k] < KeptIndices(f, xs)[l]
  {
    if xs != [] {
      var init := xs[..|xs| - 1];
      KeptIsOrderedFilter(f, init);
      assert forall i :: 0 <= i < |init| ==> xs[i] == init[i];
    }
  }

  /** A position is among the kept ones if and only if its item succeeds. */
  lemma {:induction false} KeptIndicesExact<A, B>(f: A -> Option<B>, xs: seq<A>)
    ensures forall i :: 0 <= i < |xs| ==> (i in KeptIndices(f, xs) <==> f(xs[i]).Some?)
  {
    if xs != [] {
      var init := xs[..|xs| - 1];
      KeptIndicesExact(f, init);
      KeptIsOrderedFilter(f, init);
      assert forall i :: 0 <= i < |init| ==> xs[i] == init[i];
    }
  }
}
