/** The running maximum of a stream of sequence numbers. The store's
    acceptance rule, the replay's stale count and the generator's
    out-of-order scan are all stated in terms of it. */
module RunningMax {

  function Max(a: int, b: int): (m: int) { if a < b then b else a }

  /** The running maximum: `base` folded with every element of `xs` in turn. */
  function MaxOf(base: int, xs: seq<int>): (m: int)
    ensures base <= m
    decreases |xs|
  {
    if xs == [] then base else Max(MaxOf(base, xs[..|xs| - 1]), xs[|xs| - 1])
  }

  /** The running maximum is the largest of `base` and the elements: it bounds
      every element and is `base` or one of them. */
  lemma {:induction false} MaxOfIsMaximum(base: int, xs: seq<int>)
    ensures forall k :: 0 <= k < |xs| ==> xs[k] <= MaxOf(base, xs)
    ensures MaxOf(base, xs) == base || exists k :: 0 <= k < |xs| && xs[k] == MaxOf(base, xs)
    decreases |xs|
  {
    if xs != [] {
      var init := xs[..|xs| - 1];
      MaxOfIsMaximum(base, init);
      assert forall k :: 0 <= k < |init| ==> xs[k] == init[k];
      if MaxOf(base, xs) != base && MaxOf(base, xs) != xs[|xs| - 1] {
        var k :| 0 <= k < |init| && init[k] == MaxOf(base, init);
        assert xs[k] == MaxOf(base, xs);
      }
    }
  }

  /** Extending the stream by one element folds that element into the maximum. */
  lemma MaxOfSnoc(base: int, xs: seq<int>, x: int)
    ensures MaxOf(base, xs + [x]) == Max(MaxOf(base, xs), x)
  {
    assert (xs + [x])[..|xs|] == xs;
  }

  /** A larger starting value never gives a smaller maximum. */
  lemma {:induction false} MaxOfMonotoneBase(b: int, c: int, xs: seq<int>)
    requires b <= c
    ensures MaxOf(b, xs) <= MaxOf(c, xs)
    decreases |xs|
  {
    if xs != [] {
      MaxOfMonotoneBase(b, c, xs[..|xs| - 1]);
    }
  }

  /** Raising the starting value to anything not above the maximum leaves the maximum alone. */
  lemma {:induction false} MaxOfRaiseBase(b: int, c: int, xs: seq<int>)
    requires b <= c <= MaxOf(b, xs)
    ensures MaxOf(c, xs) == MaxOf(b, xs)
    decreases |xs|
  {
    if xs != [] {
      var init := xs[..|xs| - 1];
      if c <= MaxOf(b, init) {
        MaxOfRaiseBase(b, c, init);
      } else {
        MaxOfIsMaximum(b, init);
        MaxOfIsMaximum(c, init);
      }
    }
  }
}
