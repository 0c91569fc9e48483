/** The weighted choice `MarkovChain::next` makes among the outgoing edges of
    the current node: sum the weights, draw r in [0, total), then walk the
    edges in stored order, taking the first edge whose weight exceeds what is
    left of r and subtracting the weight otherwise. Weights are exact reals. */
module WeightedChoice {
  import opened Edges

  /** Sum of the weights, accumulated from the left as `next`'s first loop does. */
  function Total(es: seq<Edge>): (t: real)
    ensures |es| == 0 ==> t == 0.0
    ensures NonNegative(es) ==> 0.0 <= t
  {
    if |es| == 0 then 0.0 else Total(es[..|es| - 1]) + es[|es| - 1].weight
  }

  /** Index of the edge the subtraction walk picks for the draw `r`; `|es|`
      when it walks off the end (the source's `TransitionFailedError`). */
  function Select(es: seq<Edge>, r: real): (k: nat)
    ensures k <= |es|
  {
    if |es| == 0 then 0
    else if r < es[0].weight then 0
    else 1 + Select(es[1..], r - es[0].weight)
  }

  /** Sum of the weights of the first `i` edges. */
  function PrefixSum(es: seq<Edge>, i: nat): real
    requires i <= |es|
  {
    Total(es[..i])
  }

  /** One step of the walk from edge `i`: pick it, or subtract its weight
      and walk on from edge `i + 1`. */
  lemma SelectFrom(es: seq<Edge>, i: nat, w: real)
    requires i < |es|
    ensures w < es[i].weight ==> Select(es[i..], w) == 0
    ensures !(w < es[i].weight) ==> Select(es[i..], w) == 1 + Select(es[i + 1..], w - es[i].weight)
  {
  }

  predicate NonNegative(es: seq<Edge>)
  {
    forall i :: 0 <= i < |es| ==> 0.0 <= es[i].weight
  }

  /** Summing from the left equals taking the head weight off first. */
  lemma {:induction false} TotalCons(es: seq<Edge>)
    requires |es| > 0
    ensures Total(es) == es[0].weight + Total(es[1..])
  {
    if |es| > 1 {
      assert es[..|es| - 1][1..] == es[1..][..|es| - 2];
      TotalCons(es[..|es| - 1]);
    }
  }

  /** A prefix sum one edge longer adds that edge's weight. */
  lemma PrefixStep(es: seq<Edge>, i: nat)
    requires i < |es|
    ensures PrefixSum(es, i + 1) == PrefixSum(es, i) + es[i].weight
  {
    assert es[..i + 1][..i] == es[..i];
  }

  /** With non-negative weights prefix sums grow with the prefix. */
  lemma {:induction false} PrefixMonotone(es: seq<Edge>, i: nat, j: nat)
    requires NonNegative(es)
    requires i <= j <= |es|
    ensures PrefixSum(es, i) <= PrefixSum(es, j)
    decreases j - i
  {
    if i < j {
      PrefixStep(es, i);
      PrefixMonotone(es, i + 1, j);
    }
  }

  /** The walk picks the first edge whose prefix weight sum (through that
      edge) exceeds r: every shorter non-empty prefix sums to at most r. */
  lemma {:induction false} SelectFirstPrefixAbove(es: seq<Edge>, r: real)
    ensures Select(es, r) < |es| ==> r < PrefixSum(es, Select(es, r) + 1)
    ensures forall j :: 0 < j <= Select(es, r) ==> PrefixSum(es, j) <= r
  {
    if |es| > 0 {
      assert es[..1] == [es[0]];
      assert Total([es[0]]) == Total([]) + es[0].weight;
      if r >= es[0].weight {
        var rest := es[1..];
        var w := r - es[0].weight;
        SelectFirstPrefixAbove(rest, w);
        forall j | 0 <= j <= |rest|
          ensures PrefixSum(es, j + 1) == es[0].weight + PrefixSum(rest, j)
        {
          TotalCons(es[..j + 1]);
          assert es[..j + 1][1..] == rest[..j];
        }
        assert rest[..0] == [];
        forall j | 0 < j <= Select(es, r)
          ensures PrefixSum(es, j) <= r
        {
          assert PrefixSum(es, (j - 1) + 1) == es[0].weight + PrefixSum(rest, j - 1);
        }
      }
    }
  }

  /** Exact arithmetic never walks off the end: for any draw in [0, total)
      some edge is picked, whatever the signs of the weights. */
  lemma {:induction false} SelectInRange(es: seq<Edge>, r: real)
    requires 0.0 <= r < Total(es)
    ensures Select(es, r) < |es|
  {
    if |es| > 0 {
      TotalCons(es);
      if r >= es[0].weight {
        SelectInRange(es[1..], r - es[0].weight);
      }
    }
  }

  /** With non-negative weights edge k is picked exactly for the draws in
      [PrefixSum(es, k), PrefixSum(es, k + 1)), an interval as long as its
      weight: each edge is chosen with probability weight / total. */
  lemma SelectInterval(es: seq<Edge>, r: real, k: nat)
    requires NonNegative(es)
    requires 0.0 <= r
    requires k < |es|
    ensures Select(es, r) == k <==> PrefixSum(es, k) <= r < PrefixSum(es, k + 1)
    ensures PrefixSum(es, k + 1) - PrefixSum(es, k) == es[k].weight
  {
    PrefixStep(es, k);
    SelectFirstPrefixAbove(es, r);
    assert es[..0] == [];
    var s := Select(es, r);
    if PrefixSum(es, k) <= r < PrefixSum(es, k + 1) && s < k {
      PrefixMonotone(es, s + 1, k);
    }
  }

  /** The first loop of `next`: the total of the outgoing weights. */
  method SumWeights(es: seq<Edge>) returns (totalWeight: real)
    ensures totalWeight == Total(es)
  {
    totalWeight := 0.0;
    var i := 0;
    while i < |es|
      invariant 0 <= i <= |es|
      invariant totalWeight == PrefixSum(es, i)
    {
      PrefixStep(es, i);
      totalWeight := totalWeight + es[i].weight;
      i := i + 1;
    }
    assert es[..|es|] == es;
  }

  /** The second loop of `next`: walk the edges in order, subtracting each
      weight from the draw until one exceeds what is left. Returns the index
      of the picked edge, or `|es|` when the walk runs off the end. */
  method Walk(es: seq<Edge>, r: real) returns (k: nat)
    ensures k == Select(es, r)
  {
    var randomWeight := r;
    var i := 0;
    assert es[i..] == es;
    while i < |es|
      invariant 0 <= i <= |es|
      invariant Select(es, r) == i + Select(es[i..], randomWeight)
    {
      SelectFrom(es, i, randomWeight);
      if randomWeight < es[i].weight {
        return i;
      }
      randomWeight := randomWeight - es[i].weight;
      i := i + 1;
    }
    assert es[i..] == [];
    return |es|;
  }
}
