/** The iterator adapters the chain's lookups and removals are built from
    (`find`, `any`, `filter` + `collect`, `Vec::retain`), as functions on
    sequences with the properties the Rust standard library documents for
    them, plus `Position`, the index `iter_mut().find` stops at in
    `add_node_actions`. */
module Iter {
  import opened Base

  /** Index of the first element satisfying `p`, or `|s|` when none does:
      where `iter_mut().find` stops, so the element it hands out is `s[k]`. */
  function Position<T>(s: seq<T>, p: T -> bool): (k: nat)
    ensures k <= |s|
    ensures forall j :: 0 <= j < k ==> !p(s[j])
    ensures k < |s| ==> p(s[k])
  {
    if |s| == 0 then 0
    else if p(s[0]) then 0
    else 1 + Position(s[1..], p)
  }

  /** `Position` depends only on where `p` holds. */
  lemma PositionCongruent<T>(s: seq<T>, t: seq<T>, p: T -> bool)
    requires |s| == |t|
    requires forall i :: 0 <= i < |s| ==> p(s[i]) == p(t[i])
    ensures Position(s, p) == Position(t, p)
  {
  }

  /** `Iterator::find`: the first element satisfying `p`, if there is one. */
  function Find<T>(s: seq<T>, p: T -> bool): (r: Option<T>)
    ensures r.Some? <==> exists i :: 0 <= i < |s| && p(s[i])
    ensures r.Some? ==> p(r.value)
    ensures r.Some? ==> exists i :: 0 <= i < |s| && s[i] == r.value && forall j :: 0 <= j < i ==> !p(s[j])
  {
    var k := Position(s, p);
    if k < |s| then Some(s[k]) else None
  }

  /** `Iterator::any`: some element satisfies `p`. */
  function Any<T>(s: seq<T>, p: T -> bool): (b: bool)
    ensures b <==> exists i :: 0 <= i < |s| && p(s[i])
  {
    |s| > 0 && (p(s[0]) || Any(s[1..], p))
  }

  /** The elements of `s` satisfying `p`, in their order in `s`: both
      `iter().filter(p).cloned().collect()` and `Vec::retain(p)`. */
  function Filter<T>(s: seq<T>, p: T -> bool): (r: seq<T>)
    ensures |r| <= |s|
    ensures forall i :: 0 <= i < |r| ==> p(r[i])
    ensures forall i :: 0 <= i < |r| ==> r[i] in s
    ensures forall i :: 0 <= i < |s| && p(s[i]) ==> s[i] in r
  {
    if |s| == 0 then []
    else (if p(s[0]) then [s[0]] else []) + Filter(s[1..], p)
  }

  /** `Find` on a concatenation looks in the second part only when the first
      has no match. */
  lemma {:induction false} FindAppend<T>(s: seq<T>, t: seq<T>, p: T -> bool)
    ensures Find(s + t, p) == if Any(s, p) then Find(s, p) else Find(t, p)
  {
    PositionAppend(s, t, p);
    if Position(s, p) == |s| && Position(t, p) < |t| {
      assert (s + t)[|s| + Position(t, p)] == t[Position(t, p)];
    }
  }

  lemma {:induction false} PositionAppend<T>(s: seq<T>, t: seq<T>, p: T -> bool)
    ensures Position(s + t, p) == if Position(s, p) < |s| then Position(s, p) else |s| + Position(t, p)
  {
    if |s| > 0 {
      assert (s + t)[1..] == s[1..] + t;
      PositionAppend(s[1..], t, p);
    } else {
      assert s + t == t;
    }
  }

  /** Filtering distributes over concatenation: the kept elements stay in
      their original relative order. */
  lemma {:induction false} FilterAppend<T>(s: seq<T>, t: seq<T>, p: T -> bool)
    ensures Filter(s + t, p) == Filter(s, p) + Filter(t, p)
  {
    if |s| == 0 {
      assert s + t == t;
    } else {
      assert (s + t)[1..] == s[1..] + t;
      FilterAppend(s[1..], t, p);
    }
  }

  /** Filtering a sequence whose every element satisfies `p` changes nothing
      (so removing an absent key is a no-op). */
  lemma {:induction false} FilterKeepsAll<T>(s: seq<T>, p: T -> bool)
    requires forall i :: 0 <= i < |s| ==> p(s[i])
    ensures Filter(s, p) == s
  {
    if |s| > 0 {
      FilterKeepsAll(s[1..], p);
    }
  }

  /** Filtering twice by the same predicate is filtering once. */
  lemma FilterIdempotent<T>(s: seq<T>, p: T -> bool)
    ensures Filter(Filter(s, p), p) == Filter(s, p)
  {
    FilterKeepsAll(Filter(s, p), p);
  }

  /** Filtering by a predicate implied by `p` keeps every match of `p`
      where it was, so `Find` by `p` is unaffected. */
  lemma {:induction false} FindFilter<T>(s: seq<T>, p: T -> bool, q: T -> bool)
    requires forall x :: p(x) ==> q(x)
    ensures Find(Filter(s, q), p) == Find(s, p)
  {
    if |s| > 0 {
      FindFilter(s[1..], p, q);
      var head := if q(s[0]) then [s[0]] else [];
      FindAppend(head, Filter(s[1..], q), p);
      FindAppend([s[0]], s[1..], p);
      assert [s[0]] + s[1..] == s;
    }
  }
}
