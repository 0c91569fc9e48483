/** `Edge`: a directed, weighted connection between two node ids. The `f32`
    weight is modelled as an exact `real`. */
module Edges {
  import opened Base

  /** `Edge { from, to, weight }`; equality is the derived, field-wise one. */
  datatype Edge = Edge(from: u32, to: u32, weight: real)

  /** `Edge::new`: the fields are stored verbatim. */
  function NewEdge(from: u32, to: u32, weight: real): (e: Edge)
    ensures e.from == from && e.to == to && e.weight == weight
  {
    Edge(from, to, weight)
  }

  /** `Edge::new` performs no validation: every weight (negative included)
      and every pair of ids is accepted, and every edge can be built by it. */
  lemma NewEdgeAcceptsAll(e: Edge)
    ensures NewEdge(e.from, e.to, e.weight) == e
  {
  }

  /** Derived `PartialEq`: field-wise over `from`, `to` and `weight`. */
  lemma EdgeEquality(a: Edge, b: Edge)
    ensures a == b <==> a.from == b.from && a.to == b.to && a.weight == b.weight
  {
  }

  /** Result of `partial_cmp`. With exact weights every pair is comparable. */
  datatype Ordering = Less | Equal | Greater

  function CompareInt(a: int, b: int): Ordering
  {
    if a < b then Less else if a == b then Equal else Greater
  }

  function CompareReal(a: real, b: real): Ordering
  {
    if a < b then Less else if a == b then Equal else Greater
  }

  /** Derived `PartialOrd`: fields compared in declaration order, the first
      field that differs decides. */
  function Compare(a: Edge, b: Edge): (o: Ordering)
    ensures o == Equal <==> a == b
  {
    match CompareInt(a.from, b.from)
    case Equal =>
      (match CompareInt(a.to, b.to)
       case Equal => CompareReal(a.weight, b.weight)
       case o => o)
    case o => o
  }

  /** `a < b` under the derived ordering. */
  predicate Lt(a: Edge, b: Edge)
  {
    Compare(a, b) == Less
  }

  /** The ordering is lexicographic by `from`, then `to`, then `weight`. */
  lemma CompareLexicographic(a: Edge, b: Edge)
    ensures a.from < b.from ==> Lt(a, b)
    ensures a.from == b.from && a.to < b.to ==> Lt(a, b)
    ensures a.from == b.from && a.to == b.to && a.weight < b.weight ==> Lt(a, b)
    ensures Lt(a, b) ==> a.from <= b.from
  {
  }

  /** Swapping the operands reverses the ordering. */
  lemma CompareAntisymmetric(a: Edge, b: Edge)
    ensures Compare(a, b) == Less <==> Compare(b, a) == Greater
  {
  }

  /** `<` on edges is transitive. */
  lemma LtTransitive(a: Edge, b: Edge, c: Edge)
    requires Lt(a, b) && Lt(b, c)
    ensures Lt(a, c)
  {
  }

  /** With exact weights the order is total: any two edges are equal or
      ordered one way. */
  lemma LtTotal(a: Edge, b: Edge)
    ensures a == b || Lt(a, b) || Lt(b, a)
  {
  }
}
