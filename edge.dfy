// Edges of the decoding graphs and the error kinds of the toric code.

module Edges {

  /** The two kinds of Pauli error the toric code corrects independently. */
  datatype ErrorType = X | Z

  /**
   * An undirected edge between two vertices. Every edge the decoder builds
   * goes through MakeEdge, which stores the smaller endpoint in `u`.
   */
  datatype Edge = Edge(u: nat, v: nat)

  predicate Normalized(e: Edge) {
    e.u <= e.v
  }

  /** The normalising constructor Edge(ul, vl): endpoints sorted, nothing else changed. */
  function MakeEdge(a: nat, b: nat): (e: Edge)
    ensures Normalized(e)
    ensures (e.u == a && e.v == b) || (e.u == b && e.v == a)
  {
    if a <= b then Edge(a, b) else Edge(b, a)
  }

  /** Construction does not depend on the order of the endpoints. */
  lemma MakeEdgeSymmetric(a: nat, b: nat)
    ensures MakeEdge(a, b) == MakeEdge(b, a)
  {
  }

  /**
   * operator== compares both fields; two constructed edges are equal exactly
   * when they were built from the same pair of endpoints, in either order.
   */
  lemma MakeEdgeEqual(a: nat, b: nat, c: nat, d: nat)
    ensures MakeEdge(a, b) == MakeEdge(c, d) <==> multiset{a, b} == multiset{c, d}
  {
    if multiset{a, b} == multiset{c, d} {
      assert a in multiset{c, d} && b in multiset{c, d};
      assert c in multiset{a, b} && d in multiset{a, b};
    }
  }

  /** Normalising an edge that is already normalised changes nothing. */
  lemma MakeEdgeOfNormalized(e: Edge)
    requires Normalized(e)
    ensures MakeEdge(e.u, e.v) == e
  {
  }

  /** True when `x` is one of the endpoints of `e`. */
  predicate Touches(e: Edge, x: nat) {
    e.u == x || e.v == x
  }

  /**
   * std::hash<Edge>: h1 ^ (h2 << 1) on 64-bit size_t, where the hash of a
   * uint32 is the value itself. A 33-bit result.
   */
  function Hash(e: Edge): (h: bv64)
    requires e.u < 0x1_0000_0000 && e.v < 0x1_0000_0000
    ensures h < 0x2_0000_0000
  {
    (e.u as bv64) ^ ((e.v as bv64) << 1)
  }

  /** The hash is not injective on normalised edges, so the tables rely on ==. */
  lemma HashCollides()
    ensures Hash(MakeEdge(1, 2)) == Hash(MakeEdge(3, 3))
    ensures MakeEdge(1, 2) != MakeEdge(3, 3)
  {
  }
}
