// The lazy decoder (class LazyDecoder), a greedy pre-decoder run before
// the Union-Find decoder: it corrects every lattice edge whose two
// endpoints are both flagged, flips those endpoints, and succeeds when no
// flagged vertex is left.

module Lazy {
  import opened Edges
  import opened Graphs
  import opened Peel
  import Toric
  import opened Syndromes
  import Lattice2D
  import LatticeCubic

  /** The lattice a LazyDecoder is instantiated with: the torus or the cubic lattice of side L. */
  datatype Lattice = Torus(L: nat) | Cubic(L: nat)

  function NumVertices(lat: Lattice): nat {
    match lat
    case Torus(L) => Lattice2D.NumVertices(L)
    case Cubic(L) => LatticeCubic.NumVertices(L)
  }

  /** num_edges, as the number of passes of the constructor's loop. */
  function NumEdges(lat: Lattice): nat {
    match lat
    case Torus(L) => Lattice2D.NumEdges(L)
    case Cubic(L) => var n := LatticeCubic.NumEdges(L); if n > 0 then n else 0
  }

  /** to_edge of the lattice. */
  function EdgeOf(lat: Lattice, i: nat): Edge
    requires lat.L >= 1
  {
    match lat
    case Torus(L) => Toric.ToEdge(L, i)
    case Cubic(L) => LatticeCubic.ToEdge(L, i)
  }

  /** edge_idx of the lattice. */
  function IndexOf(lat: Lattice, e: Edge): nat
    requires lat.L >= 1
  {
    match lat
    case Torus(L) => Lattice2D.EdgeIdx(L, e)
    case Cubic(L) => LatticeCubic.EdgeIdx(L, e)
  }

  /** all_edges_[i] == to_edge(i) for every edge index i. */
  predicate IsEdgeTable(lat: Lattice, edges: seq<Edge>)
    requires lat.L >= 1
  {
    |edges| == NumEdges(lat) && forall i :: 0 <= i < |edges| ==> edges[i] == EdgeOf(lat, i)
  }

  /**
   * For L >= 3 the table lists every edge index once: edge_idx gives each
   * entry's index back, so no edge appears twice, and every entry joins two
   * vertices of the lattice.
   */
  lemma EdgeTableFacts(lat: Lattice, edges: seq<Edge>)
    requires lat.L >= 3 && IsEdgeTable(lat, edges)
    ensures forall i :: 0 <= i < |edges| ==> IndexOf(lat, edges[i]) == i
    ensures forall i, j :: 0 <= i < j < |edges| ==> edges[i] != edges[j]
    ensures OnVertices(NumVertices(lat), edges)
  {
    forall i | 0 <= i < |edges|
      ensures IndexOf(lat, edges[i]) == i
      ensures edges[i].u < NumVertices(lat) && edges[i].v < NumVertices(lat)
    {
      match lat {
        case Torus(L) =>
          Lattice2D.EdgeIdxRoundTrip(L, i);
        case Cubic(L) =>
          LatticeCubic.EdgeIdxRoundTrip(L, i);
          LatticeCubic.ConnectionsBound(L, edges[i].u, edges[i].v);
      }
    }
    forall i, j | 0 <= i < j < |edges|
      ensures edges[i] != edges[j]
    {
      assert IndexOf(lat, edges[i]) != IndexOf(lat, edges[j]);
    }
  }

  // ---------------------------------------------------------------------
  // The specification of decode

  /** Both endpoints of e carry syndrome 1. */
  predicate Flagged(s: seq<nat>, e: Edge) {
    e.u < |s| && e.v < |s| && s[e.u] == 1 && s[e.v] == 1
  }

  /** The edges of es, in their order, whose two endpoints are flagged in s. */
  function Selected(s: seq<nat>, es: seq<Edge>): seq<Edge> {
    if |es| == 0 then []
    else Selected(s, es[..|es| - 1]) + (if Flagged(s, es[|es| - 1]) then [es[|es| - 1]] else [])
  }

  /** An edge is selected exactly when it is in the list and both its endpoints are flagged. */
  lemma {:induction false} SelectedSpec(s: seq<nat>, es: seq<Edge>)
    ensures forall e :: e in Selected(s, es) <==> e in es && Flagged(s, e)
    ensures |Selected(s, es)| <= |es|
  {
    if |es| > 0 {
      var k := |es| - 1;
      SelectedSpec(s, es[..k]);
      assert es == es[..k] + [es[k]];
    }
  }

  /** With no syndrome flagged nothing is selected. */
  lemma {:induction false} SelectedOfZero(s: seq<nat>, es: seq<Edge>)
    requires Zero(s)
    ensures Selected(s, es) == []
  {
    if |es| > 0 {
      SelectedOfZero(s, es[..|es| - 1]);
    }
  }

  /** `s[y] ^= 1` changes the parity of entry y alone, and no higher bit. */
  lemma ToggleFacts(s: seq<nat>, y: nat, x: nat)
    requires y < |s| && x < |s|
    ensures Toggle(s, y)[x] % 2 == (s[x] + if x == y then 1 else 0) % 2
    ensures Toggle(s, y)[x] / 2 == s[x] / 2
  {
  }

  /** The syndromes after `s[e.u] ^= 1; s[e.v] ^= 1` for every edge e of cs in turn. */
  function Flipped(s: seq<nat>, cs: seq<Edge>): (r: seq<nat>)
    requires OnVertices(|s|, cs)
    ensures |r| == |s|
  {
    if |cs| == 0 then s
    else
      var e := cs[|cs| - 1];
      Toggle(Toggle(Flipped(s, cs[..|cs| - 1]), e.u), e.v)
  }

  lemma TwoFlipsParity(a: nat, d: nat, b: nat, h1: nat, h2: nat, c: nat, r: nat)
    requires b % 2 == (a + d) % 2
    requires c % 2 == (b + h1) % 2 && r % 2 == (c + h2) % 2
    ensures r % 2 == (a + d + (h1 + h2)) % 2
  {
  }

  /**
   * Flipping toggles the lowest bit of a vertex once per correction
   * endpoint on it: the parity moves by the degree and the higher bits stay.
   */
  lemma {:induction false} FlippedAt(s: seq<nat>, cs: seq<Edge>, x: nat)
    requires OnVertices(|s|, cs) && x < |s|
    ensures Flipped(s, cs)[x] % 2 == (s[x] + Deg(cs, x)) % 2
    ensures Flipped(s, cs)[x] / 2 == s[x] / 2
  {
    if |cs| > 0 {
      var k := |cs| - 1;
      var e := cs[k];
      FlippedAt(s, cs[..k], x);
      var p := Flipped(s, cs[..k]);
      var q := Toggle(p, e.u);
      ToggleFacts(p, e.u, x);
      ToggleFacts(q, e.v, x);
      assert Deg(cs, x) == Deg(cs[..k], x) + Hit(e, x);
      TwoFlipsParity(s[x], Deg(cs[..k], x), p[x], if e.u == x then 1 else 0, if e.v == x then 1 else 0, q[x], Toggle(q, e.v)[x]);
    }
  }

  /** The flipped syndromes differ from the original by the boundary of the corrections. */
  lemma FlippedBoundary(s: seq<nat>, cs: seq<Edge>)
    requires OnVertices(|s|, cs)
    ensures Boundary(|s|, s, cs, Flipped(s, cs))
  {
    forall x | 0 <= x < |s| {
      FlippedAt(s, cs, x);
    }
  }

  /**
   * On 0/1 syndromes, decode succeeds exactly when the corrections account
   * for the whole syndrome: every vertex is an endpoint of an odd number of
   * corrections exactly when it was flagged.
   */
  lemma SuccessMeansCorrected(s: seq<nat>, cs: seq<Edge>)
    requires OnVertices(|s|, cs) && Bits(s)
    ensures (forall x :: 0 <= x < |s| ==> Flipped(s, cs)[x] != 1) <==>
            (forall x :: 0 <= x < |s| ==> Deg(cs, x) % 2 == s[x])
  {
    forall x | 0 <= x < |s|
      ensures Flipped(s, cs)[x] != 1 <==> Deg(cs, x) % 2 == s[x]
    {
      FlippedAt(s, cs, x);
      BitParity(s[x], Deg(cs, x), Flipped(s, cs)[x]);
    }
  }

  lemma BitParity(a: nat, d: nat, r: nat)
    requires a <= 1 && r / 2 == a / 2 && r % 2 == (a + d) % 2
    ensures r != 1 <==> d % 2 == a
  {
  }

  // ---------------------------------------------------------------------
  // The decoder

  class LazyDecoder {
    const lattice: Lattice
    const allEdges: seq<Edge>

    /** The constructor stores to_edge(i) for every edge index i, in order. */
    constructor (lattice: Lattice)
      requires lattice.L >= 1
      ensures this.lattice == lattice && IsEdgeTable(lattice, allEdges)
    {
      var numEdges := NumEdges(lattice);
      var edges: seq<Edge> := [];
      for i := 0 to numEdges
        invariant |edges| == i && forall j :: 0 <= j < i ==> edges[j] == EdgeOf(lattice, j)
      {
        edges := edges + [EdgeOf(lattice, i)];
      }
      this.lattice := lattice;
      allEdges := edges;
    }

    /** The first loop of decode: the edges of the table whose endpoints are both flagged. */
    method SelectFlagged(syndromes: array<nat>) returns (corrections: seq<Edge>)
      requires OnVertices(syndromes.Length, allEdges)
      ensures corrections == Selected(syndromes[..], allEdges)
    {
      corrections := [];
      for i := 0 to |allEdges|
        invariant corrections == Selected(syndromes[..], allEdges[..i])
      {
        var edge := allEdges[i];
        assert allEdges[..i + 1][..i] == allEdges[..i];
        if syndromes[edge.u] == 1 && syndromes[edge.v] == 1 {
          corrections := corrections + [edge];
        }
      }
      assert allEdges[..|allEdges|] == allEdges;
    }

    /**
     * decode: select on the unmodified syndromes every edge whose two
     * endpoints are flagged, then flip both endpoints of each selected
     * edge, then succeed when no entry equals 1.
     */
    method Decode(syndromes: array<nat>) returns (success: bool, corrections: seq<Edge>)
      requires OnVertices(syndromes.Length, allEdges)
      modifies syndromes
      ensures corrections == Selected(old(syndromes[..]), allEdges)
      ensures OnVertices(syndromes.Length, corrections)
      ensures syndromes[..] == Flipped(old(syndromes[..]), corrections)
      ensures success <==> forall x :: 0 <= x < syndromes.Length ==> syndromes[x] != 1
    {
      corrections := SelectFlagged(syndromes);
      SelectedSpec(syndromes[..], allEdges);
      FlipEndpoints(syndromes, corrections);
      success := NoneFlagged(syndromes);
    }
  }

  /** The second loop of decode: `syndromes[u] ^= 1; syndromes[v] ^= 1` for every correction. */
  method FlipEndpoints(syndromes: array<nat>, corrections: seq<Edge>)
    requires OnVertices(syndromes.Length, corrections)
    modifies syndromes
    ensures syndromes[..] == Flipped(old(syndromes[..]), corrections)
  {
    ghost var s0 := syndromes[..];
    for i := 0 to |corrections|
      invariant syndromes[..] == Flipped(s0, corrections[..i])
    {
      var edge := corrections[i];
      assert corrections[..i + 1][..i] == corrections[..i];
      syndromes[edge.u] := Xor1(syndromes[edge.u]);
      syndromes[edge.v] := Xor1(syndromes[edge.v]);
    }
    assert corrections[..|corrections|] == corrections;
  }

  /** The third loop of decode: success unless some entry equals 1. */
  method NoneFlagged(syndromes: array<nat>) returns (success: bool)
    ensures success <==> forall x :: 0 <= x < syndromes.Length ==> syndromes[x] != 1
  {
    success := true;
    var x := 0;
    while x < syndromes.Length
      invariant 0 <= x <= syndromes.Length
      invariant success && forall y :: 0 <= y < x ==> syndromes[y] != 1
    {
      if syndromes[x] == 1 {
        success := false;
        break;
      }
      x := x + 1;
    }
  }

  /** On an all-zero syndrome the lazy decoder succeeds with no corrections and changes nothing. */
  lemma DecodeOfZero(s: seq<nat>, es: seq<Edge>)
    requires Zero(s) && OnVertices(|s|, es)
    ensures Selected(s, es) == []
    ensures Flipped(s, Selected(s, es)) == s
    ensures forall x :: 0 <= x < |s| ==> Flipped(s, Selected(s, es))[x] != 1
  {
    SelectedOfZero(s, es);
  }
}
