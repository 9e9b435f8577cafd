// The cubic lattice of repeated syndrome measurement (class LatticeCubic, in
// its uint32, int and original copies): L layers of the L x L torus stacked
// in time. Vertex (row, col, h) is h * L*L + row * L + col. Layer h has the
// 2L*L space-like qubits of the torus at 3L*L*h .. 3L*L*h + 2L*L - 1 and, when
// h < L - 1, the L*L time-like qubits joining it to layer h + 1 right after.

module LatticeCubic {
  import opened Edges
  import opened Arith
  import Toric
  import Lattice2D
  import Graphs

  function NumVertices(L: nat): nat { L * L * L }

  /** The last layer has no time-like qubits above it. */
  function NumEdges(L: nat): int { 3 * L * L * L - L * L }

  /** The layer v / (L*L) of a vertex. */
  function Layer(L: nat, v: nat): nat
    requires L >= 1
  {
    MulAtLeast(L, L);
    DivBounds(v, L * L);
    v / (L * L)
  }

  /** The position v % (L*L) of a vertex inside its layer: a vertex of the torus. */
  function Offset(L: nat, v: nat): nat
    requires L >= 1
  {
    MulAtLeast(L, L);
    DivBounds(v, L * L);
    v % (L * L)
  }

  /** The first vertex h * (L*L) of layer h. */
  function LayerStart(L: nat, h: nat): nat
    requires L >= 1
  {
    MulAtLeast(L, L);
    MulLeq(0, h, L * L);
    h * (L * L)
  }

  /** The first qubit 3L*L*h of layer h. */
  function QubitStart(L: nat, h: nat): nat
    requires L >= 1
  {
    MulAtLeast(L, L);
    MulLeq(0, h, 3 * L * L);
    3 * L * L * h
  }

  /** The block i / (3L*L) of a qubit: the layer it belongs to. */
  function BlockOf(L: nat, i: nat): nat
    requires L >= 1
  {
    MulAtLeast(L, L);
    DivBounds(i, 3 * L * L);
    i / (3 * L * L)
  }

  /** The place i % (3L*L) of a qubit inside its block. */
  function SlotOf(L: nat, i: nat): nat
    requires L >= 1
  {
    MulAtLeast(L, L);
    DivBounds(i, 3 * L * L);
    i % (3 * L * L)
  }

  /** L * row + col for the coordinates of u inside its layer, as the time-like qubit formula writes it. */
  function RowCol(L: nat, u: nat): nat
    requires L >= 1
  {
    MulLeq(0, (u / L) % L, L);
    L * ((u / L) % L) + u % L
  }

  /** to_vertex_index(row, col, h): the torus index of (row, col) plus h layers. */
  function ToVertexIndex(L: nat, row: int, col: int, h: nat): (r: int)
    requires L >= 1
    ensures 0 <= row + L && 0 <= col + L ==> 0 <= r
  {
    Toric.ToVertexIndex(L, row, col) + LayerStart(L, h)
  }

  /** vertex_connection_count: five on the first and the last layer, six in between. */
  function ConnectionCount(L: nat, v: nat): nat
    requires L >= 1
  {
    var h := Layer(L, v);
    if h == L - 1 || h == 0 then 5 else 6
  }

  /**
   * vertex_connections: the four torus neighbours inside the layer, then the
   * vertex one layer up when there is one, then the one a layer down.
   */
  function Connections(L: nat, v: nat): (ws: seq<nat>)
    requires L >= 1
  {
    Neighbours(L, (v / L) % L, v % L, Layer(L, v))
  }

  /** The neighbour list of the vertex at (row, col) of layer h. */
  function Neighbours(L: nat, row: nat, col: nat, h: nat): seq<nat>
    requires L >= 1
  {
    var res := [ ToVertexIndex(L, row - 1, col, h) as nat, ToVertexIndex(L, row + 1, col, h) as nat,
                 ToVertexIndex(L, row, col - 1, h) as nat, ToVertexIndex(L, row, col + 1, h) as nat ];
    var res' := if h < L - 1 then res + [ToVertexIndex(L, row, col, h + 1) as nat] else res;
    if h > 0 then res' + [ToVertexIndex(L, row, col, h - 1) as nat] else res'
  }

  // ---------------------------------------------------------------------
  // Layers and blocks

  /** Every vertex is the start of its layer, below L, plus its offset, a torus vertex. */
  lemma VertexLayers(L: nat, v: nat)
    requires L >= 1 && v < NumVertices(L)
    ensures Layer(L, v) < L && Offset(L, v) < L * L && L * L >= L
    ensures v == LayerStart(L, Layer(L, v)) + Offset(L, v)
    ensures (v / L) % L == Offset(L, v) / L && v % L == Offset(L, v) % L
  {
    LayerSplit(L, L * L, v);
    LayerBelow(L, L * L, v);
  }

  /** Offset p of layer h is the vertex LayerStart(h) + p. */
  lemma VertexOf(L: nat, h: nat, p: nat)
    requires L >= 1 && p < L * L
    ensures Layer(L, LayerStart(L, h) + p) == h && Offset(L, LayerStart(L, h) + p) == p
    ensures LayerStart(L, h + 1) == LayerStart(L, h) + L * L
    ensures h < L ==> LayerStart(L, h) + p < NumVertices(L)
  {
    LayerIndex(L, L * L, h, p);
  }

  /** r < 3L*L is the r-th qubit of block h. */
  lemma QubitOf(L: nat, h: nat, r: nat)
    requires L >= 1 && r < 3 * L * L
    ensures BlockOf(L, QubitStart(L, h) + r) == h && SlotOf(L, QubitStart(L, h) + r) == r
  {
    QubitBlock(L, L * L, h, r);
  }

  /** A qubit splits into its block h < L and its index r inside the block; time-like ones have h < L - 1. */
  lemma QubitSplit(L: nat, i: nat)
    requires L >= 1 && i < NumEdges(L)
    ensures var h, r := BlockOf(L, i), SlotOf(L, i);
      && 0 <= h < L && 0 <= r < 3 * L * L && i == QubitStart(L, h) + r
      && (r >= 2 * L * L ==> h < L - 1)
  {
    QubitDecompose(L, i);
  }

  /** The space-like qubits of a block below L and the time-like ones of a block below L - 1 exist. */
  lemma QubitBounds(L: nat, h: nat, r: nat)
    requires L >= 1
    ensures h < L && r < 2 * L * L ==> QubitStart(L, h) + r < NumEdges(L)
    ensures h < L - 1 && r < L * L ==> QubitStart(L, h) + 2 * L * L + r < NumEdges(L)
  {
    if h < L && r < 2 * L * L {
      SpaceQubitBound(L, L * L, h, r);
    }
    if h < L - 1 && r < L * L {
      TimeQubitBound(L, L * L, h, r);
    }
  }

  // ---------------------------------------------------------------------
  // Neighbours

  /**
   * The neighbour list of vertex LayerStart(h) + p: the torus neighbours of p
   * moved to layer h, then v + L*L when h < L - 1, then v - L*L when h > 0.
   */
  lemma ConnectionsShape(L: nat, v: nat)
    requires L >= 1 && v < NumVertices(L)
    ensures var ws, h, p := Connections(L, v), Layer(L, v), Offset(L, v);
      var flat := Lattice2D.Connections(L, p);
      && |ws| == 4 + (if h < L - 1 then 1 else 0) + (if h > 0 then 1 else 0)
      && (forall k :: 0 <= k < 4 ==> ws[k] == flat[k] + LayerStart(L, h))
      && (h < L - 1 ==> ws[4] == v + L * L)
      && (h > 0 ==> ws[|ws| - 1] == v - L * L)
  {
    VertexLayers(L, v);
    var h, p := Layer(L, v), Offset(L, v);
    Toric.CoordRoundTrip(L, p);
    Toric.NeighbourCoords(L, p);
    VertexOf(L, h, p);
    if h > 0 {
      VertexOf(L, h - 1, p);
    }
  }

  /** Four neighbours in the layer, one more above unless on the top layer, one more below unless on the bottom one. */
  lemma ConnectionsLength(L: nat, v: nat)
    requires L >= 1
    ensures var h := Layer(L, v);
      |Connections(L, v)| == 4 + (if h < L - 1 then 1 else 0) + (if h > 0 then 1 else 0)
  {
  }

  /** From L = 2 on, the count is the length of the neighbour list (at L = 1 the one layer is both first and last). */
  lemma CountMatches(L: nat, v: nat)
    requires L >= 2 && v < NumVertices(L)
    ensures |Connections(L, v)| == ConnectionCount(L, v)
  {
    ConnectionsLength(L, v);
    VertexLayers(L, v);
  }

  /** w is a neighbour of v, as ConnectionsMembers characterises the neighbour list. */
  predicate Adjacent(L: nat, v: nat, w: nat)
    requires L >= 1
  {
    var h, p := Layer(L, v), Offset(L, v);
    (Layer(L, w) == h && p < L * L && Offset(L, w) in Lattice2D.Connections(L, p))
    || (h < L - 1 && w == v + L * L) || (h > 0 && w == v - L * L)
  }

  /**
   * Membership in the neighbour list: a vertex of the same layer whose offset
   * is a torus neighbour of v's offset, or the vertex straight above or below.
   */
  lemma ConnectionsMembers(L: nat, v: nat, w: nat)
    requires L >= 1 && v < NumVertices(L)
    ensures w in Connections(L, v) <==> Adjacent(L, v, w)
  {
    if w in Connections(L, v) {
      MemberAdjacent(L, v, w);
    } else {
      AdjacentMember(L, v, w);
    }
  }

  lemma MemberAdjacent(L: nat, v: nat, w: nat)
    requires L >= 1 && v < NumVertices(L) && w in Connections(L, v)
    ensures Adjacent(L, v, w)
  {
    var h, p := Layer(L, v), Offset(L, v);
    var ws := Connections(L, v);
    VertexLayers(L, v);
    var flat := Lattice2D.Connections(L, p);
    ConnectionsShape(L, v);
    var k :| 0 <= k < |ws| && ws[k] == w;
    if k < 4 {
      assert flat[k] in flat;
      VertexOf(L, h, flat[k]);
    }
  }

  lemma AdjacentMember(L: nat, v: nat, w: nat)
    requires L >= 1 && v < NumVertices(L)
    ensures Adjacent(L, v, w) ==> w in Connections(L, v)
  {
    var h, p := Layer(L, v), Offset(L, v);
    var ws := Connections(L, v);
    VertexLayers(L, v);
    var flat := Lattice2D.Connections(L, p);
    ConnectionsShape(L, v);
    if Layer(L, w) == h && Offset(L, w) in flat {
      var k :| 0 <= k < 4 && flat[k] == Offset(L, w);
      LayerSplit(L, L * L, w);
      assert ws[k] == w;
    } else if h < L - 1 && w == v + L * L {
      assert ws[4] == w;
    } else if h > 0 && w == v - L * L {
      assert ws[|ws| - 1] == w;
    }
  }

  /** Every neighbour is a vertex of the lattice. */
  lemma ConnectionsBound(L: nat, v: nat, w: nat)
    requires L >= 1 && v < NumVertices(L) && w in Connections(L, v)
    ensures w < NumVertices(L)
  {
    ConnectionsMembers(L, v, w);
    AdjacentBound(L, v, w);
  }

  lemma AdjacentBound(L: nat, v: nat, w: nat)
    requires L >= 1 && v < NumVertices(L) && Adjacent(L, v, w)
    ensures w < NumVertices(L)
  {
    var h, p := Layer(L, v), Offset(L, v);
    VertexLayers(L, v);
    LayerSplit(L, L * L, w);
    VertexOf(L, h, Offset(L, w));
    VertexOf(L, h + 1, p);
  }

  /** w is a neighbour of v exactly when v is a neighbour of w. */
  lemma ConnectionsSymmetric(L: nat, v: nat, w: nat)
    requires L >= 1 && v < NumVertices(L) && w in Connections(L, v)
    ensures v in Connections(L, w)
  {
    ConnectionsMembers(L, v, w);
    ConnectionsBound(L, v, w);
    AdjacentSymmetric(L, v, w);
    ConnectionsMembers(L, w, v);
  }

  lemma AdjacentSymmetric(L: nat, v: nat, w: nat)
    requires L >= 1 && v < NumVertices(L) && w < NumVertices(L) && Adjacent(L, v, w)
    ensures Adjacent(L, w, v)
  {
    var h, p := Layer(L, v), Offset(L, v);
    VertexLayers(L, v);
    VertexLayers(L, w);
    if Layer(L, w) == h && Offset(L, w) in Lattice2D.Connections(L, p) {
      Lattice2D.ConnectionsSymmetric(L, p, Offset(L, w));
    } else if h < L - 1 && w == v + L * L {
      VertexOf(L, h + 1, p);
    } else {
      VertexOf(L, h - 1, p);
    }
  }

  /** For L >= 2 no vertex is its own neighbour. */
  lemma NoSelfLoop(L: nat, v: nat)
    requires L >= 2 && v < NumVertices(L)
    ensures v !in Connections(L, v)
  {
    VertexLayers(L, v);
    ConnectionsMembers(L, v, v);
    Lattice2D.NoSelfLoop(L, Offset(L, v));
  }

  // ---------------------------------------------------------------------
  // Qubits

  /**
   * edge_idx: a space-like edge is the torus qubit of its endpoints within
   * the layer, offset by 3L*L per layer below; a time-like edge is numbered
   * after the 2L*L space-like qubits of the layer of its lower endpoint.
   */
  function EdgeIdx(L: nat, e: Edge): nat
    requires L >= 1
  {
    var uh := Layer(L, e.u);
    if Layer(L, e.u) == Layer(L, e.v) then
      Toric.ToEdgeIdx(L, MakeEdge(Offset(L, e.u), Offset(L, e.v))) + QubitStart(L, uh)
    else
      QubitStart(L, uh) + 2 * L * L + RowCol(L, e.u)
  }

  /** to_edge: the qubit's layer, then either a torus edge in it or the time-like edge above a vertex. */
  function ToEdge(L: nat, i: nat): (e: Edge)
    requires L >= 1
    ensures Normalized(e)
  {
    var h := BlockOf(L, i);
    var layerIdx := SlotOf(L, i);
    if layerIdx >= 2 * L * L then
      var rc := Toric.VertexToCoord(L, layerIdx - 2 * L * L);
      MakeEdge(ToVertexIndex(L, rc.0, rc.1, h) as nat, ToVertexIndex(L, rc.0, rc.1, h + 1) as nat)
    else
      var e2 := Toric.ToEdge(L, layerIdx);
      MakeEdge(e2.u + LayerStart(L, h), e2.v + LayerStart(L, h))
  }

  /** L * row + col of a vertex is its offset inside its layer. */
  lemma RowColOffset(L: nat, u: nat)
    requires L >= 1
    ensures RowCol(L, u) == Offset(L, u)
  {
    LayerSplit(L, L * L, u);
    Decompose(L, u % (L * L));
  }

  /** The space-like edge between p and x in layer h is qubit QubitStart(h) plus the torus qubit of the edge. */
  lemma SpaceEdgeIdx(L: nat, h: nat, p: nat, x: nat)
    requires L >= 1 && p < L * L && x < L * L
    ensures EdgeIdx(L, MakeEdge(LayerStart(L, h) + p, LayerStart(L, h) + x))
      == QubitStart(L, h) + Toric.ToEdgeIdx(L, MakeEdge(p, x))
  {
    var a, b := LayerStart(L, h) + p, LayerStart(L, h) + x;
    VertexOf(L, h, p);
    VertexOf(L, h, x);
    var e := MakeEdge(a, b);
    assert MakeEdge(e.u % (L * L), e.v % (L * L)) == MakeEdge(p, x) by {
      MakeEdgeSymmetric(p, x);
    }
  }

  /** A space-like qubit QubitStart(h) + q is the torus edge of qubit q moved to layer h. */
  lemma SpaceEdgeBack(L: nat, h: nat, q: nat)
    requires L >= 1 && q < 2 * L * L
    ensures var e2 := Toric.ToEdge(L, q);
      ToEdge(L, QubitStart(L, h) + q) == MakeEdge(e2.u + LayerStart(L, h), e2.v + LayerStart(L, h))
  {
    SpaceQubitOf(L, h, q);
  }

  lemma SpaceQubitOf(L: nat, h: nat, q: nat)
    requires L >= 1 && q < 2 * L * L
    ensures BlockOf(L, QubitStart(L, h) + q) == h && SlotOf(L, QubitStart(L, h) + q) == q
  {
    MulAtLeast(L, L);
    QubitOf(L, h, q);
  }

  /**
   * The space-like edge between p and its torus neighbour x in layer h is
   * qubit QubitStart(h) plus the torus qubit of the edge, and to_edge gives it back.
   */
  lemma SpaceEdge(L: nat, h: nat, p: nat, x: nat)
    requires L >= 3 && h < L && p < L * L && x in Lattice2D.Connections(L, p)
    ensures var i := EdgeIdx(L, MakeEdge(LayerStart(L, h) + p, LayerStart(L, h) + x));
      && i == QubitStart(L, h) + Lattice2D.EdgeIdx(L, MakeEdge(p, x))
      && i < NumEdges(L)
      && ToEdge(L, i) == MakeEdge(LayerStart(L, h) + p, LayerStart(L, h) + x)
  {
    SpaceEdgeIdx(L, h, p, x);
    Lattice2D.ConnectionEdgeIdx(L, p, x);
    var q := Lattice2D.EdgeIdx(L, MakeEdge(p, x));
    QubitBounds(L, h, q);
    SpaceEdgeBack(L, h, q);
    var s := LayerStart(L, h);
    assert MakeEdge(MakeEdge(p, x).u + s, MakeEdge(p, x).v + s) == MakeEdge(s + p, s + x) by {
      MakeEdgeSymmetric(p, x);
      MakeEdgeSymmetric(s + p, s + x);
    }
  }

  /** The time-like edge from vertex p of layer h up to layer h + 1 is qubit QubitStart(h) + 2L*L + p. */
  lemma TimeEdgeIdx(L: nat, h: nat, p: nat)
    requires L >= 1 && p < L * L
    ensures EdgeIdx(L, MakeEdge(LayerStart(L, h) + p, LayerStart(L, h + 1) + p))
      == QubitStart(L, h) + 2 * L * L + p
  {
    var a, b := LayerStart(L, h) + p, LayerStart(L, h + 1) + p;
    VertexOf(L, h, p);
    VertexOf(L, h + 1, p);
    assert MakeEdge(a, b) == Edge(a, b);
    RowColOffset(L, a);
  }

  /** Qubit QubitStart(h) + 2L*L + p is the time-like edge from vertex p of layer h up to layer h + 1. */
  lemma TimeEdgeBack(L: nat, h: nat, p: nat)
    requires L >= 1 && p < L * L
    ensures ToEdge(L, QubitStart(L, h) + 2 * L * L + p) == MakeEdge(LayerStart(L, h) + p, LayerStart(L, h + 1) + p)
  {
    TimeQubitOf(L, h, p);
    var rc := Toric.VertexToCoord(L, p);
    assert ToVertexIndex(L, rc.0, rc.1, h) == LayerStart(L, h) + p by {
      Toric.CoordRoundTrip(L, p);
    }
    assert ToVertexIndex(L, rc.0, rc.1, h + 1) == LayerStart(L, h + 1) + p by {
      Toric.CoordRoundTrip(L, p);
    }
  }

  lemma TimeQubitOf(L: nat, h: nat, p: nat)
    requires L >= 1 && p < L * L
    ensures BlockOf(L, QubitStart(L, h) + 2 * L * L + p) == h
    ensures SlotOf(L, QubitStart(L, h) + 2 * L * L + p) == 2 * L * L + p
  {
    MulAtLeast(L, L);
    QubitOf(L, h, 2 * L * L + p);
  }

  /** The time-like edge above vertex p of layer h < L - 1 is qubit QubitStart(h) + 2L*L + p, and to_edge gives it back. */
  lemma TimeEdge(L: nat, h: nat, p: nat)
    requires L >= 1 && h < L - 1 && p < L * L
    ensures var i := EdgeIdx(L, MakeEdge(LayerStart(L, h) + p, LayerStart(L, h + 1) + p));
      && i == QubitStart(L, h) + 2 * L * L + p
      && i < NumEdges(L)
      && ToEdge(L, i) == MakeEdge(LayerStart(L, h) + p, LayerStart(L, h + 1) + p)
  {
    TimeEdgeIdx(L, h, p);
    TimeEdgeBack(L, h, p);
    QubitBounds(L, h, p);
  }

  /**
   * For L >= 3 the edge between a vertex and a neighbour is the edge of a
   * qubit below num_edges, and to_edge gives the edge back from that qubit.
   */
  lemma ConnectionEdgeIdx(L: nat, v: nat, w: nat)
    requires L >= 3 && v < NumVertices(L) && w in Connections(L, v)
    ensures EdgeIdx(L, MakeEdge(v, w)) < NumEdges(L)
    ensures ToEdge(L, EdgeIdx(L, MakeEdge(v, w))) == MakeEdge(v, w)
  {
    ConnectionsMembers(L, v, w);
    AdjacentEdgeIdx(L, v, w);
  }

  lemma AdjacentEdgeIdx(L: nat, v: nat, w: nat)
    requires L >= 3 && v < NumVertices(L) && Adjacent(L, v, w)
    ensures EdgeIdx(L, MakeEdge(v, w)) < NumEdges(L)
    ensures ToEdge(L, EdgeIdx(L, MakeEdge(v, w))) == MakeEdge(v, w)
  {
    var h, p := Layer(L, v), Offset(L, v);
    if Layer(L, w) == h && p < L * L && Offset(L, w) in Lattice2D.Connections(L, p) {
      SpaceAdjacentEdgeIdx(L, v, w);
    } else if h < L - 1 && w == v + L * L {
      UpAdjacentEdgeIdx(L, v);
    } else {
      DownAdjacentEdgeIdx(L, v);
      MakeEdgeSymmetric(v, w);
    }
  }

  /** Every vertex is the start of its layer plus its offset. */
  lemma VertexSplit(L: nat, w: nat)
    requires L >= 1
    ensures w == LayerStart(L, Layer(L, w)) + Offset(L, w)
  {
    LayerSplit(L, L * L, w);
  }

  lemma SpaceAdjacentEdgeIdx(L: nat, v: nat, w: nat)
    requires L >= 3 && v < NumVertices(L) && Layer(L, w) == Layer(L, v)
    requires Offset(L, v) < L * L && Offset(L, w) in Lattice2D.Connections(L, Offset(L, v))
    ensures EdgeIdx(L, MakeEdge(v, w)) < NumEdges(L)
    ensures ToEdge(L, EdgeIdx(L, MakeEdge(v, w))) == MakeEdge(v, w)
  {
    var h, p, x := Layer(L, v), Offset(L, v), Offset(L, w);
    assert h < L by {
      VertexLayers(L, v);
    }
    assert v == LayerStart(L, h) + p && w == LayerStart(L, h) + x by {
      VertexSplit(L, v);
      VertexSplit(L, w);
    }
    SpaceEdge(L, h, p, x);
  }

  lemma UpAdjacentEdgeIdx(L: nat, v: nat)
    requires L >= 3 && v < NumVertices(L) && Layer(L, v) < L - 1
    ensures EdgeIdx(L, MakeEdge(v, v + L * L)) < NumEdges(L)
    ensures ToEdge(L, EdgeIdx(L, MakeEdge(v, v + L * L))) == MakeEdge(v, v + L * L)
  {
    var h, p := Layer(L, v), Offset(L, v);
    VertexLayers(L, v);
    VertexOf(L, h, p);
    TimeEdge(L, h, p);
  }

  lemma DownAdjacentEdgeIdx(L: nat, v: nat)
    requires L >= 3 && v < NumVertices(L) && Layer(L, v) > 0
    ensures v >= L * L
    ensures EdgeIdx(L, MakeEdge(v - L * L, v)) < NumEdges(L)
    ensures ToEdge(L, EdgeIdx(L, MakeEdge(v - L * L, v))) == MakeEdge(v - L * L, v)
  {
    var h, p := Layer(L, v), Offset(L, v);
    VertexLayers(L, v);
    VertexOf(L, h - 1, p);
    TimeEdge(L, h - 1, p);
  }

  /** For L >= 3, to_edge followed by edge_idx is the identity on the qubits, and every qubit is a lattice edge. */
  lemma EdgeIdxRoundTrip(L: nat, i: nat)
    requires L >= 3 && i < NumEdges(L)
    ensures EdgeIdx(L, ToEdge(L, i)) == i
    ensures var e := ToEdge(L, i); e.u < NumVertices(L) && e.v in Connections(L, e.u)
  {
    var e := ToEdge(L, i);
    if SlotOf(L, i) >= 2 * L * L {
      var a := TimeQubit(L, i);
      UpNeighbour(L, a);
      assert e == Edge(a, a + L * L);
    } else {
      var h, p, x := SpaceQubit(L, i);
      SpaceNeighbour(L, h, p, x);
      assert e == Edge(LayerStart(L, h) + p, LayerStart(L, h) + x);
    }
  }

  /** A time-like qubit i is the edge from some vertex a below the top layer to a + L*L, and edge_idx numbers it back. */
  lemma TimeQubit(L: nat, i: nat) returns (a: nat)
    requires L >= 3 && i < NumEdges(L) && SlotOf(L, i) >= 2 * L * L
    ensures a < NumVertices(L) && Layer(L, a) < L - 1
    ensures EdgeIdx(L, ToEdge(L, i)) == i && ToEdge(L, i) == Edge(a, a + L * L)
  {
    QubitSplit(L, i);
    var h, p := BlockOf(L, i), SlotOf(L, i) - 2 * L * L;
    assert i == QubitStart(L, h) + 2 * L * L + p;
    a := TimeQubitRoundTrip(L, h, p);
  }

  /** A space-like qubit i of layer h is the edge between neighbours p <= x of the torus moved to layer h. */
  lemma SpaceQubit(L: nat, i: nat) returns (h: nat, p: nat, x: nat)
    requires L >= 3 && i < NumEdges(L) && SlotOf(L, i) < 2 * L * L
    ensures h < L && p < L * L && x in Lattice2D.Connections(L, p)
    ensures EdgeIdx(L, ToEdge(L, i)) == i && ToEdge(L, i) == Edge(LayerStart(L, h) + p, LayerStart(L, h) + x)
  {
    QubitSplit(L, i);
    h := BlockOf(L, i);
    var r := SlotOf(L, i);
    assert i == QubitStart(L, h) + r;
    var a, b := SpaceQubitRoundTrip(L, h, r);
    var e2 := Toric.ToEdge(L, r);
    p, x := e2.u, e2.v;
  }

  /** The time-like qubit above vertex p of layer h is the edge from a = LayerStart(h) + p to a + L*L. */
  lemma TimeQubitRoundTrip(L: nat, h: nat, p: nat) returns (a: nat)
    requires L >= 3 && h < L - 1 && p < L * L
    ensures a == LayerStart(L, h) + p && a < NumVertices(L) && Layer(L, a) == h && Layer(L, a) < L - 1
    ensures var i := QubitStart(L, h) + 2 * L * L + p;
      EdgeIdx(L, ToEdge(L, i)) == i && ToEdge(L, i) == Edge(a, a + L * L)
  {
    TimeEdge(L, h, p);
    a := LayerStart(L, h) + p;
    VertexOf(L, h, p);
    assert MakeEdge(a, LayerStart(L, h + 1) + p) == Edge(a, a + L * L);
  }

  /** The vertex straight above a vertex below the top layer is one of its neighbours. */
  lemma UpNeighbour(L: nat, a: nat)
    requires L >= 1 && a < NumVertices(L) && Layer(L, a) < L - 1
    ensures a + L * L in Connections(L, a)
  {
    assert Adjacent(L, a, a + L * L);
    ConnectionsMembers(L, a, a + L * L);
  }

  /** A space-like qubit of layer h is the torus edge of its slot, numbered back by edge_idx. */
  lemma SpaceQubitRoundTrip(L: nat, h: nat, r: nat) returns (a: nat, b: nat)
    requires L >= 3 && h < L && r < 2 * L * L
    ensures var e2 := Toric.ToEdge(L, r);
      && a == LayerStart(L, h) + e2.u && b == LayerStart(L, h) + e2.v
      && e2.u < L * L && e2.v in Lattice2D.Connections(L, e2.u) && e2.u <= e2.v
    ensures var i := QubitStart(L, h) + r;
      EdgeIdx(L, ToEdge(L, i)) == i && ToEdge(L, i) == Edge(a, b)
  {
    var e2 := Toric.ToEdge(L, r);
    Lattice2D.EdgeIdxRoundTrip(L, r);
    MakeEdgeOfNormalized(e2);
    SpaceEdgeBack(L, h, r);
    a, b := LayerStart(L, h) + e2.u, LayerStart(L, h) + e2.v;
    assert MakeEdge(a, b) == Edge(a, b);
    SpaceEdgeIdx(L, h, e2.u, e2.v);
  }

  /** Two torus neighbours p and x of layer h are neighbours in the cubic lattice. */
  lemma SpaceNeighbour(L: nat, h: nat, p: nat, x: nat)
    requires L >= 3 && h < L && p < L * L && x in Lattice2D.Connections(L, p)
    ensures var a, b := LayerStart(L, h) + p, LayerStart(L, h) + x;
      a < NumVertices(L) && b in Connections(L, a)
  {
    var a, b := LayerStart(L, h) + p, LayerStart(L, h) + x;
    VertexOf(L, h, p);
    VertexOf(L, h, x);
    assert Adjacent(L, a, b);
    ConnectionsMembers(L, a, b);
  }

  /** For L >= 3 no vertex lists a neighbour twice. */
  lemma ConnectionsDistinct(L: nat, v: nat)
    requires L >= 3 && v < NumVertices(L)
    ensures forall j, k :: 0 <= j < k < |Connections(L, v)| ==> Connections(L, v)[j] != Connections(L, v)[k]
  {
    var ws, h, p := Connections(L, v), Layer(L, v), Offset(L, v);
    VertexLayers(L, v);
    ConnectionsShape(L, v);
    Lattice2D.ConnectionsDistinct(L, p);
    var flat := Lattice2D.Connections(L, p);
    forall j, k | 0 <= j < k < |ws|
      ensures ws[j] != ws[k]
    {
      if k >= 4 {
        assert ws[k] == v + L * L || ws[k] + L * L == v;
        assert k == 5 ==> ws[4] == v + L * L && ws[5] + L * L == v;
        if j < 4 {
          assert LayerStart(L, h) <= ws[j] < LayerStart(L, h) + L * L;
        }
      }
    }
  }

  // ---------------------------------------------------------------------
  // The cubic lattice as the decoder reads it

  /** The edges of the qubits: the pairs edge_idx numbers. */
  function Qubits(L: nat): set<Edge>
    requires L >= 1
  {
    set i: nat | i < NumEdges(L) :: ToEdge(L, i)
  }

  /** The lattice queries of the cubic lattice, tabulated as the decoder calls them. */
  function AsGraph(L: nat): Graphs.Graph
    requires L >= 1
  {
    QubitBounds(L, 0, 0);
    Graphs.Graph(NumVertices(L), NumEdges(L) as nat,
                 seq(NumVertices(L), v requires 0 <= v < NumVertices(L) => Connections(L, v)),
                 seq(NumVertices(L), v requires 0 <= v => ConnectionCount(L, v)),
                 map e | e in Qubits(L) :: EdgeIdx(L, e))
  }

  /**
   * From L = 3 on the cubic lattice meets everything the decoder assumes of
   * its lattice: symmetric loop-free adjacency without repeated neighbours,
   * counts that match the lists, and an edge_idx that numbers every lattice
   * edge below num_edges and tells them apart.
   */
  lemma AsGraphSimple(L: nat)
    requires L >= 3
    ensures Graphs.Simple(AsGraph(L))
  {
    AsGraphAdjacency(L);
    AsGraphLists(L);
    AsGraphIdxInjective(L);
  }

  /** Neighbours are vertices, adjacency is symmetric and loop-free, and every lattice edge has a qubit. */
  lemma AsGraphAdjacency(L: nat)
    requires L >= 3
    ensures var g := AsGraph(L);
      forall v: nat, w: nat {:trigger w in g.connections[v]} :: v < g.numVertices && w in g.connections[v] ==>
        && w < g.numVertices && w != v && v in g.connections[w]
        && MakeEdge(v, w) in g.edgeIdx && g.edgeIdx[MakeEdge(v, w)] < g.numEdges
  {
    var g := AsGraph(L);
    forall v: nat, w: nat {:trigger w in g.connections[v]} | v < g.numVertices && w in g.connections[v]
      ensures && w < g.numVertices && w != v && v in g.connections[w]
              && MakeEdge(v, w) in g.edgeIdx && g.edgeIdx[MakeEdge(v, w)] < g.numEdges
    {
      NeighbourPair(L, v, w);
    }
  }

  /** The lists hold no neighbour twice and have the length vertex_connection_count gives. */
  lemma AsGraphLists(L: nat)
    requires L >= 3
    ensures var g := AsGraph(L);
      && |g.connections| == g.numVertices && |g.connectionCount| == g.numVertices
      && (forall v: nat :: v < g.numVertices ==> g.connectionCount[v] == |g.connections[v]|)
      && (forall v: nat, j, k :: v < g.numVertices && 0 <= j < k < |g.connections[v]| ==>
            g.connections[v][j] != g.connections[v][k])
  {
    var g := AsGraph(L);
    forall v: nat | v < g.numVertices
      ensures g.connectionCount[v] == |g.connections[v]|
    {
      CountMatches(L, v);
    }
    forall v: nat, j, k | v < g.numVertices && 0 <= j < k < |g.connections[v]|
      ensures g.connections[v][j] != g.connections[v][k]
    {
      ConnectionsDistinct(L, v);
    }
  }

  /** edge_idx tells the lattice edges apart. */
  lemma AsGraphIdxInjective(L: nat)
    requires L >= 3
    ensures var g := AsGraph(L);
      forall e1, e2 ::
        (Graphs.IsLatticeEdge(g, e1) && Graphs.IsLatticeEdge(g, e2) && e1 in g.edgeIdx && e2 in g.edgeIdx
         && g.edgeIdx[e1] == g.edgeIdx[e2]) ==> e1 == e2
  {
    var g := AsGraph(L);
    forall e1, e2 | && Graphs.IsLatticeEdge(g, e1) && Graphs.IsLatticeEdge(g, e2) && e1 in g.edgeIdx && e2 in g.edgeIdx
                    && g.edgeIdx[e1] == g.edgeIdx[e2]
      ensures e1 == e2
    {
      var i1: nat :| i1 < NumEdges(L) && ToEdge(L, i1) == e1;
      var i2: nat :| i2 < NumEdges(L) && ToEdge(L, i2) == e2;
      EdgeIdxRoundTrip(L, i1);
      EdgeIdxRoundTrip(L, i2);
    }
  }

  /** A neighbour pair is a pair of distinct vertices, listed both ways, whose edge is a qubit's. */
  lemma NeighbourPair(L: nat, v: nat, w: nat)
    requires L >= 3 && v < NumVertices(L) && w in Connections(L, v)
    ensures w < NumVertices(L) && w != v && v in Connections(L, w)
    ensures MakeEdge(v, w) in Qubits(L) && EdgeIdx(L, MakeEdge(v, w)) < NumEdges(L)
  {
    ConnectionsBound(L, v, w);
    NoSelfLoop(L, v);
    ConnectionsSymmetric(L, v, w);
    ConnectionEdgeIdx(L, v, w);
    var i := EdgeIdx(L, MakeEdge(v, w));
    assert ToEdge(L, i) == MakeEdge(v, w);
  }

  // ---------------------------------------------------------------------
  // The uint32 copy

  /** to_vertex_index(row, col, h) of the uint32 copy: every + and * is taken modulo 2^32. */
  function ToVertexIndexU32(L: Toric.uint32, row: Toric.uint32, col: Toric.uint32, h: Toric.uint32): Toric.uint32
    requires L >= 1
  {
    Toric.Wrap(Toric.ToVertexIndexU32(L, row, col) + Toric.Wrap(h * Toric.Wrap(L * L)))
  }

  /**
   * The uint32 neighbour list of the vertex at (row, col) of layer h:
   * row - 1 and col - 1 wrap around 2^32, and so may every product.
   */
  function NeighboursU32(L: Toric.uint32, row: Toric.uint32, col: Toric.uint32, h: Toric.uint32): seq<Toric.uint32>
    requires L >= 1
  {
    var res := [ ToVertexIndexU32(L, Toric.Wrap(row - 1), col, h), ToVertexIndexU32(L, Toric.Wrap(row + 1), col, h),
                 ToVertexIndexU32(L, row, Toric.Wrap(col - 1), h), ToVertexIndexU32(L, row, Toric.Wrap(col + 1), h) ];
    var res' := if h < L - 1 then res + [ToVertexIndexU32(L, row, col, Toric.Wrap(h + 1))] else res;
    if h > 0 then res' + [ToVertexIndexU32(L, row, col, h - 1)] else res'
  }

  /**
   * vertex_connections of the uint32 copy: the layer is v / (L*L) in 32-bit
   * arithmetic, which needs L*L non-zero modulo 2^32.
   */
  function ConnectionsU32(L: Toric.uint32, v: Toric.uint32): seq<Toric.uint32>
    requires L >= 1 && Toric.Wrap(L * L) != 0
  {
    NeighboursU32(L, (v / L) % L, v % L, v / Toric.Wrap(L * L))
  }

  /** One entry: when the int result fits in 32 bits, the uint32 to_vertex_index agrees with it. */
  lemma ToVertexIndexU32Agrees(L: Toric.uint32, row: int, col: int, h: nat)
    requires L >= 1 && L * L < Toric.U32 && 0 <= row + L < Toric.U32 && 0 <= col + L < Toric.U32
    requires ToVertexIndex(L, row, col, h) < Toric.U32
    ensures Toric.Wrap(h) == h
    ensures ToVertexIndexU32(L, Toric.Wrap(row), Toric.Wrap(col), Toric.Wrap(h)) == ToVertexIndex(L, row, col, h)
  {
    var t := Toric.ToVertexIndex(L, row, col);
    var s := LayerStart(L, h);
    assert 0 <= t && ToVertexIndex(L, row, col, h) == t + s;
    LayerStartWraps(L, h, t);
    calc {
      ToVertexIndexU32(L, Toric.Wrap(row), Toric.Wrap(col), Toric.Wrap(h));
      Toric.Wrap(Toric.ToVertexIndexU32(L, Toric.Wrap(row), Toric.Wrap(col)) + Toric.Wrap(h * Toric.Wrap(L * L)));
      { Toric.ToVertexIndexU32Agrees(L, row, col); }
      Toric.Wrap(t + s);
      { Toric.WrapSmall(t + s); }
      t + s;
    }
  }

  /** A layer start that fits in 32 bits is computed exactly by the uint32 product h * (L * L). */
  lemma LayerStartWraps(L: Toric.uint32, h: nat, t: nat)
    requires L >= 1 && L * L < Toric.U32 && t + LayerStart(L, h) < Toric.U32
    ensures Toric.Wrap(h) == h && Toric.Wrap(h * Toric.Wrap(L * L)) == LayerStart(L, h)
  {
    var s := LayerStart(L, h);
    Toric.WrapSmall(L * L);
    Toric.WrapSmall(s);
    assert h <= s by {
      MulAtLeast(L, L);
      MulLeq(1, L * L, h);
    }
    Toric.WrapSmall(h);
  }

  /** Every index the neighbour formulas produce from a vertex of layer h < L is a vertex. */
  lemma EntryBound(L: nat, row: int, col: int, h: nat)
    requires L >= 1 && 0 <= row + L && 0 <= col + L && h < L
    ensures ToVertexIndex(L, row, col, h) < NumVertices(L)
  {
    VertexOf(L, h, Toric.ToVertexIndex(L, row, col));
  }

  /** When the vertex count fits in 32 bits, the uint32 neighbours are the int ones. */
  lemma ConnectionsU32Agrees(L: Toric.uint32, v: Toric.uint32)
    requires L >= 1 && L * L * L <= Toric.U32 && v < NumVertices(L)
    ensures Toric.Wrap(L * L) == L * L && ConnectionsU32(L, v) == Connections(L, v)
  {
    LayerU32(L, v);
    var row, col, h := (v / L) % L, v % L, Layer(L, v);
    NeighboursAgree(L, row, col, h);
  }

  /** The coordinates the uint32 code reads off a vertex are the int ones, all below L. */
  lemma LayerU32(L: Toric.uint32, v: Toric.uint32)
    requires L >= 1 && L * L * L <= Toric.U32 && v < NumVertices(L)
    ensures L * L < Toric.U32 && Toric.Wrap(L * L) == L * L
    ensures v / Toric.Wrap(L * L) == Layer(L, v) < L && (v / L) % L < L && v % L < L
  {
    SquareFits(L);
    VertexLayers(L, v);
  }

  /** When L*L*L fits in 32 bits, so does L*L, unchanged by the reduction. */
  lemma SquareFits(L: Toric.uint32)
    requires L >= 1 && L * L * L <= Toric.U32
    ensures L <= L * L < Toric.U32 && Toric.Wrap(L * L) == L * L
  {
    MulAtLeast(L, L);
    if L >= 2 {
      MulLeq(2, L, L * L);
    }
    Toric.WrapSmall(L * L);
  }

  /** The uint32 neighbour list of a vertex (row, col, h) of the lattice is the int one. */
  lemma NeighboursAgree(L: Toric.uint32, row: Toric.uint32, col: Toric.uint32, h: Toric.uint32)
    requires L >= 1 && L * L * L <= Toric.U32 && L * L < Toric.U32 && row < L && col < L && h < L
    ensures NeighboursU32(L, row, col, h) == Neighbours(L, row, col, h)
  {
    Toric.WrapSmall(row);
    Toric.WrapSmall(col);
    Toric.WrapSmall(h);
    var res32 := [ ToVertexIndexU32(L, Toric.Wrap(row - 1), col, h), ToVertexIndexU32(L, Toric.Wrap(row + 1), col, h),
                   ToVertexIndexU32(L, row, Toric.Wrap(col - 1), h), ToVertexIndexU32(L, row, Toric.Wrap(col + 1), h) ];
    var res := [ ToVertexIndex(L, row - 1, col, h) as nat, ToVertexIndex(L, row + 1, col, h) as nat,
                 ToVertexIndex(L, row, col - 1, h) as nat, ToVertexIndex(L, row, col + 1, h) as nat ];
    assert res32 == res by {
      EntryAgrees(L, row - 1, col, h);
      EntryAgrees(L, row + 1, col, h);
      EntryAgrees(L, row, col - 1, h);
      EntryAgrees(L, row, col + 1, h);
    }
    if h < L - 1 {
      EntryAgrees(L, row, col, h + 1);
    }
    if h > 0 {
      EntryAgrees(L, row, col, h - 1);
    }
  }

  /** One entry of the list, for a vertex of layer h < L. */
  lemma EntryAgrees(L: Toric.uint32, row: int, col: int, h: nat)
    requires L >= 1 && L * L * L <= Toric.U32 && L * L < Toric.U32
    requires -1 <= row <= L && -1 <= col <= L && h < L
    ensures Toric.Wrap(h) == h && Toric.Wrap(row) < Toric.U32 && Toric.Wrap(col) < Toric.U32
    ensures ToVertexIndexU32(L, Toric.Wrap(row), Toric.Wrap(col), Toric.Wrap(h)) == ToVertexIndex(L, row, col, h)
  {
    EntryBound(L, row, col, h);
    SquareLess(L, 65537);
    ToVertexIndexU32Agrees(L, row, col, h);
  }
}
