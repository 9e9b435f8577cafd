// The L x L torus as a decoding graph (class Lattice2D, in its int, uint32
// and original copies). Vertex v has four neighbours: one row up, one row
// down, one column west and one column east, wrapping around the torus.
// The qubit of an edge is to_edge_idx, which the original copy computes as
// decoder_edge_to_qubit_idx(L, e, Z), the same function.

module Lattice2D {
  import opened Edges
  import opened Arith
  import opened Toric
  import Graphs

  function NumVertices(L: nat): nat { L * L }

  function NumEdges(L: nat): nat { 2 * L * L }

  /** vertex_connection_count: every vertex of the torus has four incident edges. */
  function ConnectionCount(v: nat): nat { 4 }

  /**
   * vertex_connections: the vertices at (row - 1, col), (row + 1, col),
   * (row, col - 1) and (row, col + 1), each coordinate taken modulo L.
   */
  function Connections(L: nat, v: nat): (ws: seq<nat>)
    requires L >= 1 && v < L * L
    ensures |ws| == ConnectionCount(v)
    ensures forall w <- ws :: w < L * L
  {
    NeighbourCoords(L, v);
    [Up(L, v) as nat, Down(L, v) as nat, WestOf(L, v) as nat, EastOf(L, v) as nat]
  }

  /** The four neighbours are one step away in one coordinate, wrapping around. */
  lemma ConnectionCoords(L: nat, v: nat)
    requires L >= 1 && v < L * L
    ensures var rc, ws := VertexToCoord(L, v), Connections(L, v);
      && VertexToCoord(L, ws[0]) == ((rc.0 - 1 + L) % L, rc.1)
      && VertexToCoord(L, ws[1]) == ((rc.0 + 1 + L) % L, rc.1)
      && VertexToCoord(L, ws[2]) == (rc.0, (rc.1 - 1 + L) % L)
      && VertexToCoord(L, ws[3]) == (rc.0, (rc.1 + 1 + L) % L)
  {
    NeighbourCoords(L, v);
  }

  /** edge_idx: the qubit of a lattice edge. */
  function EdgeIdx(L: nat, e: Edge): nat
    requires L >= 1
  {
    ToEdgeIdx(L, e)
  }

  /** w is a neighbour of v exactly when v is a neighbour of w. */
  lemma ConnectionsSymmetric(L: nat, v: nat, w: nat)
    requires L >= 1 && v < L * L && w in Connections(L, v)
    ensures v in Connections(L, w)
  {
    NeighbourInverse(L, v);
    var ws := Connections(L, w);
    assert ws == [Up(L, w) as nat, Down(L, w) as nat, WestOf(L, w) as nat, EastOf(L, w) as nat];
  }

  /** For L >= 2 no vertex is its own neighbour. */
  lemma NoSelfLoop(L: nat, v: nat)
    requires L >= 2 && v < L * L
    ensures v !in Connections(L, v)
  {
    var rc, ws := VertexToCoord(L, v), Connections(L, v);
    CoordBound(L, v);
    ConnectionCoords(L, v);
    assert ws[0] != v by { StepMoves(L, rc.0, -1); }
    assert ws[1] != v by { StepMoves(L, rc.0, 1); }
    assert ws[2] != v by { StepMoves(L, rc.1, -1); }
    assert ws[3] != v by { StepMoves(L, rc.1, 1); }
  }

  /**
   * For L >= 3 the edge between a vertex and a neighbour is the edge of a
   * qubit below num_edges, and to_edge gives the edge back from that qubit.
   */
  lemma ConnectionEdgeIdx(L: nat, v: nat, w: nat)
    requires L >= 3 && v < L * L && w in Connections(L, v)
    ensures EdgeIdx(L, MakeEdge(v, w)) < NumEdges(L)
    ensures ToEdge(L, EdgeIdx(L, MakeEdge(v, w))) == MakeEdge(v, w)
  {
    ToEdgeOfEdgeIdx(L, v, w);
  }

  /** For L >= 3, to_edge followed by edge_idx is the identity on the qubits. */
  lemma EdgeIdxRoundTrip(L: nat, i: nat)
    requires L >= 3 && i < NumEdges(L)
    ensures EdgeIdx(L, ToEdge(L, i)) == i
    ensures var e := ToEdge(L, i); e.u < L * L && e.v in Connections(L, e.u)
  {
    EdgeIdxOfToEdge(L, i);
    ToEdgeEndpoints(L, i);
  }

  /** The edge of every qubit joins a vertex with one of its neighbours. */
  lemma ToEdgeEndpoints(L: nat, i: nat)
    requires L >= 3 && i < NumEdges(L)
    ensures var e := ToEdge(L, i); e.u < L * L && e.v in Connections(L, e.u)
  {
    if i < L * L {
      VerticalQubitEndpoints(L, i);
    } else {
      HorizontalQubitEndpoints(L, i - L * L);
    }
  }

  lemma VerticalQubitEndpoints(L: nat, v: nat)
    requires L >= 1 && v < L * L
    ensures var e := ToEdge(L, v); e.u < L * L && e.v in Connections(L, e.u)
  {
    ToEdgeShape(L, v);
    StepBack(L, v, -1, 0);
    var a := Up(L, v) as nat;
    assert v == Down(L, a);
    assert v in Connections(L, a) && a in Connections(L, v);
  }

  lemma HorizontalQubitEndpoints(L: nat, v: nat)
    requires L >= 1 && v < L * L
    ensures var e := ToEdge(L, L * L + v); e.u < L * L && e.v in Connections(L, e.u)
  {
    ToEdgeShape(L, v);
    StepBack(L, v, 0, 1);
    var b := EastOf(L, v) as nat;
    assert v == WestOf(L, b);
    assert v in Connections(L, b) && b in Connections(L, v);
  }

  /** For L >= 3 the four neighbours are pairwise distinct. */
  lemma ConnectionsDistinct(L: nat, v: nat)
    requires L >= 3 && v < L * L
    ensures forall j, k :: 0 <= j < k < 4 ==> Connections(L, v)[j] != Connections(L, v)[k]
  {
    var rc := VertexToCoord(L, v);
    CoordBound(L, v);
    ConnectionCoords(L, v);
    StepMoves(L, rc.0, -1);
    StepMoves(L, rc.0, 1);
    StepsApart(L, rc.0);
    StepsApart(L, rc.1);
  }

  // ---------------------------------------------------------------------
  // The torus as the decoder reads it

  /** The edges of the qubits: the pairs edge_idx numbers. */
  function Qubits(L: nat): set<Edge>
    requires L >= 1
  {
    set i: nat | i < NumEdges(L) :: ToEdge(L, i)
  }

  /** The lattice queries of the L x L torus, tabulated as the decoder calls them. */
  function AsGraph(L: nat): Graphs.Graph
    requires L >= 1
  {
    Graphs.Graph(NumVertices(L), NumEdges(L),
                 seq(L * L, v requires 0 <= v < L * L => Connections(L, v)),
                 seq(L * L, v requires 0 <= v => ConnectionCount(v)),
                 map e | e in Qubits(L) :: EdgeIdx(L, e))
  }

  /**
   * From L = 3 on the torus meets everything the decoder assumes of its
   * lattice: symmetric loop-free adjacency without repeated neighbours,
   * counts that match the lists, and an edge_idx that numbers every
   * lattice edge below num_edges and tells them apart.
   */
  lemma AsGraphSimple(L: nat)
    requires L >= 3
    ensures Graphs.Simple(AsGraph(L))
  {
    var g := AsGraph(L);
    forall v: nat, w: nat {:trigger w in g.connections[v]} | v < g.numVertices && w in g.connections[v]
      ensures && w < g.numVertices && w != v && v in g.connections[w]
              && MakeEdge(v, w) in g.edgeIdx && g.edgeIdx[MakeEdge(v, w)] < g.numEdges
    {
      NoSelfLoop(L, v);
      ConnectionsSymmetric(L, v, w);
      ConnectionEdgeIdx(L, v, w);
      assert MakeEdge(v, w) in Qubits(L) by {
        var i := EdgeIdx(L, MakeEdge(v, w));
        assert ToEdge(L, i) == MakeEdge(v, w);
      }
    }
    forall v: nat, j, k | v < g.numVertices && 0 <= j < k < |g.connections[v]|
      ensures g.connections[v][j] != g.connections[v][k]
    {
      ConnectionsDistinct(L, v);
    }
    forall e1, e2 | && Graphs.IsLatticeEdge(g, e1) && Graphs.IsLatticeEdge(g, e2) && e1 in g.edgeIdx && e2 in g.edgeIdx
                    && g.edgeIdx[e1] == g.edgeIdx[e2]
      ensures e1 == e2
    {
      var i1: nat :| i1 < NumEdges(L) && ToEdge(L, i1) == e1;
      var i2: nat :| i2 < NumEdges(L) && ToEdge(L, i2) == e2;
      EdgeIdxRoundTrip(L, i1);
      EdgeIdxRoundTrip(L, i2);
    }
  }

  /**
   * At L = 2 the rows above and below a vertex are the same row, so vertex 0
   * lists vertex 2 twice and the torus is a multigraph.
   */
  lemma TwoNotSimple()
    ensures Connections(2, 0)[0] == Connections(2, 0)[1] == 2
    ensures !Graphs.Simple(AsGraph(2))
  {
    var ws := Connections(2, 0);
    assert ws[0] == 2 && ws[1] == 2;
    var g := AsGraph(2);
    assert g.connections[0] == ws;
  }

  /**
   * vertex_connections of the uint32 copy: row - 1 and col - 1 wrap around
   * 2^32 before to_vertex_index adds L back.
   */
  function ConnectionsU32(L: uint32, v: uint32): seq<uint32>
    requires L >= 1
  {
    var row: uint32 := v / L;
    var col: uint32 := v % L;
    [ ToVertexIndexU32(L, Wrap(row - 1), col), ToVertexIndexU32(L, Wrap(row + 1), col),
      ToVertexIndexU32(L, row, Wrap(col - 1)), ToVertexIndexU32(L, row, Wrap(col + 1)) ]
  }

  /** When the vertex count fits in 32 bits, the uint32 neighbours are the int ones. */
  lemma ConnectionsU32Agrees(L: uint32, v: uint32)
    requires L >= 1 && L * L <= U32 && v < L * L
    ensures ConnectionsU32(L, v) == Connections(L, v)
  {
    var row, col := v / L, v % L;
    CoordBound(L, v);
    SquareLess(L, 65537);
    WrapSmall(row);
    WrapSmall(col);
    calc {
      ConnectionsU32(L, v);
      [ ToVertexIndexU32(L, Wrap(row - 1), col), ToVertexIndexU32(L, Wrap(row + 1), col),
        ToVertexIndexU32(L, row, Wrap(col - 1)), ToVertexIndexU32(L, row, Wrap(col + 1)) ];
      { ToVertexIndexU32Agrees(L, row - 1, col);
        ToVertexIndexU32Agrees(L, row + 1, col);
        ToVertexIndexU32Agrees(L, row, col - 1);
        ToVertexIndexU32Agrees(L, row, col + 1); }
      [Up(L, v) as nat, Down(L, v) as nat, WestOf(L, v) as nat, EastOf(L, v) as nat];
      Connections(L, v);
    }
  }
}
