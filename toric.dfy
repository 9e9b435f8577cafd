// Index arithmetic of the L x L toric code: vertex numbering, edge
// geometry, qubit numbering and the vertices an error on a qubit flags.
//
// Vertex (row, col) is row * L + col. Qubit i < L*L is the vertical edge
// joining vertex i with the vertex above it; qubit L*L + i is the
// horizontal edge joining vertex i with its east neighbour. Arguments are
// unbounded integers; the wrap-around of the uint32 copies is written out
// in the *U32 functions.

module Toric {
  import opened Edges
  import opened Arith

  /** C++ `%` on int: truncates toward zero, so the remainder has the sign of the dividend. */
  function CMod(a: int, m: int): (r: int)
    requires m > 0
    ensures a >= 0 ==> r == a % m && 0 <= r < m
    ensures a < 0 ==> -m < r <= 0
  {
    if a >= 0 then a % m else -((-a) % m)
  }

  // ---------------------------------------------------------------------
  // Vertices

  /**
   * to_vertex_index: the vertex at (row, col), both wrapped onto the torus.
   * Any coordinate from -L upward is folded into [0, L).
   */
  function ToVertexIndex(L: nat, row: int, col: int): (r: int)
    requires L >= 1
    ensures 0 <= row + L && 0 <= col + L ==>
              0 <= r < L * L && r == ((row + L) % L) * L + (col + L) % L
  {
    if 0 <= row + L && 0 <= col + L then
      Cell(L, (row + L) % L, (col + L) % L);
      CMod(row + L, L) * L + CMod(col + L, L)
    else
      CMod(row + L, L) * L + CMod(col + L, L)
  }

  /** vertex_to_coord: the (row, col) of a vertex. */
  function VertexToCoord(L: nat, v: nat): (rc: (nat, nat))
    requires L >= 1
    ensures rc.0 * L + rc.1 == v && rc.1 < L
  {
    (v / L, v % L)
  }

  /** The coordinates of a vertex of the torus are both below L. */
  lemma CoordBound(L: nat, v: nat)
    requires L >= 1 && v < L * L
    ensures VertexToCoord(L, v).0 < L
  {
    Decompose(L, v);
  }

  /** vertex_to_coord of a cell gives the cell back. */
  lemma CoordOfCell(L: nat, r: nat, c: nat)
    requires L >= 1 && r < L && c < L
    ensures VertexToCoord(L, r * L + c) == (r, c)
  {
    Cell(L, r, c);
  }

  /** to_vertex_index inverts vertex_to_coord on [0, L*L). */
  lemma CoordRoundTrip(L: nat, v: nat)
    requires L >= 1 && v < L * L
    ensures ToVertexIndex(L, VertexToCoord(L, v).0, VertexToCoord(L, v).1) == v
  {
    var rc := VertexToCoord(L, v);
    CoordBound(L, v);
    WrapCoord(L, rc.0);
    WrapCoord(L, rc.1);
  }

  /** vertex_to_coord after to_vertex_index gives the wrapped coordinates. */
  lemma IndexRoundTrip(L: nat, row: int, col: int)
    requires L >= 1 && 0 <= row + L && 0 <= col + L
    ensures VertexToCoord(L, ToVertexIndex(L, row, col)) == ((row + L) % L, (col + L) % L)
  {
    CoordOfCell(L, (row + L) % L, (col + L) % L);
  }

  /** to_vertex_index is periodic in the row: (r + L, c) and (r, c) are the same vertex. */
  lemma ToVertexIndexPeriodic(L: nat, row: int, col: int)
    requires L >= 1 && 0 <= row + L && 0 <= col + L
    ensures ToVertexIndex(L, row + L, col) == ToVertexIndex(L, row, col)
  {
    ModShift(row + L, 1, L);
  }

  // ---------------------------------------------------------------------
  // The four neighbours of a vertex (the entries of vertex_connections)

  /** The vertex dr rows and dc columns away from v, wrapped onto the torus. */
  function Step(L: nat, v: nat, dr: int, dc: int): int
    requires L >= 1
  {
    var rc := VertexToCoord(L, v);
    ToVertexIndex(L, rc.0 + dr, rc.1 + dc)
  }

  function Up(L: nat, v: nat): int requires L >= 1 { Step(L, v, -1, 0) }
  function Down(L: nat, v: nat): int requires L >= 1 { Step(L, v, 1, 0) }
  function WestOf(L: nat, v: nat): int requires L >= 1 { Step(L, v, 0, -1) }
  function EastOf(L: nat, v: nat): int requires L >= 1 { Step(L, v, 0, 1) }

  /** One step in each coordinate lands on a torus vertex with the wrapped coordinates. */
  lemma StepCoord(L: nat, v: nat, dr: int, dc: int)
    requires L >= 1 && v < L * L && -1 <= dr <= 1 && -1 <= dc <= 1
    ensures var rc := VertexToCoord(L, v);
      && 0 <= Step(L, v, dr, dc) < L * L
      && VertexToCoord(L, Step(L, v, dr, dc) as nat) == ((rc.0 + dr + L) % L, (rc.1 + dc + L) % L)
  {
    var rc := VertexToCoord(L, v);
    CoordBound(L, v);
    var r: int, c: int := rc.0, rc.1;
    IndexRoundTrip(L, r + dr, c + dc);
  }

  /** Stepping back undoes a step. */
  lemma StepBack(L: nat, v: nat, dr: int, dc: int)
    requires L >= 1 && v < L * L && -1 <= dr <= 1 && -1 <= dc <= 1
    ensures 0 <= Step(L, v, dr, dc) < L * L
    ensures Step(L, Step(L, v, dr, dc) as nat, -dr, -dc) == v
  {
    var rc := VertexToCoord(L, v);
    CoordBound(L, v);
    StepCoord(L, v, dr, dc);
    StepBackCoord(L, rc.0, dr);
    StepBackCoord(L, rc.1, dc);
    CoordRoundTrip(L, v);
  }

  /** The coordinates of the four neighbours: one step in each direction, wrapped. */
  lemma NeighbourCoords(L: nat, v: nat)
    requires L >= 1 && v < L * L
    ensures var rc := VertexToCoord(L, v);
      && 0 <= Up(L, v) < L * L && VertexToCoord(L, Up(L, v) as nat) == ((rc.0 - 1 + L) % L, rc.1)
      && 0 <= Down(L, v) < L * L && VertexToCoord(L, Down(L, v) as nat) == ((rc.0 + 1 + L) % L, rc.1)
      && 0 <= WestOf(L, v) < L * L && VertexToCoord(L, WestOf(L, v) as nat) == (rc.0, (rc.1 - 1 + L) % L)
      && 0 <= EastOf(L, v) < L * L && VertexToCoord(L, EastOf(L, v) as nat) == (rc.0, (rc.1 + 1 + L) % L)
  {
    var rc := VertexToCoord(L, v);
    CoordBound(L, v);
    WrapCoord(L, rc.0);
    WrapCoord(L, rc.1);
    StepCoord(L, v, -1, 0);
    StepCoord(L, v, 1, 0);
    StepCoord(L, v, 0, -1);
    StepCoord(L, v, 0, 1);
  }

  /** Up and Down undo each other, as do West and East. */
  lemma NeighbourInverse(L: nat, v: nat)
    requires L >= 1 && v < L * L
    ensures 0 <= Up(L, v) < L * L && Down(L, Up(L, v) as nat) == v
    ensures 0 <= Down(L, v) < L * L && Up(L, Down(L, v) as nat) == v
    ensures 0 <= WestOf(L, v) < L * L && EastOf(L, WestOf(L, v) as nat) == v
    ensures 0 <= EastOf(L, v) < L * L && WestOf(L, EastOf(L, v) as nat) == v
  {
    StepBack(L, v, -1, 0);
    StepBack(L, v, 1, 0);
    StepBack(L, v, 0, -1);
    StepBack(L, v, 0, 1);
  }

  // ---------------------------------------------------------------------
  // Edge geometry (meaningful on the edges of the L x L torus)

  /** is_horizontal: the endpoints differ by 1, or by L - 1 across the wrap of a row. */
  predicate IsHorizontal(L: int, e: Edge) {
    e.v - e.u == 1 || e.v - e.u == L - 1
  }

  /** is_vertical is the negation of is_horizontal. */
  predicate IsVertical(L: int, e: Edge) {
    !IsHorizontal(L, e)
  }

  /** lower: one endpoint of a vertical edge. */
  function Lower(L: int, e: Edge): (r: nat)
    ensures Touches(e, r)
  {
    if e.v - e.u == L then e.u else e.v
  }

  /** upper: the other endpoint of a vertical edge. */
  function Upper(L: int, e: Edge): (r: nat)
    ensures Touches(e, r)
  {
    if e.v - e.u == L then e.v else e.u
  }

  /** left: one endpoint of a horizontal edge. */
  function Left(e: Edge): (r: nat)
    ensures Touches(e, r)
  {
    if e.v - e.u == 1 then e.u else e.v
  }

  /** right: the other endpoint of a horizontal edge. */
  function Right(e: Edge): (r: nat)
    ensures Touches(e, r)
  {
    if e.v - e.u == 1 then e.v else e.u
  }

  /** left/right, and lower/upper, name the two distinct endpoints of a proper edge. */
  lemma EndpointsDistinct(L: int, e: Edge)
    requires e.u < e.v
    ensures {Left(e), Right(e)} == {e.u, e.v} && Left(e) != Right(e)
    ensures {Lower(L, e), Upper(L, e)} == {e.u, e.v} && Lower(L, e) != Upper(L, e)
    ensures Left(e) == e.u <==> e.v - e.u == 1
  {
  }

  /** For L >= 3, the edge from v to the vertex above is vertical, with upper end v. */
  lemma VerticalEdgeShape(L: nat, v: nat)
    requires L >= 3 && v < L * L
    ensures 0 <= Up(L, v) < L * L
    ensures IsVertical(L, MakeEdge(v, Up(L, v) as nat))
    ensures Upper(L, MakeEdge(v, Up(L, v) as nat)) == v
    ensures Lower(L, MakeEdge(v, Up(L, v) as nat)) == Up(L, v)
  {
    var rc := VertexToCoord(L, v);
    CoordBound(L, v);
    UpIndex(L, rc.0, rc.1);
    assert Up(L, v) == ((rc.0 - 1 + L) % L) * L + (rc.1 + L) % L;
  }

  /** For L >= 3, the edge from v to its east neighbour is horizontal, with left end v. */
  lemma HorizontalEdgeShape(L: nat, v: nat)
    requires L >= 3 && v < L * L
    ensures 0 <= EastOf(L, v) < L * L
    ensures IsHorizontal(L, MakeEdge(v, EastOf(L, v) as nat))
    ensures Left(MakeEdge(v, EastOf(L, v) as nat)) == v
    ensures Right(MakeEdge(v, EastOf(L, v) as nat)) == EastOf(L, v)
  {
    var rc := VertexToCoord(L, v);
    CoordBound(L, v);
    EastIndex(L, rc.0, rc.1);
    assert EastOf(L, v) == ((rc.0 + L) % L) * L + (rc.1 + 1 + L) % L;
  }

  // ---------------------------------------------------------------------
  // Qubits

  /** to_edge_idx: a horizontal edge is qubit L*L + its left endpoint, a vertical one the qubit of its upper endpoint. */
  function ToEdgeIdx(L: nat, e: Edge): (i: nat)
    requires L >= 1
    ensures IsHorizontal(L, e) ==> i == L * L + Left(e)
    ensures !IsHorizontal(L, e) ==> i == Upper(L, e)
  {
    if IsHorizontal(L, e) then
      var rc := VertexToCoord(L, Left(e));
      L * rc.0 + rc.1 + L * L
    else
      var rc := VertexToCoord(L, Upper(L, e));
      L * rc.0 + rc.1
  }

  /** to_edge: the edge qubit `i` sits on. Qubits below L*L are vertical edges, the rest horizontal. */
  function ToEdge(L: nat, i: nat): (e: Edge)
    requires L >= 1
    ensures Normalized(e) && e.v < L * L
  {
    var row := i / L;
    var col := i % L;
    assert 0 <= row + L && 0 <= row - 1 + L && 0 <= col + 1 + L;
    var a := ToVertexIndex(L, row, col);
    if i / (L * L) == 0 then
      var b := ToVertexIndex(L, row - 1, col);
      MakeEdge(a, b)
    else
      var b := ToVertexIndex(L, row, col + 1);
      MakeEdge(a, b)
  }

  /** Qubit v < L*L joins v with the vertex above; qubit L*L + v joins v with its east neighbour. */
  lemma ToEdgeShape(L: nat, v: nat)
    requires L >= 1 && v < L * L
    ensures ToEdge(L, v) == MakeEdge(v, Up(L, v) as nat)
    ensures ToEdge(L, L * L + v) == MakeEdge(v, EastOf(L, v) as nat)
  {
    var rc := VertexToCoord(L, v);
    CoordBound(L, v);
    DivModUnique(v, L * L, 0, v);
    CoordRoundTrip(L, v);
    NeighbourCoords(L, v);
    var i := L * L + v;
    DivModUnique(i, L * L, 1, v);
    ModShift(v, L, L);
    assert i / L == rc.0 + L && i % L == rc.1;
    ToVertexIndexPeriodic(L, rc.0, rc.1);
    ToVertexIndexPeriodic(L, rc.0, rc.1 + 1);
  }

  /** For L >= 3, to_edge_idx recovers the qubit from its edge. At L = 2 horizontal edges collide. */
  lemma EdgeIdxOfToEdge(L: nat, i: nat)
    requires L >= 3 && i < 2 * L * L
    ensures ToEdgeIdx(L, ToEdge(L, i)) == i
  {
    if i < L * L {
      ToEdgeShape(L, i);
      VerticalEdgeShape(L, i);
    } else {
      ToEdgeShape(L, i - L * L);
      HorizontalEdgeShape(L, i - L * L);
    }
  }

  /** Every edge between a vertex and one of its four neighbours is the edge of one qubit below 2L*L. */
  lemma ToEdgeOfEdgeIdx(L: nat, v: nat, w: nat)
    requires L >= 3 && v < L * L
    requires w == Up(L, v) || w == Down(L, v) || w == WestOf(L, v) || w == EastOf(L, v)
    ensures ToEdgeIdx(L, MakeEdge(v, w)) < 2 * L * L
    ensures ToEdge(L, ToEdgeIdx(L, MakeEdge(v, w))) == MakeEdge(v, w)
  {
    var i := QubitOfNeighbour(L, v, w);
    EdgeIdxOfToEdge(L, i);
  }

  /** The qubit whose edge joins v with the neighbour w. */
  lemma QubitOfNeighbour(L: nat, v: nat, w: nat) returns (i: nat)
    requires L >= 3 && v < L * L
    requires w == Up(L, v) || w == Down(L, v) || w == WestOf(L, v) || w == EastOf(L, v)
    ensures i < 2 * L * L && ToEdge(L, i) == MakeEdge(v, w)
  {
    if w == Up(L, v) {
      i := QubitUp(L, v, w);
    } else if w == Down(L, v) {
      i := QubitDown(L, v, w);
    } else if w == WestOf(L, v) {
      i := QubitWest(L, v, w);
    } else {
      i := QubitEast(L, v, w);
    }
  }

  lemma QubitUp(L: nat, v: nat, w: nat) returns (i: nat)
    requires L >= 1 && v < L * L && w == Up(L, v)
    ensures i < 2 * L * L && ToEdge(L, i) == MakeEdge(v, w)
  {
    SecondBlock(L, v);
    ToEdgeShape(L, v);
    i := v;
  }

  lemma QubitDown(L: nat, v: nat, w: nat) returns (i: nat)
    requires L >= 1 && v < L * L && w == Down(L, v)
    ensures i < 2 * L * L && ToEdge(L, i) == MakeEdge(v, w)
  {
    StepBack(L, v, 1, 0);
    i := QubitUp(L, w, v);
    MakeEdgeSymmetric(v, w);
  }

  lemma QubitWest(L: nat, v: nat, w: nat) returns (i: nat)
    requires L >= 1 && v < L * L && w == WestOf(L, v)
    ensures i < 2 * L * L && ToEdge(L, i) == MakeEdge(v, w)
  {
    StepBack(L, v, 0, -1);
    i := QubitEast(L, w, v);
    MakeEdgeSymmetric(v, w);
  }

  lemma QubitEast(L: nat, v: nat, w: nat) returns (i: nat)
    requires L >= 1 && v < L * L && w == EastOf(L, v)
    ensures i < 2 * L * L && ToEdge(L, i) == MakeEdge(v, w)
  {
    SecondBlock(L, v);
    ToEdgeShape(L, v);
    i := L * L + v;
  }

  // ---------------------------------------------------------------------
  // The uint32 copies

  const U32: int := 0x1_0000_0000

  type uint32 = x: int | 0 <= x < U32

  /** Reduction of an unbounded result to uint32, as unsigned arithmetic does. */
  function Wrap(x: int): uint32 {
    x % U32
  }

  /** to_vertex_index of the uint32 copies: every + and * is taken modulo 2^32. */
  function ToVertexIndexU32(L: uint32, row: uint32, col: uint32): uint32
    requires L >= 1
  {
    Wrap(Wrap((Wrap(row + L) % L) * L) + Wrap(col + L) % L)
  }

  lemma WrapShift(L: uint32, x: int)
    requires 0 <= x + L < U32
    ensures Wrap(Wrap(x) + L) == x + L
  {
    if x >= 0 {
      DivModUnique(x, U32, 0, x);
      DivModUnique(x + L, U32, 0, x + L);
    } else {
      DivModUnique(x, U32, -1, x + U32);
      DivModUnique(x + U32 + L, U32, 1, x + L);
    }
  }

  /**
   * When the vertex count fits in 32 bits, the unsigned copy agrees with the
   * signed one: a row or column of -1 wraps to 2^32 - 1, and adding L wraps
   * it back to L - 1.
   */
  lemma ToVertexIndexU32Agrees(L: uint32, row: int, col: int)
    requires L >= 1 && L * L <= U32
    requires 0 <= row + L < U32 && 0 <= col + L < U32
    ensures ToVertexIndexU32(L, Wrap(row), Wrap(col)) == ToVertexIndex(L, row, col)
  {
    WrapShift(L, row);
    WrapShift(L, col);
    ToVertexIndexU32Cell(L, Wrap(row), Wrap(col), (row + L) % L, (col + L) % L);
  }

  /** Once the shifted row and column reduce to a cell (a, b) of the torus, no product or sum wraps. */
  lemma ToVertexIndexU32Cell(L: uint32, r: uint32, c: uint32, a: nat, b: nat)
    requires L >= 1 && L * L <= U32 && a < L && b < L
    requires Wrap(r + L) % L == a && Wrap(c + L) % L == b
    ensures ToVertexIndexU32(L, r, c) == a * L + b
  {
    Cell(L, a, b);
    WrapSmall(a * L);
    WrapSmall(a * L + b);
  }

  lemma WrapSmall(x: int)
    requires 0 <= x < U32
    ensures Wrap(x) == x
  {
    DivModUnique(x, U32, 0, x);
  }

  /** to_edge of the uint32 copies: row - 1 wraps, and so may col + 1 and the products. */
  function ToEdgeU32(L: uint32, i: uint32): Edge
    requires L >= 1 && Wrap(L * L) >= 1
  {
    var row: uint32 := i / L;
    var col: uint32 := i % L;
    var a := ToVertexIndexU32(L, row, col);
    if i / Wrap(L * L) == 0 then
      MakeEdge(a, ToVertexIndexU32(L, Wrap(row - 1), col))
    else
      MakeEdge(a, ToVertexIndexU32(L, row, Wrap(col + 1)))
  }

  /** On every qubit of a lattice with at most 2^32 qubits, the uint32 to_edge is the int one. */
  lemma ToEdgeU32Agrees(L: uint32, i: uint32)
    requires L >= 1 && 2 * L * L <= U32 && Wrap(L * L) == L * L && i < 2 * L * L
    ensures ToEdgeU32(L, i) == ToEdge(L, i)
  {
    U32Sizes(L, i);
    var row, col := i / L, i % L;
    U32Cell(L, row, col);
    U32Cell(L, row - 1, col);
    U32Cell(L, row, col + 1);
  }

  lemma U32Sizes(L: uint32, i: uint32)
    requires L >= 1 && 2 * L * L <= U32 && i < 2 * L * L
    ensures Wrap(L * L) == L * L && L < 65536 && i / L < 2 * L
  {
    DivModUnique(L * L, U32, 0, L * L);
    RowBelow(i, L, 2 * L);
    SquareLess(L, 65536);
  }

  /** ToVertexIndexU32Agrees for coordinates that are already reduced to uint32. */
  lemma U32Cell(L: uint32, row: int, col: int)
    requires L >= 1 && L * L <= U32 && L < 65536
    requires -1 <= row < 2 * L && 0 <= col <= L
    ensures ToVertexIndexU32(L, Wrap(row), Wrap(col)) == ToVertexIndex(L, row, col)
    ensures 0 <= row ==> Wrap(row) == row
    ensures Wrap(col) == col
  {
    DivModUnique(col, U32, 0, col);
    if 0 <= row {
      DivModUnique(row, U32, 0, row);
    }
    ToVertexIndexU32Agrees(L, row, col);
  }

  // ---------------------------------------------------------------------
  // From decoding-graph edges back to qubits

  /**
   * decoder_edge_to_qubit_idx of the toric_utils copies. For Z errors the
   * decoding graph is the lattice and the qubit is to_edge_idx; for X errors
   * the graph is the dual lattice and the formula shifts back to the primal qubit.
   */
  function DecoderEdgeToQubitIdx(L: nat, e: Edge, t: ErrorType): (q: nat)
    requires L >= 1
    ensures t == X && IsHorizontal(L, e) ==> q < L * L
    ensures t == X && !IsHorizontal(L, e) ==> L * L <= q < 2 * L * L
    ensures t == Z ==> q == ToEdgeIdx(L, e)
  {
    match t
    case X =>
      if IsHorizontal(L, e) then
        var rc := VertexToCoord(L, Left(e));
        var row, col := (rc.0 + 1) % L, (rc.1 + 1) % L;
        Cell(L, row, col);
        L * row + col
      else
        var rc := VertexToCoord(L, Upper(L, e));
        Cell(L, rc.0 % L, rc.1);
        SecondBlock(L, L * (rc.0 % L) + rc.1);
        L * (rc.0 % L) + rc.1 + L * L
    case Z => ToEdgeIdx(L, e)
  }

  /** The qubit ranges of decoder_edge_to_qubit_idx for edges between torus vertices. */
  lemma DecoderEdgeToQubitIdxRange(L: nat, e: Edge, t: ErrorType)
    requires L >= 1 && e.u < L * L && e.v < L * L
    ensures DecoderEdgeToQubitIdx(L, e, t) < 2 * L * L
    ensures t == X && IsHorizontal(L, e) ==> DecoderEdgeToQubitIdx(L, e, t) < L * L
    ensures t == X && !IsHorizontal(L, e) ==> L * L <= DecoderEdgeToQubitIdx(L, e, t)
    ensures t == Z && IsHorizontal(L, e) ==> L * L <= DecoderEdgeToQubitIdx(L, e, t)
    ensures t == Z && !IsHorizontal(L, e) ==> DecoderEdgeToQubitIdx(L, e, t) < L * L
  {
    if t == X {
      SecondBlock(L, 0);
    } else if IsHorizontal(L, e) {
      SecondBlock(L, Left(e));
    } else {
      SecondBlock(L, Upper(L, e));
    }
  }

  /**
   * The two dual-lattice vertices an X error on qubit n flags, as
   * x_error_to_syndrome_z computes them: a horizontal qubit flags its left
   * endpoint and the vertex above that, a vertical qubit its lower endpoint
   * and the vertex west of that.
   */
  function XFlips(L: nat, n: nat): (p: (nat, nat))
    requires L >= 1
    ensures p.0 < L * L && p.1 < L * L
  {
    var e := ToEdge(L, n);
    if IsHorizontal(L, e) then
      var u := Left(e);
      var rc := VertexToCoord(L, u);
      (u, ToVertexIndex(L, rc.0 - 1, rc.1))
    else
      var u := Lower(L, e);
      var rc := VertexToCoord(L, u);
      (u, ToVertexIndex(L, rc.0, rc.1 - 1))
  }

  /** The two vertices a Z error on qubit n flags: the endpoints of its edge. */
  function ZFlips(L: nat, n: nat): (p: (nat, nat))
    requires L >= 1
    ensures p.0 < L * L && p.1 < L * L
  {
    var e := ToEdge(L, n);
    (e.u, e.v)
  }

  /** The vertices an error of kind t flags: Z errors on the lattice, X errors on the dual lattice. */
  function Flips(L: nat, n: nat, t: ErrorType): (p: (nat, nat))
    requires L >= 1
    ensures p.0 < L * L && p.1 < L * L
  {
    match t
    case X => XFlips(L, n)
    case Z => ZFlips(L, n)
  }

  /**
   * For L >= 3, decoder_edge_to_qubit_idx undoes the syndrome map: the edge
   * joining the two vertices an error on qubit n flags is mapped back to n.
   * So a correction edge is added to the qubit whose error it explains.
   */
  lemma QubitOfFlips(L: nat, n: nat, t: ErrorType)
    requires L >= 3 && n < 2 * L * L
    ensures DecoderEdgeToQubitIdx(L, MakeEdge(Flips(L, n, t).0, Flips(L, n, t).1), t) == n
  {
    if t == Z {
      EdgeIdxOfToEdge(L, n);
    } else if n < L * L {
      XFlipsVertical(L, n);
    } else {
      XFlipsHorizontal(L, n - L * L);
    }
  }

  lemma XFlipsVertical(L: nat, n: nat)
    requires L >= 3 && n < L * L
    ensures DecoderEdgeToQubitIdx(L, MakeEdge(XFlips(L, n).0, XFlips(L, n).1), X) == n
  {
    var a := XFlipsOfVertical(L, n);
    var w := WestOf(L, a) as nat;
    assert EastOf(L, w) == a by { StepBack(L, a, 0, -1); }
    calc {
      DecoderEdgeToQubitIdx(L, MakeEdge(XFlips(L, n).0, XFlips(L, n).1), X);
      { MakeEdgeSymmetric(a, w); }
      DecoderEdgeToQubitIdx(L, MakeEdge(w, EastOf(L, w) as nat), X);
      { DualOfHorizontal(L, w); }
      ToVertexIndex(L, VertexToCoord(L, w).0 + 1, VertexToCoord(L, w).1 + 1);
      { DiagonalBack(L, n); }
      n;
    }
  }

  /** An X error on vertical qubit n flags a = Up(n), the lower end of its edge, and the vertex west of a. */
  lemma XFlipsOfVertical(L: nat, n: nat) returns (a: nat)
    requires L >= 3 && n < L * L
    ensures a == Up(L, n) && a < L * L
    ensures 0 <= WestOf(L, a) < L * L && XFlips(L, n) == (a, WestOf(L, a) as nat)
  {
    ToEdgeShape(L, n);
    VerticalEdgeShape(L, n);
    a := Up(L, n) as nat;
    StepCoord(L, a, 0, -1);
  }

  /** The X qubit of a horizontal edge from w is the vertex one step down and one step east of w. */
  lemma DualOfHorizontal(L: nat, w: nat)
    requires L >= 3 && w < L * L
    ensures 0 <= EastOf(L, w) < L * L
    ensures var rc := VertexToCoord(L, w);
      DecoderEdgeToQubitIdx(L, MakeEdge(w, EastOf(L, w) as nat), X) == ToVertexIndex(L, rc.0 + 1, rc.1 + 1)
  {
    HorizontalEdgeShape(L, w);
    var rc := VertexToCoord(L, w);
    ToVertexIndexNonNeg(L, rc.0 + 1, rc.1 + 1);
  }

  /** For non-negative coordinates, the wrapping of to_vertex_index is a plain remainder. */
  lemma ToVertexIndexNonNeg(L: nat, row: nat, col: nat)
    requires L >= 1
    ensures ToVertexIndex(L, row, col) == L * (row % L) + col % L
  {
    ModShift(row, 1, L);
    ModShift(col, 1, L);
  }

  /** Up, then west, then one step down and east, returns to the start. */
  lemma DiagonalBack(L: nat, n: nat)
    requires L >= 1 && n < L * L
    ensures 0 <= Up(L, n) < L * L && 0 <= WestOf(L, Up(L, n) as nat) < L * L
    ensures var rc := VertexToCoord(L, WestOf(L, Up(L, n) as nat) as nat);
      ToVertexIndex(L, rc.0 + 1, rc.1 + 1) == n
  {
    var rc := VertexToCoord(L, n);
    CoordBound(L, n);
    UpCoord(L, n);
    var a := Up(L, n) as nat;
    WestCoord(L, a);
    var w := WestOf(L, a) as nat;
    DiagonalOfCoords(L, n);
  }

  /** The cell one row and one column before n, stepped forward diagonally, is n. */
  lemma DiagonalOfCoords(L: nat, n: nat)
    requires L >= 1 && n < L * L
    ensures var rc := VertexToCoord(L, n);
      ToVertexIndex(L, (rc.0 - 1 + L) % L + 1, (rc.1 - 1 + L) % L + 1) == n
  {
    var rc := VertexToCoord(L, n);
    CoordBound(L, n);
    DiagonalIndex(L, rc.0, rc.1);
    ToVertexIndexNonNeg(L, (rc.0 - 1 + L) % L + 1, (rc.1 - 1 + L) % L + 1);
  }

  /** The vertex above v is in the previous row, same column. */
  lemma UpCoord(L: nat, v: nat)
    requires L >= 1 && v < L * L
    ensures var rc := VertexToCoord(L, v);
      0 <= Up(L, v) < L * L && VertexToCoord(L, Up(L, v) as nat) == ((rc.0 - 1 + L) % L, rc.1)
  {
    var rc := VertexToCoord(L, v);
    StepCoord(L, v, -1, 0);
    WrapCoord(L, rc.1);
  }

  /** The vertex west of v is in the same row, previous column. */
  lemma WestCoord(L: nat, v: nat)
    requires L >= 1 && v < L * L
    ensures var rc := VertexToCoord(L, v);
      0 <= WestOf(L, v) < L * L && VertexToCoord(L, WestOf(L, v) as nat) == (rc.0, (rc.1 - 1 + L) % L)
  {
    var rc := VertexToCoord(L, v);
    CoordBound(L, v);
    StepCoord(L, v, 0, -1);
    WrapCoord(L, rc.0);
  }

  lemma XFlipsHorizontal(L: nat, v: nat)
    requires L >= 3 && v < L * L
    ensures DecoderEdgeToQubitIdx(L, MakeEdge(XFlips(L, L * L + v).0, XFlips(L, L * L + v).1), X) == L * L + v
  {
    XFlipsOfHorizontal(L, v);
    DualOfVertical(L, v);
  }

  /** An X error on horizontal qubit L*L + v flags v and the vertex above v. */
  lemma XFlipsOfHorizontal(L: nat, v: nat)
    requires L >= 3 && v < L * L
    ensures 0 <= Up(L, v) < L * L && XFlips(L, L * L + v) == (v, Up(L, v) as nat)
  {
    ToEdgeShape(L, v);
    HorizontalEdgeShape(L, v);
    StepCoord(L, v, -1, 0);
  }

  /** The X qubit of the vertical edge above v is the horizontal qubit L*L + v. */
  lemma DualOfVertical(L: nat, v: nat)
    requires L >= 3 && v < L * L
    ensures 0 <= Up(L, v) < L * L
    ensures DecoderEdgeToQubitIdx(L, MakeEdge(v, Up(L, v) as nat), X) == L * L + v
  {
    VerticalEdgeShape(L, v);
    CoordBound(L, v);
    var rc := VertexToCoord(L, v);
    DivModUnique(rc.0, L, 0, rc.0);
  }
}
