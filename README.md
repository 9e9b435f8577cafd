# Union-Find decoder for the toric code, in Dafny

This project models the C++ core of a Union-Find decoder for toric-code syndromes and proves
properties of that model.

The decoder reads a syndrome, one bit per check vertex of a lattice. It returns a set of
correction edges whose boundary is that syndrome. It works in three phases:

- **init_cluster:** every flagged vertex becomes a cluster of its own.
- **Growth and fusion:** every cluster of odd parity grows by half-edges along its border. An
  edge that becomes fully grown fuses the clusters at its two ends, through a union-find forest
  with path compression and a root table (the RootManager) of sizes and parities.
- **peeling:** once no odd cluster is left, the spanning forest of the fused edges is peeled from
  its leaves, and an edge is emitted whenever its leaf carries a syndrome bit.

The model covers:

- the edge type, with its normalising constructor and hash;
- the toric index arithmetic: to_vertex_index, vertex_to_coord, to_edge, to_edge_idx,
  left/right/upper/lower and decoder_edge_to_qubit_idx, in their int and uint32 forms;
- three lattices:
  - Lattice2D, the L × L torus;
  - LatticeCubic, L torus layers joined by time-like edges;
  - LatticeFromParity, built from the compressed-row arrays of a parity-check matrix;
- the RootManager cluster table;
- the Decoder class, together with the older torus-only UnionFindDecoder. That version is the same
  class with the constant `legacy`. It takes `std::vector<int>` syndromes. It does not cap the edge
  support. When it peels a leaf that carries a defect, it decrements the leaf's entry and sets the
  other end to one minus its entry. It also adds clusters(). The model holds syndromes as `nat`
  and runs the legacy copy on 0/1 syndromes, where its peeling step is the bit flip of the
  newer copy;
- the syndrome and verification utilities:
  - the error-to-syndrome maps, in their XOR and counting forms;
  - calc_syndromes and add_measurement_noise;
  - layer_syndrome_diff, in its subtracting and adding forms;
  - add_corrections, logical_error and has_logical_error;
- the greedy LazyDecoder.

Each source file whose code updates state step by step is modelled by a class or an array method
with loop invariants, proved against a specification function. Each pure index formula is a
function with round-trip lemmas.

The modules follow the source files:

- `edge.dfy`: Edges.
- `arith.dfy`: Arith, which holds the non-linear arithmetic facts the index proofs use.
- `toric.dfy`: Toric.
- `torus.dfy`: Lattice2D.
- `cubic.dfy`: LatticeCubic.
- `parity.dfy`: LatticeFromParity.
- `graph.dfy`: Graphs, the lattice as an edge-indexed graph, with forests and peeling lemmas.
- `rootmanager.dfy`: Roots.
- `session.dfy`, `growth.dfy`, `linking.dfy`, `links.dfy`, `phases.dfy` and `peel.dfy`: the
  decoder's state and the invariant of each phase.
- `decoder.dfy`: UnionFind.
- `syndrome.dfy`: Syndromes.
- `layers.dfy`: Layers.
- `checks.dfy`: Checks.
- `lazy.dfy`: Lazy.

## Model

| member | source | states |
|---|---|---|
| Edges.MakeEdge | UnionFindPy/cpp/include/utility.hpp:29-33 | the constructed edge stores the smaller endpoint in u and holds exactly the two given endpoints |
| Edges.MakeEdgeSymmetric | union_find/cpp/include/utility.hpp:46-50 | Edge(a, b) == Edge(b, a) |
| Edges.MakeEdgeEqual | UnionFindPy/cpp/include/utility.hpp:29-38 | two constructed edges compare equal (both fields) exactly when they were built from the same two endpoints, in either order |
| Edges.MakeEdgeOfNormalized | include/utility.hpp:24-28 | constructing from an already sorted pair stores it unchanged |
| Edges.Hash | UnionFindPy/cpp/include/utility.hpp:46-54 | the hash h1 ^ (h2 << 1) of two uint32 endpoints is below 2^33 |
| Edges.HashCollides | union_find/cpp/include/utility.hpp:63-71 | the hash is a function of (u, v) only but not injective: Edge(1,2) and Edge(3,3) collide although they differ |
| Toric.CMod | src/error_utils.cpp:7-38 | C++'s `%` on int: for a non-negative dividend the usual remainder in [0, m), for a negative one a value in (-m, 0] |
| Toric.ToVertexIndex | UnionFindPy/cpp/examples/toric_utils.hpp:85-89 | for row, col >= -L the result is ((row+L)%L)·L + (col+L)%L and lies in [0, L²) |
| Toric.VertexToCoord | UnionFindPy/cpp/examples/toric_utils.hpp:91-95 | (row, col) with row·L + col == v and col < L |
| Toric.CoordBound | include/toric_utils.hpp:41-44 | the row of a vertex below L² is below L |
| Toric.CoordOfCell | include/toric_utils.hpp:36-44 | vertex_to_coord of row·L + col is (row, col) |
| Toric.CoordRoundTrip | UnionFindPy/cpp/examples/toric_utils.hpp:85-95 | to_vertex_index(vertex_to_coord(v)) == v for every v < L² |
| Toric.IndexRoundTrip | union_find/cpp/examples/toric_utils.hpp:93-101 | vertex_to_coord(to_vertex_index(row, col)) is the pair of wrapped coordinates |
| Toric.ToVertexIndexPeriodic | include/toric_utils.hpp:36-39 | to_vertex_index(row + L, col) == to_vertex_index(row, col) |
| Toric.StepCoord | UnionFindPy/cpp/examples/Lattice2D.hpp:46-57 | one step of at most 1 in each coordinate lands on a torus vertex whose coordinates are the wrapped sums |
| Toric.StepBack | UnionFindPy/cpp/examples/Lattice2D.hpp:46-57 | stepping back by the opposite offsets returns to the start |
| Toric.NeighbourCoords | UnionFindPy/cpp/examples/Lattice2D.hpp:46-57 | the four neighbours are the vertices at (row∓1, col) and (row, col∓1), wrapped mod L |
| Toric.NeighbourInverse | UnionFindPy/cpp/examples/Lattice2D.hpp:46-57 | up and down undo each other, as do west and east |
| Toric.Lower | UnionFindPy/cpp/examples/toric_utils.hpp:34-39 | returns an endpoint of the edge |
| Toric.Upper | UnionFindPy/cpp/examples/toric_utils.hpp:40-45 | returns an endpoint of the edge |
| Toric.Left | UnionFindPy/cpp/examples/toric_utils.hpp:47-52 | returns an endpoint of the edge |
| Toric.Right | UnionFindPy/cpp/examples/toric_utils.hpp:53-58 | returns an endpoint of the edge |
| Toric.EndpointsDistinct | src/utility.cpp:38-51 | for u < v, left/right and lower/upper are the two distinct endpoints, and left is u exactly when v − u == 1 |
| Toric.VerticalEdgeShape | UnionFindPy/cpp/examples/toric_utils.hpp:26-45 | for L >= 3 the edge from v to the vertex above is vertical, with upper end v and lower end the vertex above |
| Toric.HorizontalEdgeShape | UnionFindPy/cpp/examples/toric_utils.hpp:26-58 | for L >= 3 the edge from v to its east neighbour is horizontal, with left end v |
| Toric.ToEdgeIdx | UnionFindPy/cpp/examples/toric_utils.hpp:97-111 | a horizontal edge maps to L² + its left endpoint, a vertical edge to its upper endpoint |
| Toric.ToEdge | UnionFindPy/cpp/examples/toric_utils.cpp:88-98 | the edge is normalised and both endpoints are torus vertices |
| Toric.ToEdgeShape | src/utility.cpp:136-148 | qubit v < L² joins v with the vertex above (vertical); qubit L² + v joins v with its east neighbour (horizontal) |
| Toric.EdgeIdxOfToEdge | UnionFindPy/cpp/examples/Lattice2D.hpp:63-71 | for L >= 3, to_edge_idx(to_edge(i)) == i for every i < 2L² |
| Toric.ToEdgeOfEdgeIdx | union_find/cpp/examples/Lattice2D.hpp:59-64 | for L >= 3 every edge between a vertex and a neighbour has an index below 2L², and to_edge of that index gives the edge back |
| Toric.QubitOfNeighbour | UnionFindPy/cpp/examples/toric_utils.cpp:88-98 | for L >= 3 every neighbour edge is to_edge of some qubit below 2L² |
| Toric.WrapShift | UnionFindPy/cpp/examples/toric_utils.hpp:85-89 | a coordinate of −1 wrapped to 2^32 − 1 comes back to L − 1 when L is added in uint32 |
| Toric.ToVertexIndexU32Agrees | UnionFindPy/cpp/examples/toric_utils.hpp:85-89 | when L² fits in 32 bits the uint32 to_vertex_index of the wrapped coordinates equals the int one |
| Toric.ToVertexIndexU32Cell | UnionFindPy/cpp/examples/toric_utils.hpp:85-89 | once the wrapped row and column reduce to the cell (a, b), the uint32 index is a·L + b |
| Toric.ToEdgeU32Agrees | UnionFindPy/cpp/examples/toric_utils.cpp:88-98 | with at most 2^32 qubits the uint32 to_edge (row − 1 wrapping) equals the int one on every qubit |
| Toric.DecoderEdgeToQubitIdx | UnionFindPy/cpp/examples/toric_utils.cpp:64-86 | X: horizontal edges go to [0, L²), vertical ones to [L², 2L²); Z: exactly to_edge_idx |
| Toric.DecoderEdgeToQubitIdxRange | src/toric_utils.cpp:50-87 | for edges between torus vertices every branch lands below 2L², X horizontal and Z vertical in the first block, the other two in the second |
| Toric.XFlips | UnionFindPy/cpp/examples/toric_utils.cpp:37-62 | the two dual vertices an X error flags are torus vertices |
| Toric.ZFlips | UnionFindPy/cpp/examples/toric_utils.cpp:22-35 | the two endpoints of to_edge(n) are torus vertices |
| Toric.Flips | UnionFindPy/cpp/examples/toric_utils.hpp:72-83 | the pair flagged by an error of either kind lies on the torus |
| Toric.QubitOfFlips | UnionFindPy/cpp/examples/toric_utils.cpp:64-86 | for L >= 3, decoder_edge_to_qubit_idx maps the edge joining the two vertices an error on qubit n flags back to n, for both error kinds |
| Lattice2D.Connections | UnionFindPy/cpp/examples/Lattice2D.hpp:41-57 | vertex_connections has vertex_connection_count (4) entries, all torus vertices |
| Lattice2D.ConnectionCoords | union_find/cpp/examples/Lattice2D.hpp:42-53 | the entries are, in order, (row−1, col), (row+1, col), (row, col−1), (row, col+1), wrapped mod L |
| Lattice2D.ConnectionsSymmetric | UnionFindPy/cpp/examples/Lattice2D.hpp:46-57 | w is a neighbour of v exactly when v is a neighbour of w |
| Lattice2D.NoSelfLoop | include/Lattice2D.hpp:29-40 | for L >= 2 no vertex is its own neighbour |
| Lattice2D.ConnectionEdgeIdx | union_find/cpp/examples/Lattice2D.hpp:59 | for L >= 3 every neighbour pair has an edge index below 2L², and to_edge gives the edge back |
| Lattice2D.EdgeIdxRoundTrip | include/Lattice2D.hpp:52-61 | for L >= 3, edge_idx(to_edge(i)) == i for i < 2L², and to_edge(i) joins a vertex with one of its neighbours |
| Lattice2D.ToEdgeEndpoints | UnionFindPy/cpp/examples/Lattice2D.hpp:68-71 | for L >= 3 the edge of every qubit joins a vertex with one of its neighbours |
| Lattice2D.VerticalQubitEndpoints | UnionFindPy/cpp/examples/toric_utils.cpp:92-95 | the vertical qubit v joins a torus vertex with one of its neighbours |
| Lattice2D.HorizontalQubitEndpoints | UnionFindPy/cpp/examples/toric_utils.cpp:96-97 | the horizontal qubit L² + v joins a torus vertex with one of its neighbours |
| Lattice2D.ConnectionsU32Agrees | UnionFindPy/cpp/examples/Lattice2D.hpp:46-57 | when L² fits in 32 bits the uint32 neighbour list (row − 1 wrapping around 2^32) equals the int one |
| Lattice2D.ConnectionsDistinct | UnionFindPy/cpp/examples/Lattice2D.hpp:46-57 | for L >= 3 the four entries of a neighbour list are pairwise distinct |
| Lattice2D.AsGraphSimple | UnionFindPy/cpp/examples/Lattice2D.hpp:41-71 | for L >= 3 the torus, read as the decoder reads it (num_vertices, num_edges, the neighbour lists, the count of 4, edge_idx on its qubits), meets every condition the decoder assumes: loop-free symmetric adjacency, no repeated neighbour, counts equal to the list lengths, and an injective edge_idx below num_edges |
| Lattice2D.TwoNotSimple | UnionFindPy/cpp/examples/Lattice2D.hpp:46-57 | for L = 2 the row neighbours above and below vertex 0 are both vertex 2, so that torus is a multigraph the decoder's conditions exclude |
| LatticeCubic.ToVertexIndex | UnionFindPy/cpp/examples/LatticeCubic.hpp:30-34 | the layered index is non-negative whenever the in-layer coordinates are at least −L |
| LatticeCubic.VertexLayers | UnionFindPy/cpp/examples/LatticeCubic.hpp:57-63 | every vertex below L³ splits into a layer h = v / L² below L and a torus offset, with row and column read off the offset |
| LatticeCubic.VertexOf | UnionFindPy/cpp/examples/LatticeCubic.hpp:30-34 | offset p of layer h is vertex h·L² + p, which has layer h and offset p and is a vertex when h < L |
| LatticeCubic.QubitOf | UnionFindPy/cpp/examples/LatticeCubic.hpp:102-106 | slot r < 3L² of block h is qubit 3L²·h + r: to_edge reads back block h and slot r |
| LatticeCubic.QubitSplit | UnionFindPy/cpp/examples/LatticeCubic.hpp:79-82 | every qubit below num_edges has block h < L and slot r < 3L², and time-like slots only occur for h < L − 1 |
| LatticeCubic.QubitBounds | UnionFindPy/cpp/examples/LatticeCubic.hpp:79-82 | the space-like qubits of every layer and the time-like qubits of every layer but the last are below num_edges = 3L³ − L² |
| LatticeCubic.ConnectionsShape | UnionFindPy/cpp/examples/LatticeCubic.hpp:57-75 | the neighbour list is the four torus neighbours moved to the vertex's layer, then v + L² when not on the top layer, then v − L² when not on the bottom layer |
| LatticeCubic.ConnectionsLength | union_find/cpp/examples/LatticeCubic.hpp:52-71 | the list has 4 entries plus one per existing layer above and below |
| LatticeCubic.CountMatches | UnionFindPy/cpp/examples/LatticeCubic.hpp:43-75 | for L >= 2 vertex_connection_count (5 on the first and last layer, 6 between) is the length of vertex_connections |
| LatticeCubic.ConnectionsMembers | UnionFindPy/cpp/examples/LatticeCubic.hpp:57-75 | w is a neighbour exactly when it is a torus neighbour in the same layer or the vertex straight above or below |
| LatticeCubic.MemberAdjacent | UnionFindPy/cpp/examples/LatticeCubic.hpp:57-75 | every entry of the list is adjacent in that sense |
| LatticeCubic.AdjacentMember | UnionFindPy/cpp/examples/LatticeCubic.hpp:57-75 | every adjacent vertex is an entry of the list |
| LatticeCubic.ConnectionsBound | UnionFindPy/cpp/examples/LatticeCubic.hpp:57-77 | every neighbour is below num_vertices = L³ |
| LatticeCubic.AdjacentBound | UnionFindPy/cpp/examples/LatticeCubic.hpp:57-77 | every adjacent vertex is below L³ |
| LatticeCubic.ConnectionsSymmetric | UnionFindPy/cpp/examples/LatticeCubic.hpp:57-75 | w is a neighbour of v exactly when v is a neighbour of w |
| LatticeCubic.AdjacentSymmetric | include/LatticeCubic.hpp:43-63 | adjacency is symmetric |
| LatticeCubic.NoSelfLoop | UnionFindPy/cpp/examples/LatticeCubic.hpp:57-75 | for L >= 2 no vertex is its own neighbour |
| LatticeCubic.ToEdge | UnionFindPy/cpp/examples/LatticeCubic.hpp:102-117 | to_edge always returns a normalised edge (u <= v) |
| LatticeCubic.RowColOffset | UnionFindPy/cpp/examples/LatticeCubic.hpp:96-98 | L·row + col computed from u is u's offset inside its layer |
| LatticeCubic.SpaceEdgeIdx | UnionFindPy/cpp/examples/LatticeCubic.hpp:89-93 | a space-like edge of layer h numbers as 3L²·h plus the torus index of its offsets |
| LatticeCubic.SpaceEdgeBack | UnionFindPy/cpp/examples/LatticeCubic.hpp:112-116 | a space-like qubit of block h is the torus edge of its slot shifted by h·L² |
| LatticeCubic.SpaceQubitOf | UnionFindPy/cpp/examples/LatticeCubic.hpp:104-107 | a space-like qubit of block h reads back block h and its slot |
| LatticeCubic.SpaceEdge | UnionFindPy/cpp/examples/LatticeCubic.hpp:84-117 | for L >= 3 the edge between torus neighbours in layer h has an index below num_edges, and to_edge returns the edge |
| LatticeCubic.TimeEdgeIdx | UnionFindPy/cpp/examples/LatticeCubic.hpp:94-99 | the time-like edge above offset p of layer h numbers as 3L²·h + 2L² + p |
| LatticeCubic.TimeEdgeBack | UnionFindPy/cpp/examples/LatticeCubic.hpp:107-111 | qubit 3L²·h + 2L² + p is the edge from offset p of layer h to the same offset in layer h + 1 |
| LatticeCubic.TimeQubitOf | UnionFindPy/cpp/examples/LatticeCubic.hpp:104-107 | a time-like qubit of block h reads back block h and slot 2L² + p |
| LatticeCubic.TimeEdge | UnionFindPy/cpp/examples/LatticeCubic.hpp:84-117 | for h < L − 1 the time-like edge has an index below num_edges and to_edge returns the edge |
| LatticeCubic.ConnectionEdgeIdx | UnionFindPy/cpp/examples/LatticeCubic.hpp:57-117 | for L >= 3 every neighbour pair has an edge index below num_edges, and to_edge gives the edge back |
| LatticeCubic.AdjacentEdgeIdx | UnionFindPy/cpp/examples/LatticeCubic.hpp:84-117 | the same for adjacent pairs |
| LatticeCubic.VertexSplit | UnionFindPy/cpp/examples/LatticeCubic.hpp:30-34 | every vertex is its layer start plus its offset |
| LatticeCubic.SpaceAdjacentEdgeIdx | UnionFindPy/cpp/examples/LatticeCubic.hpp:89-93 | same-layer neighbours have an index below num_edges that to_edge maps back |
| LatticeCubic.UpAdjacentEdgeIdx | UnionFindPy/cpp/examples/LatticeCubic.hpp:94-99 | the edge to the vertex above has an index below num_edges that to_edge maps back |
| LatticeCubic.DownAdjacentEdgeIdx | UnionFindPy/cpp/examples/LatticeCubic.hpp:94-99 | the edge to the vertex below has an index below num_edges that to_edge maps back |
| LatticeCubic.EdgeIdxRoundTrip | UnionFindPy/cpp/examples/LatticeCubic.hpp:84-117 | for L >= 3, edge_idx(to_edge(i)) == i on every qubit below num_edges, and to_edge(i) joins a vertex with one of its neighbours |
| LatticeCubic.TimeQubit | UnionFindPy/cpp/examples/LatticeCubic.hpp:107-111 | a time-like qubit is the edge from some vertex below the top layer to the vertex above, numbered back by edge_idx |
| LatticeCubic.SpaceQubit | UnionFindPy/cpp/examples/LatticeCubic.hpp:112-116 | a space-like qubit is the edge between two torus neighbours of one layer, numbered back by edge_idx |
| LatticeCubic.TimeQubitRoundTrip | UnionFindPy/cpp/examples/LatticeCubic.hpp:94-111 | the time-like qubit above offset p of layer h round-trips through to_edge and edge_idx |
| LatticeCubic.UpNeighbour | UnionFindPy/cpp/examples/LatticeCubic.hpp:71 | the vertex above a vertex below the top layer is in its neighbour list |
| LatticeCubic.SpaceQubitRoundTrip | UnionFindPy/cpp/examples/LatticeCubic.hpp:89-93 | a space-like qubit of layer h round-trips through to_edge and edge_idx |
| LatticeCubic.SpaceNeighbour | UnionFindPy/cpp/examples/LatticeCubic.hpp:65-70 | torus neighbours within a layer are neighbours in the cubic lattice |
| LatticeCubic.ConnectionsDistinct | UnionFindPy/cpp/examples/LatticeCubic.hpp:57-75 | for L >= 3 the entries of a neighbour list are pairwise distinct |
| LatticeCubic.NeighbourPair | UnionFindPy/cpp/examples/LatticeCubic.hpp:57-117 | for L >= 3 a neighbour w of v is a different vertex, lists v back, and their edge is a qubit with an index below num_edges |
| LatticeCubic.AsGraphAdjacency | UnionFindPy/cpp/examples/LatticeCubic.hpp:57-117 | the adjacency clause of the decoder's conditions holds of the cubic lattice for L >= 3 |
| LatticeCubic.AsGraphLists | UnionFindPy/cpp/examples/LatticeCubic.hpp:43-75 | the list and count clauses hold for L >= 3: one list per vertex, counts equal to the lengths, no repeated entry |
| LatticeCubic.AsGraphIdxInjective | UnionFindPy/cpp/examples/LatticeCubic.hpp:84-117 | distinct qubit edges get distinct edge_idx values |
| LatticeCubic.AsGraphSimple | UnionFindPy/cpp/examples/LatticeCubic.hpp:43-117 | for L >= 3 the cubic lattice, read as the decoder reads it, meets every condition the decoder assumes of its graph |
| LatticeCubic.EntryBound | UnionFindPy/cpp/examples/LatticeCubic.hpp:30-34 | the index of a coordinate of at least −L in a layer below L is a vertex, below L³ |
| LatticeCubic.ToVertexIndexU32Agrees | UnionFindPy/cpp/examples/LatticeCubic.hpp:30-34 | when L² and the int index fit in 32 bits, the uint32 to_vertex_index of the coordinates wrapped modulo 2^32 equals the int one |
| LatticeCubic.LayerStartWraps | UnionFindPy/cpp/examples/LatticeCubic.hpp:30-34 | the uint32 layer offset h·(L·L) does not wrap and equals the start of layer h |
| LatticeCubic.EntryAgrees | UnionFindPy/cpp/examples/LatticeCubic.hpp:66-72 | each entry the uint32 vertex_connections pushes, with row − 1 and col − 1 wrapping around 2^32, is the int entry |
| LatticeCubic.NeighboursAgree | UnionFindPy/cpp/examples/LatticeCubic.hpp:65-74 | the uint32 list built from a row, column and layer below L is the int list |
| LatticeCubic.LayerU32 | UnionFindPy/cpp/examples/LatticeCubic.hpp:59-63 | when L³ fits in 32 bits, L·L does not wrap and h, row and col computed in uint32 are the int ones, all below L |
| LatticeCubic.SquareFits | UnionFindPy/cpp/examples/LatticeCubic.hpp:61 | L·L does not wrap when L³ fits in 32 bits |
| LatticeCubic.ConnectionsU32Agrees | UnionFindPy/cpp/examples/LatticeCubic.hpp:57-75 | when L³ fits in 32 bits the uint32 vertex_connections of every vertex equals the int one |
| LatticeFromParity.ParitiesRows | union_find/cpp/include/LatticeFromParity.hpp:53-60 | the rows listed for a qubit are below n, in non-decreasing order, and row p is listed exactly when one of its entries names the qubit |
| LatticeFromParity.ParitiesBelow | union_find/cpp/include/LatticeFromParity.hpp:54-58 | every row listed for a qubit is one of the rows scanned |
| LatticeFromParity.ParitiesSorted | union_find/cpp/include/LatticeFromParity.hpp:54-58 | rows are pushed in increasing order of p_idx, so each list is sorted |
| LatticeFromParity.ParitiesMember | union_find/cpp/include/LatticeFromParity.hpp:54-58 | row p is in a qubit's list exactly when some entry of row p names that qubit |
| LatticeFromParity.ParitiesLength | union_find/cpp/include/LatticeFromParity.hpp:54-58 | the length of a qubit's list is the number of entries naming it |
| LatticeFromParity.ConnectionsBound | union_find/cpp/include/LatticeFromParity.hpp:63-74 | every neighbour pushed is a row of some qubit, so it is below any bound on the rows |
| LatticeFromParity.JoinsSymmetric | union_find/cpp/include/LatticeFromParity.hpp:72-73 | the qubits joining v to w are the qubits joining w to v |
| LatticeFromParity.ConnectionsJoins | union_find/cpp/include/LatticeFromParity.hpp:63-74 | w appears in the list of v once for every qubit whose two rows are v and w |
| LatticeFromParity.CountStep | union_find/cpp/include/LatticeFromParity.hpp:63-74 | appending neighbours to a list adds their copies of w to the count of w |
| LatticeFromParity.TwoRows | union_find/cpp/include/LatticeFromParity.hpp:65-70 | a qubit that passes the size-2 check has both rows below the number of rows |
| LatticeFromParity.AllConnections | union_find/cpp/include/LatticeFromParity.hpp:62 | the table has one list per row, each the list the qubits below k build |
| LatticeFromParity.ConnectStep | union_find/cpp/include/LatticeFromParity.hpp:72-73 | pushing b onto the list of a and then a onto the list of b is processing one more qubit |
| LatticeFromParity.AddedJoins | union_find/cpp/include/LatticeFromParity.hpp:72-73 | one qubit adds w to v's list as often as it joins v and w |
| LatticeFromParity.ConnectionsSymmetric | union_find/cpp/include/LatticeFromParity.hpp:63-74 | w is listed at v exactly as often as v at w |
| LatticeFromParity.Handshake | union_find/cpp/include/LatticeFromParity.hpp:63-74 | the list lengths of all rows add up to twice the number of qubits |
| LatticeFromParity.EdgeMapFirst | union_find/cpp/include/LatticeFromParity.hpp:75-81 | edge_idx_ holds exactly the edges of the qubits, each mapped to the first qubit that has it |
| LatticeFromParity.JoinsWitness | union_find/cpp/include/LatticeFromParity.hpp:63-74 | two rows joined at least once are the two rows of some qubit |
| LatticeFromParity.JoinsGrow | union_find/cpp/include/LatticeFromParity.hpp:63-74 | later qubits never lower the number of qubits joining two rows, and qubit q adds one for its own rows |
| LatticeFromParity.JoinsAtMostOne | union_find/cpp/include/LatticeFromParity.hpp:63-74 | without loop or parallel qubits, two rows are joined at most once and no row is joined to itself |
| LatticeFromParity.TwiceListed | union_find/cpp/include/LatticeFromParity.hpp:72-73 | a value pushed at two positions of a list is counted at least twice |
| LatticeFromParity.DistinctCount | union_find/cpp/include/LatticeFromParity.hpp:72-73 | a list without repeats counts every value at most once |
| LatticeFromParity.LatticeFromParity.Init | union_find/cpp/include/LatticeFromParity.hpp:96-98 | the counts are the arguments and the tables start empty |
| LatticeFromParity.LatticeFromParity.ConstructConnections | union_find/cpp/include/LatticeFromParity.hpp:50-83 | succeeds (instead of throwing invalid_argument) exactly when every qubit sits in two rows, and then leaves the tables the matrix defines |
| LatticeFromParity.LatticeFromParity.NumVertices | union_find/cpp/include/LatticeFromParity.hpp:117 | num_vertices is the number of rows of the matrix |
| LatticeFromParity.LatticeFromParity.NumEdges | union_find/cpp/include/LatticeFromParity.hpp:115 | num_edges is the number of qubits |
| LatticeFromParity.LatticeFromParity.VertexConnections | union_find/cpp/include/LatticeFromParity.hpp:103-106 | the list of v holds vertices only, and w is listed at v as often as v at w |
| LatticeFromParity.LatticeFromParity.ConnectionRows | union_find/cpp/include/LatticeFromParity.hpp:65-74 | the two rows of every qubit, and so every neighbour, are vertices |
| LatticeFromParity.LatticeFromParity.VertexConnectionCount | union_find/cpp/include/LatticeFromParity.hpp:108-111 | the count is the list length, and the counts add up to twice num_edges |
| LatticeFromParity.LatticeFromParity.EdgeIdx | union_find/cpp/include/LatticeFromParity.hpp:113 | edge_idx is defined exactly for edges some qubit joins and gives the smallest such qubit; `.at` throwing is None |
| LatticeFromParity.LatticeFromParity.AsGraphSimple | union_find/cpp/include/LatticeFromParity.hpp:62-83 | the built lattice meets every condition the decoder assumes of its graph exactly when no qubit sits twice in one row and no two qubits sit in the same two rows |
| LatticeFromParity.LatticeFromParity.NoParallelSimple | union_find/cpp/include/LatticeFromParity.hpp:62-83 | without such qubits the lattice meets the decoder's conditions |
| LatticeFromParity.LatticeFromParity.NoParallelAdjacency | union_find/cpp/include/LatticeFromParity.hpp:72-81 | without such qubits every neighbour is another vertex that lists v back, and their edge is in edge_idx_ with an index below num_edges |
| LatticeFromParity.LatticeFromParity.SimpleNoLoop | union_find/cpp/include/LatticeFromParity.hpp:72-73 | if the decoder's conditions hold, no qubit sits twice in one row |
| LatticeFromParity.LatticeFromParity.SimpleNoParallel | union_find/cpp/include/LatticeFromParity.hpp:72-81 | if the decoder's conditions hold, no two qubits sit in the same two rows |
| LatticeFromParity.LatticeFromParity.SimpleNotParallel | union_find/cpp/include/LatticeFromParity.hpp:72-73 | two qubits in the same rows would push the same neighbour twice, which the conditions forbid |
| Graphs.Idx | UnionFindPy/cpp/include/LatticeConcept.hpp:46-48 | edge_idx of the edge between a vertex and its neighbour lies below num_edges |
| Graphs.IdxLatticeEdge | UnionFindPy/cpp/include/Decoder.hpp:62-66 | the edge a border vertex forms with a neighbour is a lattice edge that edge_idx numbers |
| Graphs.LatticeEdgeIdx | UnionFindPy/cpp/include/LatticeConcept.hpp:46-48 | every lattice edge has an index below num_edges and joins two distinct vertices |
| Graphs.IdxInjective | UnionFindPy/cpp/include/Decoder.hpp:66 | two neighbour pairs share a support_ slot exactly when they are the same edge |
| Graphs.ForestSubset | UnionFindPy/cpp/include/Decoder.hpp:159-190 | taking edges out of a forest, as peeling does, leaves a forest |
| Graphs.ForestAdd | UnionFindPy/cpp/include/Decoder.hpp:118-126 | adding to peeling_edges_ an edge between two vertices no edge path joins keeps it a forest |
| Graphs.SeparatedByClusters | UnionFindPy/cpp/include/Decoder.hpp:118-126 | two vertices with different roots are separated by the edges kept so far, since those stay inside clusters |
| Graphs.ForestEdge | UnionFindPy/cpp/include/Decoder.hpp:153-157 | no edge of a forest is a loop or listed twice |
| Graphs.LeafExists | UnionFindPy/cpp/include/Decoder.hpp:159-179 | a non-empty forest always has an edge with an endpoint of count 1, so the peeling loop finds a leaf |
| Graphs.SideLeaf | UnionFindPy/cpp/include/Decoder.hpp:165-175 | each side of a forest edge holds a vertex of degree 1 |
| Graphs.ClusterEven | UnionFindPy/cpp/include/Decoder.hpp:208-212 | when every cluster has even syndrome weight, so has every union of clusters |
| Graphs.ClusterRemoved | UnionFindPy/cpp/include/Decoder.hpp:208-212 | removing the cluster of x from a union of clusters subtracts that cluster's weight and makes the union smaller |
| Graphs.PeelStep | UnionFindPy/cpp/include/Decoder.hpp:181-189 | moving a 1 from a leaf u across its edge (u cleared, v flipped) keeps every closed vertex set at even weight once the edge is removed |
| Graphs.PeelSame | UnionFindPy/cpp/include/Decoder.hpp:184-189 | the peeling step keeps a set holding both or neither endpoint at even weight |
| Graphs.PeelCross | UnionFindPy/cpp/include/Decoder.hpp:184-189 | the peeling step keeps a set holding one endpoint at even weight |
| Graphs.EvenClosedEmpty | UnionFindPy/cpp/include/Decoder.hpp:159-191 | once no edge is left every single vertex is closed, so every syndrome is even |
| Roots.RootManager.constructor | UnionFindPy/cpp/include/RootManager.hpp:14-22 | a new manager holds four empty tables, in the chosen counter width (uint32 here, int in union_find/cpp/include/RootManager.hpp:36-38) |
| Roots.RootManager.InitializeRoots | UnionFindPy/cpp/include/RootManager.hpp:58-72 | the tables become the ones emplacing every listed root in order gives |
| Roots.RootManager.IsEmptyOddRoot | UnionFindPy/cpp/include/RootManager.hpp:129 | true exactly when no vertex is an odd root |
| Roots.RootManager.Merge | UnionFindPy/cpp/include/RootManager.hpp:101-119 | the tables become Merged(root1, root2): summed parity and size at root1, odd status from the sum, root2 erased everywhere |
| Roots.RootManager.Remove | UnionFindPy/cpp/include/RootManager.hpp:121-127 | the root is erased from all four tables |
| Roots.RootManager.Clear | UnionFindPy/cpp/include/RootManager.hpp:131-137 | all four tables are empty again |
| Roots.RootManager.SetSize | UnionFindPy/cpp/include/RootManager.hpp:42-46 | SizeProxy::operator= stores the size for the vertex, whatever it is |
| Roots.RootManager.IncrementSize | UnionFindPy/cpp/include/RootManager.hpp:48-53 | SizeProxy::operator++ adds one to an existing size entry |
| Roots.UntrackedZero | UnionFindPy/cpp/include/RootManager.hpp:76-88 | size and parity of an untracked vertex read as 0, and it is not odd |
| Roots.InitializedShape | UnionFindPy/cpp/include/RootManager.hpp:65-71 | every listed vertex becomes a root and an odd root, with size and parity 1 unless it already had an entry; other vertices keep theirs |
| Roots.InitializedSets | UnionFindPy/cpp/include/RootManager.hpp:67-68 | roots_ and odd_roots_ gain exactly the listed vertices |
| Roots.InitializedSize | UnionFindPy/cpp/include/RootManager.hpp:69 | size_ gains exactly the listed vertices, with 1 for new ones |
| Roots.InitializedParity | UnionFindPy/cpp/include/RootManager.hpp:70 | parity_ gains exactly the listed vertices, with 1 for new ones |
| Roots.InitializedFresh | UnionFindPy/cpp/include/RootManager.hpp:58-72 | on empty tables every listed vertex is an odd root of size 1 and parity 1, and the tables are valid and consistent |
| Roots.InitializedValid | UnionFindPy/cpp/include/RootManager.hpp:58-72 | initialize_roots keeps the tables valid |
| Roots.MergeSizes | UnionFindPy/cpp/include/RootManager.hpp:111-118 | the size of root1 becomes the sum of the two sizes, root2 leaves every table, and every other vertex keeps its entries |
| Roots.MergeOdd | UnionFindPy/cpp/include/RootManager.hpp:103-112 | root1 is odd afterwards exactly when the summed parity is odd, and it stores the sum |
| Roots.WrapParity | UnionFindPy/cpp/include/RootManager.hpp:103-105 | the uint32 wrap of a sum has the sum's parity, since 2^32 is even |
| Roots.MergeValid | UnionFindPy/cpp/include/RootManager.hpp:101-119 | merge keeps the tables valid |
| Roots.MergeConsistent | UnionFindPy/cpp/include/RootManager.hpp:101-119 | merge of distinct roots keeps odd_roots_ equal to the roots with odd parity |
| Roots.AddSmall | UnionFindPy/cpp/include/RootManager.hpp:20-22 | a sum below 2^32 is the same in the uint32 and the int copy |
| Roots.MergeCopiesAgree | union_find/cpp/include/RootManager.hpp:110-128 | when no counter wraps, the int copy of merge agrees with the uint32 one |
| Roots.RemovedValid | UnionFindPy/cpp/include/RootManager.hpp:121-127 | remove keeps the tables valid and consistent and erases the vertex everywhere |
| Roots.SizeSetOnRoot | UnionFindPy/cpp/include/RootManager.hpp:42-46 | assigning the size of a root keeps the tables valid |
| Roots.SizeSetOffRoot | UnionFindPy/cpp/include/RootManager.hpp:35-46 | assigning the size of a non-root leaves a size entry without a root, and the size still reads 0 |
| Roots.SizeIncrementedValid | UnionFindPy/cpp/include/RootManager.hpp:48-53 | operator++ on a root adds one to its size and keeps the tables valid |
| Growth.BumpStep | UnionFindPy/cpp/include/Decoder.hpp:66-68 | one more visit to an edge is one more Step of its support (capped at 2; uncapped in include/UnionFind.hpp:82-100) |
| Growth.SlotFacts | UnionFindPy/cpp/include/Decoder.hpp:62-66 | the k-th neighbour of a border vertex gives a lattice edge, and its support_ slot is edge_idx of that edge, below num_edges |
| Growth.SlotDistinct | UnionFindPy/cpp/include/Decoder.hpp:62-66 | different neighbours of one vertex use different support_ slots |
| Growth.SlotsEndpoint | UnionFindPy/cpp/include/Decoder.hpp:60-66 | the slot of a lattice edge is visited from x exactly when x is one of its endpoints |
| Growth.FullInUpdate | UnionFindPy/cpp/include/Decoder.hpp:68-71 | raising the support of one edge to 2 raises the count of saturated edges at x by the neighbours on that edge |
| Growth.OccOne | UnionFindPy/cpp/include/Decoder.hpp:62-71 | every vertex has exactly one neighbour on each of its edges and none on the others |
| Growth.FullInAll | UnionFindPy/cpp/include/Decoder.hpp:104 | the count of saturated edges equals the number of neighbours exactly when every edge at x has support 2 |
| Growth.VisitCounts | UnionFindPy/cpp/include/Decoder.hpp:68-71 | a visit that makes an edge's support 2 and bumps connection_counts_ at both ends keeps the counts equal to the saturated edges |
| Growth.VisitCountsSame | UnionFindPy/cpp/include/Decoder.hpp:66-68 | a visit that leaves an edge unsaturated changes no count |
| Growth.GrowSupport | UnionFindPy/cpp/include/Decoder.hpp:58-76 | grow never lowers a support, keeps it at most 2, and raises exactly the unsaturated edges touching the border |
| Growth.CountsMono | UnionFindPy/cpp/include/Decoder.hpp:58-76 | with more support each vertex has at least as many saturated edges, never more than vertex_connection_count |
| Growth.GrowBorders | UnionFindPy/cpp/include/Decoder.hpp:58-76 | grow keeps every non-full vertex of a tracked cluster in its border set |
| Growth.GrownFuseMember | UnionFindPy/cpp/include/Decoder.hpp:68-73 | a fuse_list_ entry after grow was there before or became saturated during it |
| Growth.GrownFuseNew | UnionFindPy/cpp/include/Decoder.hpp:68-73 | every edge grow saturates is queued in fuse_list_ |
| Growth.GrowFuse | UnionFindPy/cpp/include/Decoder.hpp:58-76 | after grow, every saturated edge is queued or inside one cluster, and every supported edge touches a tracked cluster |
| Growth.GrownCompose | UnionFindPy/cpp/include/Decoder.hpp:60 | growing the border vertices one after another is growing their union |
| Growth.BumpVisit | UnionFindPy/cpp/include/Decoder.hpp:62-68 | the j-th neighbour's edge has not been visited yet, and one Step on it accounts for one more neighbour |
| Growth.FuseVisit | UnionFindPy/cpp/include/Decoder.hpp:68-73 | a visit queues its edge exactly when the support crosses to 2 |
| Growth.VisitDone | UnionFindPy/cpp/include/Decoder.hpp:62-74 | the body of the inner loop keeps the per-vertex loop invariant |
| Growth.VisitedGrown | UnionFindPy/cpp/include/Decoder.hpp:62-74 | after all neighbours of x the state is x grown |
| Growth.GrowRest | UnionFindPy/cpp/include/Decoder.hpp:58-76 | grow of a tracked root keeps the whole decoder invariant apart from the parent forest |
| Linking.FrontEnds | UnionFindPy/cpp/include/Decoder.hpp:116-119 | the front edge of fuse_list_ joins two distinct lattice vertices |
| Linking.MaskJoin | UnionFindPy/cpp/include/Decoder.hpp:131 | after root_of_vertex_[root2] = root1 the cluster of root1 is the union of the two clusters |
| Linking.MaskOther | UnionFindPy/cpp/include/Decoder.hpp:131 | every other cluster keeps its members |
| Linking.LinkFuse | UnionFindPy/cpp/include/Decoder.hpp:116-131 | after linking, the popped edge lies inside one cluster and the fuse-list invariant holds |
| Linking.LinkPeel | UnionFindPy/cpp/include/Decoder.hpp:126-131 | appending the fuse edge to peeling_edges_ keeps them a forest of edges inside clusters |
| Linking.LinkRoot | UnionFindPy/cpp/include/Decoder.hpp:129-133 | after the swap by size, root1 is tracked by the root manager |
| Linking.JoinCounts | UnionFindPy/cpp/include/Decoder.hpp:131-141 | the joined cluster has the sizes and syndrome counts of both added together |
| Linking.OtherCounts | UnionFindPy/cpp/include/Decoder.hpp:131 | every other cluster keeps its size and syndrome count |
| Linking.AloneCounts | UnionFindPy/cpp/include/Decoder.hpp:133-137 | an untracked root is a single vertex without syndrome |
| Linking.AbsorbJoined | UnionFindPy/cpp/include/Decoder.hpp:133-137 | after ++size(root1) the stored size and parity of root1 match its cluster with the single vertex root2 added |
| Linking.AbsorbTracked | UnionFindPy/cpp/include/Decoder.hpp:133-137 | absorbing a single vertex keeps the root manager's sizes and parities equal to the cluster contents |
| Linking.AbsorbBorders | UnionFindPy/cpp/include/Decoder.hpp:136 | adding root2 to the border of root1 keeps every non-full vertex in its cluster's border |
| Linking.AbsorbRest | UnionFindPy/cpp/include/Decoder.hpp:126-137 | linking a single untracked vertex under a tracked root keeps the decoder invariant |
| Linking.MergeJoined | UnionFindPy/cpp/include/Decoder.hpp:138-141 | after mgr_.merge the surviving root stores the size and parity of the joined cluster |
| Linking.MergeTracked | UnionFindPy/cpp/include/Decoder.hpp:138-141 | merging two tracked roots keeps the sizes and parities equal to the cluster contents |
| Linking.MergeBorders | UnionFindPy/cpp/include/Decoder.hpp:97-110 | merge_boundary keeps every non-full vertex of a cluster in its border set |
| Linking.MergeRest | UnionFindPy/cpp/include/Decoder.hpp:126-142 | linking two tracked roots keeps the decoder invariant |
| Linking.PopFuse | UnionFindPy/cpp/include/Decoder.hpp:116-124 | dropping a fuse edge whose ends share a root keeps the fuse-list invariant |
| Linking.PopSame | UnionFindPy/cpp/include/Decoder.hpp:116-124 | the `root1 == root2` branch changes nothing else and keeps the decoder invariant |
| ParentLinks.HigherDrop | UnionFindPy/cpp/include/Decoder.hpp:85-89 | each step of the find_root walk goes to a vertex of higher rank, so the walk ends |
| ParentLinks.CompressLinks | UnionFindPy/cpp/include/Decoder.hpp:93 | pointing every vertex of the walked path at the root keeps the parent forest and its clusters |
| ParentLinks.LinkLinks | UnionFindPy/cpp/include/Decoder.hpp:131 | making root2 a child of root1 keeps a parent forest whose clusters are the merged ones |
| ParentLinks.RelabelRoots | UnionFindPy/cpp/include/Decoder.hpp:131 | after the merge the cluster of every vertex is still a root of itself |
| Phases.OddIndicesMembers | UnionFindPy/cpp/include/Decoder.hpp:200-204 | the syndrome vertices are exactly the indices of odd entries, listed once each in increasing order |
| Phases.SeededEmpty | UnionFindPy/cpp/include/Decoder.hpp:51 | on an empty border map every root gets the border {root} and nothing else gets an entry |
| Phases.InitRoot | UnionFindPy/cpp/include/Decoder.hpp:50-55 | after init_cluster a syndrome vertex is a cluster of size 1 and parity 1 |
| Phases.SingletonTracked | UnionFindPy/cpp/include/Decoder.hpp:50-55 | tables whose roots are the syndrome vertices with size 1 and parity 1 match the singleton clusters |
| Phases.InitTracked | UnionFindPy/cpp/include/Decoder.hpp:50 | initialize_roots on the syndrome vertices tracks exactly the syndrome clusters |
| Phases.InitBorders | UnionFindPy/cpp/include/Decoder.hpp:51 | seeding each root's border with itself satisfies the border invariant |
| Phases.InitCounts | UnionFindPy/cpp/include/Decoder.hpp:48-49 | zero support and zero counts agree: no vertex has a saturated edge |
| Phases.InitOk | UnionFindPy/cpp/include/Decoder.hpp:46-56 | after init_cluster every vertex is its own parent and cluster, and the decoder invariant holds |
| Phases.SumCapBound | UnionFindPy/cpp/include/Decoder.hpp:66-68 | the support capped at 2 per edge sums to at most 2·num_edges, which bounds the growth rounds |
| Phases.SumCapMono | UnionFindPy/cpp/include/Decoder.hpp:66-68 | raising supports never lowers the capped sum, and raising one below 2 raises it |
| Phases.SaturatedAt | UnionFindPy/cpp/include/Decoder.hpp:104 | a vertex whose count reached vertex_connection_count has every edge saturated |
| Phases.ClusterClosed | UnionFindPy/cpp/include/Decoder.hpp:97-110 | a cluster whose border has no unsaturated edge has no lattice edge leaving it |
| Phases.Progress | UnionFindPy/cpp/include/Decoder.hpp:208-211 | while an odd root is left and every component has even weight, some border vertex of that root has an edge below support 2, so the loop makes progress |
| Phases.PeelReady | UnionFindPy/cpp/include/Decoder.hpp:208-214 | with no odd root left, every vertex set closed under the peeling edges has even syndrome weight |
| Peel.Xor1 | UnionFindPy/cpp/include/Decoder.hpp:188 | `^= 1U` flips the parity and keeps the rest of the value; on 0/1 it is 1 − a |
| Peel.LeafDistRotate | UnionFindPy/cpp/include/Decoder.hpp:175-178 | moving a non-leaf edge from the back to the front brings the next leaf edge one step closer, so the loop ends |
| Peel.CountVertices | UnionFindPy/cpp/include/Decoder.hpp:151-157 | vertex_count[x] is the number of peeling-edge endpoints equal to x |
| Peel.Peeled | UnionFindPy/cpp/include/Decoder.hpp:184-189 | peeling a leaf edge keeps the number of syndrome entries |
| Peel.PeelStart | UnionFindPy/cpp/include/Decoder.hpp:148-158 | the peeling loop invariant holds before the first round |
| Peel.PeelRotate | UnionFindPy/cpp/include/Decoder.hpp:175-178 | putting a non-leaf edge back at the front keeps the invariant and shrinks the distance to a leaf |
| Peel.PeelRemove | UnionFindPy/cpp/include/Decoder.hpp:161-189 | removing a leaf edge keeps the invariant, recording it as a correction exactly when its leaf end carried a defect |
| Peel.RemoveLeaf | UnionFindPy/cpp/include/Decoder.hpp:161-182 | removing a leaf edge keeps a forest, and the decremented counters stay the degrees |
| Peel.MovedDefect | UnionFindPy/cpp/include/Decoder.hpp:184-189 | after moving the defect, the syndromes still equal the start plus the boundary of the corrections, mod 2 |
| Peel.FlipAt | UnionFindPy/cpp/include/Decoder.hpp:187-188 | moving the defect flips the parity exactly at the two ends |
| Peel.LeafPeeled | UnionFindPy/cpp/include/Decoder.hpp:181-189 | peeling a leaf keeps syndromes 0/1 and keeps every closed set of the remaining forest at even weight |
| Peel.LeafAlone | UnionFindPy/cpp/include/Decoder.hpp:165-174 | the end of count 1 touches no other remaining edge |
| Peel.PeelEnd | UnionFindPy/cpp/include/Decoder.hpp:159-191 | when the list is empty and the start was 0/1 with even weight on every closed set, every syndrome is 0 |
| UnionFind.MembersSpec | include/UnionFind.hpp:262-274 | Members lists exactly the vertices of a cluster, in increasing order |
| UnionFind.Resized | UnionFindPy/cpp/include/Decoder.hpp:53 | std::vector::resize keeps the first entries and has the new length |
| UnionFind.VisitNeighbour | UnionFindPy/cpp/include/Decoder.hpp:62-73 | one inner-loop pass of grow: the support of the edge takes one Step, and reaching 2 bumps both counts and queues the edge |
| UnionFind.GrowVertex | UnionFindPy/cpp/include/Decoder.hpp:62-74 | grow's visits from one border vertex give the state with that vertex grown |
| UnionFind.GrowBorder | UnionFindPy/cpp/include/Decoder.hpp:60-75 | the visits from every border vertex, in any order, give the state with the whole border grown |
| UnionFind.GrowRoots | UnionFindPy/cpp/include/Decoder.hpp:208-211 | growing every odd root keeps the invariant, never lowers support, and raises the capped support sum |
| UnionFind.MergeBoundary | UnionFindPy/cpp/include/Decoder.hpp:97-110 | root1's border becomes both borders minus root2's full vertices, and root2's entry is erased |
| UnionFind.LinkBorders | UnionFindPy/cpp/include/Decoder.hpp:133-142 | the border table after linking: merge_boundary for a tracked root, else the single vertex joins root1's border |
| UnionFind.LinkStep | UnionFindPy/cpp/include/Decoder.hpp:126-142 | linking the smaller root under the larger across the front fuse edge keeps the invariant |
| UnionFind.Linked | UnionFindPy/cpp/include/Decoder.hpp:126-142 | the link step keeps the invariant, moves the front edge to peeling_edges_, and merges exactly the two clusters |
| UnionFind.SyndromeVertices | UnionFindPy/cpp/include/Decoder.hpp:200-204 | the list holds exactly the indices of odd entries, increasing |
| UnionFind.WalkUp | UnionFindPy/cpp/include/Decoder.hpp:83-89 | the do-while walk ends at the root of the vertex's cluster and records only cluster members below the root's rank |
| UnionFind.PointAt | UnionFindPy/cpp/include/Decoder.hpp:93 | every vertex of the path now points at the root |
| UnionFind.RelabelJoins | UnionFindPy/cpp/include/Decoder.hpp:131 | linking across an edge puts the edge inside one cluster and only merges clusters |
| UnionFind.FusedInside | UnionFindPy/cpp/include/Decoder.hpp:112-144 | with the fuse list empty, the ends of every saturated edge share a cluster |
| UnionFind.Mod2 | UnionFindPy/cpp/include/Decoder.hpp:203 | the clusters count the parities of the syndrome entries |
| UnionFind.OddIndicesMod2 | UnionFindPy/cpp/include/Decoder.hpp:203 | a syndrome and its parities give the same syndrome vertices |
| UnionFind.NoOddIndices | UnionFindPy/cpp/include/Decoder.hpp:200-204 | a syndrome without odd entries has no syndrome vertex |
| UnionFind.PeelingReady | UnionFindPy/cpp/include/Decoder.hpp:208-214 | once no odd cluster is left the peeling edges are a forest of lattice edges with even syndrome weight on every part |
| UnionFind.Outcome | UnionFindPy/cpp/include/Decoder.hpp:146-192 | corrections drawn from a forest of lattice edges form one; 0/1 syndromes end at 0; a syndrome with no defects gets no correction |
| UnionFind.InitState | UnionFindPy/cpp/include/Decoder.hpp:197-206 | init_cluster on the syndrome vertices establishes the invariant, and a zero syndrome leaves no odd root |
| UnionFind.PeelLeaf | UnionFindPy/cpp/include/Decoder.hpp:184-189 | when the leaf end carries a defect the edge is recorded, the end is cleared and the other end flipped; the legacy copy (`--syndromes[u]`, `1 - syndromes[v]`) takes the same step whenever the other end is 0 or 1, and 0/1 syndromes stay 0/1 |
| UnionFind.Decoder.constructor | UnionFindPy/cpp/include/Decoder.hpp:195 | a new decoder over the lattice is in the cleared state |
| UnionFind.Decoder.InitCluster | UnionFindPy/cpp/include/Decoder.hpp:46-56 | zero counts and support, roots registered, borders seeded with themselves, every vertex its own parent |
| UnionFind.Decoder.FindRoot | UnionFindPy/cpp/include/Decoder.hpp:78-95 | returns the root of the vertex's cluster and points every vertex on the walk at it, keeping the parent forest |
| UnionFind.Decoder.Grow | UnionFindPy/cpp/include/Decoder.hpp:58-76 | the fields become grow's result for the root's border; a missing border entry is inserted empty |
| UnionFind.Decoder.GrowOddRoots | UnionFindPy/cpp/include/Decoder.hpp:210 | growing every odd root keeps the invariant and raises the capped support sum |
| UnionFind.Decoder.ApplyGrowth | UnionFindPy/cpp/include/Decoder.hpp:58-76 | the decoder fields take the grown values and the invariant holds |
| UnionFind.Decoder.FindEnds | UnionFindPy/cpp/include/Decoder.hpp:118-119 | the two results are the roots of the two ends of the edge |
| UnionFind.Decoder.DropFront | UnionFindPy/cpp/include/Decoder.hpp:116-124 | an edge whose ends share a root is dropped from the front and nothing else changes |
| UnionFind.Decoder.UpdateTable | UnionFindPy/cpp/include/Decoder.hpp:133-141 | the root table grows root1 by one for a single vertex, else merges root2 into root1 |
| UnionFind.Decoder.ApplyLink | UnionFindPy/cpp/include/Decoder.hpp:126-142 | the link updates take the decoder to the linked state, keeping the invariant |
| UnionFind.Decoder.LinkFront | UnionFindPy/cpp/include/Decoder.hpp:126-142 | the front edge becomes a peeling edge and the smaller cluster is linked under the larger one |
| UnionFind.Decoder.FuseFront | UnionFindPy/cpp/include/Decoder.hpp:116-142 | one pass of fusion: the front edge ends inside one cluster, and it joins the peeling edges exactly when its ends were in different clusters |
| UnionFind.Decoder.Fusion | UnionFindPy/cpp/include/Decoder.hpp:112-144 | fusion empties the fuse list, only merges clusters, and leaves every saturated edge inside one cluster |
| UnionFind.Decoder.Peeling | UnionFindPy/cpp/include/Decoder.hpp:146-192 | peeling empties the list, returns some of its edges, changes the syndromes by their boundary mod 2, and leaves 0/1 syndromes with even weight on the forest at 0 |
| UnionFind.Decoder.PeelBack | UnionFindPy/cpp/include/Decoder.hpp:159-190 | one round keeps the peeling invariant and either shortens the list or brings a leaf closer |
| UnionFind.Decoder.GrowClusters | UnionFindPy/cpp/include/Decoder.hpp:208-212 | the growth loop ends with no odd root and an empty fuse list |
| UnionFind.Decoder.GrowRound | UnionFindPy/cpp/include/Decoder.hpp:210-211 | one round of grow and fusion raises the capped support sum |
| UnionFind.Decoder.ReadyToPeel | UnionFindPy/cpp/include/Decoder.hpp:208-214 | after growth the peeling edges are a forest of lattice edges with even syndrome weight on every part |
| UnionFind.Decoder.Decode | UnionFindPy/cpp/include/Decoder.hpp:197-215 | the corrections are a forest of lattice edges whose boundary accounts for the change in the syndromes; 0/1 syndromes end at 0; no defect means no correction |
| UnionFind.Decoder.StartSession | UnionFindPy/cpp/include/Decoder.hpp:200-206 | init_cluster on the syndrome vertices establishes the invariant; a zero syndrome gives no odd root and no peeling edge |
| UnionFind.Decoder.Clear | UnionFindPy/cpp/include/Decoder.hpp:229-238 | clear() empties the fuse list, the root table, the borders and the peeling list |
| UnionFind.ClusterMapStep | include/UnionFind.hpp:266-272 | one more vertex v appends v to the list of its root when that root's cluster has non-zero size, creating the list if needed, and changes nothing else |
| UnionFind.ClusterKeys | include/UnionFind.hpp:262-274 | after all vertices, the keys of the cluster map are exactly the roots the root manager tracks |
| UnionFind.MembersNone | include/UnionFind.hpp:266-272 | a root no earlier vertex belongs to has an empty member list |
| UnionFind.Decoder.Clusters | include/UnionFind.hpp:262-275 | the result maps each tracked root of non-zero size to its member vertices in increasing order; the decoder invariant is kept |
| UnionFind.Decoder.Group | include/UnionFind.hpp:266-272 | one pass of the loop: find_root of v, then v is appended to its root's list when the root's size is non-zero |
| Syndromes.FlagPairs | UnionFindPy/cpp/examples/toric_utils.cpp:22-62 | one pair of flagged vertices per qubit, 2L² pairs, all on the L² vertices |
| Syndromes.ChainDeg | UnionFindPy/cpp/examples/toric_utils.cpp:26-32 | the number of times the loop flips a vertex is its degree in the error chain |
| Syndromes.Syndrome | UnionFindPy/cpp/examples/toric_utils.hpp:72-83 | the syndrome has L² entries, each 0 or 1 |
| Syndromes.PartialStart | UnionFindPy/cpp/examples/toric_utils.cpp:25 | before the loop every entry is 0 |
| Syndromes.PartialStep | UnionFindPy/cpp/examples/toric_utils.cpp:28-31 | a qubit without error changes nothing; an erroneous qubit flips both vertices of its pair |
| Syndromes.CountsStep | src/error_utils.cpp:46-50 | a qubit without error changes nothing; an erroneous qubit adds one to both vertices of its pair |
| Syndromes.FlipStep | UnionFindPy/cpp/examples/toric_utils.cpp:26-31 | the XOR loop's step for the lattice's own pairs |
| Syndromes.CountStep | src/error_utils.cpp:44-50 | the counting loop's step for the lattice's own pairs |
| Syndromes.ZErrorToSyndromeX | UnionFindPy/cpp/examples/toric_utils.cpp:22-35 | the result is the syndrome of the Z error: a vertex is 1 exactly when an odd number of erroneous edges end on it |
| Syndromes.XErrorToSyndromeZ | UnionFindPy/cpp/examples/toric_utils.cpp:37-62 | the result is the syndrome of the X error on the dual lattice |
| Syndromes.FlipEdge | UnionFindPy/cpp/examples/toric_utils.cpp:29-31 | the two endpoints of to_edge(n) are flipped and nothing else changes |
| Syndromes.TogglePair | UnionFindPy/cpp/examples/toric_utils.cpp:30-31 | entries a and b are flipped in turn and nothing else changes |
| Syndromes.FlipDual | UnionFindPy/cpp/examples/toric_utils.cpp:44-59 | the left (horizontal) or lower (vertical) endpoint and its dual partner are flipped, nothing else |
| Syndromes.ErrorsToSyndromes | UnionFindPy/cpp/examples/toric_utils.hpp:72-83 | X errors give the dual-lattice syndrome, Z errors the lattice syndrome |
| Syndromes.ReduceCounts | src/error_utils.cpp:52-53 | reducing the hit counts modulo 2 yields the syndrome |
| Syndromes.BumpPair | src/error_utils.cpp:49-50 | entries a and b go up by one and nothing else changes |
| Syndromes.CountEdge | src/error_utils.cpp:48-50 | both endpoints of to_edge(n) go up by one, nothing else |
| Syndromes.CountDual | src/error_utils.cpp:65-80 | the two dual vertices of qubit n go up by one, nothing else |
| Syndromes.ZErrorToSyndromeXCounting | src/error_utils.cpp:41-56 | the counting copy returns the same syndrome as the XOR copy |
| Syndromes.XErrorToSyndromeZCounting | src/error_utils.cpp:58-86 | the counting copy returns the same dual syndrome as the XOR copy |
| Syndromes.ToggleParity | UnionFindPy/cpp/examples/toric_utils.cpp:30 | flipping one entry changes the parity of the number of flagged vertices |
| Syndromes.PartialEven | UnionFindPy/cpp/examples/toric_utils.cpp:26-32 | after every prefix of the loop an even number of vertices are flagged |
| Syndromes.SyndromeWeightEven | UnionFindPy/cpp/examples/toric_utils.hpp:72-83 | every syndrome has an even number of flagged vertices |
| Syndromes.CountOfNoError | UnionFindPy/cpp/examples/toric_utils.cpp:28 | with no error, no vertex is flagged by any qubit |
| Syndromes.SyndromeOfNoError | UnionFindPy/cpp/examples/toric_utils.hpp:72-83 | no error gives the all-zero syndrome |
| Syndromes.CountLinear | UnionFindPy/cpp/examples/toric_utils.cpp:26-32 | the flag counts of a sum of errors have the parity of the sum of the counts |
| Syndromes.PartialLinear | UnionFindPy/cpp/examples/toric_utils.cpp:26-32 | the loop's parities are linear in the error, vertex by vertex |
| Syndromes.SyndromeLinear | UnionFindPy/cpp/examples/toric_utils.hpp:72-83 | the syndrome of e1 + e2 is the XOR of the syndromes of e1 and e2 |
| Syndromes.CountOfSingle | UnionFindPy/cpp/examples/toric_utils.cpp:26-32 | a single error on qubit n adds the hits of its pair once n is read, and nothing else |
| Syndromes.SingleErrorSyndrome | UnionFindPy/cpp/examples/toric_utils.hpp:72-83 | a single error flags exactly the vertices of its pair (none when the pair names one vertex twice) |
| Syndromes.ZFlipsDistinct | UnionFindPy/cpp/examples/toric_utils.cpp:29-31 | for L >= 3 the two endpoints a Z error flips are different vertices |
| Syndromes.CorrectedChainClosed | UnionFindPy/cpp/include/Decoder.hpp:197-215 | corrections that clear the syndrome of an error, together with the error chain, meet every vertex an even number of times |
| Layers.StackLength | UnionFindPy/cpp/examples/toric_utils.cpp:104 | h uniform blocks of N entries stack to h·N entries |
| Layers.StackBlock | UnionFindPy/cpp/examples/toric_utils.cpp:119-120 | block h of the stack occupies the indices [h·N, h·N + N) |
| Layers.StackSnoc | UnionFindPy/cpp/examples/toric_utils.cpp:105-121 | one more pass of the loop appends block h to the stack |
| Layers.SplicePrefix | UnionFindPy/cpp/examples/toric_utils.cpp:119-120 | after std::copy the prefix up to the block's end is the old prefix followed by the block |
| Layers.CopyBlock | UnionFindPy/cpp/examples/toric_utils.cpp:119-120 | the block lands at the offset and every other entry keeps its value |
| Layers.CalcSyndromes | UnionFindPy/cpp/examples/toric_utils.cpp:100-124 | the result is the stack of the L layer syndromes, in layer order |
| Layers.StackedLayers | UnionFindPy/cpp/examples/toric_utils.cpp:100-124 | the result has L³ entries and layer h, indices [hL², (h+1)L²), is the syndrome of error column h |
| Layers.AddMeasurementNoise | UnionFindPy/cpp/examples/error_utils.cpp:24-29 | every syndrome entry becomes its uint32 sum with the measurement error in the same place |
| Layers.WrapParity | UnionFindPy/cpp/examples/error_utils.cpp:28 | reducing modulo 2^32 keeps the parity |
| Layers.NoisyParity | UnionFindPy/cpp/examples/error_utils.cpp:24-29 | a noisy entry is odd exactly when the syndrome and the measurement error have different parities |
| Layers.SubColumn | src/error_utils.cpp:121 | layer h becomes layer h minus layer h−1, every other entry is kept |
| Layers.ReduceSub | src/error_utils.cpp:123 | every entry x becomes (x+2)%2 with C's remainder |
| Layers.SubRangeJoin | src/error_utils.cpp:119-122 | differencing one more layer, top down, extends the differenced range |
| Layers.LayerSyndromeDiff | src/error_utils.cpp:116-124 | the vector ends as DiffSub of the original stacked syndromes |
| Layers.AddColumn | UnionFindPy/cpp/examples/error_utils.cpp:34 | layer h becomes layer h plus layer h−1 in uint32, every other entry is kept |
| Layers.ReduceAdd | UnionFindPy/cpp/examples/error_utils.cpp:35 | every entry x becomes x % 2 |
| Layers.AddRangeJoin | UnionFindPy/cpp/examples/error_utils.cpp:34 | adding one more layer, top down, extends the summed range |
| Layers.LayerSyndromeDiffU32 | UnionFindPy/cpp/examples/error_utils.cpp:31-36 | the vector ends as DiffAdd of the original stacked syndromes |
| Layers.DiffSubIsXor | src/error_utils.cpp:116-124 | on entries in {0, 1, 2}, layer 0 keeps its parity and every later layer becomes the XOR of its parity with the original layer below |
| Layers.DiffSubAt | src/error_utils.cpp:116-124 | the XOR property at one index |
| Layers.DiffAddIsXor | UnionFindPy/cpp/examples/error_utils.cpp:31-36 | for every uint32 input the result is the layer XOR |
| Layers.DiffFormsAgree | examples/error_utils.cpp:7-15 | on entries in {0, 1, 2} the subtracting and the adding copies give the same result |
| Layers.DiffSubOfZero | src/error_utils.cpp:116-124 | an all-zero input gives an all-zero result |
| Layers.DiffOfAccumulate | src/error_utils.cpp:116-124 | differencing the running XOR of a 0/1 vector gives that vector back |
| Layers.AccumulateOfDiffAt | src/error_utils.cpp:116-124 | the running XOR of the differences of 0/1 syndromes gives back each syndrome bit |
| Layers.AccumulateOfDiff | src/error_utils.cpp:116-124 | the layer difference of 0/1 syndromes is invertible: the running XOR undoes it |
| Checks.TallySnoc | UnionFindPy/cpp/examples/toric_utils.cpp:129-133 | one more correction adds one to the qubit it maps to and nothing elsewhere |
| Checks.AddCorrections | UnionFindPy/cpp/examples/toric_utils.cpp:126-134 | every qubit's count goes up by the number of corrections decoder_edge_to_qubit_idx sends to it, nothing is reduced |
| Checks.TallyOfChain | UnionFindPy/cpp/examples/toric_utils.cpp:126-134 | correcting with the chain of the first k flagged pairs adds one to each erroneous qubit below k and nothing elsewhere |
| Checks.FlagPairsInverted | UnionFindPy/cpp/examples/toric_utils.cpp:22-86 | for L >= 3 decoder_edge_to_qubit_idx sends the edge joining the pair each qubit flags back to that qubit |
| Checks.ErrorChainTally | UnionFindPy/cpp/examples/toric_utils.cpp:126-134 | adding the error chain itself as corrections adds one to exactly the erroneous qubits |
| Checks.SumStride | UnionFindPy/cpp/examples/toric_utils.cpp:145-150 | a counting loop returns the sum of the entries at start, start + step, … below stop |
| Checks.LogicalError | UnionFindPy/cpp/examples/toric_utils.cpp:136-155 | the verdict is that one of the two line sums (column 0 and row 0 of the dual lattice for X, row 0 and column 0 for Z) is odd |
| Checks.StrideSumParity | UnionFindPy/cpp/examples/toric_utils.cpp:145-150 | vectors with the same parity everywhere have line sums of the same parity |
| Checks.StrideSumNonNegative | UnionFindPy/cpp/examples/toric_utils.cpp:145-150 | a line sum of counts is never negative |
| Checks.LogicalErrorParity | UnionFindPy/cpp/examples/toric_utils.cpp:136-155 | on counts the verdict depends only on the parity of each qubit's count |
| Checks.EvenNoLogicalError | UnionFindPy/cpp/examples/toric_utils.cpp:136-155 | even counts everywhere give no logical error |
| Checks.StrideSumZero | UnionFindPy/cpp/examples/toric_utils.cpp:145-150 | a line sum of an all-zero vector is 0 |
| Checks.OwnChainNoLogicalError | UnionFindPy/cpp/examples/toric_utils.cpp:126-155 | for L >= 3 an error corrected by its own chain shows no logical error |
| Checks.Project | UnionFindPy/cpp/examples/toric_utils.cpp:160-168 | the projected corrections join vertices of layer 0 |
| Checks.HasLogicalError | UnionFindPy/cpp/examples/toric_utils.cpp:157-170 | each qubit's count goes up by the projected space-like corrections sent to it, and the verdict is logical_error of the updated counts |
| Checks.ProjectAppend | UnionFindPy/cpp/examples/toric_utils.cpp:160-168 | projection distributes over concatenation |
| Checks.TimeLikeIgnored | UnionFindPy/cpp/examples/toric_utils.cpp:162 | a time-like correction, wherever it sits, does not change the projection |
| Checks.LiftProjects | UnionFindPy/cpp/examples/toric_utils.cpp:162-164 | a correction moved up any number of layers is space-like exactly when the original is, and projects to the same edge |
| Checks.ProjectOfLayerZero | UnionFindPy/cpp/examples/toric_utils.cpp:160-168 | corrections already in layer 0 project to themselves |
| Checks.UtilityMisplacesCorrection | src/utility.cpp:53-72 | on the 3 × 3 torus an X error on qubit 4 flags dual vertices 1 and 0; decoder_edge_to_qubit_idx maps their edge back to 4, the src/utility.cpp copy to qubit 1 |
| Lazy.EdgeTableFacts | UnionFindPy/cpp/examples/LazyDecoder.hpp:30-38 | for L >= 3 the table built from to_edge lists every edge index once: edge_idx gives each entry's index back, no edge appears twice, all join lattice vertices |
| Lazy.SelectedSpec | UnionFindPy/cpp/examples/LazyDecoder.hpp:44-50 | an edge is selected exactly when it is in the table and both endpoints carry syndrome 1; no more edges than the table |
| Lazy.SelectedOfZero | UnionFindPy/cpp/examples/LazyDecoder.hpp:44-50 | with no syndrome flagged nothing is selected |
| Lazy.ToggleFacts | UnionFindPy/cpp/examples/LazyDecoder.hpp:54-55 | `^= 1U` flips the parity of that entry alone and keeps its higher bits |
| Lazy.Flipped | UnionFindPy/cpp/examples/LazyDecoder.hpp:52-56 | flipping keeps the number of syndrome entries |
| Lazy.FlippedAt | UnionFindPy/cpp/examples/LazyDecoder.hpp:52-56 | each vertex's parity moves by its degree in the corrections and its higher bits stay |
| Lazy.FlippedBoundary | UnionFindPy/cpp/examples/LazyDecoder.hpp:52-56 | the flipped syndromes differ from the original by the boundary of the corrections |
| Lazy.SuccessMeansCorrected | UnionFindPy/cpp/examples/LazyDecoder.hpp:52-66 | on 0/1 syndromes no entry is left at 1 exactly when every vertex's correction degree has the parity of its syndrome |
| Lazy.LazyDecoder.constructor | UnionFindPy/cpp/examples/LazyDecoder.hpp:30-38 | all_edges_[i] == to_edge(i) for every edge index i, in order |
| Lazy.LazyDecoder.SelectFlagged | UnionFindPy/cpp/examples/LazyDecoder.hpp:44-50 | the corrections are the table's edges with both endpoints flagged, in table order |
| Lazy.LazyDecoder.Decode | UnionFindPy/cpp/examples/LazyDecoder.hpp:40-68 | the corrections are the edges selected on the unmodified syndromes; the syndromes end flipped at their endpoints; success exactly when no entry equals 1 |
| Lazy.FlipEndpoints | UnionFindPy/cpp/examples/LazyDecoder.hpp:52-56 | both endpoints of every correction are flipped in turn |
| Lazy.NoneFlagged | UnionFindPy/cpp/examples/LazyDecoder.hpp:58-66 | success exactly when no entry equals 1 |
| Lazy.DecodeOfZero | include/LazyDecoder.hpp:25-55 | on an all-zero syndrome decode succeeds with no corrections and changes nothing |

## Left out

- Random error and measurement-noise generation (ErrorGenerator.hpp and the error_utils headers) is not modelled: it draws from random engines with floating-point probabilities. Error vectors and measurement matrices are parameters.
- Benchmark drivers, command-line parsing, MPI, timing and JSON output are left out. So are the pybind11 bindings and the Python layer.
- Printing and serialisation are left out: RootManager::print, operator<< and to_json/from_json. UnionFindDecoder::clusters returns a JSON object; the model returns the `std::map` it is built from, as a Dafny map.
- The iteration order of the tsl::robin_set and robin_map tables (odd roots, border vertices) is not modelled. They are Dafny sets and maps, and every property is stated independently of the order in which they are visited.
- Complexity claims (amortised union-find cost, linear-time peeling) are not functional properties and are not stated.
- The layered `LatticeFromParity(…, repetitions)` constructor and `edge_idx_all` are not part of this model; their definitions are not among the source files.
- syndrome_locations, used by include/UnionFind.hpp decode, is not part of this model. It is modelled as the increasing list of indices whose entry is odd, as Decoder.hpp computes them.
- UnionFind.Decoder.Decode requires every connected component of the lattice to hold an even number of syndrome bits. Otherwise the source's growth loop never ends, because no boundary exists.
- UnionFind.Decoder.Decode requires a cleared session (the state after construction or clear()). A second decode without clear() starts from stale tables in the source.
- UnionFind.Decoder.Decode promises an all-zero final syndrome only for 0/1 input. The source tests `% 2` when it collects syndrome vertices but `== 1` when it peels.
- UnionFind.Decoder.Decode requires 0/1 syndromes for the legacy copy. include/UnionFind.hpp:214-219 peels `std::vector<int>` entries with `--syndromes[u]` and `syndromes[v] = 1 - syndromes[v]`, which turns an entry above 1 into a negative one. The model holds syndromes as `nat` and does not model negative entries. On 0/1 entries both copies take the same step (UnionFind.PeelLeaf).
- UnionFind.Decoder.Decode requires `Simple(graph)`: no vertex is its own neighbour, no neighbour is listed twice, and edge_idx is injective. This excludes multigraphs: a LatticeFromParity with two qubits in the same two rows or a qubit twice in one row, and the torus and cubic lattices with L <= 2 (Lattice2D.TwoNotSimple). On such a graph the source's grow visits one shared support slot once per listed copy, which the growth invariants do not cover. Lattice2D.AsGraphSimple and LatticeCubic.AsGraphSimple prove the condition for L >= 3, and LatticeFromParity.LatticeFromParity.AsGraphSimple proves it exactly for matrices without such qubits.
- Lazy.LazyDecoder.Decode takes syndromes as `nat`. The int copy's `^= 1` on a negative entry is not modelled.
- 32-bit wrap-around is modelled where the source's results depend on it: to_vertex_index of row or column −1, the RootManager sizes, add_measurement_noise and the adding layer_syndrome_diff. The uint32 vertex_connections of Lattice2D and LatticeCubic are proved equal to the int ones whenever the vertex count fits in 32 bits. add_corrections, logical_error and has_logical_error are modelled on unbounded integers. For the uint32 copies this changes no verdict, because logical_error reads only parities and 2^32 is even. The overflow of the int copies past 2^31 − 1 is not modelled.
- Checks.LogicalError models the std::vector overload in src/utility.cpp and the Eigen overloads with one function on `seq<int>`: both loops read the same indices.
- Layers.AddMeasurementNoise takes the measurement matrix as its column-major entry sequence, which is the order Eigen::Map lays it over the syndromes. Eigen's expression templates are not modelled.
- Members: clusters() loops over L_*L_ vertices; the model loops over the graph's vertex count, which is L*L for the torus it is used with.

## Findings

| source | as written | input that shows it | evidently intended | confidence | as-written member | corrected member |
|---|---|---|---|---|---|---|
| src/utility.cpp:58-72 | The X branch of decoder_edge_to_qubit_idx maps a horizontal dual edge to `L*row + (col+1)%L` from its left endpoint, and a vertical one to `L*((row+1)%L) + col + L*L` from its upper endpoint. | L = 3, an X error on qubit 4: x_error_to_syndrome_z flags dual vertices 1 and 0, and the edge joining them maps to qubit 1, not 4, so add_corrections corrects the wrong qubit. | The formula of src/toric_utils.cpp:55-69 and UnionFindPy/cpp/examples/toric_utils.cpp:68-81, which maps the edge of every single X error back to its qubit. | medium, not executed | Checks.UtilityMisplacesCorrection | Toric.QubitOfFlips |
