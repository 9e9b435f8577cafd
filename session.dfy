// The state of one decoding session of the Union-Find decoder, as values,
// and the invariant that every step of the decoder keeps.
//
// Besides its fields the decoder carries three ghost sequences: cluster[x]
// is the root that find_root(x) would return, rank is a potential that
// strictly grows along parent links (it bounds the walk of find_root),
// and syn is the syndrome the session started from.

module Sessions {
  import opened Edges
  import opened Toric
  import opened Roots
  import opened Graphs

  /** The fields of the decoder apart from root_of_vertex_ and the table object. */
  datatype Session = Session(connectionCounts: seq<nat>, support: seq<nat>, fuseList: seq<Edge>,
                             borderVertices: map<nat, set<nat>>, peelingEdges: seq<Edge>)

  /** The legacy decoder keeps int counters, the current one uint32 counters. */
  function CopyOf(legacy: bool): Copy {
    if legacy then IntCopy else U32Copy
  }

  /** The support of the edge e, 0 when e has no index. */
  function SupportOf(g: Graph, sup: seq<nat>, e: Edge): nat {
    if e in g.edgeIdx && g.edgeIdx[e] < |sup| then sup[g.edgeIdx[e]] else 0
  }

  /**
   * One visit of grow to an edge of support s: the current decoder leaves a
   * saturated edge (support 2) alone, the legacy one counts on without a cap.
   */
  function Step(legacy: bool, s: nat): nat {
    if !legacy && s == 2 then 2 else s + 1
  }

  /** The support after k visits, starting from s <= 2 in the capped case. */
  function Bump(legacy: bool, s: nat, k: nat): nat {
    if legacy then s + k else if s + k <= 2 then s + k else 2
  }

  /** The edge index of the k-th neighbour of x, -1 when there is none. */
  function Slot(g: Graph, x: nat, k: nat): int {
    if x < |g.connections| && k < |g.connections[x]| && MakeEdge(x, g.connections[x][k]) in g.edgeIdx
    then g.edgeIdx[MakeEdge(x, g.connections[x][k])]
    else -1
  }

  /** The edge indices of the first j neighbours of x. */
  function SlotsBefore(g: Graph, x: nat, j: nat): set<int> {
    set k: nat | k < j :: Slot(g, x, k)
  }

  /** The edge indices of all edges at x. */
  function Slots(g: Graph, x: nat): set<int> {
    if x < |g.connections| then SlotsBefore(g, x, |g.connections[x]|) else {}
  }

  /** How many vertices of B have the edge i among their edges. */
  function Hits(g: Graph, B: set<nat>, i: int): nat {
    |set x | x in B && i in Slots(g, x)|
  }

  /** The number of neighbours w in ws whose edge to x has support 2 or more. */
  function FullIn(g: Graph, sup: seq<nat>, x: nat, ws: seq<nat>): nat {
    if |ws| == 0 then 0
    else FullIn(g, sup, x, ws[..|ws| - 1]) + (if SupportOf(g, sup, MakeEdge(x, ws[|ws| - 1])) >= 2 then 1 else 0)
  }

  /** The number of saturated edges at x. */
  function FullCount(g: Graph, sup: seq<nat>, x: nat): nat {
    if x < |g.connections| then FullIn(g, sup, x, g.connections[x]) else 0
  }

  /** The test of merge_boundary: every edge of x is saturated. */
  predicate Full(g: Graph, cc: seq<nat>, x: nat) {
    x < |cc| && x < |g.connectionCount| && cc[x] == g.connectionCount[x]
  }

  /** border_vertices_[r], which inserts an empty set for a missing r. */
  function BorderOf(border: map<nat, set<nat>>, r: nat): set<nat> {
    if r in border then border[r] else {}
  }

  /**
   * merge_boundary(r1, r2): r1 takes the borders of both, less the vertices of
   * r2's border that are full, and r2's entry is erased.
   */
  function MergedBorders(g: Graph, cc: seq<nat>, border: map<nat, set<nat>>, r1: nat, r2: nat): map<nat, set<nat>> {
    var b1 := BorderOf(border, r1);
    var b2 := BorderOf(border, r2);
    border[r1 := (b1 + b2) - (set x | x in b2 && Full(g, cc, x))] - {r2}
  }

  /** Every vertex of the cluster of a joins the cluster of b. */
  function Relabel(cl: seq<nat>, a: nat, b: nat): (r: seq<nat>)
    ensures |r| == |cl|
  {
    seq(|cl|, i requires 0 <= i < |cl| => if cl[i] == a then b else cl[i])
  }

  /** Path compression: every vertex on the path points at r. */
  function Compress(p: seq<nat>, path: seq<nat>, r: nat): (q: seq<nat>)
    ensures |q| == |p|
  {
    seq(|p|, x requires 0 <= x < |p| => if x in path then r else p[x])
  }

  /** The number of vertices whose rank exceeds k: it bounds the walk of find_root. */
  function Higher(rank: seq<nat>, k: nat): nat {
    |set y | 0 <= y < |rank| && rank[y] > k|
  }

  /** The table of a fresh root_of_vertex_: every vertex is its own parent. */
  function Identity(n: nat): seq<nat> {
    seq(n, x => x)
  }

  function Zeros(n: nat): seq<nat> {
    seq(n, x => 0)
  }

  /** The indices of the odd entries of s, in increasing order. */
  function OddIndices(s: seq<nat>): seq<nat> {
    if |s| == 0 then []
    else OddIndices(s[..|s| - 1]) + (if s[|s| - 1] % 2 != 0 then [|s| - 1] else [])
  }

  /** border_vertices_[root].emplace(root) for every root in order. */
  function Seeded(border: map<nat, set<nat>>, rs: seq<nat>): map<nat, set<nat>> {
    if |rs| == 0 then border
    else
      var b := Seeded(border, rs[..|rs| - 1]);
      b[rs[|rs| - 1] := BorderOf(b, rs[|rs| - 1]) + {rs[|rs| - 1]}]
  }

  /** The number of cut-off units of support, min(support, 2), over all edges. */
  function SumCap(sup: seq<nat>): nat {
    if |sup| == 0 then 0
    else SumCap(sup[..|sup| - 1]) + (if sup[|sup| - 1] < 2 then sup[|sup| - 1] else 2)
  }

  // ---------------------------------------------------------------------
  // The invariant

  /**
   * The parent forest: parents and clusters are vertices, rank grows along
   * parent links, a vertex and its parent share a cluster, the cluster of
   * a vertex is a root, and a root is its own cluster.
   */
  ghost predicate Links(n: nat, parent: seq<nat>, cl: seq<nat>, rank: seq<nat>) {
    && |parent| == n && |cl| == n && |rank| == n
    && (forall x: nat :: x < n ==> parent[x] < n && cl[x] < n)
    && (forall x: nat :: x < n && parent[x] != x ==> rank[parent[x]] > rank[x])
    && (forall x: nat {:trigger cl[parent[x]]} :: x < n ==> cl[parent[x]] == cl[x])
    && (forall x: nat :: x < n ==> parent[cl[x]] == cl[x])
    && (forall x: nat :: x < n && parent[x] == x ==> cl[x] == x)
  }

  /** Lengths, the cap on support, 0/1 syndromes, and clusters that are roots of themselves. */
  ghost predicate Shape(g: Graph, legacy: bool, s: Session, cl: seq<nat>, syn: seq<nat>) {
    && |s.connectionCounts| == g.numVertices && |s.support| == g.numEdges
    && |cl| == g.numVertices && |syn| == g.numVertices
    && (!legacy ==> forall i :: 0 <= i < |s.support| ==> s.support[i] <= 2)
    && (forall x :: 0 <= x < |syn| ==> syn[x] <= 1)
    && (forall x: nat :: x < |cl| ==> cl[x] < |cl| && cl[cl[x]] == cl[x])
  }

  /** A root outside the table is a single vertex without a syndrome. */
  ghost predicate Alone(cl: seq<nat>, syn: seq<nat>, r: nat) {
    r < |syn| && syn[r] == 0 && forall x: nat :: x < |cl| && cl[x] == r ==> x == r
  }

  /**
   * The table tracks exactly the clusters holding a syndrome vertex: its
   * roots are cluster roots, size is the number of vertices of the cluster
   * and parity its number of syndrome vertices; every other root is alone.
   */
  ghost predicate Tracked(g: Graph, t: Tables, cl: seq<nat>, syn: seq<nat>) {
    && Valid(t) && Consistent(t) && |cl| == g.numVertices && g.numVertices <= |syn|
    && (forall r :: r in t.roots ==> r < |cl| && cl[r] == r)
    && (forall r :: r in t.roots ==> t.size[r] == Card(g.numVertices, ClusterMask(cl, r)))
    && (forall r :: r in t.roots ==> t.parity[r] == Weight(g.numVertices, ClusterMask(cl, r), syn))
    && (forall r: nat :: r < |cl| && cl[r] == r && r !in t.roots ==> Alone(cl, syn, r))
  }

  /**
   * Border sets belong to the tracked roots and hold vertices of their own
   * cluster, and every vertex of a tracked cluster that is not full is a
   * border vertex.
   */
  ghost predicate Borders(g: Graph, s: Session, t: Tables, cl: seq<nat>) {
    && s.borderVertices.Keys == t.roots
    && (forall r: nat, x: nat {:trigger x in s.borderVertices[r]} ::
          r in s.borderVertices && x in s.borderVertices[r] ==> x < |cl| && cl[x] == r)
    && (forall x: nat :: x < |cl| && cl[x] in t.roots && !Full(g, s.connectionCounts, x) ==>
          x in s.borderVertices[cl[x]])
  }

  /** cc[x] is the number of saturated edges at x. */
  ghost predicate CountsMatch(g: Graph, sup: seq<nat>, cc: seq<nat>) {
    forall x: nat :: x < |cc| ==> cc[x] == FullCount(g, sup, x)
  }

  /** connection_counts_ counts the saturated edges of every vertex. */
  ghost predicate Counts(g: Graph, s: Session) {
    CountsMatch(g, s.support, s.connectionCounts)
  }

  /**
   * The fuse list holds saturated lattice edges; a saturated edge is queued
   * or already inside one cluster; an edge with any support touches a
   * tracked cluster.
   */
  ghost predicate FuseOk(g: Graph, s: Session, t: Tables, cl: seq<nat>) {
    && (forall e :: e in s.fuseList ==> IsLatticeEdge(g, e) && SupportOf(g, s.support, e) >= 2)
    && (forall x: nat, w: nat ::
          (x < |cl| && x < |g.connections| && w in g.connections[x] && w < |cl|
           && SupportOf(g, s.support, MakeEdge(x, w)) >= 2) ==> MakeEdge(x, w) in s.fuseList || cl[x] == cl[w])
    && (forall x: nat, w: nat ::
          (x < |cl| && x < |g.connections| && w in g.connections[x] && w < |cl|
           && SupportOf(g, s.support, MakeEdge(x, w)) >= 1) ==> cl[x] in t.roots || cl[w] in t.roots)
  }

  /**
   * The peeling edges are lattice edges inside clusters, they form a forest,
   * and a vertex set that no peeling edge leaves is a union of clusters.
   */
  ghost predicate PeelOk(g: Graph, s: Session, cl: seq<nat>) {
    && (forall e :: e in s.peelingEdges ==> IsLatticeEdge(g, e) && e.u < |cl| && e.v < |cl| && cl[e.u] == cl[e.v])
    && Forest(multiset(s.peelingEdges))
    && (forall c: iset<nat> :: Closed(multiset(s.peelingEdges), c) ==>
          forall x: nat :: x < |cl| ==> (x in c) == (cl[x] in c))
  }

  /** Everything but the parent forest. */
  ghost predicate Rest(g: Graph, legacy: bool, s: Session, t: Tables, cl: seq<nat>, syn: seq<nat>) {
    && Simple(g) && Shape(g, legacy, s, cl, syn) && Tracked(g, t, cl, syn) && Borders(g, s, t, cl)
    && Counts(g, s) && FuseOk(g, s, t, cl) && PeelOk(g, s, cl)
  }
}
