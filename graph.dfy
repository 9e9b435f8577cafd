// The decoding graph as the decoder sees it, and the graph theory behind
// the decoder: vertex masks and their syndrome weights, closed masks,
// forests and their leaves.
//
// A mask is a set of vertices given by its characteristic function. A mask
// is closed under a set of edges when no edge leaves it. Two vertices are
// separated by a multiset of edges when some closed mask holds one and not
// the other, and a multiset of edges is a forest when each of its edges
// separates its endpoints once it is taken out: no edge lies on a cycle.

module Graphs {
  import opened Edges

  /**
   * The four queries a lattice answers (num_vertices, num_edges,
   * vertex_connections, vertex_connection_count, edge_idx), tabulated.
   */
  datatype Graph = Graph(numVertices: nat, numEdges: nat, connections: seq<seq<nat>>,
                         connectionCount: seq<nat>, edgeIdx: map<Edge, nat>)

  /** A normalised pair of adjacent vertices. */
  predicate IsLatticeEdge(g: Graph, e: Edge) {
    Normalized(e) && e.u < |g.connections| && e.v in g.connections[e.u]
  }

  /**
   * What the decoder relies on: neighbours are vertices, adjacency is
   * symmetric and loop-free, no neighbour is listed twice, the count of
   * a vertex is the length of its list, and edge_idx is defined on every
   * lattice edge, lies below num_edges and tells lattice edges apart.
   */
  ghost predicate Simple(g: Graph) {
    && |g.connections| == g.numVertices
    && |g.connectionCount| == g.numVertices
    && (forall v: nat, w: nat {:trigger w in g.connections[v]} :: v < g.numVertices && w in g.connections[v] ==>
          && w < g.numVertices && w != v && v in g.connections[w]
          && MakeEdge(v, w) in g.edgeIdx && g.edgeIdx[MakeEdge(v, w)] < g.numEdges)
    && (forall v: nat :: v < g.numVertices ==> g.connectionCount[v] == |g.connections[v]|)
    && (forall v: nat, j, k :: v < g.numVertices && 0 <= j < k < |g.connections[v]| ==>
          g.connections[v][j] != g.connections[v][k])
    && (forall e1, e2 ::
          (IsLatticeEdge(g, e1) && IsLatticeEdge(g, e2) && e1 in g.edgeIdx && e2 in g.edgeIdx
           && g.edgeIdx[e1] == g.edgeIdx[e2]) ==> e1 == e2)
  }

  /** The qubit of the edge between v and its neighbour w. */
  function Idx(g: Graph, v: nat, w: nat): (i: nat)
    requires Simple(g) && v < g.numVertices && w in g.connections[v]
    ensures i < g.numEdges
  {
    g.edgeIdx[MakeEdge(v, w)]
  }

  lemma IdxLatticeEdge(g: Graph, v: nat, w: nat)
    requires Simple(g) && v < g.numVertices && w in g.connections[v]
    ensures IsLatticeEdge(g, MakeEdge(v, w)) && MakeEdge(v, w) in g.edgeIdx
  {
  }

  /** A lattice edge has an index below num_edges. */
  lemma LatticeEdgeIdx(g: Graph, e: Edge)
    requires Simple(g) && IsLatticeEdge(g, e)
    ensures e in g.edgeIdx && g.edgeIdx[e] < g.numEdges && e.v < g.numVertices && e.u != e.v
  {
    MakeEdgeOfNormalized(e);
  }

  /** Two adjacent pairs share a qubit exactly when they are the same edge. */
  lemma IdxInjective(g: Graph, v: nat, w: nat, v': nat, w': nat)
    requires Simple(g) && v < g.numVertices && w in g.connections[v]
    requires v' < g.numVertices && w' in g.connections[v']
    ensures Idx(g, v, w) == Idx(g, v', w') <==> MakeEdge(v, w) == MakeEdge(v', w')
  {
    IdxLatticeEdge(g, v, w);
    IdxLatticeEdge(g, v', w');
  }

  // ---------------------------------------------------------------------
  // Masks and weights

  /** The syndrome weight of a mask: the sum of s over its vertices below n. */
  function Weight(n: nat, c: iset<nat>, s: seq<nat>): nat
    requires n <= |s|
  {
    if n == 0 then 0 else Weight(n - 1, c, s) + (if (n - 1 in c) then s[n - 1] else 0)
  }

  /** The number of vertices of a mask below n. */
  function Card(n: nat, c: iset<nat>): nat {
    if n == 0 then 0 else Card(n - 1, c) + (if (n - 1 in c) then 1 else 0)
  }

  /** The vertices whose root, in the table cl, is r. */
  function ClusterMask(cl: seq<nat>, r: nat): iset<nat> {
    iset x: nat | x < |cl| && cl[x] == r
  }

  lemma {:induction false} WeightExt(n: nat, c1: iset<nat>, c2: iset<nat>, s: seq<nat>)
    requires n <= |s|
    requires forall x: nat :: x < n ==> (x in c1) == (x in c2)
    ensures Weight(n, c1, s) == Weight(n, c2, s)
  {
    if n > 0 {
      WeightExt(n - 1, c1, c2, s);
    }
  }

  /** The weight of a disjoint union is the sum of the weights. */
  lemma {:induction false} WeightSplit(n: nat, c: iset<nat>, c1: iset<nat>, c2: iset<nat>, s: seq<nat>)
    requires n <= |s|
    requires forall x: nat :: x < n ==> ((x in c) <==> (x in c1) || (x in c2)) && !((x in c1) && (x in c2))
    ensures Weight(n, c, s) == Weight(n, c1, s) + Weight(n, c2, s)
  {
    if n > 0 {
      WeightSplit(n - 1, c, c1, c2, s);
    }
  }

  lemma {:induction false} CardSplit(n: nat, c: iset<nat>, c1: iset<nat>, c2: iset<nat>)
    requires forall x: nat :: x < n ==> ((x in c) <==> (x in c1) || (x in c2)) && !((x in c1) && (x in c2))
    ensures Card(n, c) == Card(n, c1) + Card(n, c2)
  {
    if n > 0 {
      CardSplit(n - 1, c, c1, c2);
    }
  }

  lemma {:induction false} CardExt(n: nat, c1: iset<nat>, c2: iset<nat>)
    requires forall x: nat :: x < n ==> (x in c1) == (x in c2)
    ensures Card(n, c1) == Card(n, c2)
  {
    if n > 0 {
      CardExt(n - 1, c1, c2);
    }
  }

  /** A mask holding y < n counts y. */
  lemma {:induction false} CardAtLeast(n: nat, c: iset<nat>, y: nat)
    requires y < n && (y in c)
    ensures Card(n, c) >= 1
  {
    if y < n - 1 {
      CardAtLeast(n - 1, c, y);
    }
  }

  /** With 0/1 values the weight of a mask is at most its size, which is at most n. */
  lemma {:induction false} CardBound(n: nat, c: iset<nat>, s: seq<nat>)
    requires n <= |s| && forall x: nat :: x < n ==> s[x] <= 1
    ensures Weight(n, c, s) <= Card(n, c) <= n
  {
    if n > 0 {
      CardBound(n - 1, c, s);
    }
  }

  lemma {:induction false} CardNone(n: nat, c: iset<nat>)
    requires forall x: nat :: x < n ==> !(x in c)
    ensures Card(n, c) == 0
  {
    if n > 0 {
      CardNone(n - 1, c);
    }
  }

  /** A mask holding exactly the vertex y < n has one vertex. */
  lemma {:induction false} CardOne(n: nat, c: iset<nat>, y: nat)
    requires y < n && forall x: nat :: x < n ==> ((x in c) <==> x == y)
    ensures Card(n, c) == 1
  {
    if y < n - 1 {
      CardOne(n - 1, c, y);
    } else {
      CardNone(n - 1, c);
    }
  }

  /** An empty mask has weight 0; a non-empty one holds a vertex below n. */
  lemma {:induction false} CardZero(n: nat, c: iset<nat>, s: seq<nat>)
    requires n <= |s|
    ensures Card(n, c) == 0 ==> Weight(n, c, s) == 0
    ensures Card(n, c) > 0 ==> exists x: nat :: x < n && (x in c)
  {
    if n > 0 {
      CardZero(n - 1, c, s);
      if Card(n - 1, c) > 0 {
        var x: nat :| x < n - 1 && (x in c);
        assert x < n && (x in c);
      }
    }
  }

  /** The weight of the mask {y}. */
  lemma {:induction false} WeightSingleton(n: nat, y: nat, s: seq<nat>)
    requires y < n <= |s|
    ensures Weight(n, iset{y}, s) == s[y]
  {
    if y < n - 1 {
      WeightSingleton(n - 1, y, s);
    } else {
      assert Weight(n - 1, iset{y}, s) == 0 by {
        WeightNone(n - 1, iset{y}, s);
      }
    }
  }

  lemma {:induction false} WeightNone(n: nat, c: iset<nat>, s: seq<nat>)
    requires n <= |s| && forall x: nat :: x < n ==> !(x in c)
    ensures Weight(n, c, s) == 0
  {
    if n > 0 {
      WeightNone(n - 1, c, s);
    }
  }

  /** Changing s at one vertex y changes the weight by the change at y, if the mask holds y. */
  lemma {:induction false} WeightUpdate(n: nat, c: iset<nat>, s: seq<nat>, y: nat, a: nat)
    requires n <= |s| && y < |s|
    ensures Weight(n, c, s[y := a]) + (if y < n && (y in c) then s[y] else 0)
         == Weight(n, c, s) + (if y < n && (y in c) then a else 0)
  {
    if n > 0 {
      WeightUpdate(n - 1, c, s, y, a);
    }
  }

  /** Changing the mask at one vertex y < n changes the weight by s[y]. */
  lemma {:induction false} WeightFlip(n: nat, c: iset<nat>, c': iset<nat>, s: seq<nat>, y: nat)
    requires y < n <= |s|
    requires forall x: nat :: x != y ==> (x in c) == (x in c')
    ensures Weight(n, c', s) + (if (y in c) then s[y] else 0) == Weight(n, c, s) + (if (y in c') then s[y] else 0)
  {
    if y < n - 1 {
      WeightFlip(n - 1, c, c', s, y);
    } else {
      WeightExt(n - 1, c, c', s);
    }
  }

  // ---------------------------------------------------------------------
  // Closed masks and forests

  ghost predicate Closed(E: multiset<Edge>, c: iset<nat>) {
    forall e {:trigger E[e]} :: e in E ==> (e.u in c) == (e.v in c)
  }

  ghost predicate Separated(E: multiset<Edge>, a: nat, b: nat) {
    exists c: iset<nat> :: Closed(E, c) && (a in c) != (b in c)
  }

  ghost predicate Forest(E: multiset<Edge>) {
    forall e {:trigger E[e]} :: e in E ==> Separated(E - multiset{e}, e.u, e.v)
  }

  /** A mask closed under the lattice adjacency. */
  ghost predicate AdjClosed(g: Graph, c: iset<nat>) {
    forall v: nat, w: nat :: v < g.numVertices && v < |g.connections| && w in g.connections[v] ==> (v in c) == (w in c)
  }

  /**
   * Every connected component carries an even syndrome weight: every set of
   * vertices with no lattice edge leaving it has even weight.
   */
  ghost predicate EvenComponents(g: Graph, s: seq<nat>) {
    g.numVertices <= |s| && forall c: iset<nat> {:trigger AdjClosed(g, c)} :: AdjClosed(g, c) ==> Weight(g.numVertices, c, s) % 2 == 0
  }

  /** Every set of vertices with no edge of E leaving it has even weight. */
  ghost predicate EvenClosed(n: nat, E: multiset<Edge>, s: seq<nat>) {
    n <= |s| && forall c: iset<nat> {:trigger Closed(E, c)} :: Closed(E, c) ==> Weight(n, c, s) % 2 == 0
  }

  lemma ClosedSubset(E: multiset<Edge>, F: multiset<Edge>, c: iset<nat>)
    requires F <= E && Closed(E, c)
    ensures Closed(F, c)
  {
  }

  /** Taking edges out of a forest leaves a forest. */
  lemma ForestSubset(E: multiset<Edge>, F: multiset<Edge>)
    requires Forest(E) && F <= E
    ensures Forest(F)
  {
    forall e | e in F
      ensures Separated(F - multiset{e}, e.u, e.v)
    {
      var c: iset<nat> :| Closed(E - multiset{e}, c) && (e.u in c) != (e.v in c);
      ClosedSubset(E - multiset{e}, F - multiset{e}, c);
    }
  }

  /**
   * Adding an edge between two separated vertices keeps a forest a forest.
   * For an old edge f, the mask that separated f is corrected, on the side
   * of the new edge that a mask separating the new edge picks out, so that
   * the new edge no longer leaves it.
   */
  lemma ForestAdd(E: multiset<Edge>, e: Edge)
    requires Forest(E) && Separated(E, e.u, e.v)
    ensures Forest(E + multiset{e})
  {
    var c2: iset<nat> :| Closed(E, c2) && (e.u in c2) != (e.v in c2);
    forall f | f in E + multiset{e}
      ensures Separated(E + multiset{e} - multiset{f}, f.u, f.v)
    {
      if f == e {
        assert E + multiset{e} - multiset{f} == E;
      } else {
        assert f in E;
        var c1: iset<nat> :| Closed(E - multiset{f}, c1) && (f.u in c1) != (f.v in c1);
        var flip := (e.u in c1) != (e.v in c1);
        var c := iset x: nat | (x in c1) != ((x in c2) != (e.u in c2) && flip);
        assert E + multiset{e} - multiset{f} == (E - multiset{f}) + multiset{e};
        assert Closed(E + multiset{e} - multiset{f}, c) by {
          forall h | h in (E - multiset{f}) + multiset{e}
            ensures (h.u in c) == (h.v in c)
          {
            if h != e {
              assert h in E;
            }
          }
        }
        assert (f.u in c2) == (f.v in c2);
        assert (f.u in c) != (f.v in c);
      }
    }
  }

  /** Vertices in different clusters are separated by edges that stay inside clusters. */
  lemma SeparatedByClusters(E: multiset<Edge>, cl: seq<nat>, a: nat, b: nat)
    requires a < |cl| && b < |cl| && cl[a] != cl[b]
    requires forall e :: e in E ==> e.u < |cl| && e.v < |cl| && cl[e.u] == cl[e.v]
    ensures Separated(E, a, b)
  {
    var c := ClusterMask(cl, cl[a]);
    assert Closed(E, c);
    assert (a in c) != (b in c);
  }

  // ---------------------------------------------------------------------
  // Degrees and leaves

  /** How often x is an endpoint of e: 0, 1, or 2 for a loop at x. */
  function Hit(e: Edge, x: nat): nat {
    (if e.u == x then 1 else 0) + (if e.v == x then 1 else 0)
  }

  /** The degree of x in a list of edges, each endpoint counted once. */
  function Deg(s: seq<Edge>, x: nat): nat {
    if |s| == 0 then 0 else Deg(s[..|s| - 1], x) + Hit(s[|s| - 1], x)
  }

  lemma {:induction false} DegConcat(a: seq<Edge>, b: seq<Edge>, x: nat)
    ensures Deg(a + b, x) == Deg(a, x) + Deg(b, x)
    decreases |b|
  {
    if |b| == 0 {
      assert a + b == a;
    } else {
      assert (a + b)[..|a + b| - 1] == a + b[..|b| - 1];
      DegConcat(a, b[..|b| - 1], x);
    }
  }

  /** A list in which only copies of e touch x. */
  lemma {:induction false} DegOnly(s: seq<Edge>, e: Edge, x: nat)
    requires forall f :: f in s && f != e ==> Hit(f, x) == 0
    ensures Deg(s, x) == multiset(s)[e] * Hit(e, x)
  {
    if |s| > 0 {
      var front := s[..|s| - 1];
      assert s == front + [s[|s| - 1]];
      DegOnly(front, e, x);
    }
  }

  /** A vertex of positive degree is an endpoint of some edge of the list. */
  lemma {:induction false} DegWitness(s: seq<Edge>, x: nat)
    requires Deg(s, x) > 0
    ensures exists k :: 0 <= k < |s| && Hit(s[k], x) > 0
  {
    var front := s[..|s| - 1];
    if Hit(s[|s| - 1], x) == 0 {
      DegWitness(front, x);
      var k :| 0 <= k < |front| && Hit(front[k], x) > 0;
      assert s[k] == front[k];
    }
  }

  lemma {:induction false} DegAtLeast(s: seq<Edge>, k: nat, x: nat)
    requires k < |s|
    ensures Deg(s, x) >= Hit(s[k], x)
  {
    if k < |s| - 1 {
      DegAtLeast(s[..|s| - 1], k, x);
    }
  }

  /** The edges g != e whose endpoint u has the colour of a. */
  function Keep(s: seq<Edge>, c: iset<nat>, a: nat, e: Edge): (t: seq<Edge>)
    ensures |t| <= |s|
    ensures forall g :: g in t ==> g in s && g != e && (g.u in c) == (a in c)
  {
    if |s| == 0 then []
    else
      var front := Keep(s[..|s| - 1], c, a, e);
      var g := s[|s| - 1];
      if g != e && (g.u in c) == (a in c) then front + [g] else front
  }

  lemma KeepMultiset(s: seq<Edge>, c: iset<nat>, a: nat, e: Edge)
    ensures multiset(Keep(s, c, a, e)) <= multiset(s) - multiset{e}
  {
    forall g
      ensures multiset(Keep(s, c, a, e))[g] <= (multiset(s) - multiset{e})[g]
    {
      KeepCount(s, c, a, e, g);
    }
  }

  /** Keep retains every copy of an edge that passes the filter and none of the others. */
  lemma {:induction false} KeepCount(s: seq<Edge>, c: iset<nat>, a: nat, e: Edge, g: Edge)
    ensures multiset(Keep(s, c, a, e))[g] == if g != e && (g.u in c) == (a in c) then multiset(s)[g] else 0
  {
    if |s| > 0 {
      var front := s[..|s| - 1];
      var h := s[|s| - 1];
      KeepCount(front, c, a, e, g);
      assert s == front + [h];
      assert multiset(s)[g] == multiset(front)[g] + (if h == g then 1 else 0);
      if h != e && (h.u in c) == (a in c) {
        assert multiset(Keep(s, c, a, e))[g] == multiset(Keep(front, c, a, e))[g] + (if h == g then 1 else 0);
      }
    }
  }

  lemma {:induction false} KeepContains(s: seq<Edge>, c: iset<nat>, a: nat, e: Edge, g: Edge)
    requires g in s && g != e && (g.u in c) == (a in c)
    ensures g in Keep(s, c, a, e)
  {
    var front := s[..|s| - 1];
    if s[|s| - 1] != g {
      assert s == front + [s[|s| - 1]];
      KeepContains(front, c, a, e, g);
    }
  }

  lemma {:induction false} KeepShorter(s: seq<Edge>, c: iset<nat>, a: nat, e: Edge)
    requires e in s
    ensures |Keep(s, c, a, e)| < |s|
  {
    var front := s[..|s| - 1];
    if s[|s| - 1] != e {
      assert s == front + [s[|s| - 1]];
      KeepShorter(front, c, a, e);
    }
  }

  /** Keep loses no edge at y when every edge at y passes the filter. */
  lemma {:induction false} KeepDeg(s: seq<Edge>, c: iset<nat>, a: nat, e: Edge, y: nat)
    requires forall g :: g in s && Hit(g, y) > 0 ==> g != e && (g.u in c) == (a in c)
    ensures Deg(Keep(s, c, a, e), y) == Deg(s, y)
  {
    if |s| > 0 {
      var front := s[..|s| - 1];
      assert forall g :: g in front ==> g in s;
      KeepDeg(front, c, a, e, y);
      var g := s[|s| - 1];
      if g != e && (g.u in c) == (a in c) {
        DegConcat(Keep(front, c, a, e), [g], y);
        assert [g][..0] == [];
      }
    }
  }

  /** No edge of a forest is a loop, and none occurs twice. */
  lemma ForestEdge(E: multiset<Edge>, e: Edge)
    requires Forest(E) && e in E
    ensures e.u != e.v && E[e] == 1
  {
    var c: iset<nat> :| Closed(E - multiset{e}, c) && (e.u in c) != (e.v in c);
    assert e !in E - multiset{e};
  }

  /** A vertex of degree other than 1 on an edge e of a forest has a second edge. */
  lemma SecondEdge(s: seq<Edge>, e: Edge, a: nat) returns (f: Edge)
    requires Forest(multiset(s)) && e in s && Hit(e, a) == 1 && Deg(s, a) != 1
    ensures f in s && f != e && Hit(f, a) > 0
  {
    ForestEdge(multiset(s), e);
    if forall g :: g in s && g != e ==> Hit(g, a) == 0 {
      DegOnly(s, e, a);
      assert false;
    } else {
      f :| f in s && f != e && Hit(f, a) > 0;
    }
  }

  /** Every edge Keep retains lies on the side of a. */
  lemma KeepSide(s: seq<Edge>, c: iset<nat>, a: nat, e: Edge, y: nat)
    requires Closed(multiset(s) - multiset{e}, c)
    requires Deg(Keep(s, c, a, e), y) > 0
    ensures (y in c) == (a in c)
  {
    var t := Keep(s, c, a, e);
    DegWitness(t, y);
    var k :| 0 <= k < |t| && Hit(t[k], y) > 0;
    var g := t[k];
    assert g in t;
    assert g in s && g != e;
    assert (multiset(s) - multiset{e})[g] > 0;
  }

  /** A vertex on the side of a, away from e, keeps all its edges under Keep. */
  lemma KeepSideDeg(s: seq<Edge>, c: iset<nat>, a: nat, b: nat, e: Edge, y: nat)
    requires (a == e.u && b == e.v) || (a == e.v && b == e.u)
    requires Closed(multiset(s) - multiset{e}, c) && (a in c) != (b in c)
    requires (y in c) == (a in c) && y != a
    ensures Deg(Keep(s, c, a, e), y) == Deg(s, y)
  {
    forall h | h in s && Hit(h, y) > 0
      ensures h != e && (h.u in c) == (a in c)
    {
      assert h != e;
      assert h in multiset(s) - multiset{e};
    }
    KeepDeg(s, c, a, e, y);
  }

  /**
   * Let e be an edge of the forest s, a one of its endpoints and b the other,
   * and c a mask closed under the other edges that holds exactly one of a
   * and b. Then the side of a contains a vertex of degree 1. If a itself has
   * a second edge f, the edges on the side of a form a smaller forest in
   * which the far side of f holds a vertex of degree 1, a vertex that has no
   * edge outside that side.
   */
  /**
   * The step of SideLeaf: when a has a second edge f, the edges on the side
   * of a form a shorter forest holding f, and a mask separates f in it.
   */
  lemma SideStep(s: seq<Edge>, e: Edge, a: nat, b: nat, c: iset<nat>)
      returns (t: seq<Edge>, f: Edge, x: nat, d: iset<nat>)
    requires Forest(multiset(s)) && e in s
    requires (a == e.u && b == e.v) || (a == e.v && b == e.u)
    requires Closed(multiset(s) - multiset{e}, c) && (a in c) != (b in c)
    requires Deg(s, a) != 1
    ensures t == Keep(s, c, a, e) && |t| < |s| && Forest(multiset(t)) && f in t
    ensures (x == f.u && a == f.v) || (x == f.v && a == f.u)
    ensures Closed(multiset(t) - multiset{f}, d) && (x in d) != (a in d)
  {
    f, x := SideEdge(s, e, a, b, c);
    t := Keep(s, c, a, e);
    KeepMultiset(s, c, a, e);
    KeepShorter(s, c, a, e);
    KeepContains(s, c, a, e, f);
    ForestSubset(multiset(s), multiset(t));
    d := SideMask(s, t, f, x, a);
  }

  /** The second edge f at a, its far end x, and f lies on the side of a. */
  lemma SideEdge(s: seq<Edge>, e: Edge, a: nat, b: nat, c: iset<nat>) returns (f: Edge, x: nat)
    requires Forest(multiset(s)) && e in s
    requires (a == e.u && b == e.v) || (a == e.v && b == e.u)
    requires Closed(multiset(s) - multiset{e}, c) && (a in c) != (b in c)
    requires Deg(s, a) != 1
    ensures f in s && f != e && (f.u in c) == (a in c)
    ensures (x == f.u && a == f.v) || (x == f.v && a == f.u)
  {
    ForestEdge(multiset(s), e);
    f := SecondEdge(s, e, a);
    assert f in multiset(s) - multiset{e};
    ForestEdge(multiset(s), f);
    x := if f.u == a then f.v else f.u;
  }

  /** A mask separating f in the forest s separates it in the part t. */
  lemma SideMask(s: seq<Edge>, t: seq<Edge>, f: Edge, x: nat, a: nat) returns (d: iset<nat>)
    requires Forest(multiset(s)) && multiset(t) <= multiset(s) && f in t
    requires (x == f.u && a == f.v) || (x == f.v && a == f.u)
    ensures Closed(multiset(t) - multiset{f}, d) && (x in d) != (a in d)
  {
    assert f in multiset(s);
    d :| Closed(multiset(s) - multiset{f}, d) && (f.u in d) != (f.v in d);
    ClosedSubset(multiset(s) - multiset{f}, multiset(t) - multiset{f}, d);
  }

  /** A leaf found on the side of a in the shorter forest is a leaf of s on that side. */
  lemma SideFinish(s: seq<Edge>, e: Edge, a: nat, b: nat, c: iset<nat>, d: iset<nat>, x: nat, y: nat)
    requires (a == e.u && b == e.v) || (a == e.v && b == e.u)
    requires Closed(multiset(s) - multiset{e}, c) && (a in c) != (b in c)
    requires (y in d) == (x in d) && (x in d) != (a in d) && Deg(Keep(s, c, a, e), y) == 1
    ensures (y in c) == (a in c) && Deg(s, y) == 1
  {
    KeepSide(s, c, a, e, y);
    KeepSideDeg(s, c, a, b, e, y);
  }

  /**
   * Let e be an edge of the forest s, a one of its endpoints and b the other,
   * and c a mask closed under the other edges that holds exactly one of a
   * and b. Then the side of a contains a vertex of degree 1. If a itself has
   * a second edge f, the edges on the side of a form a smaller forest in
   * which the far side of f holds a vertex of degree 1, a vertex that has no
   * edge outside that side.
   */
  lemma {:induction false} SideLeaf(s: seq<Edge>, e: Edge, a: nat, b: nat, c: iset<nat>)
    requires Forest(multiset(s)) && e in s
    requires (a == e.u && b == e.v) || (a == e.v && b == e.u)
    requires Closed(multiset(s) - multiset{e}, c) && (a in c) != (b in c)
    ensures exists y: nat :: (y in c) == (a in c) && Deg(s, y) == 1
    decreases |s|
  {
    if Deg(s, a) != 1 {
      var t, f, x, d := SideStep(s, e, a, b, c);
      SideLeaf(t, f, x, a, d);
      var y: nat :| (y in d) == (x in d) && Deg(t, y) == 1;
      SideFinish(s, e, a, b, c, d, x, y);
    }
  }

  /** A non-empty forest has an edge with an endpoint of degree 1. */
  lemma LeafExists(s: seq<Edge>)
    requires Forest(multiset(s)) && |s| > 0
    ensures exists k :: 0 <= k < |s| && (Deg(s, s[k].u) == 1 || Deg(s, s[k].v) == 1)
  {
    var e := s[0];
    assert e in multiset(s);
    var c: iset<nat> :| Closed(multiset(s) - multiset{e}, c) && (e.u in c) != (e.v in c);
    SideLeaf(s, e, e.u, e.v, c);
    var y: nat :| (y in c) == (e.u in c) && Deg(s, y) == 1;
    DegWitness(s, y);
    var k :| 0 <= k < |s| && Hit(s[k], y) > 0;
    assert s[k].u == y || s[k].v == y;
  }

  // ---------------------------------------------------------------------
  // Even weights

  /**
   * A mask that is constant on every cluster has even weight when every
   * cluster has even weight.
   */
  lemma {:induction false} ClusterEven(n: nat, cl: seq<nat>, c: iset<nat>, s: seq<nat>)
    requires |cl| == n && n <= |s|
    requires forall x: nat :: x < n ==> cl[x] < n && cl[cl[x]] == cl[x]
    requires forall x: nat :: x < n ==> (x in c) == (cl[x] in c)
    requires forall r: nat :: r < n && cl[r] == r ==> Weight(n, ClusterMask(cl, r), s) % 2 == 0
    ensures Weight(n, c, s) % 2 == 0
    decreases Card(n, c)
  {
    CardZero(n, c, s);
    if Card(n, c) > 0 {
      var x: nat :| x < n && (x in c);
      var c' := ClusterRemoved(n, cl, c, s, x);
      ClusterEven(n, cl, c', s);
    }
  }

  /** Taking the cluster of x out of a cluster-constant mask that holds x. */
  lemma ClusterRemoved(n: nat, cl: seq<nat>, c: iset<nat>, s: seq<nat>, x: nat) returns (c': iset<nat>)
    requires |cl| == n && n <= |s| && x < n && (x in c)
    requires forall x: nat :: x < n ==> cl[x] < n && cl[cl[x]] == cl[x]
    requires forall x: nat :: x < n ==> (x in c) == (cl[x] in c)
    ensures Card(n, c') < Card(n, c)
    ensures Weight(n, c, s) == Weight(n, c', s) + Weight(n, ClusterMask(cl, cl[x]), s)
    ensures cl[cl[x]] == cl[x]
    ensures forall y: nat :: y < n ==> (y in c') == (cl[y] in c')
  {
    var r := cl[x];
    var m := ClusterMask(cl, r);
    c' := iset y: nat | (y in c) && !(y in m);
    assert forall y: nat :: y < n ==> ((y in c) <==> (y in c') || (y in m)) && !((y in c') && (y in m));
    WeightSplit(n, c, c', m, s);
    CardSplit(n, c, c', m);
    CardAtLeast(n, m, r);
  }

  /**
   * One peeling step. Let e join a leaf u, which no other edge of E touches,
   * to v. If every E-closed mask has even weight, then so does every mask
   * closed under E without e, once a syndrome 1 at u has been moved across e
   * (u set to 0, v flipped).
   */
  lemma PeelStep(n: nat, E: multiset<Edge>, s: seq<nat>, e: Edge, u: nat, v: nat)
    requires EvenClosed(n, E, s) && e in E
    requires (u == e.u && v == e.v) || (u == e.v && v == e.u)
    requires u != v && u < n && v < n && s[u] <= 1 && s[v] <= 1
    requires forall f :: f in E - multiset{e} ==> Hit(f, u) == 0
    ensures EvenClosed(n, E - multiset{e}, if s[u] == 1 then s[u := 0][v := 1 - s[v]] else s)
  {
    var s' := if s[u] == 1 then s[u := 0][v := 1 - s[v]] else s;
    forall c': iset<nat> | Closed(E - multiset{e}, c')
      ensures Weight(n, c', s') % 2 == 0
    {
      if (u in c') == (v in c') {
        PeelSame(n, E, s, e, u, v, c');
      } else {
        PeelCross(n, E, s, e, u, v, c');
      }
    }
  }

  /** A mask closed under E without e that e does not leave is closed under E. */
  lemma ClosedWith(E: multiset<Edge>, e: Edge, c: iset<nat>)
    requires Closed(E - multiset{e}, c) && (e.u in c) == (e.v in c)
    ensures Closed(E, c)
  {
    forall f | f in E
      ensures (f.u in c) == (f.v in c)
    {
      if f != e {
        assert f in E - multiset{e};
      }
    }
  }

  /** PeelStep for a mask holding both or neither endpoint of e. */
  lemma PeelSame(n: nat, E: multiset<Edge>, s: seq<nat>, e: Edge, u: nat, v: nat, c': iset<nat>)
    requires EvenClosed(n, E, s)
    requires (u == e.u && v == e.v) || (u == e.v && v == e.u)
    requires u != v && u < n && v < n && s[u] <= 1 && s[v] <= 1
    requires Closed(E - multiset{e}, c') && (u in c') == (v in c')
    ensures Weight(n, c', if s[u] == 1 then s[u := 0][v := 1 - s[v]] else s) % 2 == 0
  {
    ClosedWith(E, e, c');
    if s[u] == 1 {
      WeightUpdate(n, c', s, u, 0);
      WeightUpdate(n, c', s[u := 0], v, 1 - s[v]);
    }
  }

  /**
   * PeelStep for a mask holding exactly one endpoint of e: moving u to the
   * side of v gives a mask closed under E.
   */
  lemma PeelCross(n: nat, E: multiset<Edge>, s: seq<nat>, e: Edge, u: nat, v: nat, c': iset<nat>)
    requires EvenClosed(n, E, s)
    requires (u == e.u && v == e.v) || (u == e.v && v == e.u)
    requires u != v && u < n && v < n && s[u] <= 1 && s[v] <= 1
    requires forall f :: f in E - multiset{e} ==> Hit(f, u) == 0
    requires Closed(E - multiset{e}, c') && (u in c') != (v in c')
    ensures Weight(n, c', if s[u] == 1 then s[u := 0][v := 1 - s[v]] else s) % 2 == 0
  {
    var c := iset x: nat | if x == u then (v in c') else (x in c');
    assert Closed(E - multiset{e}, c) by {
      forall f | f in E - multiset{e}
        ensures (f.u in c) == (f.v in c)
      {
        assert Hit(f, u) == 0;
      }
    }
    ClosedWith(E, e, c);
    WeightFlip(n, c, c', s, u);
    if s[u] == 1 {
      WeightUpdate(n, c', s, u, 0);
      WeightUpdate(n, c', s[u := 0], v, 1 - s[v]);
    }
  }

  /** With no edges left, every vertex is a closed mask of its own: all entries are even. */
  lemma EvenClosedEmpty(n: nat, s: seq<nat>, x: nat)
    requires EvenClosed(n, multiset{}, s) && x < n
    ensures s[x] % 2 == 0
  {
    var c := iset{x};
    assert Closed(multiset{}, c);
    WeightSingleton(n, x, s);
  }
}
