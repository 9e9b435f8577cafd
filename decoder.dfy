// The Union-Find decoder (class Decoder over a lattice, and its older
// torus-only twin UnionFindDecoder, selected by the constant legacy).
//
// decode marks every syndrome vertex as a cluster of its own, grows the odd
// clusters by half-edges and fuses clusters that meet, until no cluster of
// odd parity is left, and then peels the spanning forest of the fused edges
// to produce the correction.

module UnionFind {
  import opened Edges
  import opened Toric
  import opened Roots
  import opened Graphs
  import opened Sessions
  import opened Growth
  import opened Linking
  import opened ParentLinks
  import opened Phases
  import opened Peel

  /** The vertices below k of the cluster of r, in increasing order. */
  function Members(cl: seq<nat>, r: nat, k: nat): seq<nat> {
    if k == 0 then []
    else Members(cl, r, k - 1) + (if k - 1 < |cl| && cl[k - 1] == r then [k - 1] else [])
  }

  /** Members lists exactly the vertices of the cluster, in increasing order. */
  lemma {:induction false} MembersSpec(cl: seq<nat>, r: nat, k: nat)
    ensures forall x :: x in Members(cl, r, k) <==> 0 <= x < k && x < |cl| && cl[x] == r
    ensures forall i, j :: 0 <= i < j < |Members(cl, r, k)| ==> Members(cl, r, k)[i] < Members(cl, r, k)[j]
  {
    if k > 0 {
      MembersSpec(cl, r, k - 1);
      var front := Members(cl, r, k - 1);
      var last: seq<nat> := if k - 1 < |cl| && cl[k - 1] == r then [k - 1] else [];
      assert Members(cl, r, k) == front + last;
      forall x
        ensures x in Members(cl, r, k) <==> 0 <= x < k && x < |cl| && cl[x] == r
      {
        assert x in Members(cl, r, k) <==> x in front || x in last;
      }
      forall i, j | 0 <= i < j < |Members(cl, r, k)|
        ensures Members(cl, r, k)[i] < Members(cl, r, k)[j]
      {
        if j >= |front| {
          assert Members(cl, r, k)[i] in front;
        }
      }
    }
  }

  /** A root no vertex below k belongs to has no members there. */
  lemma {:induction false} MembersNone(cl: seq<nat>, r: nat, k: nat)
    requires forall x :: 0 <= x < k && x < |cl| ==> cl[x] != r
    ensures Members(cl, r, k) == []
  {
    if k > 0 {
      MembersNone(cl, r, k - 1);
    }
  }

  /** The roots of the vertices below k. */
  function RootsBelow(cl: seq<nat>, k: nat): set<nat> {
    set x | 0 <= x < k && x < |cl| :: cl[x]
  }

  /**
   * clusters() after its first k vertices: every root met so far whose table
   * size is not 0, with the vertices of its cluster in increasing order.
   */
  function ClusterMap(cl: seq<nat>, t: Tables, k: nat): map<nat, seq<nat>>
    requires forall r :: r in t.roots ==> r in t.size
  {
    map r | r in RootsBelow(cl, k) && SizeOf(t, r) != 0 :: Members(cl, r, k)
  }

  /** One more vertex k: it joins the list of its root, if that root has a non-zero size. */
  lemma ClusterMapStep(cl: seq<nat>, t: Tables, k: nat)
    requires forall r :: r in t.roots ==> r in t.size
    requires k < |cl|
    ensures var m := ClusterMap(cl, t, k);
      ClusterMap(cl, t, k + 1) ==
        if SizeOf(t, cl[k]) != 0 then m[cl[k] := (if cl[k] in m then m[cl[k]] else []) + [k]] else m
  {
    var m, m' := ClusterMap(cl, t, k), ClusterMap(cl, t, k + 1);
    var a := cl[k];
    var list := (if a in m then m[a] else []) + [k];
    assert RootsBelow(cl, k + 1) == RootsBelow(cl, k) + {a};
    assert Members(cl, a, k + 1) == Members(cl, a, k) + [k];
    if SizeOf(t, a) != 0 && a !in m {
      assert a !in RootsBelow(cl, k);
      forall x | 0 <= x < k && x < |cl|
        ensures cl[x] != a
      {
        assert cl[x] in RootsBelow(cl, k);
      }
      MembersNone(cl, a, k);
    }
    var target := if SizeOf(t, a) != 0 then m[a := list] else m;
    forall r
      ensures (r in m') == (r in target) && (r in m' ==> m'[r] == target[r])
    {
      if r != a {
        assert Members(cl, r, k + 1) == Members(cl, r, k);
      }
    }
    assert m' == target;
  }

  /**
   * Over the whole table the groups of clusters() belong to exactly the
   * tracked roots: a tracked cluster holds its root, so its size is not 0,
   * and any other vertex has size 0.
   */
  lemma ClusterKeys(g: Graph, t: Tables, cl: seq<nat>, syn: seq<nat>)
    requires Tracked(g, t, cl, syn)
    ensures ClusterMap(cl, t, g.numVertices).Keys == t.roots
  {
    forall r | r in t.roots
      ensures r in ClusterMap(cl, t, g.numVertices)
    {
      CardAtLeast(g.numVertices, ClusterMask(cl, r), r);
      assert r in RootsBelow(cl, g.numVertices);
    }
  }

  /** std::vector::resize: keep the first n entries and fill up with zeros. */
  function Resized(p: seq<nat>, n: nat): (q: seq<nat>)
    ensures |q| == n && forall x :: 0 <= x < n && x < |p| ==> q[x] == p[x]
  {
    seq(n, x requires 0 <= x < n => if x < |p| then p[x] else 0)
  }

  // ---------------------------------------------------------------------
  // grow(root), as loops over values

  /**
   * One pass of the inner loop of grow: the visit to the j-th neighbour of x
   * raises the support of its edge by one (the current decoder leaves a
   * saturated edge alone), and an edge reaching support 2 counts at both ends
   * and joins the fuse list.
   */
  method VisitNeighbour(g: Graph, legacy: bool, x: nat, j: nat, s: Session, sup: seq<nat>, cc: seq<nat>, fuse: seq<Edge>)
    returns (sup': seq<nat>, cc': seq<nat>, fuse': seq<Edge>)
    requires Simple(g) && x < g.numVertices && j < |g.connections[x]|
    requires |s.support| == g.numEdges && |s.connectionCounts| == g.numVertices
    requires !legacy ==> forall i :: 0 <= i < |s.support| ==> s.support[i] <= 2
    requires Visited(g, legacy, x, j, s, sup, cc, fuse)
    ensures Visited(g, legacy, x, j + 1, s, sup', cc', fuse')
  {
    var e := MakeEdge(x, g.connections[x][j]);
    SlotFacts(g, x, j);
    var i := g.edgeIdx[e];
    sup', cc', fuse' := sup, cc, fuse;
    if legacy || sup[i] != 2 {
      sup' := sup[i := sup[i] + 1];
      if sup'[i] == 2 {
        LatticeEdgeIdx(g, e);
        cc' := cc[e.u := cc[e.u] + 1][e.v := cc[e.v] + 1];
        fuse' := fuse + [e];
      }
    }
    VisitDone(g, legacy, x, j, s, sup, cc, fuse, sup', cc', fuse');
  }

  /** The visits of grow to the edges of one border vertex x. */
  method GrowVertex(g: Graph, legacy: bool, x: nat, s: Session) returns (s': Session)
    requires Simple(g) && x < g.numVertices
    requires |s.support| == g.numEdges && |s.connectionCounts| == g.numVertices
    requires !legacy ==> forall i :: 0 <= i < |s.support| ==> s.support[i] <= 2
    requires CountsMatch(g, s.support, s.connectionCounts)
    ensures Grown(g, legacy, {x}, s, s')
  {
    var sup: seq<nat>, cc: seq<nat>, fuse: seq<Edge> := s.support, s.connectionCounts, s.fuseList;
    VisitStart(g, legacy, x, s);
    for j := 0 to |g.connections[x]|
      invariant Visited(g, legacy, x, j, s, sup, cc, fuse)
    {
      sup, cc, fuse := VisitNeighbour(g, legacy, x, j, s, sup, cc, fuse);
    }
    s' := s.(support := sup, connectionCounts := cc, fuseList := fuse);
    VisitedGrown(g, legacy, x, s, s');
  }

  /** The visits of grow to the edges of every vertex of B, in any order. */
  method GrowBorder(g: Graph, legacy: bool, B: set<nat>, s: Session) returns (s': Session)
    requires Simple(g) && forall x :: x in B ==> x < g.numVertices
    requires |s.support| == g.numEdges && |s.connectionCounts| == g.numVertices
    requires !legacy ==> forall i :: 0 <= i < |s.support| ==> s.support[i] <= 2
    requires CountsMatch(g, s.support, s.connectionCounts)
    ensures Grown(g, legacy, B, s, s')
  {
    GrownNone(g, legacy, s);
    s' := s;
    var todo := B;
    while todo != {}
      invariant todo <= B
      invariant Grown(g, legacy, B - todo, s, s')
      decreases |todo|
    {
      var x :| x in todo;
      GrowSupport(g, legacy, B - todo, s, s');
      var next := GrowVertex(g, legacy, x, s');
      GrownCompose(g, legacy, B - todo, x, s, s', next);
      assert (B - todo) + {x} == B - (todo - {x});
      todo := todo - {x};
      s' := next;
    }
    assert B - todo == B;
  }

  /**
   * The loop of decode that grows every odd root once, over a session value.
   * The invariant holds throughout, borders and peeling edges stay, and
   * support only rises; while every component has even weight, an odd root
   * has an unsaturated edge at its border, so the support capped at 2 rises.
   */
  method GrowRoots(g: Graph, legacy: bool, roots: set<nat>, s: Session, ghost t: Tables, ghost cl: seq<nat>, ghost syn: seq<nat>)
    returns (s': Session)
    requires Rest(g, legacy, s, t, cl, syn) && s.fuseList == [] && roots == t.oddRoots && roots != {} && EvenComponents(g, syn)
    ensures Rest(g, legacy, s', t, cl, syn)
    ensures s'.borderVertices == s.borderVertices && s'.peelingEdges == s.peelingEdges
    ensures |s'.support| == |s.support| && forall i :: 0 <= i < |s.support| ==> s.support[i] <= s'.support[i]
    ensures SumCap(s.support) < SumCap(s'.support)
  {
    ghost var r0 :| r0 in t.oddRoots;
    ghost var x0, k0 := Progress(g, legacy, s, t, cl, syn, r0);
    ghost var i0 := Slot(g, x0, k0);
    assert i0 in Slots(g, x0);
    HitsPositive(g, s.borderVertices[r0], x0, i0);
    s' := s;
    var todo := roots;
    while todo != {}
      invariant todo <= roots
      invariant Rest(g, legacy, s', t, cl, syn)
      invariant s'.borderVertices == s.borderVertices && s'.peelingEdges == s.peelingEdges
      invariant |s'.support| == |s.support| && forall i :: 0 <= i < |s.support| ==> s.support[i] <= s'.support[i]
      invariant r0 !in todo ==> s.support[i0] < s'.support[i0]
      decreases todo
    {
      var r :| r in todo;
      var next := GrowBorder(g, legacy, s'.borderVertices[r], s');
      GrowRest(g, legacy, r, s', next, t, cl, syn);
      GrowSupport(g, legacy, s'.borderVertices[r], s', next);
      RaisedTrans(s.support, s'.support, next.support);
      todo := todo - {r};
      s' := next;
    }
    SumCapMono(s.support, s'.support, i0);
  }

  /**
   * merge_boundary(root1, root2) on the border table: the border of r1 takes
   * that of r2, less the vertices of r2's border all of whose edges are
   * saturated, and the entry of r2 is erased.
   */
  method MergeBoundary(g: Graph, cc: seq<nat>, border: map<nat, set<nat>>, r1: nat, r2: nat) returns (border': map<nat, set<nat>>)
    requires r1 != r2
    requires forall x :: x in BorderOf(border, r2) ==> x < |cc| && x < |g.connectionCount|
    ensures border' == MergedBorders(g, cc, border, r1, r2)
  {
    var b2 := BorderOf(border, r2);
    var b := BorderOf(border, r1) + b2;
    ghost var gone: set<nat> := {};
    var todo := b2;
    while todo != {}
      invariant todo <= b2
      invariant gone == set x | x in b2 - todo && Full(g, cc, x)
      invariant b == (BorderOf(border, r1) + b2) - gone
      decreases |todo|
    {
      var x :| x in todo;
      ghost var gone' := set y | y in b2 - (todo - {x}) && Full(g, cc, y);
      if cc[x] == g.connectionCount[x] {
        b := b - {x};
        assert gone' == gone + {x};
        gone := gone + {x};
      } else {
        assert gone' == gone;
      }
      todo := todo - {x};
    }
    assert b2 - todo == b2;
    border' := border[r1 := b] - {r2};
  }

  /**
   * The border table after the root b is linked under a: merge_boundary when
   * b is a tracked root, else b joins the border of a.
   */
  method LinkBorders(g: Graph, cc: seq<nat>, border: map<nat, set<nat>>, a: nat, b: nat, tracked: bool)
    returns (border': map<nat, set<nat>>)
    requires a != b
    requires forall x :: x in BorderOf(border, b) ==> x < |cc| && x < |g.connectionCount|
    ensures border' == if tracked then MergedBorders(g, cc, border, a, b) else border[a := BorderOf(border, a) + {b}]
  {
    if tracked {
      border' := MergeBoundary(g, cc, border, a, b);
    } else {
      border' := border[a := BorderOf(border, a) + {b}];
    }
  }

  /** The invariant of a decoding session, over the decoder's state as values. */
  ghost predicate Inv(g: Graph, legacy: bool, c: Copy, s: Session, t: Tables,
                      p: seq<nat>, cl: seq<nat>, rank: seq<nat>, syn: seq<nat>) {
    c == CopyOf(legacy) && Links(g.numVertices, p, cl, rank) && Rest(g, legacy, s, t, cl, syn)
  }

  /** The root table after r2 is linked under r1: merged when r2 is tracked, else r1 grows by one. */
  function LinkedTables(c: Copy, t: Tables, r1: nat, r2: nat): Tables
    requires r1 in t.size && (r2 in t.roots ==> r2 in t.size)
  {
    if r2 in t.roots then Merged(c, t, r1, r2) else SizeIncremented(c, t, r1)
  }

  /** The session after the front edge links r2 under r1. */
  function LinkedSession(g: Graph, s: Session, t: Tables, r1: nat, r2: nat): Session
    requires |s.fuseList| > 0
  {
    var border := if r2 in t.roots then MergedBorders(g, s.connectionCounts, s.borderVertices, r1, r2)
                  else s.borderVertices[r1 := BorderOf(s.borderVertices, r1) + {r2}];
    Session(s.connectionCounts, s.support, s.fuseList[1..], border, s.peelingEdges + [s.fuseList[0]])
  }

  /**
   * Linking the root r2 of the smaller cluster under the root r1 of the
   * larger, across the front edge of the fuse list, keeps the invariant.
   */
  lemma LinkStep(g: Graph, legacy: bool, s: Session, t: Tables, p: seq<nat>, cl: seq<nat>, rank: seq<nat>, syn: seq<nat>,
                 r1: nat, r2: nat)
    requires Inv(g, legacy, CopyOf(legacy), s, t, p, cl, rank, syn) && |s.fuseList| > 0
    requires Joins(cl, s.fuseList[0], r1, r2) && r1 != r2 && SizeOf(t, r1) >= SizeOf(t, r2)
    requires !legacy ==> g.numVertices < U32
    ensures r1 in t.roots && r1 in t.size && (r2 in t.roots ==> r2 in t.size)
    ensures r1 < |p| && r2 < |p| && r1 < |rank| && r2 < |rank|
    ensures forall x :: x in BorderOf(s.borderVertices, r2) ==> x < |s.connectionCounts| && x < |g.connectionCount|
    ensures Inv(g, legacy, CopyOf(legacy), LinkedSession(g, s, t, r1, r2), LinkedTables(CopyOf(legacy), t, r1, r2),
                p[r2 := r1], Relabel(cl, r2, r1), rank[r1 := if rank[r1] > rank[r2] then rank[r1] else rank[r2] + 1], syn)
  {
    var e := s.fuseList[0];
    LinkRoot(g, legacy, s, t, cl, syn, e, r1, r2);
    LinkLinks(g.numVertices, p, cl, rank, r1, r2);
    if r2 in t.roots {
      MergeRest(g, legacy, s, t, cl, syn, e, r1, r2);
    } else {
      AbsorbRest(g, legacy, s, t, cl, syn, e, r1, r2);
    }
  }

  /**
   * The link step of fusion on values: the front edge joins the clusters of
   * a and b, and b, the root of the smaller one, is linked under a. The
   * invariant holds of the new state, with the root table updated as
   * LinkedTables says.
   */
  method Linked(g: Graph, legacy: bool, c: Copy, s: Session, ghost t: Tables, p: seq<nat>, ghost cl: seq<nat>, ghost rank: seq<nat>,
                ghost syn: seq<nat>, a: nat, b: nat, tracked: bool)
    returns (s': Session, p': seq<nat>, ghost cl': seq<nat>, ghost rank': seq<nat>)
    requires Inv(g, legacy, c, s, t, p, cl, rank, syn) && |s.fuseList| > 0
    requires Joins(cl, s.fuseList[0], a, b) && a != b && SizeOf(t, a) >= SizeOf(t, b) && tracked == (b in t.roots)
    requires !legacy ==> g.numVertices < U32
    ensures a in t.size && (b in t.roots ==> b in t.size)
    ensures Inv(g, legacy, c, s', LinkedTables(c, t, a, b), p', cl', rank', syn)
    ensures s'.support == s.support && s'.connectionCounts == s.connectionCounts
    ensures s'.fuseList == s.fuseList[1..] && s'.peelingEdges == s.peelingEdges + [s.fuseList[0]]
    ensures cl' == Relabel(cl, b, a)
    ensures Coarser(cl, cl') && SameCluster(cl', s.fuseList[0])
  {
    LinkStep(g, legacy, s, t, p, cl, rank, syn, a, b);
    RelabelJoins(cl, s.fuseList[0], a, b);
    var border := LinkBorders(g, s.connectionCounts, s.borderVertices, a, b, tracked);
    s' := Session(s.connectionCounts, s.support, s.fuseList[1..], border, s.peelingEdges + [s.fuseList[0]]);
    assert s' == LinkedSession(g, s, t, a, b);
    p', cl', rank' := p[b := a], Relabel(cl, b, a), rank[a := if rank[a] > rank[b] then rank[a] else rank[b] + 1];
  }

  // ---------------------------------------------------------------------
  // The decoder object

  /** The odd entries of the syndrome, in increasing order: the syndrome vertices. */
  method SyndromeVertices(s: seq<nat>) returns (rs: seq<nat>)
    ensures rs == OddIndices(s)
    ensures forall x :: x in rs <==> 0 <= x < |s| && s[x] % 2 != 0
    ensures forall i, j :: 0 <= i < j < |rs| ==> rs[i] < rs[j]
  {
    rs := [];
    for k := 0 to |s|
      invariant rs == OddIndices(s[..k])
    {
      assert s[..k + 1][..k] == s[..k];
      if s[k] % 2 != 0 {
        rs := rs + [k];
      }
    }
    assert s[..|s|] == s;
    OddIndicesMembers(s);
  }

  /**
   * The do-while loop of find_root: from the parent of vertex, follow parent
   * links to the root, recording every vertex visited.
   */
  method WalkUp(n: nat, p: seq<nat>, ghost cl: seq<nat>, ghost rank: seq<nat>, vertex: nat) returns (root: nat, walk: seq<nat>)
    requires Links(n, p, cl, rank) && vertex < n && p[vertex] != vertex
    ensures root == cl[vertex] && p[root] == root
    ensures forall x :: x in walk ==> x < n && cl[x] == root && x != vertex && (x != root ==> rank[x] < rank[root])
  {
    var tmp := p[vertex];
    walk := [];
    root := vertex;
    while true
      invariant root < n && tmp == p[root] && tmp != root && cl[root] == cl[vertex]
      invariant forall x :: x in walk ==> x < n && cl[x] == cl[vertex] && x != vertex && (x == root || rank[x] < rank[root])
      invariant rank[vertex] <= rank[root]
      decreases Higher(rank, rank[root])
    {
      HigherDrop(rank, rank[root], tmp);
      root := tmp;
      walk := walk + [root];
      tmp := p[root];
      if tmp == root {
        break;
      }
    }
  }

  /** The compression loop of find_root: every vertex of the path points at root. */
  method PointAt(p: seq<nat>, path: seq<nat>, root: nat) returns (q: seq<nat>)
    requires forall x :: x in path ==> x < |p|
    ensures q == Compress(p, path, root)
  {
    q := p;
    for i := 0 to |path|
      invariant q == Compress(p, path[..i], root)
    {
      assert path[..i + 1] == path[..i] + [path[i]] && path[i] in path;
      CompressSnoc(p, path[..i], path[i], root);
      q := q[path[i] := root];
    }
    assert path[..|path|] == path;
  }

  /** The two ends of e lie in one cluster. */
  predicate SameCluster(cl: seq<nat>, e: Edge) {
    e.u < |cl| && e.v < |cl| && cl[e.u] == cl[e.v]
  }

  /** cl' is coarser than cl: vertices in one cluster of cl stay in one cluster of cl'. */
  ghost predicate Coarser(cl: seq<nat>, cl': seq<nat>) {
    |cl'| == |cl| && forall x, y :: 0 <= x < |cl| && 0 <= y < |cl| && cl[x] == cl[y] ==> cl'[x] == cl'[y]
  }

  /** Relabelling the cluster of b as a, across an edge joining them, puts the edge inside one cluster. */
  lemma RelabelJoins(cl: seq<nat>, e: Edge, a: nat, b: nat)
    requires Joins(cl, e, a, b)
    ensures Coarser(cl, Relabel(cl, b, a)) && SameCluster(Relabel(cl, b, a), e)
  {
  }

  /** Every saturated edge lies inside one cluster. */
  ghost predicate SaturatedInside(g: Graph, sup: seq<nat>, cl: seq<nat>) {
    forall x: nat, w: nat ::
      (x < |cl| && x < |g.connections| && w in g.connections[x] && w < |cl| && SupportOf(g, sup, MakeEdge(x, w)) >= 2) ==>
      cl[x] == cl[w]
  }

  /** Once the fuse list is empty, the ends of every saturated edge share a cluster. */
  lemma FusedInside(g: Graph, legacy: bool, s: Session, t: Tables, cl: seq<nat>, syn: seq<nat>)
    requires Rest(g, legacy, s, t, cl, syn) && s.fuseList == []
    ensures SaturatedInside(g, s.support, cl)
  {
    assert FuseOk(g, s, t, cl);
  }

  /** Coarsening twice is coarsening. */
  lemma CoarserTrans(a: seq<nat>, b: seq<nat>, c: seq<nat>)
    requires Coarser(a, b) && Coarser(b, c)
    ensures Coarser(a, c)
  {
  }

  /** Raising pointwise twice is raising pointwise. */
  lemma RaisedTrans(a: seq<nat>, b: seq<nat>, c: seq<nat>)
    requires |a| == |b| == |c|
    requires forall i :: 0 <= i < |a| ==> a[i] <= b[i]
    requires forall i :: 0 <= i < |b| ==> b[i] <= c[i]
    ensures forall i :: 0 <= i < |a| ==> a[i] <= c[i]
    ensures forall i :: 0 <= i < |a| && a[i] < b[i] ==> a[i] < c[i]
  {
  }

  /** The parities of the syndrome entries: what the clusters count. */
  function Mod2(s: seq<nat>): (r: seq<nat>)
    ensures |r| == |s| && Bits(r)
    ensures forall x :: 0 <= x < |s| ==> r[x] % 2 == s[x] % 2
  {
    seq(|s|, x requires 0 <= x < |s| => s[x] % 2)
  }

  /** A syndrome and its parities have the same odd entries, and 0/1 entries are their own parities. */
  lemma {:induction false} OddIndicesMod2(s: seq<nat>)
    ensures OddIndices(Mod2(s)) == OddIndices(s)
    ensures Bits(s) ==> Mod2(s) == s
  {
    if |s| > 0 {
      var front := s[..|s| - 1];
      OddIndicesMod2(front);
      assert Mod2(s)[..|s| - 1] == Mod2(front);
    }
  }

  /** Without an odd entry the syndrome has no syndrome vertex. */
  lemma NoOddIndices(s: seq<nat>)
    requires Zero(s)
    ensures OddIndices(s) == []
  {
    OddIndicesMembers(s);
    if OddIndices(s) != [] {
      assert OddIndices(s)[0] in OddIndices(s);
    }
  }

  /**
   * Once no odd cluster is left, the peeling edges are a forest of lattice
   * edges on the vertices, and the syndrome has even weight on every part
   * of that forest.
   */
  lemma PeelingReady(g: Graph, legacy: bool, s: Session, t: Tables, cl: seq<nat>, syn: seq<nat>)
    requires Rest(g, legacy, s, t, cl, syn) && t.oddRoots == {}
    ensures OnVertices(g.numVertices, s.peelingEdges) && Forest(multiset(s.peelingEdges))
    ensures forall e :: e in s.peelingEdges ==> IsLatticeEdge(g, e)
    ensures EvenClosed(g.numVertices, multiset(s.peelingEdges), syn)
  {
    PeelReady(g, legacy, s, t, cl, syn);
  }

  /**
   * What decode returns, from what peeling guarantees: corrections drawn
   * from a forest of lattice edges form one, 0/1 syndromes end at 0, and a
   * syndrome without defects, which left the peeling list empty, gets no
   * correction.
   */
  lemma Outcome(g: Graph, s0: seq<nat>, pe: seq<Edge>, corr: seq<Edge>, s1: seq<nat>)
    requires |s0| == |s1| == g.numVertices
    requires Forest(multiset(pe)) && (forall e :: e in pe ==> IsLatticeEdge(g, e))
    requires EvenClosed(g.numVertices, multiset(pe), Mod2(s0))
    requires multiset(corr) <= multiset(pe)
    requires Bits(s0) && EvenClosed(g.numVertices, multiset(pe), s0) ==> Zero(s1)
    requires Zero(s0) ==> pe == []
    ensures Forest(multiset(corr)) && forall e :: e in corr ==> IsLatticeEdge(g, e)
    ensures Bits(s0) ==> Zero(s1)
    ensures Zero(s0) ==> corr == []
  {
    ForestSubset(multiset(pe), multiset(corr));
    forall e | e in corr
      ensures IsLatticeEdge(g, e)
    {
      assert e in multiset(corr);
    }
    OddIndicesMod2(s0);
    if pe == [] {
      assert |multiset(corr)| == 0;
    }
  }

  /** The state init_cluster sets up on the syndrome vertices of s satisfies the invariant. */
  lemma InitState(g: Graph, legacy: bool, s: seq<nat>)
    requires Simple(g) && |s| == g.numVertices
    ensures Inv(g, legacy, CopyOf(legacy), Initial(g, Mod2(s)), Initialized(Empty, OddIndices(s)),
                Identity(g.numVertices), Identity(g.numVertices), Zeros(g.numVertices), Mod2(s))
    ensures Zero(s) ==> Initialized(Empty, OddIndices(s)).oddRoots == {}
    ensures Initial(g, Mod2(s)) == Session(Zeros(g.numVertices), Zeros(g.numEdges), [], Seeded(map[], OddIndices(s)), [])
  {
    OddIndicesMod2(s);
    InitOk(g, legacy, Mod2(s));
    if Zero(s) {
      NoOddIndices(s);
    }
  }

  /**
   * The last step of peeling a leaf edge from u to v: when u carries a
   * defect the edge is recorded and the defect moves to v. The uint32 copy
   * clears u and flips the low bit of v; the legacy copy decrements u and
   * sets v to 1 - v, which is the same step on 0/1 entries only.
   */
  method PeelLeaf(legacy: bool, syndromes: array<nat>, leaf: Edge, u: nat, v: nat, corrections: seq<Edge>)
    returns (corrections': seq<Edge>)
    requires u < syndromes.Length && v < syndromes.Length && u != v
    requires legacy ==> syndromes[v] <= 1
    modifies syndromes
    ensures syndromes[..] == Peeled(old(syndromes[..]), u, v)
    ensures corrections' == if old(syndromes[u]) == 1 then corrections + [leaf] else corrections
    ensures Bits(old(syndromes[..])) ==> Bits(syndromes[..])
  {
    corrections' := corrections;
    if syndromes[u] == 1 {
      corrections' := corrections + [leaf];
      if legacy {
        syndromes[u] := syndromes[u] - 1;
        syndromes[v] := 1 - syndromes[v];
      } else {
        syndromes[u] := 0;
        syndromes[v] := Xor1(syndromes[v]);
      }
    }
  }

  class Decoder {
    const graph: Graph
    /** Whether this is the older torus-only decoder, whose support is not capped at 2. */
    const legacy: bool
    const mgr: RootManager

    var connectionCounts: seq<nat>
    var support: seq<nat>
    var fuseList: seq<Edge>
    var rootOfVertex: seq<nat>
    var borderVertices: map<nat, set<nat>>
    var peelingEdges: seq<Edge>

    /** The root find_root would return for each vertex. */
    ghost var cluster: seq<nat>
    /** A potential that grows strictly along parent links. */
    ghost var rank: seq<nat>
    /** The syndrome the current session started from. */
    ghost var syn: seq<nat>

    function Snapshot(): Session
      reads this
    {
      Session(connectionCounts, support, fuseList, borderVertices, peelingEdges)
    }

    /** The invariant of a decoding session. */
    ghost predicate Valid()
      reads this, mgr
    {
      Inv(graph, legacy, mgr.copy, Snapshot(), mgr.State(), rootOfVertex, cluster, rank, syn)
    }

    /** The state after construction or clear(). */
    predicate Cleared()
      reads this, mgr
    {
      mgr.State() == Empty && fuseList == [] && borderVertices == map[] && peelingEdges == []
    }

    constructor (g: Graph, legacy: bool)
      ensures graph == g && this.legacy == legacy && mgr.copy == CopyOf(legacy) && fresh(mgr)
      ensures Cleared()
    {
      graph := g;
      this.legacy := legacy;
      mgr := new RootManager(CopyOf(legacy));
      connectionCounts, support, fuseList, rootOfVertex := [], [], [], [];
      borderVertices, peelingEdges := map[], [];
      cluster, rank, syn := [], [], [];
    }

    /**
     * init_cluster(roots): zero counts and support, register the roots in the
     * table, seed their borders with themselves, and make every vertex its
     * own parent.
     */
    method InitCluster(rs: seq<nat>)
      modifies this`connectionCounts, this`support, this`borderVertices, this`rootOfVertex, mgr
      ensures connectionCounts == Zeros(graph.numVertices) && support == Zeros(graph.numEdges)
      ensures mgr.State() == Initialized(old(mgr.State()), rs)
      ensures borderVertices == Seeded(old(borderVertices), rs)
      ensures rootOfVertex == Identity(graph.numVertices)
    {
      connectionCounts := Zeros(graph.numVertices);
      support := Zeros(graph.numEdges);
      mgr.InitializeRoots(rs);
      var border := borderVertices;
      for i := 0 to |rs|
        invariant border == Seeded(old(borderVertices), rs[..i])
      {
        assert rs[..i + 1][..i] == rs[..i];
        border := border[rs[i] := BorderOf(border, rs[i]) + {rs[i]}];
      }
      assert rs[..|rs|] == rs;
      borderVertices := border;
      var p := Resized(rootOfVertex, graph.numVertices);
      for u := 0 to graph.numVertices
        invariant |p| == graph.numVertices
        invariant forall x :: 0 <= x < u ==> p[x] == x
      {
        p := p[u := u];
      }
      assert p == Identity(graph.numVertices);
      rootOfVertex := p;
    }

    /**
     * find_root(vertex): walk up the parent links to the root, and point
     * every vertex met on the way (not vertex itself) straight at it.
     */
    method FindRoot(vertex: nat) returns (root: nat, ghost path: seq<nat>)
      requires Links(graph.numVertices, rootOfVertex, cluster, rank) && vertex < graph.numVertices
      modifies this`rootOfVertex
      ensures root == cluster[vertex]
      ensures forall x :: x in path ==> x < graph.numVertices && cluster[x] == root && x != vertex
      ensures rootOfVertex == Compress(old(rootOfVertex), path, root)
      ensures Links(graph.numVertices, rootOfVertex, cluster, rank)
    {
      var p0 := rootOfVertex;
      if p0[vertex] == vertex {
        assert Compress(p0, [], vertex) == p0;
        return vertex, [];
      }
      var walk;
      root, walk := WalkUp(graph.numVertices, p0, cluster, rank, vertex);
      path := walk;
      CompressLinks(graph.numVertices, p0, cluster, rank, walk, root);
      rootOfVertex := PointAt(p0, walk, root);
    }
 

    /**
     * grow(root): every vertex of the border of root visits each of its
     * edges once; border_vertices_[root] inserts an empty border when root
     * has none.
     */
    method Grow(root: nat)
      requires Simple(graph) && |support| == graph.numEdges && |connectionCounts| == graph.numVertices
      requires !legacy ==> forall i :: 0 <= i < |support| ==> support[i] <= 2
      requires CountsMatch(graph, support, connectionCounts)
      requires forall x :: x in BorderOf(borderVertices, root) ==> x < graph.numVertices
      modifies this`support, this`connectionCounts, this`fuseList, this`borderVertices
      ensures borderVertices == old(borderVertices)[root := BorderOf(old(borderVertices), root)]
      ensures Grown(graph, legacy, BorderOf(old(borderVertices), root), old(Snapshot()).(borderVertices := borderVertices), Snapshot())
    {
      var B := BorderOf(borderVertices, root);
      borderVertices := borderVertices[root := B];
      var s := GrowBorder(graph, legacy, B, Snapshot());
      support, connectionCounts, fuseList := s.support, s.connectionCounts, s.fuseList;
    }

    /**
     * The growth round of decode: grow every odd root once. While an odd root
     * is left and every component has even weight, the support summed with a
     * cap of 2 per edge goes up.
     */
    method GrowOddRoots()
      requires Valid() && fuseList == [] && mgr.oddRoots != {} && EvenComponents(graph, syn)
      modifies this`support, this`connectionCounts, this`fuseList
      ensures Valid()
      ensures |support| == |old(support)| && forall i :: 0 <= i < |support| ==> old(support)[i] <= support[i]
      ensures SumCap(old(support)) < SumCap(support)
    {
      var s := GrowRoots(graph, legacy, mgr.oddRoots, Snapshot(), mgr.State(), cluster, syn);
      ApplyGrowth(s);
    }

    /** The updates of a growth round: the support, the counts and the fuse list take their new values. */
    method ApplyGrowth(s: Session)
      requires mgr.copy == CopyOf(legacy) && Links(graph.numVertices, rootOfVertex, cluster, rank)
      requires Rest(graph, legacy, s, mgr.State(), cluster, syn)
      requires s.borderVertices == borderVertices && s.peelingEdges == peelingEdges
      modifies this`support, this`connectionCounts, this`fuseList
      ensures Valid() && Snapshot() == s
    {
      support, connectionCounts, fuseList := s.support, s.connectionCounts, s.fuseList;
    }

    /** find_root on both ends of e, in turn. */
    method FindEnds(e: Edge) returns (r1: nat, r2: nat)
      requires Valid() && e.u < graph.numVertices && e.v < graph.numVertices
      modifies this`rootOfVertex
      ensures Valid() && r1 == cluster[e.u] && r2 == cluster[e.v]
    {
      ghost var p1, p2;
      r1, p1 := FindRoot(e.u);
      r2, p2 := FindRoot(e.v);
    }

    /**
     * clusters(): group every vertex under the root find_root gives it,
     * keeping the roots whose size in the table is not 0.
     */
    method Clusters() returns (groups: map<nat, seq<nat>>)
      requires Valid()
      modifies this`rootOfVertex
      ensures Valid()
      ensures groups == ClusterMap(cluster, mgr.State(), graph.numVertices)
    {
      groups := map[];
      for v := 0 to graph.numVertices
        invariant Valid()
        invariant groups == ClusterMap(cluster, mgr.State(), v)
      {
        groups := Group(v, groups);
      }
    }

    /** One pass of the loop of clusters(): vertex v joins the group of its root, if that root has a size. */
    method Group(v: nat, groups: map<nat, seq<nat>>) returns (groups': map<nat, seq<nat>>)
      requires Valid() && v < graph.numVertices
      requires groups == ClusterMap(cluster, mgr.State(), v)
      modifies this`rootOfVertex
      ensures Valid()
      ensures groups' == ClusterMap(cluster, mgr.State(), v + 1)
    {
      SizesKnown();
      ghost var path;
      var root;
      root, path := FindRoot(v);
      ClusterMapStep(cluster, mgr.State(), v);
      groups' := groups;
      if mgr.Size(root) != 0 {
        groups' := groups[root := (if root in groups then groups[root] else []) + [v]];
      }
    }

    /** Every root of the table has a size, and there is a cluster entry for every vertex. */
    lemma SizesKnown()
      requires Valid()
      ensures forall r :: r in mgr.State().roots ==> r in mgr.State().size
      ensures |cluster| == graph.numVertices
    {
      assert Tracked(graph, mgr.State(), cluster, syn);
    }

    /** The front edge of the fuse list lies inside one cluster: fusion drops it. */
    method DropFront()
      requires Valid() && fuseList != [] && SameCluster(cluster, fuseList[0])
      modifies this`fuseList
      ensures Valid() && fuseList == old(fuseList[1..])
    {
      ghost var s0 := Snapshot();
      PopSame(graph, legacy, s0, mgr.State(), cluster, syn, fuseList[0]);
      fuseList := fuseList[1..];
      assert Snapshot() == s0.(fuseList := s0.fuseList[1..]);
    }

    /** The table update of fusion: a grows by one vertex when b is untracked, else b is merged into a. */
    method UpdateTable(a: nat, b: nat)
      requires a in mgr.size && (b in mgr.roots ==> b in mgr.size)
      modifies mgr
      ensures mgr.State() == LinkedTables(mgr.copy, old(mgr.State()), a, b)
    {
      if !mgr.IsRoot(b) {
        mgr.IncrementSize(a);
      } else {
        mgr.Merge(a, b);
      }
    }

    /**
     * The updates of fusion when the root b is linked under the root a: the
     * table grows a by one vertex or merges b into it, and the session, the
     * parent links and the clusters take their new values.
     */
    method ApplyLink(a: nat, b: nat, s: Session, p: seq<nat>, ghost cl: seq<nat>, ghost rk: seq<nat>)
      requires a in mgr.size && (b in mgr.roots ==> b in mgr.size)
      requires s.support == support && s.connectionCounts == connectionCounts
      requires Inv(graph, legacy, mgr.copy, s, LinkedTables(mgr.copy, mgr.State(), a, b), p, cl, rk, syn)
      modifies this`fuseList, this`rootOfVertex, this`borderVertices, this`peelingEdges, this`cluster, this`rank, mgr
      ensures Valid() && Snapshot() == s && rootOfVertex == p && cluster == cl && rank == rk
    {
      fuseList, peelingEdges, borderVertices, rootOfVertex, cluster, rank :=
        s.fuseList, s.peelingEdges, s.borderVertices, p, cl, rk;
      UpdateTable(a, b);
    }

    /**
     * The front edge e of the fuse list joins the clusters of r1 and r2: e
     * becomes a peeling edge and the root of the smaller cluster is linked
     * under that of the larger one; a single vertex adds one to the size and
     * joins the border, a tracked root is merged in the table and its border
     * merged by merge_boundary.
     */
    method LinkFront(r1: nat, r2: nat)
      requires Valid() && fuseList != [] && Joins(cluster, fuseList[0], r1, r2) && r1 != r2
      requires !legacy ==> graph.numVertices < U32
      modifies this`fuseList, this`rootOfVertex, this`borderVertices, this`peelingEdges, this`cluster, this`rank, mgr
      ensures Valid() && fuseList == old(fuseList[1..]) && peelingEdges == old(peelingEdges) + [old(fuseList[0])]
      ensures cluster == Relabel(old(cluster), r2, r1) || cluster == Relabel(old(cluster), r1, r2)
      ensures Coarser(old(cluster), cluster) && SameCluster(cluster, old(fuseList[0]))
    {
      var swap := mgr.Size(r1) < mgr.Size(r2);
      var a, b := if swap then r2 else r1, if swap then r1 else r2;
      var s, p, cl, rk := Linked(graph, legacy, mgr.copy, Snapshot(), mgr.State(), rootOfVertex, cluster, rank, syn, a, b, mgr.IsRoot(b));
      ApplyLink(a, b, s, p, cl, rk);
    }

    /**
     * One pass of the loop of fusion: pop the front edge and, when its ends
     * lie in different clusters, add it to the peeling edges and link the
     * smaller cluster under the larger one.
     */
    method FuseFront()
      requires Valid() && fuseList != [] && (!legacy ==> graph.numVertices < U32)
      modifies this`fuseList, this`rootOfVertex, this`borderVertices, this`peelingEdges, this`cluster, this`rank, mgr
      ensures Valid() && fuseList == old(fuseList[1..])
      ensures SameCluster(cluster, old(fuseList[0])) && Coarser(old(cluster), cluster)
      ensures peelingEdges == if SameCluster(old(cluster), old(fuseList[0])) then old(peelingEdges)
                              else old(peelingEdges) + [old(fuseList[0])]
    {
      var e := fuseList[0];
      FrontEnds(graph, legacy, Snapshot(), mgr.State(), cluster, syn);
      var r1, r2 := FindEnds(e);
      if r1 == r2 {
        DropFront();
      } else {
        LinkFront(r1, r2);
      }
    }

    /**
     * fusion(): empty the fuse list. Clusters only ever merge, and afterwards
     * the ends of every saturated edge lie in one cluster.
     */
    method Fusion()
      requires Valid() && (!legacy ==> graph.numVertices < U32)
      modifies this`fuseList, this`rootOfVertex, this`borderVertices, this`peelingEdges, this`cluster, this`rank, mgr
      ensures Valid() && fuseList == [] && SaturatedInside(graph, support, cluster)
      ensures Coarser(old(cluster), cluster)
      ensures old(peelingEdges) <= peelingEdges
    {
      ghost var cl0 := cluster;
      while fuseList != []
        invariant Valid()
        invariant Coarser(cl0, cluster)
        invariant old(peelingEdges) <= peelingEdges
        decreases |fuseList|
      {
        ghost var before := cluster;
        FuseFront();
        CoarserTrans(cl0, before, cluster);
      }
      FusedInside(graph, legacy, Snapshot(), mgr.State(), cluster, syn);
    }
      /**
     * peeling(syndromes): count the endpoints of the peeling edges, then take
     * edges off the back of the list. An edge with an end of count 1 is
     * removed, and becomes a correction when that end carries a defect,
     * which then moves to the other end; any other edge goes to the front.
     */
    method Peeling(syndromes: array<nat>) returns (corrections: seq<Edge>)
      requires OnVertices(syndromes.Length, peelingEdges) && Forest(multiset(peelingEdges))
      requires legacy ==> Bits(syndromes[..])
      modifies this`peelingEdges, syndromes
      ensures peelingEdges == []
      ensures multiset(corrections) <= multiset(old(peelingEdges))
      ensures Boundary(syndromes.Length, old(syndromes[..]), corrections, syndromes[..])
      ensures Bits(old(syndromes[..])) && EvenClosed(syndromes.Length, multiset(old(peelingEdges)), old(syndromes[..])) ==>
                Zero(syndromes[..])
    {
      ghost var n, pe0, s0 := syndromes.Length, peelingEdges, syndromes[..];
      ghost var good := Bits(s0) && EvenClosed(n, multiset(pe0), s0);
      corrections := [];
      var vertexCount: map<nat, int> := CountVertices(peelingEdges);
      PeelStart(n, pe0, s0, vertexCount);
      while peelingEdges != []
        invariant PeelInv(n, pe0, s0, good, peelingEdges, vertexCount, corrections, syndromes[..])
        invariant legacy ==> Bits(syndromes[..])
        decreases |peelingEdges|, LeafDist(peelingEdges, vertexCount)
      {
        vertexCount, corrections := PeelBack(syndromes, vertexCount, corrections, n, pe0, s0, good);
      }
      PeelEnd(n, pe0, s0, vertexCount, corrections, syndromes[..]);
    }

    /**
     * One round of the peeling loop: pop the back edge; if one end has count
     * 1 it is the leaf end u, both counts drop, and a defect at u moves
     * along the edge into the corrections; otherwise the edge goes to the
     * front of the list.
     */
    method PeelBack(syndromes: array<nat>, vertexCount: map<nat, int>, corrections: seq<Edge>,
                    ghost n: nat, ghost pe0: seq<Edge>, ghost s0: seq<nat>, ghost good: bool)
      returns (vertexCount': map<nat, int>, corrections': seq<Edge>)
      requires peelingEdges != [] && PeelInv(n, pe0, s0, good, peelingEdges, vertexCount, corrections, syndromes[..])
      requires legacy ==> Bits(syndromes[..])
      modifies this`peelingEdges, syndromes
      ensures PeelInv(n, pe0, s0, good, peelingEdges, vertexCount', corrections', syndromes[..])
      ensures legacy ==> Bits(syndromes[..])
      ensures |peelingEdges| < old(|peelingEdges|) ||
              (|peelingEdges| == old(|peelingEdges|) && LeafDist(peelingEdges, vertexCount') < old(LeafDist(peelingEdges, vertexCount)))
    {
      ghost var pe, s := peelingEdges, syndromes[..];
      var leaf := peelingEdges[|peelingEdges| - 1];
      peelingEdges := peelingEdges[..|peelingEdges| - 1];
      var u: nat, v: nat;
      if Get(vertexCount, leaf.u) == 1 {
        u, v := leaf.u, leaf.v;
      } else if Get(vertexCount, leaf.v) == 1 {
        u, v := leaf.v, leaf.u;
      } else {
        peelingEdges := [leaf] + peelingEdges;
        PeelRotate(n, pe0, s0, good, pe, vertexCount, corrections, s);
        return vertexCount, corrections;
      }
      PeelRemove(n, pe0, s0, good, pe, vertexCount, corrections, s, u, v);
      vertexCount' := Decremented(vertexCount, u, v);
      corrections' := PeelLeaf(legacy, syndromes, leaf, u, v, corrections);
    }

    /**
     * The growth loop of decode: grow every odd cluster by half an edge and
     * fuse, until no odd cluster is left.
     */
    method GrowClusters()
      requires Valid() && fuseList == [] && EvenComponents(graph, syn) && (!legacy ==> graph.numVertices < U32)
      modifies this`support, this`connectionCounts, this`fuseList, this`rootOfVertex, this`borderVertices,
               this`peelingEdges, this`cluster, this`rank, mgr
      ensures Valid() && fuseList == [] && mgr.oddRoots == {}
      ensures old(mgr.oddRoots) == {} ==> peelingEdges == old(peelingEdges)
    {
      while mgr.oddRoots != {}
        invariant Valid() && fuseList == [] && |support| == graph.numEdges
        invariant old(mgr.oddRoots) == {} ==> mgr.oddRoots == {} && peelingEdges == old(peelingEdges)
        decreases 2 * graph.numEdges - SumCap(support)
      {
        SumCapBound(support);
        GrowRound();
      }
    }

    /** One round of the growth loop: grow every odd cluster, then fuse. */
    method GrowRound()
      requires Valid() && fuseList == [] && mgr.oddRoots != {} && EvenComponents(graph, syn)
      requires !legacy ==> graph.numVertices < U32
      modifies this`support, this`connectionCounts, this`fuseList, this`rootOfVertex, this`borderVertices,
               this`peelingEdges, this`cluster, this`rank, mgr
      ensures Valid() && fuseList == [] && |support| == |old(support)| && SumCap(old(support)) < SumCap(support)
    {
      GrowOddRoots();
      Fusion();
    }

    /**
     * Once no odd cluster is left, the peeling edges are a forest of lattice
     * edges and the syndrome has even weight on every part of it.
     */
    lemma ReadyToPeel()
      requires Valid() && mgr.oddRoots == {}
      ensures OnVertices(graph.numVertices, peelingEdges) && Forest(multiset(peelingEdges))
      ensures forall e :: e in peelingEdges ==> IsLatticeEdge(graph, e)
      ensures EvenClosed(graph.numVertices, multiset(peelingEdges), syn)
    {
      PeelingReady(graph, legacy, Snapshot(), mgr.State(), cluster, syn);
    }

    /**
     * decode(syndromes): start a cluster at every odd syndrome vertex, grow
     * until every cluster is even, and peel. The corrections are a forest of
     * lattice edges whose boundary, added to the syndromes, leaves them
     * even; with 0/1 syndromes every entry ends at 0.
     */
    method Decode(syndromes: array<nat>) returns (corrections: seq<Edge>)
      requires Cleared() && mgr.copy == CopyOf(legacy) && Simple(graph)
      requires !legacy ==> graph.numVertices < U32
      requires syndromes.Length == graph.numVertices && EvenComponents(graph, Mod2(syndromes[..]))
      requires legacy ==> Bits(syndromes[..])
      modifies this, mgr, syndromes
      ensures Boundary(syndromes.Length, old(syndromes[..]), corrections, syndromes[..])
      ensures Forest(multiset(corrections)) && forall e :: e in corrections ==> IsLatticeEdge(graph, e)
      ensures Bits(old(syndromes[..])) ==> Zero(syndromes[..])
      ensures Zero(old(syndromes[..])) ==> corrections == []
    {
      ghost var s0 := syndromes[..];
      var rs := SyndromeVertices(syndromes[..]);
      StartSession(s0, rs);
      GrowClusters();
      ReadyToPeel();
      ghost var pe := peelingEdges;
      corrections := Peeling(syndromes);
      Outcome(graph, s0, pe, corrections, syndromes[..]);
    }

    /** init_cluster on the syndrome vertices of s, with the session's ghost state set up beside it. */
    method StartSession(ghost s: seq<nat>, rs: seq<nat>)
      requires Cleared() && mgr.copy == CopyOf(legacy) && Simple(graph)
      requires |s| == graph.numVertices && rs == OddIndices(s)
      modifies this`connectionCounts, this`support, this`borderVertices, this`rootOfVertex, mgr,
               this`cluster, this`rank, this`syn
      ensures Valid() && fuseList == [] && syn == Mod2(s)
      ensures Zero(s) ==> mgr.oddRoots == {} && peelingEdges == []
    {
      InitCluster(rs);
      InitState(graph, legacy, s);
      assert Snapshot() == Initial(graph, Mod2(s));
      SetGhosts(Identity(graph.numVertices), Zeros(graph.numVertices), Mod2(s));
    }

    /** The ghost state of a session takes its new values. */
    method SetGhosts(ghost cl: seq<nat>, ghost rk: seq<nat>, ghost sy: seq<nat>)
      requires Inv(graph, legacy, mgr.copy, Snapshot(), mgr.State(), rootOfVertex, cl, rk, sy)
      modifies this`cluster, this`rank, this`syn
      ensures Valid() && cluster == cl && rank == rk && syn == sy
    {
      cluster, rank, syn := cl, rk, sy;
    }

    /** clear(): empty the fuse list, the root table, the borders and the peeling list. */
    method Clear()
      modifies this`fuseList, this`borderVertices, this`peelingEdges, mgr
      ensures Cleared()
    {
      fuseList := [];
      mgr.Clear();
      borderVertices := map[];
      peelingEdges := [];
    }
  }
}
