// One step of fusion: the edge at the front of the fuse list is popped, and
// when its endpoints lie in different clusters the smaller cluster is linked
// under the larger one. These lemmas show that every such step keeps the
// invariant of the session.

module Linking {
  import opened Edges
  import opened Toric
  import opened Roots
  import opened Graphs
  import opened Sessions
  import opened ParentLinks

  /** e joins the clusters r1 and r2, in either order. */
  ghost predicate Joins(cl: seq<nat>, e: Edge, r1: nat, r2: nat) {
    e.u < |cl| && e.v < |cl| && ((r1 == cl[e.u] && r2 == cl[e.v]) || (r1 == cl[e.v] && r2 == cl[e.u]))
  }

  /** The front edge of the fuse list joins two different vertices of the lattice. */
  lemma FrontEnds(g: Graph, legacy: bool, s: Session, t: Tables, cl: seq<nat>, syn: seq<nat>)
    requires Rest(g, legacy, s, t, cl, syn) && |s.fuseList| > 0
    ensures s.fuseList[0].u < s.fuseList[0].v < g.numVertices
  {
    assert s.fuseList[0] in s.fuseList;
    LatticeEdgeIdx(g, s.fuseList[0]);
  }

  /** The vertices that join r1: the old members of r1 and of r2. */
  lemma MaskJoin(cl: seq<nat>, r1: nat, r2: nat)
    requires r1 != r2
    ensures forall x: nat :: ((x in ClusterMask(Relabel(cl, r2, r1), r1)) <==> (x in ClusterMask(cl, r1)) || (x in ClusterMask(cl, r2)))
                             && !((x in ClusterMask(cl, r1)) && (x in ClusterMask(cl, r2)))
  {
  }

  /** Every other cluster keeps its members. */
  lemma MaskOther(cl: seq<nat>, r1: nat, r2: nat, r: nat)
    requires r != r1 && r != r2
    ensures forall x: nat :: (x in ClusterMask(Relabel(cl, r2, r1), r)) == (x in ClusterMask(cl, r))
  {
  }

  // ---------------------------------------------------------------------
  // The parts of the invariant that both kinds of link keep alike

  lemma LinkShape(g: Graph, legacy: bool, s: Session, s': Session, cl: seq<nat>, syn: seq<nat>, r1: nat, r2: nat)
    requires Shape(g, legacy, s, cl, syn) && r1 < |cl| && cl[r1] == r1 && r1 != r2
    requires s'.support == s.support && s'.connectionCounts == s.connectionCounts
    ensures Shape(g, legacy, s', Relabel(cl, r2, r1), syn)
  {
    RelabelRoots(cl, r1, r2);
  }

  /** The popped edge is now inside one cluster; every other entry is as before. */
  lemma LinkFuse(g: Graph, s: Session, s': Session, t: Tables, t': Tables, cl: seq<nat>, e: Edge, r1: nat, r2: nat)
    requires FuseOk(g, s, t, cl) && |s.fuseList| > 0 && s.fuseList[0] == e && Joins(cl, e, r1, r2)
    requires s'.support == s.support && s'.fuseList == s.fuseList[1..]
    requires r1 in t'.roots && t.roots - {r2} <= t'.roots
    ensures FuseOk(g, s', t', Relabel(cl, r2, r1))
  {
    var cl' := Relabel(cl, r2, r1);
    assert s.fuseList == [e] + s'.fuseList;
    forall e' | e' in s'.fuseList
      ensures IsLatticeEdge(g, e') && SupportOf(g, s'.support, e') >= 2
    {
      assert e' in s.fuseList;
    }
    forall x: nat, w: nat | x < |cl'| && x < |g.connections| && w in g.connections[x] && w < |cl'|
      && SupportOf(g, s'.support, MakeEdge(x, w)) >= 2
      ensures MakeEdge(x, w) in s'.fuseList || cl'[x] == cl'[w]
    {
      if MakeEdge(x, w) == e {
        MakeEdgeEqual(x, w, e.u, e.v);
        assert multiset{x, w}[x] > 0 && multiset{x, w}[w] > 0;
        assert cl[x] in {r1, r2} && cl[w] in {r1, r2};
      }
    }
    forall x: nat, w: nat | x < |cl'| && x < |g.connections| && w in g.connections[x] && w < |cl'|
      && SupportOf(g, s'.support, MakeEdge(x, w)) >= 1
      ensures cl'[x] in t'.roots || cl'[w] in t'.roots
    {
      assert cl[x] in t.roots || cl[w] in t.roots;
    }
  }

  /** A mask closed under the new peeling list gives both linked roots one value. */
  lemma LinkClosed(g: Graph, s: Session, s': Session, cl: seq<nat>, e: Edge, r1: nat, r2: nat, c: iset<nat>)
    requires PeelOk(g, s, cl) && Joins(cl, e, r1, r2)
    requires s'.peelingEdges == s.peelingEdges + [e]
    requires Closed(multiset(s'.peelingEdges), c)
    ensures forall x: nat :: x < |cl| ==> (x in c) == (Relabel(cl, r2, r1)[x] in c)
  {
    var E := multiset(s.peelingEdges);
    assert multiset(s'.peelingEdges) == E + multiset{e};
    ClosedSubset(E + multiset{e}, E, c);
    assert (E + multiset{e})[e] > 0;
    assert (e.u in c) == (e.v in c);
    assert (e.u in c) == (cl[e.u] in c) && (e.v in c) == (cl[e.v] in c);
  }

  /** The popped edge joins two clusters, so the peeling list stays a forest inside the clusters. */
  lemma LinkPeel(g: Graph, s: Session, s': Session, cl: seq<nat>, e: Edge, r1: nat, r2: nat)
    requires PeelOk(g, s, cl) && IsLatticeEdge(g, e) && Joins(cl, e, r1, r2) && r1 != r2
    requires s'.peelingEdges == s.peelingEdges + [e]
    ensures PeelOk(g, s', Relabel(cl, r2, r1))
  {
    var cl' := Relabel(cl, r2, r1);
    var E := multiset(s.peelingEdges);
    assert multiset(s'.peelingEdges) == E + multiset{e};
    forall f | f in s'.peelingEdges
      ensures IsLatticeEdge(g, f) && f.u < |cl'| && f.v < |cl'| && cl'[f.u] == cl'[f.v]
    {
      if f != e {
        assert f in s.peelingEdges;
      }
    }
    SeparatedByClusters(E, cl, e.u, e.v);
    ForestAdd(E, e);
    forall c: iset<nat> | Closed(multiset(s'.peelingEdges), c)
      ensures forall x: nat :: x < |cl'| ==> (x in c) == (cl'[x] in c)
    {
      LinkClosed(g, s, s', cl, e, r1, r2, c);
    }
  }

  // ---------------------------------------------------------------------
  // Which root survives

  /**
   * Of two linked roots, the one with the larger size is tracked: the fuse
   * edge has support, so one side is tracked, and a tracked cluster has at
   * least one vertex while an untracked one has size 0.
   */
  lemma LinkRoot(g: Graph, legacy: bool, s: Session, t: Tables, cl: seq<nat>, syn: seq<nat>, e: Edge, r1: nat, r2: nat)
    requires Rest(g, legacy, s, t, cl, syn) && |s.fuseList| > 0 && s.fuseList[0] == e
    requires Joins(cl, e, r1, r2) && r1 != r2
    requires SizeOf(t, r1) >= SizeOf(t, r2)
    ensures r1 in t.roots
  {
    assert IsLatticeEdge(g, e) && SupportOf(g, s.support, e) >= 2;
    MakeEdgeOfNormalized(e);
    LatticeEdgeIdx(g, e);
    assert cl[e.u] in t.roots || cl[e.v] in t.roots;
    if r1 !in t.roots {
      assert r2 in t.roots;
      CardAtLeast(g.numVertices, ClusterMask(cl, r2), r2);
    }
  }

  // ---------------------------------------------------------------------
  // Sizes and parities after a link

  /** The linked cluster holds the vertices and the syndromes of both. */
  lemma JoinCounts(n: nat, cl: seq<nat>, syn: seq<nat>, r1: nat, r2: nat)
    requires r1 != r2 && n <= |syn| && forall x :: 0 <= x < |syn| ==> syn[x] <= 1
    ensures Card(n, ClusterMask(Relabel(cl, r2, r1), r1)) == Card(n, ClusterMask(cl, r1)) + Card(n, ClusterMask(cl, r2))
    ensures Weight(n, ClusterMask(Relabel(cl, r2, r1), r1), syn) == Weight(n, ClusterMask(cl, r1), syn) + Weight(n, ClusterMask(cl, r2), syn)
    ensures Weight(n, ClusterMask(Relabel(cl, r2, r1), r1), syn) <= Card(n, ClusterMask(Relabel(cl, r2, r1), r1)) <= n
  {
    var cl' := Relabel(cl, r2, r1);
    MaskJoin(cl, r1, r2);
    CardSplit(n, ClusterMask(cl', r1), ClusterMask(cl, r1), ClusterMask(cl, r2));
    WeightSplit(n, ClusterMask(cl', r1), ClusterMask(cl, r1), ClusterMask(cl, r2), syn);
    CardBound(n, ClusterMask(cl', r1), syn);
  }

  /** Every other cluster keeps its size and weight. */
  lemma OtherCounts(n: nat, cl: seq<nat>, syn: seq<nat>, r1: nat, r2: nat, r: nat)
    requires r != r1 && r != r2 && n <= |syn|
    ensures Card(n, ClusterMask(Relabel(cl, r2, r1), r)) == Card(n, ClusterMask(cl, r))
    ensures Weight(n, ClusterMask(Relabel(cl, r2, r1), r), syn) == Weight(n, ClusterMask(cl, r), syn)
  {
    MaskOther(cl, r1, r2, r);
    CardExt(n, ClusterMask(Relabel(cl, r2, r1), r), ClusterMask(cl, r));
    WeightExt(n, ClusterMask(Relabel(cl, r2, r1), r), ClusterMask(cl, r), syn);
  }

  /** A root of the new table other than r1 and r2 was a root before, and stays alone if it was. */
  lemma RelabelAlone(cl: seq<nat>, syn: seq<nat>, r1: nat, r2: nat, r: nat)
    requires r < |cl| && Relabel(cl, r2, r1)[r] == r && r != r1 && r != r2
    ensures cl[r] == r
    ensures Alone(cl, syn, r) ==> Alone(Relabel(cl, r2, r1), syn, r)
  {
  }

  /** The singleton cluster of an alone vertex has one vertex and weight 0. */
  lemma AloneCounts(n: nat, cl: seq<nat>, syn: seq<nat>, r: nat)
    requires Alone(cl, syn, r) && r < n && |cl| == n && n <= |syn| && cl[r] == r
    ensures Card(n, ClusterMask(cl, r)) == 1 && Weight(n, ClusterMask(cl, r), syn) == 0
  {
    CardOne(n, ClusterMask(cl, r), r);
    WeightExt(n, ClusterMask(cl, r), iset{r}, syn);
    WeightSingleton(n, r, syn);
  }

  // ---------------------------------------------------------------------
  // Absorbing a single untracked vertex

  /** After size(r1)++, r1 stores the size and parity of its cluster joined by the alone vertex r2. */
  lemma AbsorbJoined(legacy: bool, n: nat, t: Tables, cl: seq<nat>, syn: seq<nat>, r1: nat, r2: nat)
    requires r1 in t.size && r1 != r2 && r2 < n && |cl| == n && n <= |syn| && forall x :: 0 <= x < |syn| ==> syn[x] <= 1
    requires Alone(cl, syn, r2) && cl[r2] == r2
    requires t.size[r1] == Card(n, ClusterMask(cl, r1))
    requires !legacy ==> n < U32
    ensures SizeIncremented(CopyOf(legacy), t, r1).size[r1] == Card(n, ClusterMask(Relabel(cl, r2, r1), r1))
    ensures Weight(n, ClusterMask(cl, r1), syn) == Weight(n, ClusterMask(Relabel(cl, r2, r1), r1), syn)
  {
    AloneCounts(n, cl, syn, r2);
    JoinCounts(n, cl, syn, r1, r2);
    if !legacy {
      AddSmall(CopyOf(legacy), t.size[r1], 1);
    }
  }

  /** One root of the table after size(r1)++: its size and parity match its new cluster. */
  lemma AbsorbRoot(g: Graph, legacy: bool, t: Tables, cl: seq<nat>, syn: seq<nat>, r1: nat, r2: nat, r: nat)
    requires Tracked(g, t, cl, syn) && r1 in t.roots && r2 < |cl| && cl[r2] == r2 && r2 !in t.roots
    requires forall x :: 0 <= x < |syn| ==> syn[x] <= 1
    requires !legacy ==> g.numVertices < U32
    requires r in t.roots
    ensures r < |cl| && Relabel(cl, r2, r1)[r] == r
    ensures SizeIncremented(CopyOf(legacy), t, r1).size[r] == Card(g.numVertices, ClusterMask(Relabel(cl, r2, r1), r))
    ensures t.parity[r] == Weight(g.numVertices, ClusterMask(Relabel(cl, r2, r1), r), syn)
  {
    var n := g.numVertices;
    if r == r1 {
      AbsorbJoined(legacy, n, t, cl, syn, r1, r2);
    } else {
      OtherCounts(n, cl, syn, r1, r2, r);
    }
  }

  lemma AbsorbTracked(g: Graph, legacy: bool, t: Tables, cl: seq<nat>, syn: seq<nat>, r1: nat, r2: nat)
    requires Tracked(g, t, cl, syn) && r1 in t.roots && r2 < |cl| && cl[r2] == r2 && r2 !in t.roots
    requires forall x :: 0 <= x < |syn| ==> syn[x] <= 1
    requires !legacy ==> g.numVertices < U32
    ensures Tracked(g, SizeIncremented(CopyOf(legacy), t, r1), Relabel(cl, r2, r1), syn)
  {
    var m := SizeIncremented(CopyOf(legacy), t, r1);
    var cl' := Relabel(cl, r2, r1);
    SizeIncrementedValid(CopyOf(legacy), t, r1);
    assert m.roots == t.roots && m.oddRoots == t.oddRoots && m.parity == t.parity;
    assert Consistent(m);
    forall r | r in m.roots
      ensures r < |cl'| && cl'[r] == r
      ensures m.size[r] == Card(g.numVertices, ClusterMask(cl', r)) && m.parity[r] == Weight(g.numVertices, ClusterMask(cl', r), syn)
    {
      AbsorbRoot(g, legacy, t, cl, syn, r1, r2, r);
    }
    forall r: nat | r < |cl'| && cl'[r] == r && r !in m.roots
      ensures Alone(cl', syn, r)
    {
      RelabelAlone(cl, syn, r1, r2, r);
    }
  }

  lemma AbsorbBorders(g: Graph, s: Session, s': Session, t: Tables, cl: seq<nat>, syn: seq<nat>, r1: nat, r2: nat)
    requires Borders(g, s, t, cl) && r1 in t.roots && r2 < |cl| && cl[r2] == r2 && r2 !in t.roots
    requires Alone(cl, syn, r2) && |cl| == |syn|
    requires s'.connectionCounts == s.connectionCounts
    requires s'.borderVertices == s.borderVertices[r1 := BorderOf(s.borderVertices, r1) + {r2}]
    ensures Borders(g, s', t, Relabel(cl, r2, r1))
  {
    var cl' := Relabel(cl, r2, r1);
    forall r: nat, x: nat | r in s'.borderVertices && x in s'.borderVertices[r]
      ensures x < |cl'| && cl'[x] == r
    {
      if r != r1 || x != r2 {
        assert x in s.borderVertices[r];
      }
    }
    forall x: nat | x < |cl'| && cl'[x] in t.roots && !Full(g, s'.connectionCounts, x)
      ensures x in s'.borderVertices[cl'[x]]
    {
      if x != r2 {
        assert cl[x] != r2;
        assert x in s.borderVertices[cl[x]];
      }
    }
  }

  /** Linking an untracked single vertex r2 under the tracked root r1 keeps the invariant. */
  lemma AbsorbRest(g: Graph, legacy: bool, s: Session, t: Tables, cl: seq<nat>, syn: seq<nat>, e: Edge, r1: nat, r2: nat)
    requires Rest(g, legacy, s, t, cl, syn) && |s.fuseList| > 0 && s.fuseList[0] == e
    requires Joins(cl, e, r1, r2) && r1 != r2 && r1 in t.roots && r2 !in t.roots
    requires !legacy ==> g.numVertices < U32
    ensures Rest(g, legacy,
                 Session(s.connectionCounts, s.support, s.fuseList[1..],
                         s.borderVertices[r1 := BorderOf(s.borderVertices, r1) + {r2}], s.peelingEdges + [e]),
                 SizeIncremented(CopyOf(legacy), t, r1), Relabel(cl, r2, r1), syn)
  {
    var s' := Session(s.connectionCounts, s.support, s.fuseList[1..],
                      s.borderVertices[r1 := BorderOf(s.borderVertices, r1) + {r2}], s.peelingEdges + [e]);
    var t' := SizeIncremented(CopyOf(legacy), t, r1);
    assert e in s.fuseList;
    assert cl[r1] == r1 && cl[r2] == r2;
    LinkShape(g, legacy, s, s', cl, syn, r1, r2);
    AbsorbTracked(g, legacy, t, cl, syn, r1, r2);
    AbsorbBorders(g, s, s', t, cl, syn, r1, r2);
    LinkFuse(g, s, s', t, t', cl, e, r1, r2);
    LinkPeel(g, s, s', cl, e, r1, r2);
    assert Shape(g, legacy, s', Relabel(cl, r2, r1), syn);
    assert Tracked(g, t', Relabel(cl, r2, r1), syn);
    assert Borders(g, s', t', Relabel(cl, r2, r1));
    assert Counts(g, s');
    assert FuseOk(g, s', t', Relabel(cl, r2, r1));
    assert PeelOk(g, s', Relabel(cl, r2, r1));
  }

  // ---------------------------------------------------------------------
  // Merging two tracked clusters

  /** The surviving root of merge(r1, r2) stores the size and parity of the joined cluster. */
  lemma MergeJoined(legacy: bool, n: nat, t: Tables, cl: seq<nat>, syn: seq<nat>, r1: nat, r2: nat)
    requires Valid(t) && Consistent(t) && r1 in t.roots && r2 in t.roots && r1 != r2
    requires n <= |syn| && forall x :: 0 <= x < |syn| ==> syn[x] <= 1
    requires t.size[r1] == Card(n, ClusterMask(cl, r1)) && t.size[r2] == Card(n, ClusterMask(cl, r2))
    requires t.parity[r1] == Weight(n, ClusterMask(cl, r1), syn) && t.parity[r2] == Weight(n, ClusterMask(cl, r2), syn)
    requires !legacy ==> n < U32
    ensures SizeOf(Merged(CopyOf(legacy), t, r1, r2), r1) == Card(n, ClusterMask(Relabel(cl, r2, r1), r1))
    ensures ParityOf(Merged(CopyOf(legacy), t, r1, r2), r1) == Weight(n, ClusterMask(Relabel(cl, r2, r1), r1), syn)
  {
    var c := CopyOf(legacy);
    MergeSizes(c, t, r1, r2);
    MergeOdd(c, t, r1, r2);
    JoinCounts(n, cl, syn, r1, r2);
    if !legacy {
      AddSmall(c, t.size[r1], t.size[r2]);
      AddSmall(c, t.parity[r1], t.parity[r2]);
    }
  }

  /** One root of the table after merge(r1, r2): its size and parity match its new cluster. */
  lemma MergeRoot(g: Graph, legacy: bool, t: Tables, cl: seq<nat>, syn: seq<nat>, r1: nat, r2: nat, r: nat)
    requires Tracked(g, t, cl, syn) && r1 in t.roots && r2 in t.roots && r1 != r2
    requires forall x :: 0 <= x < |syn| ==> syn[x] <= 1
    requires !legacy ==> g.numVertices < U32
    requires r in t.roots && r != r2
    ensures r < |cl| && Relabel(cl, r2, r1)[r] == r
    ensures SizeOf(Merged(CopyOf(legacy), t, r1, r2), r) == Card(g.numVertices, ClusterMask(Relabel(cl, r2, r1), r))
    ensures ParityOf(Merged(CopyOf(legacy), t, r1, r2), r) == Weight(g.numVertices, ClusterMask(Relabel(cl, r2, r1), r), syn)
  {
    var n := g.numVertices;
    var c := CopyOf(legacy);
    MergeSizes(c, t, r1, r2);
    if r == r1 {
      MergeJoined(legacy, n, t, cl, syn, r1, r2);
    } else {
      OtherCounts(n, cl, syn, r1, r2, r);
    }
  }

  lemma MergeTracked(g: Graph, legacy: bool, t: Tables, cl: seq<nat>, syn: seq<nat>, r1: nat, r2: nat)
    requires Tracked(g, t, cl, syn) && r1 in t.roots && r2 in t.roots && r1 != r2
    requires forall x :: 0 <= x < |syn| ==> syn[x] <= 1
    requires !legacy ==> g.numVertices < U32
    ensures Tracked(g, Merged(CopyOf(legacy), t, r1, r2), Relabel(cl, r2, r1), syn)
  {
    var c := CopyOf(legacy);
    var m := Merged(c, t, r1, r2);
    var cl' := Relabel(cl, r2, r1);
    MergeValid(c, t, r1, r2);
    MergeConsistent(c, t, r1, r2);
    MergeSizes(c, t, r1, r2);
    forall r | r in m.roots
      ensures r < |cl'| && cl'[r] == r
      ensures m.size[r] == Card(g.numVertices, ClusterMask(cl', r)) && m.parity[r] == Weight(g.numVertices, ClusterMask(cl', r), syn)
    {
      MergeRoot(g, legacy, t, cl, syn, r1, r2, r);
    }
    forall r: nat | r < |cl'| && cl'[r] == r && r !in m.roots
      ensures Alone(cl', syn, r)
    {
      RelabelAlone(cl, syn, r1, r2, r);
    }
  }

  lemma MergeBorders(g: Graph, legacy: bool, s: Session, s': Session, t: Tables, cl: seq<nat>, r1: nat, r2: nat)
    requires Borders(g, s, t, cl) && Valid(t) && r1 in t.roots && r2 in t.roots && r1 != r2
    requires s'.connectionCounts == s.connectionCounts
    requires s'.borderVertices == MergedBorders(g, s.connectionCounts, s.borderVertices, r1, r2)
    ensures Borders(g, s', Merged(CopyOf(legacy), t, r1, r2), Relabel(cl, r2, r1))
  {
    var cl' := Relabel(cl, r2, r1);
    var m := Merged(CopyOf(legacy), t, r1, r2);
    MergeSizes(CopyOf(legacy), t, r1, r2);
    assert m.roots == t.roots - {r2};
    forall r: nat, x: nat | r in s'.borderVertices && x in s'.borderVertices[r]
      ensures x < |cl'| && cl'[x] == r
    {
      if r == r1 {
        assert x in s.borderVertices[r1] || x in s.borderVertices[r2];
      } else {
        assert x in s.borderVertices[r];
      }
    }
    forall x: nat | x < |cl'| && cl'[x] in m.roots && !Full(g, s'.connectionCounts, x)
      ensures x in s'.borderVertices[cl'[x]]
    {
      assert x in s.borderVertices[cl[x]];
    }
  }

  /** Linking the tracked root r2 under the tracked root r1 keeps the invariant. */
  lemma MergeRest(g: Graph, legacy: bool, s: Session, t: Tables, cl: seq<nat>, syn: seq<nat>, e: Edge, r1: nat, r2: nat)
    requires Rest(g, legacy, s, t, cl, syn) && |s.fuseList| > 0 && s.fuseList[0] == e
    requires Joins(cl, e, r1, r2) && r1 != r2 && r1 in t.roots && r2 in t.roots
    requires !legacy ==> g.numVertices < U32
    ensures Rest(g, legacy,
                 Session(s.connectionCounts, s.support, s.fuseList[1..],
                         MergedBorders(g, s.connectionCounts, s.borderVertices, r1, r2), s.peelingEdges + [e]),
                 Merged(CopyOf(legacy), t, r1, r2), Relabel(cl, r2, r1), syn)
  {
    var s' := Session(s.connectionCounts, s.support, s.fuseList[1..],
                      MergedBorders(g, s.connectionCounts, s.borderVertices, r1, r2), s.peelingEdges + [e]);
    var t' := Merged(CopyOf(legacy), t, r1, r2);
    assert e in s.fuseList;
    assert cl[r1] == r1 && cl[r2] == r2;
    assert t'.roots == t.roots - {r2};
    LinkShape(g, legacy, s, s', cl, syn, r1, r2);
    MergeTracked(g, legacy, t, cl, syn, r1, r2);
    MergeBorders(g, legacy, s, s', t, cl, r1, r2);
    LinkFuse(g, s, s', t, t', cl, e, r1, r2);
    LinkPeel(g, s, s', cl, e, r1, r2);
    assert Shape(g, legacy, s', Relabel(cl, r2, r1), syn);
    assert Tracked(g, t', Relabel(cl, r2, r1), syn);
    assert Borders(g, s', t', Relabel(cl, r2, r1));
    assert Counts(g, s');
    assert FuseOk(g, s', t', Relabel(cl, r2, r1));
    assert PeelOk(g, s', Relabel(cl, r2, r1));
  }

  // ---------------------------------------------------------------------
  // Popping an edge inside one cluster

  /** Dropping a fuse edge whose endpoints share a cluster keeps the fuse-list invariant. */
  lemma PopFuse(g: Graph, s: Session, t: Tables, cl: seq<nat>, e: Edge)
    requires FuseOk(g, s, t, cl) && |s.fuseList| > 0 && s.fuseList[0] == e
    requires e.u < |cl| && e.v < |cl| && cl[e.u] == cl[e.v]
    ensures FuseOk(g, s.(fuseList := s.fuseList[1..]), t, cl)
  {
    var s' := s.(fuseList := s.fuseList[1..]);
    assert s.fuseList == [e] + s'.fuseList;
    forall e' | e' in s'.fuseList
      ensures IsLatticeEdge(g, e') && SupportOf(g, s'.support, e') >= 2
    {
      assert e' in s.fuseList;
    }
    forall x: nat, w: nat | x < |cl| && x < |g.connections| && w in g.connections[x] && w < |cl|
      && SupportOf(g, s'.support, MakeEdge(x, w)) >= 2
      ensures MakeEdge(x, w) in s'.fuseList || cl[x] == cl[w]
    {
      if MakeEdge(x, w) == e {
        MakeEdgeEqual(x, w, e.u, e.v);
        assert multiset{x, w}[x] > 0 && multiset{x, w}[w] > 0;
      }
    }
  }

  /** Popping a fuse edge inside one cluster changes nothing else and keeps the invariant. */
  lemma PopSame(g: Graph, legacy: bool, s: Session, t: Tables, cl: seq<nat>, syn: seq<nat>, e: Edge)
    requires Rest(g, legacy, s, t, cl, syn) && |s.fuseList| > 0 && s.fuseList[0] == e
    requires e.u < |cl| && e.v < |cl| && cl[e.u] == cl[e.v]
    ensures Rest(g, legacy, s.(fuseList := s.fuseList[1..]), t, cl, syn)
  {
    var s' := s.(fuseList := s.fuseList[1..]);
    PopFuse(g, s, t, cl, e);
    assert Shape(g, legacy, s', cl, syn);
    assert Borders(g, s', t, cl);
    assert Counts(g, s');
    assert PeelOk(g, s', cl);
  }
}
