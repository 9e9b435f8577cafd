// The phases of decode around fusion: init_cluster sets up a state that
// satisfies the invariant, every round of growth makes progress while an odd
// cluster remains, and once no odd cluster is left the peeling forest splits
// the syndrome into even parts.

module Phases {
  import opened Edges
  import opened Toric
  import opened Roots
  import opened Graphs
  import opened Sessions
  import opened Growth
  import Linking

  // ---------------------------------------------------------------------
  // The syndrome vertices and the seeded borders

  /** The odd entries, listed once each in increasing order. */
  lemma {:induction false} OddIndicesMembers(s: seq<nat>)
    ensures forall x :: x in OddIndices(s) <==> 0 <= x < |s| && s[x] % 2 != 0
    ensures forall i, j :: 0 <= i < j < |OddIndices(s)| ==> OddIndices(s)[i] < OddIndices(s)[j]
  {
    if |s| > 0 {
      var front := s[..|s| - 1];
      var last: seq<nat> := if s[|s| - 1] % 2 != 0 then [|s| - 1] else [];
      OddIndicesMembers(front);
      assert OddIndices(s) == OddIndices(front) + last;
      forall x | 0 <= x < |front|
        ensures front[x] == s[x]
      {
      }
      forall x
        ensures x in OddIndices(s) <==> 0 <= x < |s| && s[x] % 2 != 0
      {
        assert x in OddIndices(s) <==> x in OddIndices(front) || x in last;
      }
      forall i, j | 0 <= i < j < |OddIndices(s)|
        ensures OddIndices(s)[i] < OddIndices(s)[j]
      {
        if j >= |OddIndices(front)| {
          assert OddIndices(s)[i] in OddIndices(front);
        }
      }
    }
  }

  /** Seeding an empty border map gives every listed root the border {root}. */
  lemma {:induction false} SeededEmpty(rs: seq<nat>)
    ensures forall r :: r in Seeded(map[], rs) <==> r in rs
    ensures forall r :: r in rs ==> Seeded(map[], rs)[r] == {r}
  {
    if |rs| > 0 {
      SeededEmpty(rs[..|rs| - 1]);
      assert rs == rs[..|rs| - 1] + [rs[|rs| - 1]];
    }
  }

  lemma {:induction false} FullInZero(g: Graph, m: nat, x: nat, ws: seq<nat>)
    ensures FullIn(g, Zeros(m), x, ws) == 0
  {
    if |ws| > 0 {
      FullInZero(g, m, x, ws[..|ws| - 1]);
    }
  }

  // ---------------------------------------------------------------------
  // init_cluster

  /** The state right after init_cluster on a cleared decoder. */
  function Initial(g: Graph, syn: seq<nat>): Session {
    Session(Zeros(g.numVertices), Zeros(g.numEdges), [], Seeded(map[], OddIndices(syn)), [])
  }

  /** A syndrome vertex alone in its cluster: size 1 and parity 1. */
  lemma InitRoot(n: nat, syn: seq<nat>, r: nat)
    requires |syn| == n && r < n && syn[r] == 1
    ensures Card(n, ClusterMask(Identity(n), r)) == 1 && Weight(n, ClusterMask(Identity(n), r), syn) == 1
  {
    CardOne(n, ClusterMask(Identity(n), r), r);
    WeightExt(n, ClusterMask(Identity(n), r), iset{r}, syn);
    WeightSingleton(n, r, syn);
  }

  lemma OddBit(a: nat)
    requires a <= 1 && a % 2 != 0
    ensures a == 1
  {
  }

  /** Tables whose roots are the syndrome vertices, each with size 1 and parity 1. */
  lemma SingletonTracked(g: Graph, t: Tables, syn: seq<nat>)
    requires |syn| == g.numVertices && forall x :: 0 <= x < |syn| ==> syn[x] <= 1
    requires Valid(t) && Consistent(t)
    requires forall r :: r in t.roots <==> 0 <= r < |syn| && syn[r] % 2 != 0
    requires forall r :: r in t.roots ==> SizeOf(t, r) == 1 && ParityOf(t, r) == 1
    ensures Tracked(g, t, Identity(g.numVertices), syn)
  {
    var n := g.numVertices;
    var cl := Identity(n);
    forall r | r in t.roots
      ensures r < |cl| && cl[r] == r
      ensures t.size[r] == Card(n, ClusterMask(cl, r)) && t.parity[r] == Weight(n, ClusterMask(cl, r), syn)
    {
      OddBit(syn[r]);
      InitRoot(n, syn, r);
    }
    forall r: nat | r < |cl| && cl[r] == r && r !in t.roots
      ensures Alone(cl, syn, r)
    {
    }
  }

  lemma InitTracked(g: Graph, syn: seq<nat>)
    requires |syn| == g.numVertices && forall x :: 0 <= x < |syn| ==> syn[x] <= 1
    ensures Tracked(g, Initialized(Empty, OddIndices(syn)), Identity(g.numVertices), syn)
  {
    var rs := OddIndices(syn);
    InitializedFresh(rs);
    OddIndicesMembers(syn);
    SingletonTracked(g, Initialized(Empty, rs), syn);
  }

  /** Every tracked root r has the border {r} on the identity forest. */
  lemma SingletonBorders(g: Graph, s: Session, t: Tables)
    requires s.borderVertices.Keys == t.roots
    requires forall r :: r in t.roots ==> r < g.numVertices && s.borderVertices[r] == {r}
    ensures Borders(g, s, t, Identity(g.numVertices))
  {
    var cl := Identity(g.numVertices);
    forall r: nat, x: nat | r in s.borderVertices && x in s.borderVertices[r]
      ensures x < |cl| && cl[x] == r
    {
      assert x == r;
    }
    forall x: nat | x < |cl| && cl[x] in t.roots
      ensures x in s.borderVertices[cl[x]]
    {
      assert cl[x] == x;
    }
  }

  lemma InitBorders(g: Graph, syn: seq<nat>)
    requires |syn| == g.numVertices
    ensures Borders(g, Initial(g, syn), Initialized(Empty, OddIndices(syn)), Identity(g.numVertices))
  {
    var rs := OddIndices(syn);
    InitializedFresh(rs);
    SeededEmpty(rs);
    OddIndicesMembers(syn);
    SingletonBorders(g, Initial(g, syn), Initialized(Empty, rs));
  }

  lemma InitCounts(g: Graph)
    ensures CountsMatch(g, Zeros(g.numEdges), Zeros(g.numVertices))
  {
    forall x: nat | x < g.numVertices
      ensures Zeros(g.numVertices)[x] == FullCount(g, Zeros(g.numEdges), x)
    {
      if x < |g.connections| {
        FullInZero(g, g.numEdges, x, g.connections[x]);
      }
    }
  }

  /**
   * After init_cluster every vertex is its own cluster, the syndrome
   * vertices are the tracked roots with size 1 and parity 1, and the
   * invariant holds.
   */
  lemma InitOk(g: Graph, legacy: bool, syn: seq<nat>)
    requires Simple(g) && |syn| == g.numVertices && forall x :: 0 <= x < |syn| ==> syn[x] <= 1
    ensures Links(g.numVertices, Identity(g.numVertices), Identity(g.numVertices), Zeros(g.numVertices))
    ensures Rest(g, legacy, Initial(g, syn), Initialized(Empty, OddIndices(syn)), Identity(g.numVertices), syn)
  {
    InitTracked(g, syn);
    InitBorders(g, syn);
    InitCounts(g);
    FreshRest(g, legacy, Initial(g, syn), Initialized(Empty, OddIndices(syn)), syn);
  }

  /** A session with zero support and no queued or peeling edges on the identity forest. */
  lemma FreshRest(g: Graph, legacy: bool, s: Session, t: Tables, syn: seq<nat>)
    requires Simple(g) && |syn| == g.numVertices && forall x :: 0 <= x < |syn| ==> syn[x] <= 1
    requires s.connectionCounts == Zeros(g.numVertices) && s.support == Zeros(g.numEdges)
    requires s.fuseList == [] && s.peelingEdges == []
    requires Tracked(g, t, Identity(g.numVertices), syn) && Borders(g, s, t, Identity(g.numVertices))
    requires CountsMatch(g, Zeros(g.numEdges), Zeros(g.numVertices))
    ensures Rest(g, legacy, s, t, Identity(g.numVertices), syn)
  {
    var cl := Identity(g.numVertices);
    assert Shape(g, legacy, s, cl, syn);
    forall x: nat, w: nat | x < |cl| && x < |g.connections| && w in g.connections[x] && w < |cl|
      ensures SupportOf(g, s.support, MakeEdge(x, w)) == 0
    {
    }
    assert FuseOk(g, s, t, cl);
    assert multiset(s.peelingEdges) == multiset{};
    forall c: iset<nat>, x: nat | x < |cl|
      ensures (x in c) == (cl[x] in c)
    {
    }
    assert PeelOk(g, s, cl);
  }

  // ---------------------------------------------------------------------
  // Progress of growth

  lemma {:induction false} SumCapBound(sup: seq<nat>)
    ensures SumCap(sup) <= 2 * |sup|
  {
    if |sup| > 0 {
      SumCapBound(sup[..|sup| - 1]);
    }
  }

  /** Raising supports never lowers the capped sum; raising one below 2 raises it. */
  lemma {:induction false} SumCapMono(sup: seq<nat>, sup': seq<nat>, i: nat)
    requires |sup| == |sup'| && forall j :: 0 <= j < |sup| ==> sup[j] <= sup'[j]
    ensures SumCap(sup) <= SumCap(sup')
    ensures i < |sup| && sup[i] < 2 && sup[i] < sup'[i] ==> SumCap(sup) < SumCap(sup')
  {
    if |sup| > 0 {
      SumCapMono(sup[..|sup| - 1], sup'[..|sup| - 1], i);
    }
  }

  /** Every edge at x is saturated: the counter of x reached the number of its edges. */
  lemma SaturatedAt(g: Graph, s: Session, x: nat, w: nat)
    requires Simple(g) && Counts(g, s) && |s.connectionCounts| == g.numVertices
    requires x < g.numVertices && w in g.connections[x] && Full(g, s.connectionCounts, x)
    ensures SupportOf(g, s.support, MakeEdge(x, w)) >= 2
  {
    FullInAll(g, s.support, x, g.connections[x]);
  }

  /**
   * When no border vertex of r has an edge below support 2, the cluster of
   * r has no lattice edge leaving it: every member is either full or on the
   * border, and a saturated edge with an empty fuse list lies inside one
   * cluster.
   */
  lemma ClusterClosed(g: Graph, legacy: bool, s: Session, t: Tables, cl: seq<nat>, syn: seq<nat>, r: nat)
    requires Rest(g, legacy, s, t, cl, syn) && s.fuseList == [] && r in t.roots
    requires forall x: nat, k: nat :: x in s.borderVertices[r] && x < |g.connections| && k < |g.connections[x]| ==>
               0 <= Slot(g, x, k) < |s.support| && s.support[Slot(g, x, k)] >= 2
    ensures AdjClosed(g, ClusterMask(cl, r))
  {
    forall v: nat, w: nat | v < g.numVertices && v < |g.connections| && w in g.connections[v]
      ensures (v in ClusterMask(cl, r)) == (w in ClusterMask(cl, r))
    {
      assert v in g.connections[w];
      if cl[v] == r {
        InsideEdge(g, legacy, s, t, cl, syn, r, v, w);
      } else if cl[w] == r {
        InsideEdge(g, legacy, s, t, cl, syn, r, w, v);
      }
    }
  }

  lemma InsideEdge(g: Graph, legacy: bool, s: Session, t: Tables, cl: seq<nat>, syn: seq<nat>, r: nat, v: nat, w: nat)
    requires Rest(g, legacy, s, t, cl, syn) && s.fuseList == [] && r in t.roots
    requires forall x: nat, k: nat :: x in s.borderVertices[r] && x < |g.connections| && k < |g.connections[x]| ==>
               0 <= Slot(g, x, k) < |s.support| && s.support[Slot(g, x, k)] >= 2
    requires v < g.numVertices && w in g.connections[v] && cl[v] == r
    ensures w < |cl| && cl[w] == r
  {
    if v in s.borderVertices[r] {
      var k :| 0 <= k < |g.connections[v]| && g.connections[v][k] == w;
      SlotFacts(g, v, k);
    } else {
      SaturatedAt(g, s, v, w);
    }
  }

  /**
   * While an odd root r remains and every component has even weight, some
   * border vertex of r has an edge of support below 2, so growing r raises
   * the capped support sum.
   */
  lemma Progress(g: Graph, legacy: bool, s: Session, t: Tables, cl: seq<nat>, syn: seq<nat>, r: nat) returns (x: nat, k: nat)
    requires Rest(g, legacy, s, t, cl, syn) && s.fuseList == [] && r in t.oddRoots
    requires EvenComponents(g, syn)
    ensures x in s.borderVertices[r] && x < |g.connections| && k < |g.connections[x]|
    ensures 0 <= Slot(g, x, k) < |s.support| && s.support[Slot(g, x, k)] < 2
  {
    if y: nat, j: nat :| (y in s.borderVertices[r] && y < |g.connections| && j < |g.connections[y]|
                          && !(0 <= Slot(g, y, j) < |s.support| && s.support[Slot(g, y, j)] >= 2)) {
      SlotFacts(g, y, j);
      x, k := y, j;
    } else {
      ClusterClosed(g, legacy, s, t, cl, syn, r);
      assert false;
    }
  }

  // ---------------------------------------------------------------------
  // Ready to peel

  /** With no odd root left, every set of vertices closed under the peeling edges has even weight. */
  lemma PeelReady(g: Graph, legacy: bool, s: Session, t: Tables, cl: seq<nat>, syn: seq<nat>)
    requires Rest(g, legacy, s, t, cl, syn) && t.oddRoots == {}
    ensures EvenClosed(g.numVertices, multiset(s.peelingEdges), syn)
  {
    var n := g.numVertices;
    forall r: nat | r < n && cl[r] == r
      ensures Weight(n, ClusterMask(cl, r), syn) % 2 == 0
    {
      if r !in t.roots {
        assert Alone(cl, syn, r);
        Linking.AloneCounts(n, cl, syn, r);
      }
    }
    forall c: iset<nat> | Closed(multiset(s.peelingEdges), c)
      ensures Weight(n, c, syn) % 2 == 0
    {
      ClusterEven(n, cl, c, syn);
    }
  }

}
