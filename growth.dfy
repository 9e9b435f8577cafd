// Counting lemmas behind grow: which edge indices a vertex visits, how the
// number of visits determines the support, and how the number of saturated
// edges at a vertex follows the support.

module Growth {
  import opened Edges
  import opened Graphs
  import opened Roots
  import opened Sessions

  /** One more visit after k visits. */
  lemma BumpStep(legacy: bool, s: nat, k: nat)
    requires legacy || s <= 2
    ensures Step(legacy, Bump(legacy, s, k)) == Bump(legacy, s, k + 1)
  {
  }

  lemma SlotsBeforeNext(g: Graph, x: nat, j: nat)
    ensures SlotsBefore(g, x, j + 1) == SlotsBefore(g, x, j) + {Slot(g, x, j)}
  {
    assert forall i :: i in SlotsBefore(g, x, j + 1) ==> i in SlotsBefore(g, x, j) + {Slot(g, x, j)} by {
      forall i | i in SlotsBefore(g, x, j + 1)
        ensures i in SlotsBefore(g, x, j) + {Slot(g, x, j)}
      {
        var k: nat :| k < j + 1 && Slot(g, x, k) == i;
        if k < j {
          assert i in SlotsBefore(g, x, j);
        }
      }
    }
  }

  /** The k-th neighbour of x gives a lattice edge, and Slot is its index. */
  lemma SlotFacts(g: Graph, x: nat, k: nat)
    requires Simple(g) && x < g.numVertices && k < |g.connections[x]|
    ensures IsLatticeEdge(g, MakeEdge(x, g.connections[x][k])) && MakeEdge(x, g.connections[x][k]) in g.edgeIdx
    ensures Slot(g, x, k) == g.edgeIdx[MakeEdge(x, g.connections[x][k])] && 0 <= Slot(g, x, k) < g.numEdges
  {
    assert g.connections[x][k] in g.connections[x];
    IdxLatticeEdge(g, x, g.connections[x][k]);
  }

  /** Different neighbours of x give different edge indices. */
  lemma SlotDistinct(g: Graph, x: nat, j: nat, k: nat)
    requires Simple(g) && x < g.numVertices && j < k < |g.connections[x]|
    ensures Slot(g, x, j) != Slot(g, x, k)
  {
    SlotFacts(g, x, j);
    SlotFacts(g, x, k);
    var a, b := g.connections[x][j], g.connections[x][k];
    assert a != b;
    MakeEdgeEqual(x, a, x, b);
    assert multiset{x, a}[a] != multiset{x, b}[a];
  }

  /** The k-th neighbour has not been visited among the first k. */
  lemma SlotNotBefore(g: Graph, x: nat, k: nat)
    requires Simple(g) && x < g.numVertices && k < |g.connections[x]|
    ensures Slot(g, x, k) !in SlotsBefore(g, x, k)
  {
    if Slot(g, x, k) in SlotsBefore(g, x, k) {
      var j: nat :| j < k && Slot(g, x, j) == Slot(g, x, k);
      SlotDistinct(g, x, j, k);
    }
  }

  /** The index of a lattice edge is one of the indices of x exactly when x is an endpoint. */
  lemma SlotsEndpoint(g: Graph, x: nat, e: Edge)
    requires Simple(g) && x < g.numVertices && IsLatticeEdge(g, e)
    ensures e in g.edgeIdx && (g.edgeIdx[e] in Slots(g, x) <==> x == e.u || x == e.v)
  {
    LatticeEdgeIdx(g, e);
    if g.edgeIdx[e] in Slots(g, x) {
      var k: nat :| k < |g.connections[x]| && Slot(g, x, k) == g.edgeIdx[e];
      SlotFacts(g, x, k);
      IdxLatticeEdge(g, x, g.connections[x][k]);
      assert MakeEdge(x, g.connections[x][k]) == e;
    }
    if x == e.u || x == e.v {
      var w := if x == e.u then e.v else e.u;
      assert w in g.connections[x];
      var k :| 0 <= k < |g.connections[x]| && g.connections[x][k] == w;
      SlotFacts(g, x, k);
      MakeEdgeOfNormalized(e);
      MakeEdgeSymmetric(e.u, e.v);
      assert Slot(g, x, k) in SlotsBefore(g, x, |g.connections[x]|);
    }
  }

  lemma HitsAdd(g: Graph, B: set<nat>, x: nat, i: int)
    requires x !in B
    ensures Hits(g, B + {x}, i) == Hits(g, B, i) + (if i in Slots(g, x) then 1 else 0)
  {
    var S := set y | y in B && i in Slots(g, y);
    var S' := set y | y in B + {x} && i in Slots(g, y);
    if i in Slots(g, x) {
      assert S' == S + {x};
    } else {
      assert S' == S;
    }
  }

  lemma HitsEmpty(g: Graph, i: int)
    ensures Hits(g, {}, i) == 0
  {
    assert (set y | y in {} && i in Slots(g, y)) == {};
  }

  lemma HitsWitness(g: Graph, B: set<nat>, i: int) returns (y: nat)
    requires Hits(g, B, i) > 0
    ensures y in B && i in Slots(g, y)
  {
    var S := set y | y in B && i in Slots(g, y);
    assert |S| > 0;
    y :| y in S;
  }

  /** The number of neighbours w in ws whose edge to x has index i. */
  function Occ(g: Graph, x: nat, ws: seq<nat>, i: nat): nat {
    if |ws| == 0 then 0
    else Occ(g, x, ws[..|ws| - 1], i) + (if MakeEdge(x, ws[|ws| - 1]) in g.edgeIdx && g.edgeIdx[MakeEdge(x, ws[|ws| - 1])] == i then 1 else 0)
  }

  /** Raising the support of edge i changes the count at x by the neighbours on edge i, if i becomes saturated. */
  lemma {:induction false} FullInUpdate(g: Graph, sup: seq<nat>, i: nat, a: nat, x: nat, ws: seq<nat>)
    requires i < |sup| && a >= sup[i]
    ensures FullIn(g, sup[i := a], x, ws) == FullIn(g, sup, x, ws) + (if sup[i] < 2 <= a then Occ(g, x, ws, i) else 0)
  {
    if |ws| > 0 {
      FullInUpdate(g, sup, i, a, x, ws[..|ws| - 1]);
    }
  }

  /** In a list without repetitions, y is the only neighbour on edge i. */
  lemma {:induction false} OccList(g: Graph, x: nat, ws: seq<nat>, i: nat, y: nat)
    requires forall j, k :: 0 <= j < k < |ws| ==> ws[j] != ws[k]
    requires forall w :: w in ws ==> (MakeEdge(x, w) in g.edgeIdx && g.edgeIdx[MakeEdge(x, w)] == i <==> w == y)
    ensures Occ(g, x, ws, i) == if y in ws then 1 else 0
  {
    if |ws| > 0 {
      var front := ws[..|ws| - 1];
      assert forall w :: w in front ==> w in ws;
      OccList(g, x, front, i, y);
      assert ws == front + [ws[|ws| - 1]];
      if ws[|ws| - 1] == y {
        assert y !in front;
      }
    }
  }

  /** The neighbour w of x lies on the lattice edge e exactly when w is the other endpoint. */
  lemma OccKey(g: Graph, x: nat, e: Edge, w: nat)
    requires Simple(g) && x < g.numVertices && IsLatticeEdge(g, e) && w in g.connections[x]
    ensures e in g.edgeIdx
    ensures MakeEdge(x, w) in g.edgeIdx && g.edgeIdx[MakeEdge(x, w)] == g.edgeIdx[e]
            <==> (x == e.u && w == e.v) || (x == e.v && w == e.u)
  {
    LatticeEdgeIdx(g, e);
    IdxLatticeEdge(g, x, w);
    MakeEdgeOfNormalized(e);
    MakeEdgeEqual(x, w, e.u, e.v);
    if (x == e.u && w == e.v) || (x == e.v && w == e.u) {
      MakeEdgeSymmetric(e.u, e.v);
    }
  }

  /** No neighbour on edge i, no occurrence. */
  lemma {:induction false} OccNone(g: Graph, x: nat, ws: seq<nat>, i: nat)
    requires forall w :: w in ws ==> !(MakeEdge(x, w) in g.edgeIdx && g.edgeIdx[MakeEdge(x, w)] == i)
    ensures Occ(g, x, ws, i) == 0
  {
    if |ws| > 0 {
      assert forall w :: w in ws[..|ws| - 1] ==> w in ws;
      OccNone(g, x, ws[..|ws| - 1], i);
    }
  }

  /** Every vertex has one neighbour on each of its edges and none on the others. */
  lemma OccOne(g: Graph, x: nat, e: Edge)
    requires Simple(g) && x < g.numVertices && IsLatticeEdge(g, e)
    ensures e in g.edgeIdx && Occ(g, x, g.connections[x], g.edgeIdx[e]) == if x == e.u || x == e.v then 1 else 0
  {
    LatticeEdgeIdx(g, e);
    var i := g.edgeIdx[e];
    if x == e.u || x == e.v {
      var y := if x == e.u then e.v else e.u;
      assert y in g.connections[x] by {
        if x != e.u {
          assert e.v in g.connections[e.u];
        }
      }
      forall w | w in g.connections[x]
        ensures MakeEdge(x, w) in g.edgeIdx && g.edgeIdx[MakeEdge(x, w)] == i <==> w == y
      {
        OccKey(g, x, e, w);
      }
      OccList(g, x, g.connections[x], i, y);
    } else {
      forall w | w in g.connections[x]
        ensures !(MakeEdge(x, w) in g.edgeIdx && g.edgeIdx[MakeEdge(x, w)] == i)
      {
        OccKey(g, x, e, w);
      }
      OccNone(g, x, g.connections[x], i);
    }
  }

  lemma {:induction false} FullInMono(g: Graph, sup: seq<nat>, sup': seq<nat>, x: nat, ws: seq<nat>)
    requires |sup| == |sup'| && forall i :: 0 <= i < |sup| ==> sup[i] <= sup'[i]
    ensures FullIn(g, sup, x, ws) <= FullIn(g, sup', x, ws)
  {
    if |ws| > 0 {
      FullInMono(g, sup, sup', x, ws[..|ws| - 1]);
    }
  }

  lemma {:induction false} FullInBound(g: Graph, sup: seq<nat>, x: nat, ws: seq<nat>)
    ensures FullIn(g, sup, x, ws) <= |ws|
  {
    if |ws| > 0 {
      FullInBound(g, sup, x, ws[..|ws| - 1]);
    }
  }

  /** All neighbours counted means every edge at x is saturated. */
  lemma {:induction false} FullInAll(g: Graph, sup: seq<nat>, x: nat, ws: seq<nat>)
    ensures FullIn(g, sup, x, ws) == |ws| <==> forall w :: w in ws ==> SupportOf(g, sup, MakeEdge(x, w)) >= 2
  {
    if |ws| > 0 {
      var front := ws[..|ws| - 1];
      FullInAll(g, sup, x, front);
      FullInBound(g, sup, x, front);
      assert ws == front + [ws[|ws| - 1]];
      assert forall w :: w in ws <==> w in front || w == ws[|ws| - 1];
    }
  }

  /** A visit that saturates the lattice edge e bumps the counts of both its endpoints. */
  lemma VisitCounts(g: Graph, sup: seq<nat>, cc: seq<nat>, e: Edge, a: nat)
    requires Simple(g) && IsLatticeEdge(g, e) && |cc| == g.numVertices && |sup| == g.numEdges
    requires CountsMatch(g, sup, cc)
    requires e in g.edgeIdx && g.edgeIdx[e] < |sup| && sup[g.edgeIdx[e]] < 2 <= a && e.u < |cc| && e.v < |cc|
    ensures CountsMatch(g, sup[g.edgeIdx[e] := a], cc[e.u := cc[e.u] + 1][e.v := cc[e.v] + 1])
  {
    LatticeEdgeIdx(g, e);
    var i := g.edgeIdx[e];
    var cc' := cc[e.u := cc[e.u] + 1][e.v := cc[e.v] + 1];
    forall y: nat | y < |cc'|
      ensures cc'[y] == FullCount(g, sup[i := a], y)
    {
      FullInUpdate(g, sup, i, a, y, g.connections[y]);
      OccOne(g, y, e);
    }
  }

  /** A visit that does not saturate an edge changes no count. */
  lemma VisitCountsSame(g: Graph, sup: seq<nat>, cc: seq<nat>, i: nat, a: nat)
    requires CountsMatch(g, sup, cc) && i < |sup| && a >= sup[i] && !(sup[i] < 2 <= a)
    ensures CountsMatch(g, sup[i := a], cc)
  {
    forall y: nat | y < |cc|
      ensures cc[y] == FullCount(g, sup[i := a], y)
    {
      if y < |g.connections| {
        FullInUpdate(g, sup, i, a, y, g.connections[y]);
      }
    }
  }

  // ---------------------------------------------------------------------
  // grow(root) keeps the invariant

  /**
   * The effect of grow(root) on the fields, B being the border of root:
   * every edge takes one visit per vertex of B it touches, the fuse list
   * gains exactly the lattice edges that became saturated, and the counts
   * follow the support.
   */
  ghost predicate Grown(g: Graph, legacy: bool, B: set<nat>, s: Session, s': Session) {
    && |s'.support| == |s.support| && |s'.connectionCounts| == |s.connectionCounts|
    && (forall i :: 0 <= i < |s.support| ==> s'.support[i] == Bump(legacy, s.support[i], Hits(g, B, i)))
    && |s.fuseList| <= |s'.fuseList| && s'.fuseList[..|s.fuseList|] == s.fuseList
    && (forall e :: e in s'.fuseList[|s.fuseList|..] <==>
          IsLatticeEdge(g, e) && SupportOf(g, s.support, e) < 2 <= SupportOf(g, s'.support, e))
    && CountsMatch(g, s'.support, s'.connectionCounts)
    && s'.borderVertices == s.borderVertices && s'.peelingEdges == s.peelingEdges
  }

  /** Growth never lowers a support, keeps the cap, and a visited edge below 2 goes up. */
  lemma GrowSupport(g: Graph, legacy: bool, B: set<nat>, s: Session, s': Session)
    requires Grown(g, legacy, B, s, s')
    requires !legacy ==> forall i :: 0 <= i < |s.support| ==> s.support[i] <= 2
    ensures forall i :: 0 <= i < |s.support| ==> s.support[i] <= s'.support[i]
    ensures !legacy ==> forall i :: 0 <= i < |s'.support| ==> s'.support[i] <= 2
    ensures forall i :: 0 <= i < |s.support| && s'.support[i] > s.support[i] ==> Hits(g, B, i) > 0
    ensures forall i :: 0 <= i < |s.support| && Hits(g, B, i) > 0 && s.support[i] < 2 ==> s'.support[i] > s.support[i]
  {
  }

  lemma SupportOfMono(g: Graph, sup: seq<nat>, sup': seq<nat>, e: Edge)
    requires |sup| == |sup'| && forall i :: 0 <= i < |sup| ==> sup[i] <= sup'[i]
    ensures SupportOf(g, sup, e) <= SupportOf(g, sup', e)
  {
  }

  /** With more support, every vertex has at least as many saturated edges, and never more than its edges. */
  lemma CountsMono(g: Graph, sup: seq<nat>, sup': seq<nat>, cc: seq<nat>, cc': seq<nat>)
    requires Simple(g) && |cc| == |cc'| == g.numVertices
    requires |sup| == |sup'| && forall i :: 0 <= i < |sup| ==> sup[i] <= sup'[i]
    requires CountsMatch(g, sup, cc) && CountsMatch(g, sup', cc')
    ensures forall x: nat :: x < |cc| ==> cc[x] <= cc'[x] <= g.connectionCount[x]
  {
    forall x: nat | x < |cc|
      ensures cc[x] <= cc'[x] <= g.connectionCount[x]
    {
      FullInMono(g, sup, sup', x, g.connections[x]);
      FullInBound(g, sup', x, g.connections[x]);
    }
  }

  lemma GrowBorders(g: Graph, s: Session, s': Session, t: Tables, cl: seq<nat>)
    requires Simple(g) && Borders(g, s, t, cl) && s'.borderVertices == s.borderVertices && |cl| == g.numVertices
    requires |s.connectionCounts| == |s'.connectionCounts| == g.numVertices
    requires forall x: nat :: x < |s.connectionCounts| ==>
               s.connectionCounts[x] <= s'.connectionCounts[x] <= g.connectionCount[x]
    ensures Borders(g, s', t, cl)
  {
    forall x: nat | x < |cl| && cl[x] in t.roots && !Full(g, s'.connectionCounts, x)
      ensures x in s'.borderVertices[cl[x]]
    {
      if x < |s.connectionCounts| {
        assert !Full(g, s.connectionCounts, x);
      }
    }
  }

  /** A fuse-list entry after growth was there before or became saturated now. */
  lemma GrownFuseMember(g: Graph, legacy: bool, B: set<nat>, s: Session, s': Session, e: Edge)
    requires Grown(g, legacy, B, s, s') && e in s'.fuseList
    ensures e in s.fuseList || (IsLatticeEdge(g, e) && SupportOf(g, s.support, e) < 2 <= SupportOf(g, s'.support, e))
  {
    var m := |s.fuseList|;
    assert s'.fuseList == s'.fuseList[..m] + s'.fuseList[m..];
  }

  /** A newly saturated lattice edge is in the fuse list after growth. */
  lemma GrownFuseNew(g: Graph, legacy: bool, B: set<nat>, s: Session, s': Session, e: Edge)
    requires Grown(g, legacy, B, s, s')
    requires IsLatticeEdge(g, e) && SupportOf(g, s.support, e) < 2 <= SupportOf(g, s'.support, e)
    ensures e in s'.fuseList
  {
    var m := |s.fuseList|;
    assert e in s'.fuseList[m..];
  }

  /** An edge that gained support touches a vertex of B. */
  lemma GrownTouch(g: Graph, legacy: bool, B: set<nat>, s: Session, s': Session, x: nat, w: nat) returns (y: nat)
    requires Simple(g) && Grown(g, legacy, B, s, s') && |s.support| == g.numEdges
    requires x < g.numVertices && w in g.connections[x]
    requires SupportOf(g, s.support, MakeEdge(x, w)) < SupportOf(g, s'.support, MakeEdge(x, w))
    ensures y in B && (y == x || y == w)
  {
    var e := MakeEdge(x, w);
    IdxLatticeEdge(g, x, w);
    LatticeEdgeIdx(g, e);
    var i := g.edgeIdx[e];
    assert s'.support[i] > s.support[i];
    assert Hits(g, B, i) > 0;
    y := HitsWitness(g, B, i);
    if y < g.numVertices {
      SlotsEndpoint(g, y, e);
    }
  }

  lemma GrowFuse(g: Graph, legacy: bool, r: nat, s: Session, s': Session, t: Tables, cl: seq<nat>)
    requires Simple(g) && |s.support| == g.numEdges && |cl| == g.numVertices
    requires FuseOk(g, s, t, cl) && Borders(g, s, t, cl) && r in t.roots
    requires Grown(g, legacy, s.borderVertices[r], s, s')
    requires forall i :: 0 <= i < |s.support| ==> s.support[i] <= s'.support[i]
    ensures FuseOk(g, s', t, cl)
  {
    var B := s.borderVertices[r];
    forall e | e in s'.fuseList
      ensures IsLatticeEdge(g, e) && SupportOf(g, s'.support, e) >= 2
    {
      GrownFuseMember(g, legacy, B, s, s', e);
      SupportOfMono(g, s.support, s'.support, e);
    }
    forall x: nat, w: nat | x < |cl| && x < |g.connections| && w in g.connections[x] && w < |cl|
      && SupportOf(g, s'.support, MakeEdge(x, w)) >= 2
      ensures MakeEdge(x, w) in s'.fuseList || cl[x] == cl[w]
    {
      if SupportOf(g, s.support, MakeEdge(x, w)) >= 2 {
        if MakeEdge(x, w) in s.fuseList {
          assert s'.fuseList == s.fuseList + s'.fuseList[|s.fuseList|..];
        }
      } else {
        IdxLatticeEdge(g, x, w);
        GrownFuseNew(g, legacy, B, s, s', MakeEdge(x, w));
      }
    }
    forall x: nat, w: nat | x < |cl| && x < |g.connections| && w in g.connections[x] && w < |cl|
      && SupportOf(g, s'.support, MakeEdge(x, w)) >= 1
      ensures cl[x] in t.roots || cl[w] in t.roots
    {
      if SupportOf(g, s.support, MakeEdge(x, w)) < 1 {
        var y := GrownTouch(g, legacy, B, s, s', x, w);
        assert cl[y] == r;
      }
    }
  }

  /** Visits add up: k visits then m more are k + m visits. */
  lemma BumpAdd(legacy: bool, s: nat, k: nat, m: nat)
    requires legacy || s <= 2
    ensures Bump(legacy, Bump(legacy, s, k), m) == Bump(legacy, s, k + m)
  {
  }

  /** Growing no vertex changes nothing. */
  lemma GrownNone(g: Graph, legacy: bool, s: Session)
    requires !legacy ==> forall i :: 0 <= i < |s.support| ==> s.support[i] <= 2
    requires CountsMatch(g, s.support, s.connectionCounts)
    ensures Grown(g, legacy, {}, s, s)
  {
    forall i | 0 <= i < |s.support|
      ensures s.support[i] == Bump(legacy, s.support[i], Hits(g, {}, i))
    {
      HitsEmpty(g, i);
    }
    assert s.fuseList[|s.fuseList|..] == [];
  }

  /** The border of one vertex hits the edge index i once when i is an index of its edges. */
  lemma HitsOne(g: Graph, x: nat, i: int)
    ensures Hits(g, {x}, i) == if i in Slots(g, x) then 1 else 0
  {
    HitsAdd(g, {}, x, i);
    HitsEmpty(g, i);
    assert {} + {x} == {x};
  }

  /** A vertex of B whose edges include index i makes Hits positive. */
  lemma HitsPositive(g: Graph, B: set<nat>, x: nat, i: int)
    requires x in B && i in Slots(g, x)
    ensures Hits(g, B, i) > 0
  {
    var S := set y | y in B && i in Slots(g, y);
    assert x in S;
  }

  /** Growing the vertices of D and then x is growing D + {x}. */
  lemma GrownCompose(g: Graph, legacy: bool, D: set<nat>, x: nat, s: Session, s1: Session, s2: Session)
    requires x !in D && Grown(g, legacy, D, s, s1) && Grown(g, legacy, {x}, s1, s2)
    requires !legacy ==> forall i :: 0 <= i < |s.support| ==> s.support[i] <= 2
    ensures Grown(g, legacy, D + {x}, s, s2)
  {
    GrowSupport(g, legacy, D, s, s1);
    GrowSupport(g, legacy, {x}, s1, s2);
    forall i | 0 <= i < |s.support|
      ensures s2.support[i] == Bump(legacy, s.support[i], Hits(g, D + {x}, i))
    {
      HitsAdd(g, D, x, i);
      HitsOne(g, x, i);
      BumpAdd(legacy, s.support[i], Hits(g, D, i), Hits(g, {x}, i));
    }
    var m, m1 := |s.fuseList|, |s1.fuseList|;
    assert s2.fuseList[..m] == s1.fuseList[..m];
    assert s2.fuseList[m..] == s1.fuseList[m..] + s2.fuseList[m1..];
    forall e
      ensures e in s2.fuseList[m..] <==> IsLatticeEdge(g, e) && SupportOf(g, s.support, e) < 2 <= SupportOf(g, s2.support, e)
    {
      SupportOfMono(g, s.support, s1.support, e);
      SupportOfMono(g, s1.support, s2.support, e);
    }
  }

  /** The first j neighbours of x had one visit each. */
  ghost predicate BumpedBefore(g: Graph, legacy: bool, x: nat, j: nat, sup0: seq<nat>, sup: seq<nat>) {
    |sup| == |sup0| && forall i :: 0 <= i < |sup| ==> sup[i] == Bump(legacy, sup0[i], if i in SlotsBefore(g, x, j) then 1 else 0)
  }

  /** The fuse list gained exactly the lattice edges that became saturated. */
  ghost predicate FuseGrew(g: Graph, sup0: seq<nat>, sup: seq<nat>, fuse0: seq<Edge>, fuse: seq<Edge>) {
    && |fuse0| <= |fuse| && fuse[..|fuse0|] == fuse0
    && (forall e :: e in fuse[|fuse0|..] <==> IsLatticeEdge(g, e) && SupportOf(g, sup0, e) < 2 <= SupportOf(g, sup, e))
  }

  /**
   * The state of grow inside the border vertex x after its first j
   * neighbours: each of their edges had one visit, the fuse list gained
   * the edges that became saturated, and the counts follow the support.
   */
  ghost predicate Visited(g: Graph, legacy: bool, x: nat, j: nat, s: Session, sup: seq<nat>, cc: seq<nat>, fuse: seq<Edge>) {
    && BumpedBefore(g, legacy, x, j, s.support, sup)
    && FuseGrew(g, s.support, sup, s.fuseList, fuse)
    && |cc| == |s.connectionCounts| && CountsMatch(g, sup, cc)
  }

  lemma VisitStart(g: Graph, legacy: bool, x: nat, s: Session)
    requires !legacy ==> forall i :: 0 <= i < |s.support| ==> s.support[i] <= 2
    requires CountsMatch(g, s.support, s.connectionCounts)
    ensures Visited(g, legacy, x, 0, s, s.support, s.connectionCounts, s.fuseList)
  {
    assert SlotsBefore(g, x, 0) == {};
    assert s.fuseList[|s.fuseList|..] == [];
  }

  /**
   * The visit to the j-th neighbour of x: its edge index is fresh, holds the
   * initial support, and one more step there gives the support after j + 1
   * neighbours.
   */
  lemma BumpVisit(g: Graph, legacy: bool, x: nat, j: nat, sup0: seq<nat>, sup: seq<nat>)
    requires Simple(g) && x < g.numVertices && j < |g.connections[x]| && |sup0| == g.numEdges
    requires !legacy ==> forall i :: 0 <= i < |sup0| ==> sup0[i] <= 2
    requires BumpedBefore(g, legacy, x, j, sup0, sup)
    ensures IsLatticeEdge(g, MakeEdge(x, g.connections[x][j])) && MakeEdge(x, g.connections[x][j]) in g.edgeIdx
    ensures Slot(g, x, j) == g.edgeIdx[MakeEdge(x, g.connections[x][j])] && 0 <= Slot(g, x, j) < |sup|
    ensures sup[Slot(g, x, j)] == sup0[Slot(g, x, j)]
    ensures BumpedBefore(g, legacy, x, j + 1, sup0, sup[Slot(g, x, j) := Step(legacy, sup[Slot(g, x, j)])])
  {
    SlotFacts(g, x, j);
    SlotNotBefore(g, x, j);
    SlotsBeforeNext(g, x, j);
    var k := Slot(g, x, j);
    BumpStep(legacy, sup0[k], 0);
  }

  /** The support of a lattice edge after raising index i. */
  lemma SupportAfter(g: Graph, sup: seq<nat>, e: Edge, a: nat, f: Edge)
    requires Simple(g) && IsLatticeEdge(g, e) && IsLatticeEdge(g, f) && e in g.edgeIdx && g.edgeIdx[e] < |sup|
    ensures SupportOf(g, sup[g.edgeIdx[e] := a], f) == if f == e then a else SupportOf(g, sup, f)
  {
    LatticeEdgeIdx(g, f);
  }

  /** A visit raising the edge e to a queues e exactly when it becomes saturated. */
  lemma FuseVisit(g: Graph, sup0: seq<nat>, sup: seq<nat>, e: Edge, a: nat, fuse0: seq<Edge>, fuse: seq<Edge>)
    requires Simple(g) && IsLatticeEdge(g, e) && e in g.edgeIdx && g.edgeIdx[e] < |sup| && |sup| == |sup0|
    requires sup[g.edgeIdx[e]] == sup0[g.edgeIdx[e]] && a >= sup[g.edgeIdx[e]]
    requires FuseGrew(g, sup0, sup, fuse0, fuse)
    ensures FuseGrew(g, sup0, sup[g.edgeIdx[e] := a], fuse0, if sup[g.edgeIdx[e]] < 2 <= a then fuse + [e] else fuse)
  {
    var i := g.edgeIdx[e];
    var sup' := sup[i := a];
    var fuse' := if sup[i] < 2 <= a then fuse + [e] else fuse;
    var m := |fuse0|;
    assert fuse'[..m] == fuse[..m];
    assert fuse'[m..] == if sup[i] < 2 <= a then fuse[m..] + [e] else fuse[m..];
    forall f
      ensures f in fuse'[m..] <==> IsLatticeEdge(g, f) && SupportOf(g, sup0, f) < 2 <= SupportOf(g, sup', f)
    {
      if IsLatticeEdge(g, f) {
        SupportAfter(g, sup, e, a, f);
      }
    }
  }

  /**
   * The visit to the j-th neighbour of x keeps Visited: the support of its
   * edge takes one step, and when it reaches 2 both ends count one more full
   * edge and the edge joins the fuse list.
   */
  lemma VisitDone(g: Graph, legacy: bool, x: nat, j: nat, s: Session, sup: seq<nat>, cc: seq<nat>, fuse: seq<Edge>,
                  sup': seq<nat>, cc': seq<nat>, fuse': seq<Edge>)
    requires Simple(g) && x < g.numVertices && j < |g.connections[x]|
    requires |s.support| == g.numEdges && |s.connectionCounts| == g.numVertices
    requires !legacy ==> forall i :: 0 <= i < |s.support| ==> s.support[i] <= 2
    requires Visited(g, legacy, x, j, s, sup, cc, fuse)
    requires 0 <= Slot(g, x, j) < |sup|
    requires sup' == sup[Slot(g, x, j) := Step(legacy, sup[Slot(g, x, j)])]
    requires var e := MakeEdge(x, g.connections[x][j]);
      if sup[Slot(g, x, j)] < 2 <= sup'[Slot(g, x, j)]
      then e.u < |cc| && e.v < |cc| && cc' == cc[e.u := cc[e.u] + 1][e.v := cc[e.v] + 1] && fuse' == fuse + [e]
      else cc' == cc && fuse' == fuse
    ensures Visited(g, legacy, x, j + 1, s, sup', cc', fuse')
  {
    var e := MakeEdge(x, g.connections[x][j]);
    BumpVisit(g, legacy, x, j, s.support, sup);
    var i := g.edgeIdx[e];
    FuseVisit(g, s.support, sup, e, sup'[i], s.fuseList, fuse);
    if sup[i] < 2 <= sup'[i] {
      LatticeEdgeIdx(g, e);
      VisitCounts(g, sup, cc, e, sup'[i]);
    } else {
      VisitCountsSame(g, sup, cc, i, sup'[i]);
    }
  }

  /** Once all neighbours of x are visited, the session is x grown. */
  lemma VisitedGrown(g: Graph, legacy: bool, x: nat, s: Session, s': Session)
    requires x < |g.connections|
    requires Visited(g, legacy, x, |g.connections[x]|, s, s'.support, s'.connectionCounts, s'.fuseList)
    requires s'.borderVertices == s.borderVertices && s'.peelingEdges == s.peelingEdges
    ensures Grown(g, legacy, {x}, s, s')
  {
    forall i | 0 <= i < |s.support|
      ensures s'.support[i] == Bump(legacy, s.support[i], Hits(g, {x}, i))
    {
      HitsOne(g, x, i);
    }
  }

  /** grow(root) on a tracked root keeps everything but the parent forest. */
  lemma GrowRest(g: Graph, legacy: bool, r: nat, s: Session, s': Session, t: Tables, cl: seq<nat>, syn: seq<nat>)
    requires Rest(g, legacy, s, t, cl, syn) && r in t.roots
    requires Grown(g, legacy, s.borderVertices[r], s, s')
    ensures Rest(g, legacy, s', t, cl, syn)
  {
    var B := s.borderVertices[r];
    GrowSupport(g, legacy, B, s, s');
    CountsMono(g, s.support, s'.support, s.connectionCounts, s'.connectionCounts);
    GrowBorders(g, s, s', t, cl);
    GrowFuse(g, legacy, r, s, s', t, cl);
  }
}
