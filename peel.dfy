// The bookkeeping of peeling: the vertex_count table, the test for a leaf
// edge, and the measure that bounds the rotations of the peeling list.

module Peel {
  import opened Edges
  import opened Graphs

  /** vertex_count[x], which reads 0 for a vertex never counted. */
  function Get(vc: map<nat, int>, x: nat): int {
    if x in vc then vc[x] else 0
  }

  /** syndromes[v] ^= 1 on an unsigned counter. */
  function Xor1(a: nat): (r: nat)
    ensures r % 2 != a % 2 && r / 2 == a / 2
    ensures a <= 1 ==> r == 1 - a
  {
    if a % 2 == 0 then a + 1 else a - 1
  }

  /** One endpoint of e has count 1. */
  predicate Leafy(vc: map<nat, int>, e: Edge) {
    Get(vc, e.u) == 1 || Get(vc, e.v) == 1
  }

  /** The number of edges after the last leaf edge of p: rotations until the next removal. */
  function LeafDist(p: seq<Edge>, vc: map<nat, int>): nat {
    if |p| == 0 then 0
    else if Leafy(vc, p[|p| - 1]) then 0
    else 1 + LeafDist(p[..|p| - 1], vc)
  }

  /**
   * Moving a non-leaf edge from the back of the list to its front shortens
   * the way to the last leaf edge by one, as long as the list has one.
   */
  lemma {:induction false} LeafDistRotate(e: Edge, q: seq<Edge>, vc: map<nat, int>, k: nat)
    requires k < |q| && Leafy(vc, q[k]) && !Leafy(vc, e)
    ensures LeafDist([e] + q, vc) < LeafDist(q + [e], vc)
  {
    assert (q + [e])[..|q|] == q;
    LeafDistFront(e, q, vc, k);
  }

  lemma {:induction false} LeafDistFront(e: Edge, q: seq<Edge>, vc: map<nat, int>, k: nat)
    requires k < |q| && Leafy(vc, q[k])
    ensures LeafDist([e] + q, vc) == LeafDist(q, vc)
  {
    var p := [e] + q;
    assert p[|p| - 1] == q[|q| - 1];
    if !Leafy(vc, q[|q| - 1]) {
      assert k < |q| - 1;
      assert p[..|p| - 1] == [e] + q[..|q| - 1];
      LeafDistFront(e, q[..|q| - 1], vc, k);
    }
  }

  /** The degree after appending e. */
  lemma DegSnoc(s: seq<Edge>, e: Edge, x: nat)
    ensures Deg(s + [e], x) == Deg(s, x) + Hit(e, x)
  {
    assert (s + [e])[..|s|] == s;
  }

  /** The degree after moving e to the front. */
  lemma DegCons(s: seq<Edge>, e: Edge, x: nat)
    ensures Deg([e] + s, x) == Deg(s, x) + Hit(e, x)
  {
    DegConcat([e], s, x);
    assert [e][..0] == [];
  }

  /** Flipping a 0/1 value and adding one hit keeps the parity. */
  lemma FlipParity(a: nat, d: nat)
    requires a <= 1
    ensures ((1 - a) + (d + 1)) % 2 == (a + d) % 2
  {
  }

  // ---------------------------------------------------------------------
  // Counting the endpoints

  /** The first loop of peeling: vertex_count[x] is the degree of x in the peeling list. */
  method CountVertices(pe: seq<Edge>) returns (vc: map<nat, int>)
    ensures forall x: nat :: Get(vc, x) == Deg(pe, x)
  {
    vc := map[];
    for i := 0 to |pe|
      invariant forall x: nat :: Get(vc, x) == Deg(pe[..i], x)
    {
      var e := pe[i];
      assert pe[..i + 1] == pe[..i] + [e];
      forall x: nat
        ensures Deg(pe[..i + 1], x) == Deg(pe[..i], x) + Hit(e, x)
      {
        DegSnoc(pe[..i], e, x);
      }
      vc := vc[e.u := Get(vc, e.u) + 1];
      vc := vc[e.v := Get(vc, e.v) + 1];
    }
    assert pe[..|pe|] == pe;
  }

  // ---------------------------------------------------------------------
  // The peeling loop

  /** The counters after --vertex_count[u] and --vertex_count[v]. */
  function Decremented(vc: map<nat, int>, u: nat, v: nat): map<nat, int> {
    var vc1 := vc[u := Get(vc, u) - 1];
    vc1[v := Get(vc1, v) - 1]
  }

  /** The syndromes after the leaf edge from u to v is peeled: a defect at u moves to v. */
  function Peeled(s: seq<nat>, u: nat, v: nat): (r: seq<nat>)
    requires u < |s| && v < |s|
    ensures |r| == |s|
  {
    if s[u] == 1 then s[u := 0][v := Xor1(s[v])] else s
  }

  /** Every entry is 0. */
  predicate Zero(s: seq<nat>) {
    forall x :: 0 <= x < |s| ==> s[x] == 0
  }

  /** Every entry is 0 or 1. */
  predicate Bits(s: seq<nat>) {
    forall x :: 0 <= x < |s| ==> s[x] <= 1
  }

  /**
   * The state of the peeling loop, started from the list pe0 and the
   * syndromes s0 on n vertices: the remaining list pe is a forest on the
   * vertices, the counters are the degrees in pe, the corrections and the
   * remaining list are disjoint parts of pe0, the syndromes differ from s0
   * by the boundary of the corrections, and, when the start had 0/1 entries
   * and even weight on every part of the forest, so does the current state.
   */
  ghost predicate PeelInv(n: nat, pe0: seq<Edge>, s0: seq<nat>, good: bool,
                          pe: seq<Edge>, vc: map<nat, int>, corr: seq<Edge>, s: seq<nat>) {
    && |s| == n && |s0| == n
    && OnVertices(n, pe) && Forest(multiset(pe)) && Counted(vc, pe)
    && multiset(corr) + multiset(pe) <= multiset(pe0)
    && Boundary(n, s0, corr, s)
    && (good ==> Bits(s) && EvenClosed(n, multiset(pe), s))
  }

  /** Every edge of pe joins two of the n vertices. */
  predicate OnVertices(n: nat, pe: seq<Edge>) {
    forall e :: e in pe ==> e.u < n && e.v < n
  }

  /** vertex_count holds the degrees in pe. */
  ghost predicate Counted(vc: map<nat, int>, pe: seq<Edge>) {
    forall x: nat :: Get(vc, x) == Deg(pe, x)
  }

  /** The syndromes s differ from s0 by the boundary of the corrections: their parities agree up to the degrees. */
  predicate Boundary(n: nat, s0: seq<nat>, corr: seq<Edge>, s: seq<nat>)
    requires |s| == n && |s0| == n
  {
    forall x :: 0 <= x < n ==> s[x] % 2 == (s0[x] + Deg(corr, x)) % 2
  }

  /** The state at the start of the loop. */
  lemma PeelStart(n: nat, pe0: seq<Edge>, s0: seq<nat>, vc: map<nat, int>)
    requires |s0| == n && OnVertices(n, pe0) && Forest(multiset(pe0)) && Counted(vc, pe0)
    ensures PeelInv(n, pe0, s0, Bits(s0) && EvenClosed(n, multiset(pe0), s0), pe0, vc, [], s0)
  {
  }

  /**
   * A non-leaf edge at the back goes to the front: the state is kept, and
   * since the forest has a leaf edge somewhere the distance to it shrinks.
   */
  lemma PeelRotate(n: nat, pe0: seq<Edge>, s0: seq<nat>, good: bool,
                   pe: seq<Edge>, vc: map<nat, int>, corr: seq<Edge>, s: seq<nat>)
    requires PeelInv(n, pe0, s0, good, pe, vc, corr, s) && |pe| > 0 && !Leafy(vc, pe[|pe| - 1])
    ensures PeelInv(n, pe0, s0, good, [pe[|pe| - 1]] + pe[..|pe| - 1], vc, corr, s)
    ensures LeafDist([pe[|pe| - 1]] + pe[..|pe| - 1], vc) < LeafDist(pe, vc)
  {
    var e := pe[|pe| - 1];
    var q := pe[..|pe| - 1];
    assert pe == q + [e];
    assert multiset([e] + q) == multiset(pe);
    forall x: nat
      ensures Deg([e] + q, x) == Deg(pe, x)
    {
      DegCons(q, e, x);
      DegSnoc(q, e, x);
    }
    LeafExists(pe);
    var k :| 0 <= k < |pe| && (Deg(pe, pe[k].u) == 1 || Deg(pe, pe[k].v) == 1);
    assert Leafy(vc, pe[k]);
    assert k < |q| && q[k] == pe[k];
    LeafDistRotate(e, q, vc, k);
  }

  /**
   * A leaf edge at the back, with u its endpoint of count 1 and v the other,
   * is taken off the list; when u carries a defect the edge becomes a
   * correction and the defect moves to v.
   */
  lemma PeelRemove(n: nat, pe0: seq<Edge>, s0: seq<nat>, good: bool,
                   pe: seq<Edge>, vc: map<nat, int>, corr: seq<Edge>, s: seq<nat>, u: nat, v: nat)
    requires PeelInv(n, pe0, s0, good, pe, vc, corr, s) && |pe| > 0
    requires (u, v) == (pe[|pe| - 1].u, pe[|pe| - 1].v) || (u, v) == (pe[|pe| - 1].v, pe[|pe| - 1].u)
    requires Get(vc, u) == 1
    ensures u < n && v < n && u != v
    ensures PeelInv(n, pe0, s0, good, pe[..|pe| - 1], Decremented(vc, u, v),
                    if s[u] == 1 then corr + [pe[|pe| - 1]] else corr, Peeled(s, u, v))
  {
    var e := pe[|pe| - 1];
    var q := pe[..|pe| - 1];
    var corr' := if s[u] == 1 then corr + [e] else corr;
    assert e in pe;
    assert u != v && Forest(multiset(q)) && Counted(Decremented(vc, u, v), q) by {
      RemoveLeaf(pe, vc, e, u, v);
    }
    assert multiset(corr') + multiset(q) <= multiset(pe0) by {
      assert pe == q + [e];
      assert multiset(pe) == multiset(q) + multiset{e};
    }
    assert Boundary(n, s0, corr', Peeled(s, u, v)) by {
      MovedDefect(n, s0, corr, s, e, u, v);
    }
    assert good ==> Bits(Peeled(s, u, v)) && EvenClosed(n, multiset(q), Peeled(s, u, v)) by {
      if good {
        LeafPeeled(n, pe, s, u, v);
      }
    }
    assert OnVertices(n, q) by {
      forall f | f in q
        ensures f.u < n && f.v < n
      {
        assert f in pe;
      }
    }
  }

  /** Taking the leaf edge off keeps a forest and the counters in step with the degrees. */
  lemma RemoveLeaf(pe: seq<Edge>, vc: map<nat, int>, e: Edge, u: nat, v: nat)
    requires |pe| > 0 && e == pe[|pe| - 1] && ((u, v) == (e.u, e.v) || (u, v) == (e.v, e.u))
    requires Forest(multiset(pe)) && Counted(vc, pe)
    ensures u != v
    ensures Forest(multiset(pe[..|pe| - 1]))
    ensures Counted(Decremented(vc, u, v), pe[..|pe| - 1])
  {
    var q := pe[..|pe| - 1];
    assert pe == q + [e];
    assert e in multiset(pe);
    ForestEdge(multiset(pe), e);
    assert multiset(pe) == multiset(q) + multiset{e};
    ForestSubset(multiset(pe), multiset(q));
    forall x: nat
      ensures Get(Decremented(vc, u, v), x) == Deg(q, x)
    {
      DegSnoc(q, e, x);
    }
  }

  /** Peeling a leaf edge between distinct vertices keeps the syndromes equal to s0 plus the corrections' boundary. */
  lemma MovedDefect(n: nat, s0: seq<nat>, corr: seq<Edge>, s: seq<nat>, e: Edge, u: nat, v: nat)
    requires |s| == n && |s0| == n && u < n && v < n && u != v && ((u, v) == (e.u, e.v) || (u, v) == (e.v, e.u))
    requires Boundary(n, s0, corr, s)
    ensures Boundary(n, s0, if s[u] == 1 then corr + [e] else corr, Peeled(s, u, v))
  {
    forall x | 0 <= x < n
      ensures Peeled(s, u, v)[x] % 2 == (s0[x] + Deg(if s[u] == 1 then corr + [e] else corr, x)) % 2
    {
      if s[u] == 1 {
        MovedAt(n, s0, corr, s, e, u, v, x);
      }
    }
  }

  lemma MovedAt(n: nat, s0: seq<nat>, corr: seq<Edge>, s: seq<nat>, e: Edge, u: nat, v: nat, x: nat)
    requires |s| == n && |s0| == n && u < n && v < n && x < n && u != v && ((u, v) == (e.u, e.v) || (u, v) == (e.v, e.u))
    requires s[u] == 1 && s[x] % 2 == (s0[x] + Deg(corr, x)) % 2
    ensures Peeled(s, u, v)[x] % 2 == (s0[x] + Deg(corr + [e], x)) % 2
  {
    DegSnoc(corr, e, x);
    FlipAt(s, u, v, x, Hit(e, x));
    SameParityShift(s[x], s0[x] + Deg(corr, x), Hit(e, x));
  }

  lemma SameParityShift(a: int, b: int, h: int)
    requires a % 2 == b % 2
    ensures (a + h) % 2 == (b + h) % 2
  {
  }

  /** Where the defect moves, the parity flips exactly where e has an endpoint. */
  lemma FlipAt(s: seq<nat>, u: nat, v: nat, x: nat, h: nat)
    requires u < |s| && v < |s| && x < |s| && u != v && s[u] == 1
    requires h == (if x == u || x == v then 1 else 0)
    ensures Peeled(s, u, v)[x] % 2 == (s[x] + h) % 2
  {
  }

  /** The even-weight property survives peeling a leaf edge whose end u has no other edge. */
  lemma LeafPeeled(n: nat, pe: seq<Edge>, s: seq<nat>, u: nat, v: nat)
    requires |pe| > 0 && ((u, v) == (pe[|pe| - 1].u, pe[|pe| - 1].v) || (u, v) == (pe[|pe| - 1].v, pe[|pe| - 1].u))
    requires u != v && u < n && v < n && |s| == n && Deg(pe, u) == 1
    requires Bits(s) && EvenClosed(n, multiset(pe), s)
    ensures Bits(Peeled(s, u, v)) && EvenClosed(n, multiset(pe[..|pe| - 1]), Peeled(s, u, v))
  {
    var e := pe[|pe| - 1];
    LeafAlone(pe, u);
    assert e in multiset(pe);
    assert Peeled(s, u, v) == if s[u] == 1 then s[u := 0][v := 1 - s[v]] else s;
    PeelStep(n, multiset(pe), s, e, u, v);
  }

  /** The end u of the last edge, of degree 1, touches no other edge of the list. */
  lemma LeafAlone(pe: seq<Edge>, u: nat)
    requires |pe| > 0 && Deg(pe, u) == 1 && Hit(pe[|pe| - 1], u) == 1
    ensures multiset(pe) - multiset{pe[|pe| - 1]} == multiset(pe[..|pe| - 1])
    ensures forall f :: f in multiset(pe) - multiset{pe[|pe| - 1]} ==> Hit(f, u) == 0
  {
    var e := pe[|pe| - 1];
    var q := pe[..|pe| - 1];
    assert pe == q + [e];
    DegSnoc(q, e, u);
    forall f | f in multiset(q)
      ensures Hit(f, u) == 0
    {
      var k :| 0 <= k < |q| && q[k] == f;
      DegAtLeast(q, k, u);
    }
  }

  /** At the end of the loop, a good start has left no defect. */
  lemma PeelEnd(n: nat, pe0: seq<Edge>, s0: seq<nat>, vc: map<nat, int>, corr: seq<Edge>, s: seq<nat>)
    requires PeelInv(n, pe0, s0, Bits(s0) && EvenClosed(n, multiset(pe0), s0), [], vc, corr, s)
    ensures Bits(s0) && EvenClosed(n, multiset(pe0), s0) ==> Zero(s)
  {
    if Bits(s0) && EvenClosed(n, multiset(pe0), s0) {
      forall x | 0 <= x < n
        ensures s[x] == 0
      {
        EvenClosedEmpty(n, s, x);
      }
    }
  }
}
