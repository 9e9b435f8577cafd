// The parent forest of the decoder (root_of_vertex_): the walk of find_root,
// path compression, and linking one root under another.

module ParentLinks {
  import opened Sessions

  /** Moving to a vertex of higher rank leaves fewer vertices above. */
  lemma HigherDrop(rank: seq<nat>, a: nat, b: nat)
    requires b < |rank| && rank[b] > a
    ensures Higher(rank, rank[b]) < Higher(rank, a)
  {
    var above := set y | 0 <= y < |rank| && rank[y] > rank[b];
    var below := set y | 0 <= y < |rank| && rank[y] > a;
    var rest := below - above;
    assert b in rest;
    assert below == above + rest && above !! rest;
    assert |rest| >= 1;
  }

  /**
   * Pointing every vertex of a path at the root r of their cluster keeps the
   * forest a forest with the same clusters, when every path vertex other
   * than r has a lower rank than r.
   */
  lemma CompressLinks(n: nat, p: seq<nat>, cl: seq<nat>, rank: seq<nat>, path: seq<nat>, r: nat)
    requires Links(n, p, cl, rank) && r < n && p[r] == r
    requires forall x :: x in path ==> x < n && cl[x] == r && (x != r ==> rank[x] < rank[r])
    ensures Links(n, Compress(p, path, r), cl, rank)
  {
    var q := Compress(p, path, r);
    assert cl[r] == r;
    forall x: nat | x < n
      ensures q[x] < n && (q[x] != x ==> rank[q[x]] > rank[x]) && cl[q[x]] == cl[x]
      ensures q[cl[x]] == cl[x] && (q[x] == x ==> cl[x] == x)
    {
      var c := cl[x];
      assert p[c] == c;
      if c in path {
        assert cl[c] == c;
      }
    }
  }

  /** Compressing one more path vertex is one more update. */
  lemma CompressSnoc(p: seq<nat>, path: seq<nat>, x: nat, r: nat)
    requires x < |p|
    ensures Compress(p, path + [x], r) == Compress(p, path, r)[x := r]
  {
    var a, b := Compress(p, path + [x], r), Compress(p, path, r)[x := r];
    forall y | 0 <= y < |p|
      ensures a[y] == b[y]
    {
      assert y in path + [x] <==> y in path || y == x;
    }
  }

  /** Linking the root r2 under the root r1 merges their clusters into that of r1. */
  lemma LinkLinks(n: nat, p: seq<nat>, cl: seq<nat>, rank: seq<nat>, r1: nat, r2: nat)
    requires Links(n, p, cl, rank) && r1 < n && r2 < n && r1 != r2 && p[r1] == r1 && p[r2] == r2
    ensures Links(n, p[r2 := r1], Relabel(cl, r2, r1), rank[r1 := if rank[r1] > rank[r2] then rank[r1] else rank[r2] + 1])
  {
    var p', cl' := p[r2 := r1], Relabel(cl, r2, r1);
    var rank' := rank[r1 := if rank[r1] > rank[r2] then rank[r1] else rank[r2] + 1];
    assert cl[r1] == r1 && cl[r2] == r2;
    forall x: nat | x < n
      ensures p'[x] < n && cl'[x] < n && (p'[x] != x ==> rank'[p'[x]] > rank'[x])
      ensures cl'[p'[x]] == cl'[x] && p'[cl'[x]] == cl'[x] && (p'[x] == x ==> cl'[x] == x)
    {
      if x != r2 {
        assert p'[x] == p[x];
        assert cl[p[x]] == cl[x];
        assert p[cl[x]] == cl[x];
      }
    }
  }

  /** After relabelling, the cluster of every vertex is still a root of itself. */
  lemma RelabelRoots(cl: seq<nat>, r1: nat, r2: nat)
    requires forall x: nat :: x < |cl| ==> cl[x] < |cl| && cl[cl[x]] == cl[x]
    requires r1 < |cl| && cl[r1] == r1 && r1 != r2
    ensures forall x: nat :: x < |cl| ==> Relabel(cl, r2, r1)[x] < |cl| && Relabel(cl, r2, r1)[Relabel(cl, r2, r1)[x]] == Relabel(cl, r2, r1)[x]
  {
  }
}
