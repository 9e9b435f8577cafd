// The decoding graph of an arbitrary parity-check matrix (class
// LatticeFromParity). The matrix comes in compressed sparse row form: row p
// holds the columns col[indptr[p]] .. col[indptr[p + 1] - 1]. Rows (parity
// checks) become vertices and columns (qubits) become edges, so every qubit
// must sit in exactly two rows.

module LatticeFromParity {
  import opened Edges
  import Graphs

  /** The constructor either builds the lattice or throws std::invalid_argument. */
  datatype Outcome<T> = Built(lattice: T) | InvalidArgument

  /** What construct_connections reads of the CSR arrays is in bounds. */
  predicate Csr(numParities: nat, numQubits: nat, col: seq<int>, indptr: seq<int>) {
    && |indptr| == numParities + 1
    && (forall p :: 0 <= p < |indptr| ==> 0 <= indptr[p] <= |col|)
    && (forall p, i :: 0 <= p < numParities && indptr[p] <= i < indptr[p + 1] ==> 0 <= col[i] < numQubits)
  }

  /** The number of entries of col[lo..hi] equal to q. */
  function Occurrences(col: seq<int>, lo: int, hi: int, q: nat): nat
    requires 0 <= lo && hi <= |col|
    decreases hi - lo
  {
    if hi <= lo then 0 else Occurrences(col, lo, hi - 1, q) + (if col[hi - 1] == q then 1 else 0)
  }

  function Repeat(x: nat, k: nat): (s: seq<nat>)
    ensures |s| == k && forall i :: 0 <= i < k ==> s[i] == x
  {
    seq(k, _ => x)
  }

  /**
   * qubit_parities_[q] after the first n rows: each row p < n, in increasing
   * order, once for every entry of row p that names column q.
   */
  function Parities(col: seq<int>, indptr: seq<int>, n: nat, q: nat): seq<nat>
    requires n < |indptr| && forall p :: 0 <= p < |indptr| ==> 0 <= indptr[p] <= |col|
  {
    if n == 0 then []
    else Parities(col, indptr, n - 1, q) + Repeat(n - 1, Occurrences(col, indptr[n - 1], indptr[n], q))
  }

  /** Every qubit below k sits in exactly two rows (counted with multiplicity). */
  predicate AllTwice(qp: seq<seq<nat>>, k: nat)
    requires k <= |qp|
  {
    forall q :: 0 <= q < k ==> |qp[q]| == 2
  }

  /**
   * vertex_connections_[v] after the first k qubits: qubit q with rows a, b
   * appends b to the list of a and then a to the list of b.
   */
  function Connections(qp: seq<seq<nat>>, k: nat, v: nat): seq<nat>
    requires k <= |qp| && AllTwice(qp, k)
  {
    if k == 0 then [] else Connections(qp, k - 1, v) + Added(qp, k, v)
  }

  /** The entries qubit k - 1, with rows a and b, appends to the list of v. */
  function Added(qp: seq<seq<nat>>, k: nat, v: nat): seq<nat>
    requires 0 < k <= |qp| && |qp[k - 1]| == 2
  {
    var a, b := qp[k - 1][0], qp[k - 1][1];
    (if a == v then [b] else []) + (if b == v then [a] else [])
  }

  /** The edge of qubit q: its two rows, normalised. */
  function QubitEdge(qp: seq<seq<nat>>, q: nat): Edge
    requires q < |qp| && |qp[q]| == 2
  {
    MakeEdge(qp[q][0], qp[q][1])
  }

  /** edge_idx_ after the first k qubits: an edge is entered the first time a qubit has it. */
  function EdgeMap(qp: seq<seq<nat>>, k: nat): map<Edge, nat>
    requires k <= |qp| && AllTwice(qp, k)
  {
    if k == 0 then map[]
    else
      var m := EdgeMap(qp, k - 1);
      var e := QubitEdge(qp, k - 1);
      if e in m then m else m[e := k - 1]
  }

  // ---------------------------------------------------------------------
  // Properties of the specification

  /**
   * The rows listed for a qubit are the rows below n that name it, in
   * non-decreasing order.
   */
  lemma ParitiesRows(col: seq<int>, indptr: seq<int>, n: nat, q: nat)
    requires n < |indptr| && forall p :: 0 <= p < |indptr| ==> 0 <= indptr[p] <= |col|
    ensures var s := Parities(col, indptr, n, q);
      && (forall i :: 0 <= i < |s| ==> s[i] < n)
      && (forall i, j :: 0 <= i <= j < |s| ==> s[i] <= s[j])
      && (forall p :: 0 <= p < n ==> (p in s <==> Occurrences(col, indptr[p], indptr[p + 1], q) > 0))
  {
    ParitiesBelow(col, indptr, n, q);
    ParitiesSorted(col, indptr, n, q);
    forall p | 0 <= p < n
      ensures p in Parities(col, indptr, n, q) <==> Occurrences(col, indptr[p], indptr[p + 1], q) > 0
    {
      ParitiesMember(col, indptr, n, q, p);
    }
  }

  lemma {:induction false} ParitiesBelow(col: seq<int>, indptr: seq<int>, n: nat, q: nat)
    requires n < |indptr| && forall p :: 0 <= p < |indptr| ==> 0 <= indptr[p] <= |col|
    ensures forall i :: 0 <= i < |Parities(col, indptr, n, q)| ==> Parities(col, indptr, n, q)[i] < n
  {
    if n > 0 {
      ParitiesBelow(col, indptr, n - 1, q);
    }
  }

  lemma {:induction false} ParitiesSorted(col: seq<int>, indptr: seq<int>, n: nat, q: nat)
    requires n < |indptr| && forall p :: 0 <= p < |indptr| ==> 0 <= indptr[p] <= |col|
    ensures forall i, j :: 0 <= i <= j < |Parities(col, indptr, n, q)| ==>
      Parities(col, indptr, n, q)[i] <= Parities(col, indptr, n, q)[j]
  {
    if n > 0 {
      ParitiesSorted(col, indptr, n - 1, q);
      ParitiesBelow(col, indptr, n - 1, q);
      var prev := Parities(col, indptr, n - 1, q);
      var s := Parities(col, indptr, n, q);
      assert s == prev + Repeat(n - 1, Occurrences(col, indptr[n - 1], indptr[n], q));
      forall i, j | 0 <= i <= j < |s|
        ensures s[i] <= s[j]
      {
        if j < |prev| {
          assert s[i] == prev[i] && s[j] == prev[j];
          assert prev[i] <= prev[j];
        } else if i < |prev| {
          assert s[i] == prev[i] && s[j] == n - 1;
        } else {
          assert s[i] == n - 1 && s[j] == n - 1;
        }
      }
    }
  }

  lemma {:induction false} ParitiesMember(col: seq<int>, indptr: seq<int>, n: nat, q: nat, p: nat)
    requires n < |indptr| && forall p :: 0 <= p < |indptr| ==> 0 <= indptr[p] <= |col|
    requires p < n
    ensures p in Parities(col, indptr, n, q) <==> Occurrences(col, indptr[p], indptr[p + 1], q) > 0
  {
    var prev := Parities(col, indptr, n - 1, q);
    var k := Occurrences(col, indptr[n - 1], indptr[n], q);
    var s := Parities(col, indptr, n, q);
    assert s == prev + Repeat(n - 1, k);
    if p == n - 1 {
      ParitiesBelow(col, indptr, n - 1, q);
      if k > 0 {
        assert s[|prev|] == p;
      }
      if p in s {
        var i :| 0 <= i < |s| && s[i] == p;
        assert i >= |prev|;
      }
    } else {
      ParitiesMember(col, indptr, n - 1, q, p);
      if p in s {
        var i :| 0 <= i < |s| && s[i] == p;
        assert i < |prev| && prev[i] == p;
      }
      if p in prev {
        var i :| 0 <= i < |prev| && prev[i] == p;
        assert s[i] == p;
      }
    }
  }

  /** The number of rows listed for a qubit is the number of entries naming it in the first n rows. */
  function RowCount(col: seq<int>, indptr: seq<int>, n: nat, q: nat): nat
    requires n < |indptr| && forall p :: 0 <= p < |indptr| ==> 0 <= indptr[p] <= |col|
  {
    if n == 0 then 0 else RowCount(col, indptr, n - 1, q) + Occurrences(col, indptr[n - 1], indptr[n], q)
  }

  lemma {:induction false} ParitiesLength(col: seq<int>, indptr: seq<int>, n: nat, q: nat)
    requires n < |indptr| && forall p :: 0 <= p < |indptr| ==> 0 <= indptr[p] <= |col|
    ensures |Parities(col, indptr, n, q)| == RowCount(col, indptr, n, q)
  {
    if n > 0 {
      ParitiesLength(col, indptr, n - 1, q);
    }
  }

  /** Every neighbour is a row of some qubit below k. */
  lemma {:induction false} ConnectionsBound(qp: seq<seq<nat>>, k: nat, v: nat, bound: nat)
    requires k <= |qp| && AllTwice(qp, k)
    requires forall q :: 0 <= q < k ==> qp[q][0] < bound && qp[q][1] < bound
    ensures forall w :: w in Connections(qp, k, v) ==> w < bound
  {
    if k > 0 {
      ConnectionsBound(qp, k - 1, v, bound);
    }
  }

  /** The number of entries w that the qubits below k add to the list of v. */
  function Joins(qp: seq<seq<nat>>, k: nat, v: nat, w: nat): nat
    requires k <= |qp| && AllTwice(qp, k)
  {
    if k == 0 then 0
    else
      var a, b := qp[k - 1][0], qp[k - 1][1];
      Joins(qp, k - 1, v, w) + (if a == v && b == w then 1 else 0) + (if b == v && a == w then 1 else 0)
  }

  lemma {:induction false} JoinsSymmetric(qp: seq<seq<nat>>, k: nat, v: nat, w: nat)
    requires k <= |qp| && AllTwice(qp, k)
    ensures Joins(qp, k, v, w) == Joins(qp, k, w, v)
  {
    if k > 0 {
      JoinsSymmetric(qp, k - 1, v, w);
    }
  }

  /** w is listed at v once for every qubit below k joining them. */
  lemma {:induction false} ConnectionsJoins(qp: seq<seq<nat>>, k: nat, v: nat, w: nat)
    requires k <= |qp| && AllTwice(qp, k)
    ensures multiset(Connections(qp, k, v))[w] == Joins(qp, k, v, w)
  {
    if k > 0 {
      var c0, j0 := Connections(qp, k - 1, v), Joins(qp, k - 1, v, w);
      ConnectionsJoins(qp, k - 1, v, w);
      var mc: multiset<nat> := multiset(c0);
      assert mc[w] == j0;
      AddedJoins(qp, k, v, w);
      CountStep(c0, Added(qp, k, v), w, j0, Joins(qp, k, v, w));
    }
  }

  /** Appending to a list adds the appended copies of w to the count of w. */
  lemma CountStep(before: seq<nat>, added: seq<nat>, w: nat, j0: nat, j1: nat)
    requires multiset(before)[w] == j0 && multiset(added)[w] + j0 == j1
    ensures multiset(before + added)[w] == j1
  {
    assert multiset(before + added) == multiset(before) + multiset(added);
  }

  /** The two rows of a qubit in exactly two rows are rows of the matrix. */
  lemma TwoRows(col: seq<int>, indptr: seq<int>, n: nat, q: nat)
    requires n < |indptr| && forall p :: 0 <= p < |indptr| ==> 0 <= indptr[p] <= |col|
    ensures |Parities(col, indptr, n, q)| == 2 ==> Parities(col, indptr, n, q)[0] < n && Parities(col, indptr, n, q)[1] < n
  {
    ParitiesRows(col, indptr, n, q);
  }

  /** The adjacency lists of the vertices below n after the first k qubits. */
  function AllConnections(qp: seq<seq<nat>>, k: nat, n: nat): (r: seq<seq<nat>>)
    requires k <= |qp| && AllTwice(qp, k)
    ensures |r| == n && forall v :: 0 <= v < n ==> r[v] == Connections(qp, k, v)
  {
    seq(n, v requires 0 <= v < n => Connections(qp, k, v))
  }

  /** Appending b to the list of a and then a to the list of b adds qubit q to every list. */
  lemma ConnectStep(qp: seq<seq<nat>>, q: nat, before: seq<seq<nat>>, after: seq<seq<nat>>)
    requires q < |qp| && AllTwice(qp, q + 1) && qp[q][0] < |before| && qp[q][1] < |before|
    requires before == AllConnections(qp, q, |before|)
    requires var a, b := qp[q][0], qp[q][1]; after == before[a := before[a] + [b]][b := before[a := before[a] + [b]][b] + [a]]
    ensures after == AllConnections(qp, q + 1, |before|)
  {
    forall v | 0 <= v < |after|
      ensures after[v] == Connections(qp, q + 1, v)
    {
      assert after[v] == before[v] + Added(qp, q + 1, v);
    }
  }

  /** Qubit k - 1 appends w to the list of v once for each of its row pairs (v, w). */
  lemma AddedJoins(qp: seq<seq<nat>>, k: nat, v: nat, w: nat)
    requires 0 < k <= |qp| && AllTwice(qp, k)
    ensures multiset(Added(qp, k, v))[w] + Joins(qp, k - 1, v, w) == Joins(qp, k, v, w)
  {
    var a, b := qp[k - 1][0], qp[k - 1][1];
    var s1: seq<nat> := if a == v then [b] else [];
    var s2: seq<nat> := if b == v then [a] else [];
    assert multiset(Added(qp, k, v)) == multiset(s1) + multiset(s2);
  }

  /** Adjacency is symmetric, counting parallel qubits: w is listed at v as often as v at w. */
  lemma ConnectionsSymmetric(qp: seq<seq<nat>>, k: nat, v: nat, w: nat)
    requires k <= |qp| && AllTwice(qp, k)
    ensures multiset(Connections(qp, k, v))[w] == multiset(Connections(qp, k, w))[v]
  {
    ConnectionsJoins(qp, k, v, w);
    ConnectionsJoins(qp, k, w, v);
    JoinsSymmetric(qp, k, v, w);
  }

  /** The sum of the list lengths of the vertices below n. */
  function DegreeSum(qp: seq<seq<nat>>, k: nat, n: nat): nat
    requires k <= |qp| && AllTwice(qp, k)
  {
    if n == 0 then 0 else DegreeSum(qp, k, n - 1) + |Connections(qp, k, n - 1)|
  }

  /** The number of the vertices below n that are a or b. */
  function Hits(a: nat, b: nat, n: nat): nat {
    if n == 0 then 0 else Hits(a, b, n - 1) + (if a == n - 1 then 1 else 0) + (if b == n - 1 then 1 else 0)
  }

  lemma {:induction false} HitsBoth(a: nat, b: nat, n: nat)
    requires a < n && b < n
    ensures Hits(a, b, n) == 2
  {
    HitsBelow(a, b, n - 1);
  }

  lemma {:induction false} HitsBelow(a: nat, b: nat, n: nat)
    ensures Hits(a, b, n) == (if a < n then 1 else 0) + (if b < n then 1 else 0)
  {
    if n > 0 {
      HitsBelow(a, b, n - 1);
    }
  }

  lemma {:induction false} DegreeStep(qp: seq<seq<nat>>, k: nat, n: nat)
    requires 0 < k <= |qp| && AllTwice(qp, k)
    ensures DegreeSum(qp, k, n) == DegreeSum(qp, k - 1, n) + Hits(qp[k - 1][0], qp[k - 1][1], n)
  {
    if n > 0 {
      DegreeStep(qp, k, n - 1);
    }
  }

  /** Each qubit adds one entry at each endpoint: the list lengths of the n vertices add up to twice the qubits. */
  lemma {:induction false} Handshake(qp: seq<seq<nat>>, k: nat, n: nat)
    requires k <= |qp| && AllTwice(qp, k)
    requires forall q :: 0 <= q < k ==> qp[q][0] < n && qp[q][1] < n
    ensures DegreeSum(qp, k, n) == 2 * k
  {
    if k == 0 {
      DegreeZero(qp, n);
    } else {
      Handshake(qp, k - 1, n);
      DegreeStep(qp, k, n);
      HitsBoth(qp[k - 1][0], qp[k - 1][1], n);
    }
  }

  lemma {:induction false} DegreeZero(qp: seq<seq<nat>>, n: nat)
    ensures DegreeSum(qp, 0, n) == 0
  {
    if n > 0 {
      DegreeZero(qp, n - 1);
    }
  }

  /**
   * edge_idx_ holds exactly the edges of the qubits below k, each mapped to
   * the smallest qubit that has it: parallel qubits collapse onto the first.
   */
  lemma {:induction false} EdgeMapFirst(qp: seq<seq<nat>>, k: nat, e: Edge)
    requires k <= |qp| && AllTwice(qp, k)
    ensures e in EdgeMap(qp, k) <==> exists q :: 0 <= q < k && QubitEdge(qp, q) == e
    ensures e in EdgeMap(qp, k) ==>
      && EdgeMap(qp, k)[e] < k && QubitEdge(qp, EdgeMap(qp, k)[e]) == e
      && forall q :: 0 <= q < EdgeMap(qp, k)[e] ==> QubitEdge(qp, q) != e
  {
    if k > 0 {
      EdgeMapFirst(qp, k - 1, e);
      if e !in EdgeMap(qp, k - 1) && QubitEdge(qp, k - 1) == e {
        assert forall q :: 0 <= q < k - 1 ==> QubitEdge(qp, q) != e;
      }
    }
  }

  /** No qubit sits twice in one row, and no two qubits sit in the same pair of rows. */
  predicate NoParallel(qp: seq<seq<nat>>, k: nat)
    requires k <= |qp| && AllTwice(qp, k)
  {
    && (forall q :: 0 <= q < k ==> qp[q][0] != qp[q][1])
    && (forall q1, q2 :: 0 <= q1 < q2 < k ==> QubitEdge(qp, q1) != QubitEdge(qp, q2))
  }

  /** Two rows joined at least once are the rows of some qubit below k. */
  lemma {:induction false} JoinsWitness(qp: seq<seq<nat>>, k: nat, v: nat, w: nat) returns (q: nat)
    requires k <= |qp| && AllTwice(qp, k) && Joins(qp, k, v, w) > 0
    ensures q < k && QubitEdge(qp, q) == MakeEdge(v, w)
  {
    if Joins(qp, k - 1, v, w) > 0 {
      q := JoinsWitness(qp, k - 1, v, w);
    } else {
      q := k - 1;
      MakeEdgeSymmetric(v, w);
    }
  }

  /** Each qubit below k adds to the joins of its rows, and no qubit takes any away. */
  lemma {:induction false} JoinsGrow(qp: seq<seq<nat>>, k: nat, q: nat, v: nat, w: nat)
    requires k <= |qp| && AllTwice(qp, k) && q < k
    ensures Joins(qp, q, v, w) + (if qp[q][0] == v && qp[q][1] == w then 1 else 0) <= Joins(qp, k, v, w)
  {
    if k > q + 1 {
      JoinsGrow(qp, k - 1, q, v, w);
    }
  }

  /**
   * Without loops or parallel qubits, two rows are joined at most once and
   * no row is joined to itself.
   */
  lemma {:induction false} JoinsAtMostOne(qp: seq<seq<nat>>, k: nat, v: nat, w: nat)
    requires k <= |qp| && AllTwice(qp, k) && NoParallel(qp, k)
    ensures Joins(qp, k, v, w) <= 1 && Joins(qp, k, v, v) == 0
  {
    if k > 0 {
      assert NoParallel(qp, k - 1);
      JoinsAtMostOne(qp, k - 1, v, w);
      MakeEdgeSymmetric(v, w);
      if Joins(qp, k - 1, v, w) > 0 {
        var q := JoinsWitness(qp, k - 1, v, w);
        assert QubitEdge(qp, q) != QubitEdge(qp, k - 1);
      }
    }
  }

  /** An entry listed at two positions is counted at least twice. */
  lemma TwiceListed(s: seq<nat>, i: nat, j: nat)
    requires i < j < |s|
    ensures s[i] == s[j] ==> multiset(s)[s[i]] >= 2
  {
    assert s == s[..j] + s[j..];
    assert s[i] in s[..j] && s[j] == s[j..][0];
  }

  /** A list without repeated entries counts every value at most once. */
  lemma {:induction false} DistinctCount(s: seq<nat>, x: nat)
    requires forall i, j :: 0 <= i < j < |s| ==> s[i] != s[j]
    ensures multiset(s)[x] <= 1
  {
    if s != [] {
      DistinctCount(s[1..], x);
      assert s == [s[0]] + s[1..];
      assert s[0] !in s[1..] by {
        forall j | 0 <= j < |s[1..]|
          ensures s[1..][j] != s[0]
        {
          assert s[1..][j] == s[j + 1];
        }
      }
    }
  }

  // ---------------------------------------------------------------------
  // The class

  class LatticeFromParity {
    var numVertices: nat
    var numEdges: nat
    var qubitParities: seq<seq<nat>>
    var vertexConnections: seq<seq<nat>>
    var edgeIdx: map<Edge, nat>
    /** The CSR arrays the lattice was built from. */
    ghost var col: seq<int>
    ghost var indptr: seq<int>

    /** A built lattice holds the tables construct_connections computes from its matrix. */
    ghost predicate Valid()
      reads this
    {
      && Csr(numVertices, numEdges, col, indptr)
      && |qubitParities| == numEdges
      && (forall q :: 0 <= q < numEdges ==> qubitParities[q] == Parities(col, indptr, numVertices, q))
      && AllTwice(qubitParities, numEdges)
      && |vertexConnections| == numVertices
      && (forall v :: 0 <= v < numVertices ==> vertexConnections[v] == Connections(qubitParities, numEdges, v))
      && edgeIdx == EdgeMap(qubitParities, numEdges)
    }

    /** The member initialisers: the two counts, and empty tables. */
    constructor Init(numParities: nat, numQubits: nat)
      ensures numVertices == numParities && numEdges == numQubits
      ensures qubitParities == [] && vertexConnections == [] && edgeIdx == map[]
    {
      numVertices := numParities;
      numEdges := numQubits;
      qubitParities := [];
      vertexConnections := [];
      edgeIdx := map[];
    }

    /**
     * construct_connections: list the rows of every qubit, reject the matrix
     * unless each qubit sits in exactly two rows, then fill the adjacency
     * lists and the edge table qubit by qubit.
     */
    method ConstructConnections(c: seq<int>, ptr: seq<int>) returns (ok: bool)
      requires Csr(numVertices, numEdges, c, ptr)
      modifies this
      ensures numVertices == old(numVertices) && numEdges == old(numEdges)
      ensures ok <==> forall q :: 0 <= q < numEdges ==> |Parities(c, ptr, numVertices, q)| == 2
      ensures ok ==> col == c && indptr == ptr && Valid()
    {
      var qp := CollectParities(numVertices, numEdges, c, ptr);
      var vc, em;
      ok, vc, em := ConnectQubits(numVertices, numEdges, c, ptr, qp);
      if ok {
        col, indptr := c, ptr;
        qubitParities := qp;
        vertexConnections := vc;
        edgeIdx := em;
      }
    }

    /**
     * The second loop of construct_connections: stop at the first qubit that
     * is not in exactly two rows; otherwise append each qubit to the
     * adjacency lists of its two rows and enter its edge if it is new.
     */
    static method ConnectQubits(np: nat, nq: nat, c: seq<int>, ptr: seq<int>, qp: seq<seq<nat>>)
      returns (ok: bool, vc: seq<seq<nat>>, em: map<Edge, nat>)
      requires Csr(np, nq, c, ptr)
      requires |qp| == nq && forall q :: 0 <= q < nq ==> qp[q] == Parities(c, ptr, np, q)
      ensures ok <==> AllTwice(qp, nq)
      ensures ok ==> |vc| == np && (forall v :: 0 <= v < np ==> vc[v] == Connections(qp, nq, v))
      ensures ok ==> em == EdgeMap(qp, nq)
    {
      vc := seq(np, _ => []);
      assert vc == AllConnections(qp, 0, np);
      em := map[];
      var q := 0;
      while q < nq
        invariant 0 <= q <= nq && |vc| == np
        invariant AllTwice(qp, q)
        invariant vc == AllConnections(qp, q, np)
        invariant em == EdgeMap(qp, q)
      {
        var qParities := qp[q];
        if |qParities| != 2 {
          return false, vc, em;
        }
        TwoRows(c, ptr, np, q);
        vc, em := ConnectQubit(qp, q, vc, em);
        q := q + 1;
      }
      return true, vc, em;
    }

    /**
     * One pass of the second loop for a qubit q in two rows a and b: append
     * b to the list of a and a to the list of b, and enter the edge of q
     * unless an earlier qubit has it.
     */
    static method ConnectQubit(qp: seq<seq<nat>>, q: nat, vc: seq<seq<nat>>, em: map<Edge, nat>)
      returns (vc': seq<seq<nat>>, em': map<Edge, nat>)
      requires q < |qp| && AllTwice(qp, q + 1) && qp[q][0] < |vc| && qp[q][1] < |vc|
      requires vc == AllConnections(qp, q, |vc|) && em == EdgeMap(qp, q)
      ensures vc' == AllConnections(qp, q + 1, |vc|) && em' == EdgeMap(qp, q + 1)
    {
      var a, b := qp[q][0], qp[q][1];
      vc' := vc[a := vc[a] + [b]];
      vc' := vc'[b := vc'[b] + [a]];
      ConnectStep(qp, q, vc, vc');
      var edge := MakeEdge(a, b);
      em' := if edge in em then em else em[edge := q];
    }

    /** The first loop of construct_connections: the rows of every qubit, row by row. */
    static method CollectParities(np: nat, nq: nat, c: seq<int>, ptr: seq<int>) returns (qp: seq<seq<nat>>)
      requires Csr(np, nq, c, ptr)
      ensures |qp| == nq && forall q :: 0 <= q < nq ==> qp[q] == Parities(c, ptr, np, q)
    {
      qp := seq(nq, _ => []);
      var p := 0;
      while p < np
        invariant 0 <= p <= np && |qp| == nq
        invariant forall q :: 0 <= q < nq ==> qp[q] == Parities(c, ptr, p, q)
      {
        var idx := ptr[p];
        while idx < ptr[p + 1]
          invariant ptr[p] <= idx <= |c| && (idx <= ptr[p + 1] || idx == ptr[p]) && |qp| == nq
          invariant forall q :: 0 <= q < nq ==>
            qp[q] == Parities(c, ptr, p, q) + Repeat(p, Occurrences(c, ptr[p], idx, q))
        {
          var q := c[idx];
          qp := qp[q := qp[q] + [p]];
          idx := idx + 1;
        }
        p := p + 1;
      }
    }

    /** The constructor: the lattice of a well-formed matrix, or invalid_argument. */
    static method FromParity(numParities: nat, numQubits: nat, c: seq<int>, ptr: seq<int>)
      returns (r: Outcome<LatticeFromParity>)
      requires Csr(numParities, numQubits, c, ptr)
      ensures r.Built? <==> forall q :: 0 <= q < numQubits ==> |Parities(c, ptr, numParities, q)| == 2
      ensures r.Built? ==> fresh(r.lattice) && r.lattice.Valid()
      ensures r.Built? ==> r.lattice.numVertices == numParities && r.lattice.numEdges == numQubits
      ensures r.Built? ==> r.lattice.col == c && r.lattice.indptr == ptr
    {
      var l := new LatticeFromParity.Init(numParities, numQubits);
      var ok := l.ConstructConnections(c, ptr);
      r := if ok then Built(l) else InvalidArgument;
    }

    /** num_vertices is the number of parity checks. */
    function NumVertices(): (n: nat)
      reads this
      requires Valid()
      ensures n + 1 == |indptr|
    {
      numVertices
    }

    /** num_edges is the number of qubits. */
    function NumEdges(): (n: nat)
      reads this
      requires Valid()
      ensures n == |qubitParities|
    {
      numEdges
    }

    /** vertex_connections(v): the rows sharing a qubit with row v, one entry per qubit. */
    function VertexConnections(v: nat): (ws: seq<nat>)
      reads this
      requires Valid() && v < numVertices
      ensures ws == Connections(qubitParities, numEdges, v)
      ensures forall w :: w in ws ==> w < numVertices
      ensures forall w :: 0 <= w < numVertices ==>
        multiset(ws)[w] == multiset(Connections(qubitParities, numEdges, w))[v]
    {
      ConnectionRows();
      forall w | 0 <= w < numVertices
        ensures multiset(vertexConnections[v])[w] == multiset(vertexConnections[w])[v]
      {
        ConnectionsSymmetric(qubitParities, numEdges, v, w);
      }
      vertexConnections[v]
    }

    /** The rows of every qubit are rows of the matrix, so every neighbour is a vertex. */
    lemma ConnectionRows()
      requires Valid()
      ensures forall q :: 0 <= q < numEdges ==> qubitParities[q][0] < numVertices && qubitParities[q][1] < numVertices
      ensures forall v, w :: 0 <= v < numVertices && w in vertexConnections[v] ==> w < numVertices
    {
      forall q | 0 <= q < numEdges
        ensures qubitParities[q][0] < numVertices && qubitParities[q][1] < numVertices
      {
        ParitiesRows(col, indptr, numVertices, q);
      }
      forall v | 0 <= v < numVertices
        ensures forall w :: w in vertexConnections[v] ==> w < numVertices
      {
        ConnectionsBound(qubitParities, numEdges, v, numVertices);
      }
    }

    /** vertex_connection_count(v): the length of the list; over all vertices they add up to twice the qubits. */
    function VertexConnectionCount(v: nat): (n: nat)
      reads this
      requires Valid() && v < numVertices
      ensures n == |VertexConnections(v)|
      ensures DegreeSum(qubitParities, numEdges, numVertices) == 2 * numEdges
    {
      ConnectionRows();
      Handshake(qubitParities, numEdges, numVertices);
      |vertexConnections[v]|
    }

    /**
     * edge_idx(e): the smallest qubit whose two rows are the endpoints of e;
     * `.at` throws for a pair no qubit joins, which is None here.
     */
    function EdgeIdx(e: Edge): (r: Option<nat>)
      reads this
      requires Valid()
      ensures r.Some? <==> exists q :: 0 <= q < numEdges && QubitEdge(qubitParities, q) == e
      ensures r.Some? ==> r.value < numEdges && QubitEdge(qubitParities, r.value) == e
      ensures r.Some? ==> forall q :: 0 <= q < r.value ==> QubitEdge(qubitParities, q) != e
    {
      EdgeMapFirst(qubitParities, numEdges, e);
      if e in edgeIdx then Some(edgeIdx[e]) else None
    }
    /** The lattice as the decoder reads it: its counts, adjacency lists, list lengths and edge table. */
    function AsGraph(): Graphs.Graph
      reads this
      requires Valid()
    {
      var vc := vertexConnections;
      Graphs.Graph(numVertices, numEdges, vc, seq(|vc|, v requires 0 <= v < |vc| => |vc[v]|), edgeIdx)
    }

    /**
     * The lattice meets everything the decoder assumes of its graph exactly
     * when no qubit sits twice in one row and no two qubits share both rows.
     */
    lemma AsGraphSimple()
      requires Valid()
      ensures Graphs.Simple(AsGraph()) <==> NoParallel(qubitParities, numEdges)
    {
      if NoParallel(qubitParities, numEdges) {
        NoParallelSimple();
      }
      if Graphs.Simple(AsGraph()) {
        SimpleNoLoop();
        SimpleNoParallel();
      }
    }

    lemma NoParallelSimple()
      requires Valid() && NoParallel(qubitParities, numEdges)
      ensures Graphs.Simple(AsGraph())
    {
      var g := AsGraph();
      NoParallelAdjacency();
      forall v: nat, j, k | v < g.numVertices && 0 <= j < k < |g.connections[v]|
        ensures g.connections[v][j] != g.connections[v][k]
      {
        TwiceListed(vertexConnections[v], j, k);
        ConnectionsJoins(qubitParities, numEdges, v, vertexConnections[v][j]);
        JoinsAtMostOne(qubitParities, numEdges, v, vertexConnections[v][j]);
      }
      forall e1, e2 | e1 in g.edgeIdx && e2 in g.edgeIdx && g.edgeIdx[e1] == g.edgeIdx[e2]
        ensures e1 == e2
      {
        EdgeMapFirst(qubitParities, numEdges, e1);
        EdgeMapFirst(qubitParities, numEdges, e2);
      }
    }

    /** Without loops or parallel qubits, adjacency is loop-free, symmetric and numbered by edge_idx. */
    lemma NoParallelAdjacency()
      requires Valid() && NoParallel(qubitParities, numEdges)
      ensures forall v: nat, w: nat {:trigger w in vertexConnections[v]} ::
        v < numVertices && w in vertexConnections[v] ==>
          && w < numVertices && w != v && v in vertexConnections[w]
          && MakeEdge(v, w) in edgeIdx && edgeIdx[MakeEdge(v, w)] < numEdges
    {
      ConnectionRows();
      forall v: nat, w: nat {:trigger w in vertexConnections[v]} | v < numVertices && w in vertexConnections[v]
        ensures && w < numVertices && w != v && v in vertexConnections[w]
                && MakeEdge(v, w) in edgeIdx && edgeIdx[MakeEdge(v, w)] < numEdges
      {
        var qp, k := qubitParities, numEdges;
        ConnectionsJoins(qp, k, v, w);
        ConnectionsJoins(qp, k, v, v);
        JoinsAtMostOne(qp, k, v, w);
        ConnectionsSymmetric(qp, k, v, w);
        var q := JoinsWitness(qp, k, v, w);
        EdgeMapFirst(qp, k, MakeEdge(v, w));
      }
    }

    /** On a graph the decoder accepts, no qubit sits twice in one row. */
    lemma SimpleNoLoop()
      requires Valid() && Graphs.Simple(AsGraph())
      ensures forall q :: 0 <= q < numEdges ==> qubitParities[q][0] != qubitParities[q][1]
    {
      ConnectionRows();
      forall q | 0 <= q < numEdges
        ensures qubitParities[q][0] != qubitParities[q][1]
      {
        var a := qubitParities[q][0];
        JoinsGrow(qubitParities, numEdges, q, a, a);
        ConnectionsJoins(qubitParities, numEdges, a, a);
        assert a in AsGraph().connections[a] ==> a != a;
      }
    }

    /** On a graph the decoder accepts, no two qubits share both rows. */
    lemma SimpleNoParallel()
      requires Valid() && Graphs.Simple(AsGraph())
      requires forall q :: 0 <= q < numEdges ==> qubitParities[q][0] != qubitParities[q][1]
      ensures NoParallel(qubitParities, numEdges)
    {
      forall q1, q2 | 0 <= q1 < q2 < numEdges
        ensures QubitEdge(qubitParities, q1) != QubitEdge(qubitParities, q2)
      {
        SimpleNotParallel(q1, q2);
      }
    }

    /**
     * Two qubits q1 < q2 in the same rows x and y would list y twice at x:
     * the graph would not be one the decoder accepts.
     */
    lemma SimpleNotParallel(q1: nat, q2: nat)
      requires Valid() && Graphs.Simple(AsGraph()) && q1 < q2 < numEdges
      requires qubitParities[q1][0] != qubitParities[q1][1]
      ensures QubitEdge(qubitParities, q1) != QubitEdge(qubitParities, q2)
    {
      ConnectionRows();
      var qp, k := qubitParities, numEdges;
      var x, y := qp[q1][0], qp[q1][1];
      JoinsGrow(qp, q2, q1, x, y);
      JoinsGrow(qp, k, q2, x, y);
      JoinsGrow(qp, k, q2, y, x);
      JoinsSymmetric(qp, q2, x, y);
      JoinsSymmetric(qp, k, x, y);
      ConnectionsJoins(qp, k, x, y);
      DistinctCount(vertexConnections[x], y);
    }
  }

  datatype Option<T> = None | Some(value: T)
}
