// Checking a decoding: add_corrections adds the decoder's correction edges
// back onto the qubits, logical_error reads the parity of the error along
// the two non-contractible lines of the torus, and has_logical_error does
// both for corrections found on the layered (3D) graph, after projecting
// them onto one layer.

module Checks {
  import opened Edges
  import opened Toric
  import opened Syndromes
  import Arith

  // ---------------------------------------------------------------------
  // add_corrections

  /** How many of the corrections decoder_edge_to_qubit_idx sends to qubit q. */
  function Tally(L: nat, cs: seq<Edge>, t: ErrorType, q: nat): nat
    requires L >= 1
  {
    if |cs| == 0 then 0
    else Tally(L, cs[..|cs| - 1], t, q) + (if DecoderEdgeToQubitIdx(L, cs[|cs| - 1], t) == q then 1 else 0)
  }

  lemma TallySnoc(L: nat, cs: seq<Edge>, e: Edge, t: ErrorType, q: nat)
    requires L >= 1
    ensures Tally(L, cs + [e], t, q) == Tally(L, cs, t, q) + if DecoderEdgeToQubitIdx(L, e, t) == q then 1 else 0
  {
    assert (cs + [e])[..|cs|] == cs;
  }

  /** Every edge joins two vertices of the L x L torus. */
  predicate OnTorus(L: nat, cs: seq<Edge>) {
    forall i :: 0 <= i < |cs| ==> cs[i].u < L * L && cs[i].v < L * L
  }

  /**
   * add_corrections: every correction edge adds one to the error count of
   * the qubit decoder_edge_to_qubit_idx maps it to; nothing is reduced.
   */
  method AddCorrections(L: nat, corrections: seq<Edge>, error: array<int>, t: ErrorType)
    requires L >= 1 && OnTorus(L, corrections) && error.Length >= 2 * L * L
    modifies error
    ensures forall q :: 0 <= q < error.Length ==> error[q] == old(error[q]) + Tally(L, corrections, t, q)
  {
    for i := 0 to |corrections|
      invariant forall q :: 0 <= q < error.Length ==> error[q] == old(error[q]) + Tally(L, corrections[..i], t, q)
    {
      var e := corrections[i];
      DecoderEdgeToQubitIdxRange(L, e, t);
      var idx := DecoderEdgeToQubitIdx(L, e, t);
      error[idx] := error[idx] + 1;
      assert corrections[..i + 1] == corrections[..i] + [e];
      forall q | 0 <= q < error.Length {
        TallySnoc(L, corrections[..i], e, t, q);
      }
    }
    assert corrections[..|corrections|] == corrections;
  }

  /** decoder_edge_to_qubit_idx sends the edge joining the n-th pair back to n. */
  predicate Inverts(L: nat, fp: seq<(nat, nat)>, t: ErrorType)
    requires L >= 1
  {
    forall n :: 0 <= n < |fp| ==> DecoderEdgeToQubitIdx(L, MakeEdge(fp[n].0, fp[n].1), t) == n
  }

  /**
   * Correcting with the chain of the first k flagged pairs adds one to each
   * erroneous qubit among the first k and nothing elsewhere, once the qubit
   * map inverts the pairs.
   */
  lemma {:induction false} TallyOfChain(L: nat, err: seq<nat>, fp: seq<(nat, nat)>, t: ErrorType, k: nat, q: nat)
    requires L >= 1 && k <= |fp| <= |err| && Inverts(L, fp, t)
    ensures Tally(L, Chain(err, fp, k), t, q) == if q < k && err[q] != 0 then 1 else 0
  {
    if k > 0 {
      TallyOfChain(L, err, fp, t, k - 1, q);
      var c := Chain(err, fp, k - 1);
      if err[k - 1] != 0 {
        var e := MakeEdge(fp[k - 1].0, fp[k - 1].1);
        assert DecoderEdgeToQubitIdx(L, e, t) == k - 1;
        TallySnoc(L, c, e, t, q);
      }
    }
  }

  /** For L >= 3 the qubit map inverts the syndrome map of every qubit. */
  lemma FlagPairsInverted(L: nat, t: ErrorType)
    requires L >= 3
    ensures Inverts(L, FlagPairs(L, t), t)
  {
    var fp := FlagPairs(L, t);
    forall n | 0 <= n < |fp|
      ensures DecoderEdgeToQubitIdx(L, MakeEdge(fp[n].0, fp[n].1), t) == n
    {
      QubitOfFlips(L, n, t);
    }
  }

  /** The whole error chain as corrections: one more on exactly the erroneous qubits. */
  lemma ErrorChainTally(L: nat, err: seq<nat>, t: ErrorType, q: nat)
    requires L >= 3 && |err| >= 2 * L * L && q < 2 * L * L
    ensures Tally(L, ErrorChain(L, err, t), t, q) == if err[q] != 0 then 1 else 0
  {
    FlagPairsInverted(L, t);
    TallyOfChain(L, err, FlagPairs(L, t), t, 2 * L * L, q);
  }

  // ---------------------------------------------------------------------
  // logical_error

  /** The sum of e[u] for u = start, start + step, ... below stop. */
  function StrideSum(e: seq<int>, start: nat, step: nat, stop: nat): int
    requires step >= 1 && stop <= |e|
    decreases stop - start
  {
    if start >= stop then 0 else e[start] + StrideSum(e, start + step, step, stop)
  }

  /** The counting loop of logical_error. */
  method SumStride(e: seq<int>, start: nat, step: nat, stop: nat) returns (sum: int)
    requires step >= 1 && stop <= |e|
    ensures sum == StrideSum(e, start, step, stop)
  {
    sum := 0;
    var u := start;
    while u < stop
      invariant sum + StrideSum(e, u, step, stop) == StrideSum(e, start, step, stop)
      decreases stop - u
    {
      sum := sum + e[u];
      u := u + step;
    }
  }

  lemma LineBounds(L: nat)
    requires L >= 1
    ensures L <= L * L && L * L + L <= 2 * L * L
  {
    Arith.MulLeq(1, L, L);
  }

  /**
   * The two line sums logical_error reads. For X errors (dual lattice):
   * qubits 0, L, ..., below L*L and qubits L*L .. L*L + L - 1; for Z errors:
   * qubits 0 .. L - 1 and qubits L*L, L*L + L, ..., below 2*L*L.
   */
  function LineSums(L: nat, e: seq<int>, t: ErrorType): (int, int)
    requires L >= 1 && |e| >= 2 * L * L
  {
    LineBounds(L);
    match t
    case X => (StrideSum(e, 0, L, L * L), StrideSum(e, L * L, 1, L * L + L))
    case Z => (StrideSum(e, 0, 1, L), StrideSum(e, L * L, L, 2 * L * L))
  }

  /** logical_error's verdict: one of the line sums is odd, with C's `%`. */
  predicate IsLogicalError(L: nat, e: seq<int>, t: ErrorType)
    requires L >= 1 && |e| >= 2 * L * L
  {
    var s := LineSums(L, e, t);
    CMod(s.0, 2) == 1 || CMod(s.1, 2) == 1
  }

  /** logical_error: two counting loops, then `sum1 % 2 == 1 || sum2 % 2 == 1`. */
  method LogicalError(L: nat, error: seq<int>, t: ErrorType) returns (r: bool)
    requires L >= 1 && |error| >= 2 * L * L
    ensures r == IsLogicalError(L, error, t)
  {
    LineBounds(L);
    var sum1, sum2;
    match t {
      case X =>
        sum1 := SumStride(error, 0, L, L * L);
        sum2 := SumStride(error, L * L, 1, L * L + L);
      case Z =>
        sum1 := SumStride(error, 0, 1, L);
        sum2 := SumStride(error, L * L, L, 2 * L * L);
    }
    r := CMod(sum1, 2) == 1 || CMod(sum2, 2) == 1;
  }

  /** Every entry is a count, never negative. */
  predicate NonNegative(e: seq<int>) {
    forall i :: 0 <= i < |e| ==> e[i] >= 0
  }

  /** Two error vectors with the same parity on every qubit. */
  predicate SameParity(e1: seq<int>, e2: seq<int>) {
    |e1| == |e2| && forall i :: 0 <= i < |e1| ==> e1[i] % 2 == e2[i] % 2
  }

  lemma SumParity(a: int, b: int, c: int, d: int)
    requires a % 2 == c % 2 && b % 2 == d % 2
    ensures (a + b) % 2 == (c + d) % 2
  {
  }

  lemma {:induction false} StrideSumParity(e1: seq<int>, e2: seq<int>, start: nat, step: nat, stop: nat)
    requires step >= 1 && stop <= |e1| && SameParity(e1, e2)
    ensures StrideSum(e1, start, step, stop) % 2 == StrideSum(e2, start, step, stop) % 2
    decreases stop - start
  {
    if start < stop {
      StrideSumParity(e1, e2, start + step, step, stop);
      SumParity(e1[start], StrideSum(e1, start + step, step, stop), e2[start], StrideSum(e2, start + step, step, stop));
    }
  }

  lemma {:induction false} StrideSumNonNegative(e: seq<int>, start: nat, step: nat, stop: nat)
    requires step >= 1 && stop <= |e| && NonNegative(e)
    ensures StrideSum(e, start, step, stop) >= 0
    decreases stop - start
  {
    if start < stop {
      StrideSumNonNegative(e, start + step, step, stop);
    }
  }

  /** On counts, logical_error depends only on the parity of each qubit's count. */
  lemma LogicalErrorParity(L: nat, e1: seq<int>, e2: seq<int>, t: ErrorType)
    requires L >= 1 && |e1| >= 2 * L * L && NonNegative(e1) && NonNegative(e2) && SameParity(e1, e2)
    ensures IsLogicalError(L, e1, t) == IsLogicalError(L, e2, t)
  {
    LineBounds(L);
    match t {
      case X =>
        StrideSumParity(e1, e2, 0, L, L * L);
        StrideSumParity(e1, e2, L * L, 1, L * L + L);
        StrideSumNonNegative(e1, 0, L, L * L);
        StrideSumNonNegative(e2, 0, L, L * L);
        StrideSumNonNegative(e1, L * L, 1, L * L + L);
        StrideSumNonNegative(e2, L * L, 1, L * L + L);
      case Z =>
        StrideSumParity(e1, e2, 0, 1, L);
        StrideSumParity(e1, e2, L * L, L, 2 * L * L);
        StrideSumNonNegative(e1, 0, 1, L);
        StrideSumNonNegative(e2, 0, 1, L);
        StrideSumNonNegative(e1, L * L, L, 2 * L * L);
        StrideSumNonNegative(e2, L * L, L, 2 * L * L);
    }
  }

  /** Even counts everywhere (for instance no error at all): no logical error. */
  lemma EvenNoLogicalError(L: nat, e: seq<int>, t: ErrorType)
    requires L >= 1 && |e| >= 2 * L * L && NonNegative(e)
    requires forall i :: 0 <= i < |e| ==> e[i] % 2 == 0
    ensures !IsLogicalError(L, e, t)
  {
    var z := seq(|e|, i => 0);
    LogicalErrorParity(L, e, z, t);
    LineBounds(L);
    match t {
      case X =>
        StrideSumZero(z, 0, L, L * L);
        StrideSumZero(z, L * L, 1, L * L + L);
      case Z =>
        StrideSumZero(z, 0, 1, L);
        StrideSumZero(z, L * L, L, 2 * L * L);
    }
  }

  lemma {:induction false} StrideSumZero(z: seq<int>, start: nat, step: nat, stop: nat)
    requires step >= 1 && stop <= |z| && forall i :: 0 <= i < |z| ==> z[i] == 0
    ensures StrideSum(z, start, step, stop) == 0
    decreases stop - start
  {
    if start < stop {
      StrideSumZero(z, start + step, step, stop);
    }
  }

  /** The error after add_corrections with corrections cs. */
  function Corrected(L: nat, err: seq<nat>, cs: seq<Edge>, t: ErrorType): (r: seq<int>)
    requires L >= 1
    ensures |r| == |err|
  {
    seq(|err|, q requires 0 <= q < |err| => err[q] + Tally(L, cs, t, q))
  }

  /**
   * For L >= 3, a 0/1 error corrected by its own error chain leaves every
   * qubit with an even count, so logical_error reports no logical error.
   */
  lemma OwnChainNoLogicalError(L: nat, err: seq<nat>, t: ErrorType)
    requires L >= 3 && |err| == 2 * L * L && Peel.Bits(err)
    ensures !IsLogicalError(L, Corrected(L, err, ErrorChain(L, err, t), t), t)
  {
    var e := Corrected(L, err, ErrorChain(L, err, t), t);
    forall q | 0 <= q < |e|
      ensures e[q] >= 0 && e[q] % 2 == 0
    {
      ErrorChainTally(L, err, t, q);
    }
    EvenNoLogicalError(L, e, t);
  }

  // ---------------------------------------------------------------------
  // has_logical_error

  /** A correction edge of the layered graph is space-like when both endpoints lie in the same layer of L*L vertices. */
  predicate SpaceLike(L: nat, e: Edge)
    requires L >= 1
  {
    e.u / (L * L) == e.v / (L * L)
  }

  /** The space-like corrections, in order, each moved down onto layer 0. */
  function Project(L: nat, cs: seq<Edge>): (r: seq<Edge>)
    requires L >= 1
    ensures OnTorus(L, r)
  {
    if |cs| == 0 then []
    else
      var e := cs[|cs| - 1];
      var p := Project(L, cs[..|cs| - 1]);
      if SpaceLike(L, e) then p + [MakeEdge(e.u % (L * L), e.v % (L * L))] else p
  }

  /**
   * has_logical_error: adds every space-like correction, projected onto
   * layer 0, to error_total (which it changes), then applies logical_error.
   */
  method HasLogicalError(L: nat, errorTotal: array<int>, corrections: seq<Edge>, t: ErrorType) returns (r: bool)
    requires L >= 1 && errorTotal.Length >= 2 * L * L
    modifies errorTotal
    ensures forall q :: 0 <= q < errorTotal.Length ==>
              errorTotal[q] == old(errorTotal[q]) + Tally(L, Project(L, corrections), t, q)
    ensures r == IsLogicalError(L, errorTotal[..], t)
  {
    var A := L * L;
    for i := 0 to |corrections|
      invariant forall q :: 0 <= q < errorTotal.Length ==>
                  errorTotal[q] == old(errorTotal[q]) + Tally(L, Project(L, corrections[..i]), t, q)
    {
      var edge := corrections[i];
      assert corrections[..i + 1][..i] == corrections[..i];
      if edge.u / A == edge.v / A {
        var corrEdge := MakeEdge(edge.u % A, edge.v % A);
        DecoderEdgeToQubitIdxRange(L, corrEdge, t);
        var corrQubit := DecoderEdgeToQubitIdx(L, corrEdge, t);
        errorTotal[corrQubit] := errorTotal[corrQubit] + 1;
        forall q | 0 <= q < errorTotal.Length {
          TallySnoc(L, Project(L, corrections[..i]), corrEdge, t, q);
        }
      }
    }
    assert corrections[..|corrections|] == corrections;
    r := LogicalError(L, errorTotal[..], t);
  }

  /** Projection distributes over concatenation. */
  lemma {:induction false} ProjectAppend(L: nat, cs: seq<Edge>, ds: seq<Edge>)
    requires L >= 1
    ensures Project(L, cs + ds) == Project(L, cs) + Project(L, ds)
    decreases |ds|
  {
    if |ds| == 0 {
      assert cs + ds == cs;
    } else {
      var k := |ds| - 1;
      assert (cs + ds)[..|cs| + k] == cs + ds[..k];
      assert (cs + ds)[|cs| + k] == ds[k];
      ProjectAppend(L, cs, ds[..k]);
    }
  }

  /** A time-like correction, wherever it sits in the list, changes nothing. */
  lemma TimeLikeIgnored(L: nat, cs: seq<Edge>, e: Edge, ds: seq<Edge>)
    requires L >= 1 && !SpaceLike(L, e)
    ensures Project(L, cs + [e] + ds) == Project(L, cs + ds)
  {
    ProjectAppend(L, cs + [e], ds);
    ProjectAppend(L, cs, [e]);
    ProjectAppend(L, cs, ds);
    assert [e][..0] == [];
  }

  /** The same edge in layer h: both endpoints moved up by h layers. */
  function Lift(L: nat, e: Edge, h: nat): Edge {
    Edge(e.u + h * (L * L), e.v + h * (L * L))
  }

  /** A space-like correction projects to the same edge from whichever layer it sits in. */
  lemma LiftProjects(L: nat, e: Edge, h: nat)
    requires L >= 1
    ensures SpaceLike(L, Lift(L, e, h)) == SpaceLike(L, e)
    ensures Project(L, [Lift(L, e, h)]) == Project(L, [e])
  {
    var A := L * L;
    Arith.ModShift(e.u, h, A);
    Arith.ModShift(e.v, h, A);
    assert [Lift(L, e, h)][..0] == [] && [e][..0] == [];
  }

  /** Corrections that already lie in layer 0, as the decoder returns them, project to themselves. */
  lemma {:induction false} ProjectOfLayerZero(L: nat, cs: seq<Edge>)
    requires L >= 1 && OnTorus(L, cs) && forall i :: 0 <= i < |cs| ==> Normalized(cs[i])
    ensures Project(L, cs) == cs
  {
    if |cs| > 0 {
      var k := |cs| - 1;
      var e := cs[k];
      ProjectOfLayerZero(L, cs[..k]);
      Arith.DivModUnique(e.u, L * L, 0, e.u);
      Arith.DivModUnique(e.v, L * L, 0, e.v);
      MakeEdgeOfNormalized(e);
    }
  }

  // ---------------------------------------------------------------------
  // decoder_edge_to_qubit_idx of src/utility.cpp

  /**
   * The copy in src/utility.cpp. Its Z branch is to_edge_idx, like the
   * others; its X branch maps a horizontal dual edge to
   * L*row + (col + 1) % L and a vertical one to L*((row + 1) % L) + col + L*L,
   * from the left and the upper endpoint.
   */
  function DecoderEdgeToQubitIdxUtility(L: nat, e: Edge, t: ErrorType): nat
    requires L >= 1
  {
    match t
    case X =>
      if IsHorizontal(L, e) then
        var rc := VertexToCoord(L, Left(e));
        L * rc.0 + (rc.1 + 1) % L
      else
        var rc := VertexToCoord(L, Upper(L, e));
        L * ((rc.0 + 1) % L) + rc.1 + L * L
    case Z => ToEdgeIdx(L, e)
  }

  /**
   * On the 3 x 3 torus an X error on qubit 4 flags dual vertices 1 and 0.
   * The toric_utils copies map the edge joining them back to qubit 4; the
   * src/utility.cpp copy maps it to qubit 1, so its add_corrections would
   * put the correction on the wrong qubit.
   */
  lemma UtilityMisplacesCorrection()
    ensures Flips(3, 4, X) == (1, 0)
    ensures DecoderEdgeToQubitIdx(3, MakeEdge(1, 0), X) == 4
    ensures DecoderEdgeToQubitIdxUtility(3, MakeEdge(1, 0), X) == 1
  {
    assert ToEdge(3, 4) == Edge(1, 4);
    assert VertexToCoord(3, 0) == (0, 0);
  }
}
