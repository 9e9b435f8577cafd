// From errors on the qubits of the L x L torus to syndromes: the maps
// z_error_to_syndrome_x and x_error_to_syndrome_z (and their dispatcher
// errors_to_syndromes), in the XOR form of the uint32 copy and the counting
// form of the int copies.
//
// An error on qubit n flags two vertices (Toric.Flips). The flagged pairs of
// all erroneous qubits, in qubit order, form the error chain, a list of edges;
// the syndrome of a vertex is the parity of its degree in that chain. The
// chain and its parities are defined for any list of pairs, so that the
// properties of the syndrome map are proved once, independently of the
// lattice arithmetic that picks the pairs.

module Syndromes {
  import opened Edges
  import opened Toric
  import opened Graphs
  import opened Peel
  import Lattice2D

  /** Every pair of the list names two of the first N vertices. */
  predicate PairsBelow(N: nat, fp: seq<(nat, nat)>) {
    forall n :: 0 <= n < |fp| ==> fp[n].0 < N && fp[n].1 < N
  }

  /** The pair of vertices an error of kind t flags, for each of the 2L*L qubits. */
  function FlagPairs(L: nat, t: ErrorType): (fp: seq<(nat, nat)>)
    requires L >= 1
    ensures |fp| == 2 * L * L && PairsBelow(L * L, fp)
  {
    seq(2 * L * L, n requires 0 <= n < 2 * L * L => Flips(L, n, t))
  }

  /** How often a pair names x. */
  function Hits(p: (nat, nat), x: nat): nat {
    (if p.0 == x then 1 else 0) + (if p.1 == x then 1 else 0)
  }

  /** The error chain of the first k qubits: the edge of the flagged pair of every non-zero entry, in qubit order. */
  function Chain(err: seq<nat>, fp: seq<(nat, nat)>, k: nat): (c: seq<Edge>)
    requires k <= |err| && k <= |fp|
    ensures |c| <= k
  {
    if k == 0 then []
    else if err[k - 1] == 0 then Chain(err, fp, k - 1)
    else Chain(err, fp, k - 1) + [MakeEdge(fp[k - 1].0, fp[k - 1].1)]
  }

  /** The number of times the first k qubits flag vertex x: the hits of the pairs of the erroneous ones. */
  function FlagCount(err: seq<nat>, fp: seq<(nat, nat)>, k: nat, x: nat): nat
    requires k <= |err| && k <= |fp|
  {
    if k == 0 then 0
    else FlagCount(err, fp, k - 1, x) + (if err[k - 1] == 0 then 0 else Hits(fp[k - 1], x))
  }

  /** The number of times each of N vertices is flagged by the first k qubits. */
  function Counts(N: nat, err: seq<nat>, fp: seq<(nat, nat)>, k: nat): (s: seq<int>)
    requires k <= |err| && k <= |fp|
    ensures |s| == N
  {
    seq(N, x requires 0 <= x < N => FlagCount(err, fp, k, x))
  }

  /** The parity of each vertex's flag count after the first k qubits. */
  function Partial(N: nat, err: seq<nat>, fp: seq<(nat, nat)>, k: nat): (s: seq<nat>)
    requires k <= |err| && k <= |fp|
    ensures |s| == N && Bits(s)
  {
    seq(N, x requires 0 <= x < N => FlagCount(err, fp, k, x) % 2)
  }

  /** The error chain of a whole error vector of kind t on the L x L torus. */
  function ErrorChain(L: nat, err: seq<nat>, t: ErrorType): seq<Edge>
    requires L >= 1 && |err| >= 2 * L * L
  {
    Chain(err, FlagPairs(L, t), 2 * L * L)
  }

  /**
   * The syndrome of an error vector of 2L*L qubits: a vertex is flagged
   * when an odd number of erroneous qubits flag it.
   */
  function Syndrome(L: nat, err: seq<nat>, t: ErrorType): (s: seq<nat>)
    requires L >= 1 && |err| >= 2 * L * L
    ensures |s| == L * L && Bits(s)
  {
    Partial(L * L, err, FlagPairs(L, t), 2 * L * L)
  }

  /** syndromes[i] ^= 1. */
  function Toggle(s: seq<nat>, i: nat): (r: seq<nat>)
    requires i < |s|
    ensures |r| == |s|
  {
    s[i := Xor1(s[i])]
  }

  /** syndromes_array[a] += 1, then syndromes_array[b] += 1. */
  function Bumped(c: seq<int>, a: nat, b: nat): (r: seq<int>)
    requires a < |c| && b < |c|
    ensures |r| == |c|
  {
    var c1 := c[a := c[a] + 1];
    c1[b := c1[b] + 1]
  }

  lemma PartialStart(N: nat, err: seq<nat>, fp: seq<(nat, nat)>)
    ensures Zero(Partial(N, err, fp, 0)) && Zero(Counts(N, err, fp, 0))
  {
  }

  /** The flag count of a vertex is its degree in the error chain. */
  lemma {:induction false} ChainDeg(err: seq<nat>, fp: seq<(nat, nat)>, k: nat, x: nat)
    requires k <= |err| && k <= |fp|
    ensures Deg(Chain(err, fp, k), x) == FlagCount(err, fp, k, x)
  {
    if k > 0 {
      ChainDeg(err, fp, k - 1, x);
      var c := Chain(err, fp, k - 1);
      if err[k - 1] != 0 {
        assert (c + [MakeEdge(fp[k - 1].0, fp[k - 1].1)])[..|c|] == c;
      }
    }
  }

  /** Adding the hits of a pair to a count flips the parity once at each component. */
  lemma TogglePoint(d: nat, p: (nat, nat), x: nat)
    ensures (d + Hits(p, x)) % 2 ==
            var a := if p.0 == x then Xor1(d % 2) else d % 2;
            if p.1 == x then Xor1(a) else a
  {
  }

  /** One step of the XOR loop: the parities of the next qubit's pair are flipped. */
  lemma PartialStep(N: nat, err: seq<nat>, fp: seq<(nat, nat)>, k: nat)
    requires k < |err| && k < |fp| && PairsBelow(N, fp)
    ensures err[k] == 0 ==> Partial(N, err, fp, k + 1) == Partial(N, err, fp, k)
    ensures err[k] != 0 ==> Partial(N, err, fp, k + 1) == Toggle(Toggle(Partial(N, err, fp, k), fp[k].0), fp[k].1)
  {
    var s, s' := Partial(N, err, fp, k), Partial(N, err, fp, k + 1);
    var r := Toggle(Toggle(s, fp[k].0), fp[k].1);
    forall x | 0 <= x < N
      ensures s'[x] == if err[k] == 0 then s[x] else r[x]
    {
      TogglePoint(FlagCount(err, fp, k, x), fp[k], x);
    }
  }

  /** One step of the counting loop: the counts of the next qubit's pair go up by one. */
  lemma CountsStep(N: nat, err: seq<nat>, fp: seq<(nat, nat)>, k: nat)
    requires k < |err| && k < |fp| && PairsBelow(N, fp)
    ensures err[k] == 0 ==> Counts(N, err, fp, k + 1) == Counts(N, err, fp, k)
    ensures err[k] != 0 ==> Counts(N, err, fp, k + 1) == Bumped(Counts(N, err, fp, k), fp[k].0, fp[k].1)
  {
    var c, c' := Counts(N, err, fp, k), Counts(N, err, fp, k + 1);
    var b := Bumped(c, fp[k].0, fp[k].1);
    assert forall x :: 0 <= x < N ==> c'[x] == if err[k] == 0 then c[x] else b[x];
  }
  /** PartialStep for the pairs of the lattice: qubit n flips the parities of Flips(L, n, t). */
  lemma FlipStep(L: nat, err: seq<nat>, t: ErrorType, n: nat)
    requires L >= 1 && n < 2 * L * L <= |err|
    ensures var fp, p := FlagPairs(L, t), Flips(L, n, t);
            Partial(L * L, err, fp, n + 1) ==
              if err[n] == 0 then Partial(L * L, err, fp, n) else Toggle(Toggle(Partial(L * L, err, fp, n), p.0), p.1)
  {
    var fp := FlagPairs(L, t);
    PartialStep(L * L, err, fp, n);
    assert fp[n] == Flips(L, n, t);
  }

  /** CountsStep for the pairs of the lattice: qubit n adds one to the counts of Flips(L, n, t). */
  lemma CountStep(L: nat, err: seq<nat>, t: ErrorType, n: nat)
    requires L >= 1 && n < 2 * L * L <= |err|
    ensures var fp, p := FlagPairs(L, t), Flips(L, n, t);
            Counts(L * L, err, fp, n + 1) ==
              if err[n] == 0 then Counts(L * L, err, fp, n) else Bumped(Counts(L * L, err, fp, n), p.0, p.1)
  {
    var fp := FlagPairs(L, t);
    CountsStep(L * L, err, fp, n);
    assert fp[n] == Flips(L, n, t);
  }

  // ---------------------------------------------------------------------
  // The XOR form (uint32 copy)

  /**
   * z_error_to_syndrome_x: every erroneous qubit flips both endpoints of its
   * edge; the result is the syndrome on the vertices of the lattice.
   */
  method ZErrorToSyndromeX(L: nat, zError: seq<nat>) returns (syndromes: seq<nat>)
    requires L >= 1 && |zError| >= 2 * L * L
    ensures syndromes == Syndrome(L, zError, Z)
  {
    var s := new nat[L * L](_ => 0);
    PartialStart(L * L, zError, FlagPairs(L, Z));
    for n := 0 to 2 * L * L
      invariant s[..] == Partial(L * L, zError, FlagPairs(L, Z), n)
    {
      FlipStep(L, zError, Z, n);
      if zError[n] != 0 {
        FlipEdge(L, n, s);
      }
    }
    syndromes := s[..];
  }

  /**
   * x_error_to_syndrome_z: on the dual lattice, a horizontal qubit flips its
   * left endpoint and the vertex above it, a vertical qubit its lower
   * endpoint and the vertex west of it.
   */
  method XErrorToSyndromeZ(L: nat, xError: seq<nat>) returns (syndromes: seq<nat>)
    requires L >= 1 && |xError| >= 2 * L * L
    ensures syndromes == Syndrome(L, xError, X)
  {
    var s := new nat[L * L](_ => 0);
    PartialStart(L * L, xError, FlagPairs(L, X));
    for n := 0 to 2 * L * L
      invariant s[..] == Partial(L * L, xError, FlagPairs(L, X), n)
    {
      FlipStep(L, xError, X, n);
      if xError[n] != 0 {
        FlipDual(L, n, s);
      }
    }
    syndromes := s[..];
  }

  /** The body of the loop of z_error_to_syndrome_x for an erroneous qubit n: both endpoints of its edge flip. */
  method FlipEdge(L: nat, n: nat, s: array<nat>)
    requires L >= 1 && s.Length == L * L
    modifies s
    ensures s[..] == Toggle(Toggle(old(s[..]), Flips(L, n, Z).0), Flips(L, n, Z).1)
  {
    var e := ToEdge(L, n);
    TogglePair(s, e.u, e.v);
  }

  /** The two flips of one erroneous qubit: syndromes_array[a] ^= 1, then syndromes_array[b] ^= 1. */
  method TogglePair(s: array<nat>, a: nat, b: nat)
    requires a < s.Length && b < s.Length
    modifies s
    ensures s[..] == Toggle(Toggle(old(s[..]), a), b)
  {
    s[a] := Xor1(s[a]);
    s[b] := Xor1(s[b]);
  }

  /**
   * The body of the loop of x_error_to_syndrome_z for an erroneous qubit n:
   * a horizontal edge flips its left endpoint and the vertex at (row - 1, col)
   * from it, a vertical edge its lower endpoint and the vertex at (row, col - 1).
   */
  method FlipDual(L: nat, n: nat, s: array<nat>)
    requires L >= 1 && s.Length == L * L
    modifies s
    ensures s[..] == Toggle(Toggle(old(s[..]), Flips(L, n, X).0), Flips(L, n, X).1)
  {
    var e := ToEdge(L, n);
    if IsHorizontal(L, e) {
      var u := Left(e);
      var rc := VertexToCoord(L, u);
      var w := ToVertexIndex(L, rc.0 as int - 1, rc.1);
      TogglePair(s, u, w);
    } else {
      var u := Lower(L, e);
      var rc := VertexToCoord(L, u);
      var w := ToVertexIndex(L, rc.0, rc.1 as int - 1);
      TogglePair(s, u, w);
    }
  }

  /** errors_to_syndromes: X errors are read on the dual lattice, Z errors on the lattice. */
  method ErrorsToSyndromes(L: nat, error: seq<nat>, t: ErrorType) returns (syndromes: seq<nat>)
    requires L >= 1 && |error| >= 2 * L * L
    ensures syndromes == Syndrome(L, error, t)
  {
    match t
    case X => syndromes := XErrorToSyndromeZ(L, error);
    case Z => syndromes := ZErrorToSyndromeX(L, error);
  }

  // ---------------------------------------------------------------------
  // The counting form (int copies)

  /** The final pass `u %= 2` of the counting copies turns the counts into the syndrome. */
  method ReduceCounts(L: nat, err: seq<nat>, t: ErrorType, s: array<int>)
    requires L >= 1 && |err| >= 2 * L * L && s[..] == Counts(L * L, err, FlagPairs(L, t), 2 * L * L)
    modifies s
    ensures s[..] == Syndrome(L, err, t)
  {
    for i := 0 to L * L
      invariant forall x :: 0 <= x < i ==> s[x] == Syndrome(L, err, t)[x]
      invariant forall x :: i <= x < L * L ==> s[x] == Counts(L * L, err, FlagPairs(L, t), 2 * L * L)[x]
    {
      s[i] := s[i] % 2;
    }
  }

  /** The two counts of one erroneous qubit: syndromes_array[a] += 1, then syndromes_array[b] += 1. */
  method BumpPair(s: array<int>, a: nat, b: nat)
    requires a < s.Length && b < s.Length
    modifies s
    ensures s[..] == Bumped(old(s[..]), a, b)
  {
    s[a] := s[a] + 1;
    s[b] := s[b] + 1;
  }

  /** The body of the loop of z_error_to_syndrome_x in the int copies: count instead of flip. */
  method CountEdge(L: nat, n: nat, s: array<int>)
    requires L >= 1 && s.Length == L * L
    modifies s
    ensures s[..] == Bumped(old(s[..]), Flips(L, n, Z).0, Flips(L, n, Z).1)
  {
    var e := ToEdge(L, n);
    BumpPair(s, e.u, e.v);
  }

  /** The body of the loop of x_error_to_syndrome_z in the int copies: count instead of flip. */
  method CountDual(L: nat, n: nat, s: array<int>)
    requires L >= 1 && s.Length == L * L
    modifies s
    ensures s[..] == Bumped(old(s[..]), Flips(L, n, X).0, Flips(L, n, X).1)
  {
    var e := ToEdge(L, n);
    if IsHorizontal(L, e) {
      var u := Left(e);
      var rc := VertexToCoord(L, u);
      var w := ToVertexIndex(L, rc.0 as int - 1, rc.1);
      BumpPair(s, u, w);
    } else {
      var u := Lower(L, e);
      var rc := VertexToCoord(L, u);
      var w := ToVertexIndex(L, rc.0, rc.1 as int - 1);
      BumpPair(s, u, w);
    }
  }

  /** z_error_to_syndrome_x of the int copies: count the endpoint hits, then reduce modulo 2. */
  method ZErrorToSyndromeXCounting(L: nat, zError: seq<nat>) returns (syndromes: seq<int>)
    requires L >= 1 && |zError| >= 2 * L * L
    ensures syndromes == Syndrome(L, zError, Z)
  {
    var s := new int[L * L](_ => 0);
    PartialStart(L * L, zError, FlagPairs(L, Z));
    for n := 0 to 2 * L * L
      invariant s[..] == Counts(L * L, zError, FlagPairs(L, Z), n)
    {
      CountStep(L, zError, Z, n);
      if zError[n] != 0 {
        CountEdge(L, n, s);
      }
    }
    ReduceCounts(L, zError, Z, s);
    syndromes := s[..];
  }

  /** x_error_to_syndrome_z of the int copies: count the dual-lattice hits, then reduce modulo 2. */
  method XErrorToSyndromeZCounting(L: nat, xError: seq<nat>) returns (syndromes: seq<int>)
    requires L >= 1 && |xError| >= 2 * L * L
    ensures syndromes == Syndrome(L, xError, X)
  {
    var s := new int[L * L](_ => 0);
    PartialStart(L * L, xError, FlagPairs(L, X));
    for n := 0 to 2 * L * L
      invariant s[..] == Counts(L * L, xError, FlagPairs(L, X), n)
    {
      CountStep(L, xError, X, n);
      if xError[n] != 0 {
        CountDual(L, n, s);
      }
    }
    ReduceCounts(L, xError, X, s);
    syndromes := s[..];
  }


  // ---------------------------------------------------------------------
  // Properties of the syndrome map

  /** The sum of the entries of a sequence. */
  function Total(s: seq<nat>): nat {
    if |s| == 0 then 0 else Total(s[..|s| - 1]) + s[|s| - 1]
  }

  lemma {:induction false} TotalUpdate(s: seq<nat>, i: nat, a: nat)
    requires i < |s|
    ensures Total(s[i := a]) + s[i] == Total(s) + a
    decreases |s|
  {
    var n := |s| - 1;
    if i < n {
      assert s[i := a][..n] == s[..n][i := a];
      TotalUpdate(s[..n], i, a);
    } else {
      assert s[i := a][..n] == s[..n];
    }
  }

  /** Flipping one bit changes the parity of the total. */
  lemma ToggleParity(s: seq<nat>, i: nat)
    requires i < |s|
    ensures Total(Toggle(s, i)) % 2 != Total(s) % 2
  {
    TotalUpdate(s, i, Xor1(s[i]));
    OneApart(Total(Toggle(s, i)), Total(s), s[i], Xor1(s[i]));
  }

  lemma OneApart(a: int, b: int, c: int, d: int)
    requires a + c == b + d && (d == c + 1 || d + 1 == c)
    ensures a % 2 != b % 2
  {
  }

  lemma {:induction false} ZeroTotal(s: seq<nat>)
    requires Zero(s)
    ensures Total(s) == 0
    decreases |s|
  {
    if |s| > 0 {
      ZeroTotal(s[..|s| - 1]);
    }
  }

  /** Every prefix of the chain flags an even number of vertices: each error flags two of them, or one twice. */
  lemma {:induction false} PartialEven(N: nat, err: seq<nat>, fp: seq<(nat, nat)>, k: nat)
    requires k <= |err| && k <= |fp| && PairsBelow(N, fp)
    ensures Total(Partial(N, err, fp, k)) % 2 == 0
  {
    if k == 0 {
      PartialStart(N, err, fp);
      ZeroTotal(Partial(N, err, fp, 0));
    } else {
      PartialEven(N, err, fp, k - 1);
      PartialStep(N, err, fp, k - 1);
      if err[k - 1] != 0 {
        var s := Partial(N, err, fp, k - 1);
        ToggleParity(s, fp[k - 1].0);
        ToggleParity(Toggle(s, fp[k - 1].0), fp[k - 1].1);
      }
    }
  }

  /** The number of flagged vertices is even. */
  lemma SyndromeWeightEven(L: nat, err: seq<nat>, t: ErrorType)
    requires L >= 1 && |err| >= 2 * L * L
    ensures Total(Syndrome(L, err, t)) % 2 == 0
  {
    PartialEven(L * L, err, FlagPairs(L, t), 2 * L * L);
  }

  /** An error vector with no error. */
  predicate NoError(err: seq<nat>) {
    forall n :: 0 <= n < |err| ==> err[n] == 0
  }

  lemma {:induction false} CountOfNoError(err: seq<nat>, fp: seq<(nat, nat)>, k: nat, x: nat)
    requires k <= |err| && k <= |fp| && NoError(err)
    ensures FlagCount(err, fp, k, x) == 0
  {
    if k > 0 {
      CountOfNoError(err, fp, k - 1, x);
    }
  }

  /** No error, no syndrome. */
  lemma SyndromeOfNoError(L: nat, err: seq<nat>, t: ErrorType)
    requires L >= 1 && |err| >= 2 * L * L && NoError(err)
    ensures Zero(Syndrome(L, err, t))
  {
    forall x | 0 <= x < L * L {
      CountOfNoError(err, FlagPairs(L, t), 2 * L * L, x);
    }
  }

  /** The qubit-wise sum modulo 2 of two error vectors. */
  function AddErrors(e1: seq<nat>, e2: seq<nat>): (r: seq<nat>)
    requires |e1| == |e2|
    ensures |r| == |e1| && Bits(r)
  {
    seq(|e1|, n requires 0 <= n < |e1| => (e1[n] + e2[n]) % 2)
  }

  /** The parity step of DegLinear, on plain numbers. */
  lemma ParityStep(a: nat, b: nat, c: nat, a': nat, b': nat, c': nat, h1: nat, h2: nat, h3: nat)
    requires (a + b) % 2 == c % 2
    requires a' == a + h1 && b' == b + h2 && c' == c + h3
    requires h3 == h1 + h2 || (h1 == h2 && h3 == 0)
    ensures (a' + b') % 2 == c' % 2
  {
  }

  /** The hits one qubit adds for e1, e2 and their sum: the sum's are both of the others', or none when both err. */
  lemma HitsOfSum(a: nat, b: nat, h: nat)
    requires a <= 1 && b <= 1
    ensures var h3 := if (a + b) % 2 == 0 then 0 else h;
            var h1, h2 := (if a == 0 then 0 else h), (if b == 0 then 0 else h);
            h3 == h1 + h2 || (h1 == h2 && h3 == 0)
  {
  }

  lemma {:induction false} CountLinear(e1: seq<nat>, e2: seq<nat>, fp: seq<(nat, nat)>, k: nat, x: nat)
    requires |e1| == |e2| && k <= |e1| && k <= |fp| && Bits(e1) && Bits(e2)
    ensures (FlagCount(e1, fp, k, x) + FlagCount(e2, fp, k, x)) % 2 == FlagCount(AddErrors(e1, e2), fp, k, x) % 2
  {
    if k > 0 {
      var e3 := AddErrors(e1, e2);
      var j := k - 1;
      CountLinear(e1, e2, fp, j, x);
      var h := Hits(fp[j], x);
      HitsOfSum(e1[j], e2[j], h);
      ParityStep(FlagCount(e1, fp, j, x), FlagCount(e2, fp, j, x), FlagCount(e3, fp, j, x),
                 FlagCount(e1, fp, k, x), FlagCount(e2, fp, k, x), FlagCount(e3, fp, k, x),
                 if e1[j] == 0 then 0 else h, if e2[j] == 0 then 0 else h, if e3[j] == 0 then 0 else h);
    }
  }

  lemma ModSum(a: nat, b: nat, c: nat)
    requires (a + b) % 2 == c % 2
    ensures c % 2 == (a % 2 + b % 2) % 2
  {
  }

  /** The parities of a sum of errors are the sums of their parities, vertex by vertex. */
  lemma PartialLinear(N: nat, e1: seq<nat>, e2: seq<nat>, fp: seq<(nat, nat)>, k: nat)
    requires |e1| == |e2| && k <= |e1| && k <= |fp| && Bits(e1) && Bits(e2)
    ensures forall x :: 0 <= x < N ==>
              Partial(N, AddErrors(e1, e2), fp, k)[x] == (Partial(N, e1, fp, k)[x] + Partial(N, e2, fp, k)[x]) % 2
  {
    forall x | 0 <= x < N
      ensures Partial(N, AddErrors(e1, e2), fp, k)[x] == (Partial(N, e1, fp, k)[x] + Partial(N, e2, fp, k)[x]) % 2
    {
      CountLinear(e1, e2, fp, k, x);
      ModSum(FlagCount(e1, fp, k, x), FlagCount(e2, fp, k, x), FlagCount(AddErrors(e1, e2), fp, k, x));
    }
  }

  /** The syndrome map is linear over GF(2): the syndrome of a sum of errors is the sum of their syndromes. */
  lemma SyndromeLinear(L: nat, e1: seq<nat>, e2: seq<nat>, t: ErrorType)
    requires L >= 1 && |e1| == |e2| >= 2 * L * L && Bits(e1) && Bits(e2)
    ensures forall x :: 0 <= x < L * L ==>
              Syndrome(L, AddErrors(e1, e2), t)[x] == (Syndrome(L, e1, t)[x] + Syndrome(L, e2, t)[x]) % 2
  {
    PartialLinear(L * L, e1, e2, FlagPairs(L, t), 2 * L * L);
  }

  /** An error on qubit n alone. */
  function SingleError(size: nat, n: nat): (err: seq<nat>)
    ensures |err| == size && Bits(err)
  {
    seq(size, i requires 0 <= i < size => if i == n then 1 else 0)
  }

  lemma {:induction false} CountOfSingle(size: nat, n: nat, fp: seq<(nat, nat)>, k: nat, x: nat)
    requires k <= size && k <= |fp|
    ensures FlagCount(SingleError(size, n), fp, k, x) == if n < k then Hits(fp[n], x) else 0
  {
    if k > 0 {
      CountOfSingle(size, n, fp, k - 1, x);
    }
  }

  /** A single error flags exactly the two vertices of its pair (none when both are the same vertex). */
  lemma SingleErrorSyndrome(L: nat, size: nat, n: nat, t: ErrorType)
    requires L >= 1 && 2 * L * L <= size && n < 2 * L * L
    ensures forall x :: 0 <= x < L * L ==> Syndrome(L, SingleError(size, n), t)[x] == Hits(Flips(L, n, t), x) % 2
  {
    var fp := FlagPairs(L, t);
    assert fp[n] == Flips(L, n, t);
    forall x | 0 <= x < L * L {
      CountOfSingle(size, n, fp, 2 * L * L, x);
    }
  }

  /** On the lattice (L >= 3) the two vertices a Z error flags are the distinct endpoints of its edge. */
  lemma ZFlipsDistinct(L: nat, n: nat)
    requires L >= 3 && n < 2 * L * L
    ensures Flips(L, n, Z).0 != Flips(L, n, Z).1
  {
    Lattice2D.ToEdgeEndpoints(L, n);
    Lattice2D.NoSelfLoop(L, ToEdge(L, n).u);
  }

  /**
   * The decoder's promise, read back on the error: when a correction explains
   * the syndrome of an error (every vertex ends at 0), error chain and
   * correction together meet every vertex an even number of times, so they
   * form a closed chain.
   */
  lemma CorrectedChainClosed(L: nat, err: seq<nat>, t: ErrorType, corrections: seq<Edge>, final: seq<nat>)
    requires L >= 1 && |err| >= 2 * L * L && |final| == L * L
    requires Boundary(L * L, Syndrome(L, err, t), corrections, final) && Zero(final)
    ensures forall x :: 0 <= x < L * L ==> Deg(ErrorChain(L, err, t) + corrections, x) % 2 == 0
  {
    var fp, k := FlagPairs(L, t), 2 * L * L;
    var c, s := ErrorChain(L, err, t), Syndrome(L, err, t);
    forall x | 0 <= x < L * L
      ensures Deg(c + corrections, x) % 2 == 0
    {
      DegConcat(c, corrections, x);
      ChainDeg(err, fp, k, x);
      assert s[x] == FlagCount(err, fp, k, x) % 2;
      ClosedAt(FlagCount(err, fp, k, x), Deg(corrections, x), final[x]);
    }
  }

  lemma ClosedAt(c: nat, d: nat, f: nat)
    requires f == 0 && f % 2 == (c % 2 + d) % 2
    ensures (c + d) % 2 == 0
  {
  }
}
