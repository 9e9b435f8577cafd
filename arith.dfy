// Small facts about multiplication, division and remainder by a positive
// modulus, each proved in isolation so that callers never ask the solver
// for nonlinear reasoning by itself.

module Arith {

  lemma MulAtLeast(d: int, m: int)
    requires m > 0
    ensures d >= 1 ==> d * m >= m
    ensures d <= -1 ==> d * m <= -m
    ensures d == 0 ==> d * m == 0
  {
  }

  /** Division with remainder is unique. */
  lemma DivModUnique(a: int, m: int, q: int, r: int)
    requires m > 0 && 0 <= r < m && a == q * m + r
    ensures a / m == q && a % m == r
  {
    var q', r' := a / m, a % m;
    assert a == q' * m + r';
    assert (q - q') * m == r' - r;
    MulAtLeast(q - q', m);
  }

  /** The quotient of a natural number by a positive one is a natural number no larger. */
  lemma DivBounds(x: int, y: int)
    requires 0 <= x && y >= 1
    ensures 0 <= x / y <= x && 0 <= x % y < y
  {
    var q := x / y;
    assert x == q * y + x % y;
    MulAtLeast(q, y);
  }

  /** Multiplication by a positive number is strictly monotone. */
  lemma MulLess(a: int, b: int, m: int)
    requires m > 0 && a * m < b * m
    ensures a < b
  {
    assert (b - a) * m == b * m - a * m;
    MulAtLeast(b - a, m);
  }

  lemma MulLeq(a: int, b: int, m: int)
    requires m >= 0 && a <= b
    ensures a * m <= b * m
  {
    assert (b - a) * m == b * m - a * m;
  }

  /** The row-major index of a cell of an L x L grid, and its two coordinates back. */
  lemma Cell(L: int, r: int, c: int)
    requires 0 <= r < L && 0 <= c < L
    ensures 0 <= r * L + c < L * L
    ensures (r * L + c) / L == r && (r * L + c) % L == c
  {
    MulLeq(r, L - 1, L);
    assert (L - 1) * L == L * L - L;
    DivModUnique(r * L + c, L, r, c);
  }

  /** Every index below L*L is a cell: its quotient by L is a row below L. */
  lemma Decompose(L: int, v: int)
    requires L >= 1 && 0 <= v < L * L
    ensures 0 <= v / L < L && 0 <= v % L < L
    ensures v == (v / L) * L + v % L
  {
    var q := v / L;
    assert v == q * L + v % L;
    assert q * L <= v;
    if q >= L {
      MulLeq(L, q, L);
    }
  }

  /** (x + L) % L, the torus coordinate of x, for x in [-L, 2L). */
  lemma WrapCoord(L: int, x: int)
    requires L >= 1 && -L <= x < 2 * L
    ensures x < 0 ==> (x + L) % L == x + L
    ensures 0 <= x < L ==> (x + L) % L == x
    ensures L <= x ==> (x + L) % L == x - L
  {
    if x < 0 {
      DivModUnique(x + L, L, 0, x + L);
    } else if x < L {
      DivModUnique(x + L, L, 1, x);
    } else {
      DivModUnique(x + L, L, 2, x - L);
    }
  }

  /** Stepping a torus coordinate back by one and forward by one returns it. */
  lemma PredSucc(L: int, x: int)
    requires 0 <= x < L
    ensures 0 <= (x - 1 + L) % L < L
    ensures ((x - 1 + L) % L + 1) % L == x
  {
    WrapCoord(L, x - 1);
    if x >= 1 {
      DivModUnique(x, L, 0, x);
    } else {
      DivModUnique(L, L, 1, 0);
    }
  }

  /** Stepping a torus coordinate by d and then by -d returns it. */
  lemma StepBackCoord(L: int, x: int, d: int)
    requires 0 <= x < L && -1 <= d <= 1
    ensures 0 <= (x + d + L) % L < L
    ensures ((x + d + L) % L - d + L) % L == x
  {
    WrapCoord(L, x + d);
    var y := (x + d + L) % L;
    WrapCoord(L, y - d);
  }

  /** The index of the cell above (r, c) on an L x L torus, for L >= 3. */
  lemma UpIndex(L: int, r: int, c: int)
    requires L >= 3 && 0 <= r < L && 0 <= c < L
    ensures r >= 1 ==> ((r - 1 + L) % L) * L + (c + L) % L == r * L + c - L
    ensures r == 0 ==> ((r - 1 + L) % L) * L + (c + L) % L >= r * L + c + 2 * L
  {
    WrapCoord(L, r - 1);
    WrapCoord(L, c);
    if r >= 1 {
      assert (r - 1) * L == r * L - L;
    } else {
      MulLeq(2, L - 1, L);
    }
  }

  /** The index of the cell east of (r, c) on an L x L torus. */
  lemma EastIndex(L: int, r: int, c: int)
    requires L >= 1 && 0 <= r < L && 0 <= c < L
    ensures c < L - 1 ==> ((r + L) % L) * L + (c + 1 + L) % L == r * L + c + 1
    ensures c == L - 1 ==> ((r + L) % L) * L + (c + 1 + L) % L == r * L + c - (L - 1)
  {
    WrapCoord(L, r);
    WrapCoord(L, c + 1);
  }

  /** One row up and one column left, then one step down-right, is the cell itself. */
  lemma DiagonalIndex(L: int, r: int, c: int)
    requires 0 <= r < L && 0 <= c < L
    ensures L * (((r - 1 + L) % L + 1) % L) + ((c - 1 + L) % L + 1) % L == r * L + c
  {
    PredSucc(L, r);
    PredSucc(L, c);
  }

  /** Adding a multiple of the modulus leaves the remainder unchanged. */
  lemma ModShift(a: int, k: int, m: int)
    requires m > 0
    ensures (a + k * m) % m == a % m
    ensures (a + k * m) / m == a / m + k
  {
    var q, r := a / m, a % m;
    assert a == q * m + r;
    assert a + k * m == (q + k) * m + r;
    DivModUnique(a + k * m, m, q + k, r);
  }

  /** Squaring is strictly monotone on non-negative numbers. */
  lemma SquareLess(a: int, b: int)
    requires 0 <= a && 0 <= b && a * a < b * b
    ensures a < b
  {
    assert (b - a) * (b + a) == b * b - a * a;
    assert b + a > 0;
    MulLess(0, b - a, b + a);
  }

  /** The row of an index below m * L is below m. */
  lemma RowBelow(i: int, L: int, m: int)
    requires L >= 1 && 0 <= i < m * L
    ensures i / L < m
  {
    assert (i / L) * L <= i;
    MulLess(i / L, m, L);
  }

  /** The indices L*L .. 2*L*L - 1 form the second block of L*L. */
  lemma SecondBlock(L: int, v: int)
    requires 0 <= v < L * L
    ensures 2 * L * L == L * L + L * L
    ensures v < 2 * L * L && L * L + v < 2 * L * L
  {
  }

  /** x % 2 of a sum depends only on the parities of the summands. */
  lemma ParityOfSum(a: int, b: int)
    ensures (a + b) % 2 == (a % 2 + b % 2) % 2
  {
  }

  /** A step of one along a torus coordinate always moves, once L >= 2. */
  lemma StepMoves(L: int, x: int, d: int)
    requires L >= 2 && 0 <= x < L && (d == 1 || d == -1)
    ensures (x + d + L) % L != x
  {
    WrapCoord(L, x + d);
  }

  /** From L = 3 on, one step back and one step forward around a cycle of length L land apart. */
  lemma StepsApart(L: int, x: int)
    requires L >= 3 && 0 <= x < L
    ensures (x - 1 + L) % L != (x + 1 + L) % L
  {
    WrapCoord(L, x - 1);
    WrapCoord(L, x + 1);
  }

  // ---------------------------------------------------------------------
  // Layers of A = L*L vertices and blocks of 3A qubits (the cubic lattice)

  /** A vertex index is h layers of A = L*L vertices plus an index p inside its layer. */
  lemma LayerSplit(L: int, A: int, v: int)
    requires L >= 1 && A == L * L && 0 <= v
    ensures A >= L && 0 <= v / A && 0 <= v % A < A && v == (v / A) * A + v % A
    ensures (v / L) % L == (v % A) / L && v % L == (v % A) % L
  {
    MulAtLeast(L, L);
    var h, p := v / A, v % A;
    assert v == h * A + p;
    assert h * A == (h * L) * L;
    ModShift(p, h * L, L);
    Decompose(L, p);
    ModShift(p / L, h, L);
    DivModUnique(p / L, L, 0, p / L);
  }

  /** A vertex below L^3 lies in a layer below L. */
  lemma LayerBelow(L: int, A: int, v: int)
    requires L >= 1 && A == L * L && 0 <= v < L * L * L
    ensures 0 <= v / A < L
  {
    MulAtLeast(L, L);
    assert L * L * L == L * A;
    BlockBelow(A, L, v);
  }

  /** The layer offset h * A written in the two ways the sources write it. */
  lemma LayerOffset(L: int, A: int, h: int)
    requires A == L * L
    ensures h * L * L == h * A && h * (L * L) == h * A
  {
  }

  /** Layer h, offset p is the vertex h * A + p, and it lies below L layers when h does. */
  lemma LayerIndex(L: int, A: int, h: int, p: int)
    requires L >= 1 && A == L * L && 0 <= h && 0 <= p < A
    ensures (h * A + p) / A == h && (h * A + p) % A == p
    ensures h < L ==> h * A + p < L * L * L
    ensures (h + 1) * A + p == h * A + p + A
  {
    DivModUnique(h * A + p, A, h, p);
    if h < L {
      MulLeq(h, L - 1, A);
    }
  }

  /** The qubits of layer h form the block 3Ah .. 3Ah + 3A - 1. */
  lemma QubitBlock(L: int, A: int, h: int, r: int)
    requires L >= 1 && A == L * L && 0 <= h && 0 <= r < 3 * A
    ensures 3 * L * L * h == 3 * A * h && 3 * L * L == 3 * A && 2 * L * L == 2 * A
    ensures (3 * A * h + r) / (3 * A) == h && (3 * A * h + r) % (3 * A) == r
  {
    DivModUnique(3 * A * h + r, 3 * A, h, r);
  }

  /** The qubit count 3L^3 - L^2 of the cubic lattice, written with A = L*L. */
  lemma QubitCount(L: int, A: int)
    requires A == L * L
    ensures 3 * L * L * L - L * L == L * (3 * A) - A
  {
    assert L * L * L == A * L;
  }

  /** An index below N blocks of size B lies in a block below N. */
  lemma BlockBelow(B: int, N: int, i: int)
    requires B > 0 && 0 <= i < N * B
    ensures 0 <= i / B < N
  {
    assert (i / B) * B <= i;
    MulLess(i / B, N, B);
  }

  /**
   * A qubit below L * 3A - A lies in a block below L; if it is one of the
   * time-like qubits of its block, the block is below L - 1.
   */
  lemma QubitLayer(L: int, A: int, i: int)
    requires L >= 1 && A >= 1 && 0 <= i < L * (3 * A) - A
    ensures 0 <= i / (3 * A) < L
    ensures i % (3 * A) >= 2 * A ==> i / (3 * A) < L - 1
  {
    var B := 3 * A;
    BlockBelow(B, L, i);
    var h, r := i / B, i % B;
    assert i == h * B + r;
    if r >= 2 * A {
      assert (L - 1) * B == L * B - B;
      MulLess(h, L - 1, B);
    }
  }

  /**
   * A qubit below 3L^3 - L^2 is 3L^2 h + r for the block h = i / (3L^2) below L
   * and the slot r = i % (3L^2); a time-like slot r >= 2L^2 puts h below L - 1.
   */
  lemma QubitDecompose(L: int, i: int)
    requires L >= 1 && 0 <= i < 3 * L * L * L - L * L
    ensures 0 <= i / (3 * L * L) < L && 0 <= i % (3 * L * L) < 3 * L * L
    ensures i == 3 * L * L * (i / (3 * L * L)) + i % (3 * L * L)
    ensures i % (3 * L * L) >= 2 * L * L ==> i / (3 * L * L) < L - 1
  {
    var A := L * L;
    MulAtLeast(L, L);
    QubitCount(L, A);
    QubitLayer(L, A, i);
    assert 3 * L * L == 3 * A;
  }

  /** The time-like qubit formula 3L^2 h + 2L^2 + L row + col at the coordinates of offset p < A. */
  lemma TimeQubitIndex(L: int, A: int, h: int, p: int)
    requires L >= 1 && A == L * L && 0 <= p < A
    ensures 3 * L * L * h + 2 * L * L + L * ((p / L) % L) + p % L == 3 * A * h + 2 * A + p
  {
    Decompose(L, p);
    DivModUnique(p / L, L, 0, p / L);
  }

  /** Space-like qubits r < 2A of a layer below L lie below 3L^3 - L^2. */
  lemma SpaceQubitBound(L: int, A: int, h: int, r: int)
    requires L >= 1 && A == L * L && 0 <= h < L && 0 <= r < 2 * A
    ensures 3 * A * h + r < 3 * L * L * L - L * L
  {
    MulLeq(h, L - 1, 3 * A);
    assert (L - 1) * (3 * A) == 3 * L * L * L - 3 * A;
  }

  /** Time-like qubits 3Ah + 2A + p of a layer below L - 1 lie below 3L^3 - L^2. */
  lemma TimeQubitBound(L: int, A: int, h: int, p: int)
    requires L >= 1 && A == L * L && 0 <= h < L - 1 && 0 <= p < A
    ensures 3 * A * h + 2 * A + p < 3 * L * L * L - L * L
  {
    MulLeq(h, L - 2, 3 * A);
    assert (L - 2) * (3 * A) == 3 * L * L * L - 6 * A;
  }
}
