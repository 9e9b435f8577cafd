// Repeated syndrome measurements: calc_syndromes stacks the syndromes of L
// error columns layer by layer, add_measurement_noise adds measurement
// errors, and layer_syndrome_diff turns the stacked syndromes into the
// layer-to-layer differences the 3D decoder reads.
//
// A stack of L layers of N = L*L vertices is a flat sequence: vertex x of
// layer h sits at index h*N + x, which is also the column-major layout of
// the N x L matrix the source maps over the vector.

module Layers {
  import opened Edges
  import opened Toric
  import opened Syndromes
  import Arith

  // ---------------------------------------------------------------------
  // calc_syndromes

  /** The concatenation of a list of blocks, in order. */
  function Stack(bs: seq<seq<nat>>): seq<nat> {
    if |bs| == 0 then [] else Stack(bs[..|bs| - 1]) + bs[|bs| - 1]
  }

  /** Every block has N entries. */
  predicate Uniform(bs: seq<seq<nat>>, N: nat) {
    forall h :: 0 <= h < |bs| ==> |bs[h]| == N
  }

  lemma {:induction false} StackLength(bs: seq<seq<nat>>, N: nat)
    requires Uniform(bs, N)
    ensures |Stack(bs)| == |bs| * N
  {
    if |bs| > 0 {
      StackLength(bs[..|bs| - 1], N);
    }
  }

  /** The offsets of consecutive blocks of N entries. */
  lemma Offsets(k: int, N: int, h: int)
    requires 0 <= h < k && N >= 0
    ensures 0 <= h * N && h * N + N <= k * N && (h + 1) * N == h * N + N
    ensures h >= 1 ==> N <= h * N && (h - 1) * N == h * N - N
  {
    Arith.MulLeq(h + 1, k, N);
    Arith.MulLeq(0, h, N);
    if h >= 1 {
      Arith.MulLeq(1, h, N);
    }
  }

  lemma SliceLeft(x: seq<nat>, y: seq<nat>, a: nat, b: nat)
    requires a <= b <= |x|
    ensures (x + y)[a..b] == x[a..b]
  {
  }

  lemma SliceRight(x: seq<nat>, y: seq<nat>)
    ensures (x + y)[|x|..|x| + |y|] == y
  {
  }

  /** Block h of a stack of uniform blocks sits at [h*N, h*N + N). */
  lemma {:induction false} StackBlock(bs: seq<seq<nat>>, N: nat, h: nat)
    requires Uniform(bs, N) && h < |bs|
    ensures h * N + N <= |Stack(bs)| && Stack(bs)[h * N .. h * N + N] == bs[h]
  {
    var k := |bs| - 1;
    var init := bs[..k];
    StackLength(bs, N);
    StackLength(init, N);
    Offsets(|bs|, N, h);
    if h < k {
      StackBlock(init, N, h);
      Offsets(k, N, h);
      SliceLeft(Stack(init), bs[k], h * N, h * N + N);
    } else {
      SliceRight(Stack(init), bs[k]);
    }
  }

  /** The stack of the first h + 1 blocks extends the stack of the first h by block h. */
  lemma StackSnoc(bs: seq<seq<nat>>, h: nat)
    requires h < |bs|
    ensures Stack(bs[..h + 1]) == Stack(bs[..h]) + bs[h]
  {
    assert bs[..h + 1][..h] == bs[..h];
  }

  /** Copying b into a at off leaves a prefix that ends with b. */
  lemma SplicePrefix(a: seq<nat>, a': seq<nat>, off: nat, b: seq<nat>)
    requires off + |b| <= |a| && a' == a[..off] + b + a[off + |b|..]
    ensures a'[..off + |b|] == a[..off] + b
  {
    assert a'[..off + |b|] == (a[..off] + b + a[off + |b|..])[..off + |b|];
  }

  /** The error columns the source reads: L of them, each with the 2L*L qubits of a layer. */
  predicate Columns(L: nat, errors: seq<seq<nat>>) {
    |errors| >= L && forall h :: 0 <= h < L ==> |errors[h]| >= 2 * L * L
  }

  /** The syndrome of each of the first L error columns. */
  function Layered(L: nat, errors: seq<seq<nat>>, t: ErrorType): (bs: seq<seq<nat>>)
    requires L >= 1 && Columns(L, errors)
    ensures |bs| == L && Uniform(bs, L * L)
  {
    seq(L, h requires 0 <= h < L => Syndrome(L, errors[h], t))
  }

  /** std::copy of a block into the vector at offset off. */
  method CopyBlock(a: array<nat>, off: nat, b: seq<nat>)
    requires off + |b| <= a.Length
    modifies a
    ensures a[..] == old(a[..])[..off] + b + old(a[..])[off + |b|..]
  {
    for j := 0 to |b|
      invariant a[..] == old(a[..])[..off] + b[..j] + old(a[..])[off + j..]
    {
      a[off + j] := b[j];
      assert b[..j + 1] == b[..j] + [b[j]];
    }
    assert b[..|b|] == b;
  }

  /**
   * calc_syndromes: the syndromes of the L error columns, stacked layer by
   * layer over the L*L*L vertices of the cubic lattice.
   */
  method CalcSyndromes(L: nat, errors: seq<seq<nat>>, t: ErrorType) returns (syndromes: seq<nat>)
    requires L >= 1 && Columns(L, errors)
    ensures syndromes == Stack(Layered(L, errors, t))
  {
    var N := L * L;
    ghost var bs := Layered(L, errors, t);
    var s := new nat[L * N](_ => 0);
    var off := 0;
    for h := 0 to L
      invariant off == h * N && s.Length == L * N
      invariant s[..off] == Stack(bs[..h])
    {
      Offsets(L, N, h);
      var layer := ErrorsToSyndromes(L, errors[h], t);
      ghost var before := s[..];
      CopyBlock(s, off, layer);
      SplicePrefix(before, s[..], off, layer);
      StackSnoc(bs, h);
      off := off + N;
    }
    assert bs[..L] == bs;
    assert s[..] == s[..off];
    syndromes := s[..];
  }

  /**
   * The stacked syndromes have L*L*L entries, and layer h, the indices
   * [h*L*L, (h+1)*L*L), is the syndrome of error column h.
   */
  lemma StackedLayers(L: nat, errors: seq<seq<nat>>, t: ErrorType, h: nat)
    requires L >= 1 && Columns(L, errors) && h < L
    ensures |Stack(Layered(L, errors, t))| == L * L * L
    ensures var s := Stack(Layered(L, errors, t));
            h * (L * L) + L * L <= |s| && s[h * (L * L) .. h * (L * L) + L * L] == Syndrome(L, errors[h], t)
  {
    var bs := Layered(L, errors, t);
    StackLength(bs, L * L);
    StackBlock(bs, L * L, h);
  }

  // ---------------------------------------------------------------------
  // add_measurement_noise (uint32 copy)

  /** The element-wise uint32 sum of the syndromes and the measurement errors. */
  function Noisy(s: seq<uint32>, m: seq<uint32>): (r: seq<uint32>)
    requires |s| == |m|
    ensures |r| == |s|
  {
    seq(|s|, i requires 0 <= i < |s| => Wrap(s[i] as int + m[i]))
  }

  /**
   * add_measurement_noise: adds the L*L x L measurement matrix, given in
   * column-major order, to the stacked syndromes; nothing is reduced.
   */
  method AddMeasurementNoise(L: nat, syndromes: array<uint32>, m: seq<uint32>)
    requires syndromes.Length == L * L * L && |m| == L * L * L
    modifies syndromes
    ensures syndromes[..] == Noisy(old(syndromes[..]), m)
  {
    for i := 0 to syndromes.Length
      invariant forall j :: 0 <= j < i ==> syndromes[j] == Wrap(old(syndromes[j]) as int + m[j])
      invariant forall j :: i <= j < syndromes.Length ==> syndromes[j] == old(syndromes[j])
    {
      syndromes[i] := Wrap(syndromes[i] as int + m[i]);
    }
  }

  /** 2^32 is even, so wrap-around never changes a parity. */
  lemma WrapParity(x: int)
    ensures Wrap(x) % 2 == x % 2
  {
    Arith.ModShift(x % U32, x / U32 * 0x8000_0000, 2);
  }

  /** A noisy measurement flips the parity of a syndrome exactly when its measurement error is odd. */
  lemma NoisyParity(s: seq<uint32>, m: seq<uint32>)
    requires |s| == |m|
    ensures forall i :: 0 <= i < |s| ==> Noisy(s, m)[i] % 2 == (s[i] as int + m[i]) % 2
  {
    forall i | 0 <= i < |s|
      ensures Noisy(s, m)[i] % 2 == (s[i] as int + m[i]) % 2
    {
      WrapParity(s[i] as int + m[i]);
    }
  }

  // ---------------------------------------------------------------------
  // layer_syndrome_diff, subtracting form (int copies)

  /** Entries lo <= i < hi less the entry one layer (N) below them; the rest unchanged. */
  function SubRange(s: seq<int>, lo: nat, hi: nat, N: nat): (r: seq<int>)
    requires N <= lo
    ensures |r| == |s|
  {
    seq(|s|, i requires 0 <= i < |s| => if lo <= i < hi then s[i] - s[i - N] else s[i])
  }

  /** The map (x + 2) % 2 of the int copies, with C's remainder. */
  function ShiftMod2(s: seq<int>): (r: seq<int>)
    ensures |r| == |s|
  {
    seq(|s|, i requires 0 <= i < |s| => CMod(s[i] + 2, 2))
  }

  /** The result of layer_syndrome_diff (int copies) on the stacked syndromes s of layers of N vertices. */
  function DiffSub(s: seq<int>, N: nat): (r: seq<int>)
    requires N <= |s|
    ensures |r| == |s|
  {
    ShiftMod2(SubRange(s, N, |s|, N))
  }

  /** `syndromes_map.col(h) -= syndromes_map.col(h - 1)` for the layer starting at base. */
  method SubColumn(s: array<int>, base: nat, N: nat)
    requires N <= base && base + N <= s.Length
    modifies s
    ensures s[..] == SubRange(old(s[..]), base, base + N, N)
  {
    for x := 0 to N
      invariant forall i :: 0 <= i < s.Length ==> s[i] == if base <= i < base + x then old(s[i] - s[i - N]) else old(s[i])
    {
      s[base + x] := s[base + x] - s[base + x - N];
    }
  }

  /** The final map of the int copies, x -> (x + 2) % 2. */
  method ReduceSub(s: array<int>)
    modifies s
    ensures s[..] == ShiftMod2(old(s[..]))
  {
    for i := 0 to s.Length
      invariant forall j :: 0 <= j < i ==> s[j] == CMod(old(s[j]) + 2, 2)
      invariant forall j :: i <= j < s.Length ==> s[j] == old(s[j])
    {
      s[i] := CMod(s[i] + 2, 2);
    }
  }

  /** Differencing one more layer below the ones already done. */
  lemma SubRangeJoin(s: seq<int>, base: nat, hi: nat, N: nat)
    requires N <= base && base + N <= hi
    ensures SubRange(SubRange(s, base + N, hi, N), base, base + N, N) == SubRange(s, base, hi, N)
  {
  }

  /**
   * layer_syndrome_diff of the int copies: for h = L-1 down to 1 layer h
   * becomes layer h minus layer h-1, then every entry x becomes (x + 2) % 2.
   * Going top-down, each subtraction reads a layer not yet changed.
   */
  method LayerSyndromeDiff(L: nat, syndromes: array<int>)
    requires L >= 1 && syndromes.Length == L * L * L
    modifies syndromes
    ensures syndromes[..] == DiffSub(old(syndromes[..]), L * L)
  {
    var N := L * L;
    var total := syndromes.Length;
    ghost var s0 := syndromes[..];
    assert SubRange(s0, total, total, N) == s0;
    var h := L - 1;
    var base := h * N;
    Offsets(L, N, h);
    while h >= 1
      invariant 0 <= h < L && base == h * N && base + N <= total
      invariant syndromes[..] == SubRange(s0, base + N, total, N)
      decreases h
    {
      Offsets(L, N, h);
      SubColumn(syndromes, base, N);
      SubRangeJoin(s0, base, total, N);
      h := h - 1;
      base := base - N;
    }
    ReduceSub(syndromes);
  }

  // ---------------------------------------------------------------------
  // layer_syndrome_diff, adding form (uint32 copy)

  /** Entries lo <= i < hi plus the entry one layer below them, in uint32; the rest unchanged. */
  function AddRange(s: seq<uint32>, lo: nat, hi: nat, N: nat): (r: seq<uint32>)
    requires N <= lo
    ensures |r| == |s|
  {
    seq(|s|, i requires 0 <= i < |s| => if lo <= i < hi then Wrap(s[i] as int + s[i - N]) else s[i])
  }

  /** The map x -> x % 2 of the uint32 copy. */
  function Mod2(s: seq<uint32>): (r: seq<uint32>)
    ensures |r| == |s|
  {
    seq(|s|, i requires 0 <= i < |s| => s[i] % 2)
  }

  /** The result of layer_syndrome_diff (uint32 copy). */
  function DiffAdd(s: seq<uint32>, N: nat): (r: seq<uint32>)
    requires N <= |s|
    ensures |r| == |s|
  {
    Mod2(AddRange(s, N, |s|, N))
  }

  /** `syndromes_map.col(h) += syndromes_map.col(h - 1)` for the layer starting at base. */
  method AddColumn(s: array<uint32>, base: nat, N: nat)
    requires N <= base && base + N <= s.Length
    modifies s
    ensures s[..] == AddRange(old(s[..]), base, base + N, N)
  {
    for x := 0 to N
      invariant forall i :: 0 <= i < s.Length ==> s[i] == if base <= i < base + x then Wrap(old(s[i] as int + s[i - N])) else old(s[i])
    {
      s[base + x] := Wrap(s[base + x] as int + s[base + x - N]);
    }
  }

  /** The final map of the uint32 copy, x -> x % 2. */
  method ReduceAdd(s: array<uint32>)
    modifies s
    ensures s[..] == Mod2(old(s[..]))
  {
    for i := 0 to s.Length
      invariant forall j :: 0 <= j < i ==> s[j] == old(s[j]) % 2
      invariant forall j :: i <= j < s.Length ==> s[j] == old(s[j])
    {
      s[i] := s[i] % 2;
    }
  }

  lemma AddRangeJoin(s: seq<uint32>, base: nat, hi: nat, N: nat)
    requires N <= base && base + N <= hi
    ensures AddRange(AddRange(s, base + N, hi, N), base, base + N, N) == AddRange(s, base, hi, N)
  {
  }

  /**
   * layer_syndrome_diff of the uint32 copy: for h = L-1 down to 1 layer h
   * becomes layer h plus layer h-1 (wrapping), then every entry is reduced modulo 2.
   */
  method LayerSyndromeDiffU32(L: nat, syndromes: array<uint32>)
    requires L >= 1 && syndromes.Length == L * L * L
    modifies syndromes
    ensures syndromes[..] == DiffAdd(old(syndromes[..]), L * L)
  {
    var N := L * L;
    var total := syndromes.Length;
    ghost var s0 := syndromes[..];
    assert AddRange(s0, total, total, N) == s0;
    var h := L - 1;
    var base := h * N;
    Offsets(L, N, h);
    while h >= 1
      invariant 0 <= h < L && base == h * N && base + N <= total
      invariant syndromes[..] == AddRange(s0, base + N, total, N)
      decreases h
    {
      Offsets(L, N, h);
      AddColumn(syndromes, base, N);
      AddRangeJoin(s0, base, total, N);
      h := h - 1;
      base := base - N;
    }
    ReduceAdd(syndromes);
  }

  // ---------------------------------------------------------------------
  // What the difference means

  /** Every entry is 0, 1 or 2: a syndrome bit, possibly with one measurement error added. */
  predicate Small(s: seq<int>) {
    forall i :: 0 <= i < |s| ==> 0 <= s[i] <= 2
  }

  /** The first layer keeps its parity; every later one becomes its XOR with the original layer below. */
  predicate IsLayerXor(s: seq<int>, N: nat, r: seq<int>)
    requires N <= |s| && |r| == |s|
  {
    forall i :: 0 <= i < |s| ==> r[i] == if i < N then s[i] % 2 else (s[i] + s[i - N]) % 2
  }

  lemma SubStep(a: int, b: int)
    requires 0 <= a <= 2 && 0 <= b <= 2
    ensures CMod(a - b + 2, 2) == (a + b) % 2
  {
  }

  /** For entries in {0, 1, 2}, the subtracting copies compute the layer XOR, so every output is 0 or 1. */
  lemma DiffSubIsXor(s: seq<int>, N: nat)
    requires N <= |s| && Small(s)
    ensures IsLayerXor(s, N, DiffSub(s, N))
    ensures forall i :: 0 <= i < |s| ==> 0 <= DiffSub(s, N)[i] <= 1
  {
    forall i | 0 <= i < |s|
      ensures DiffSub(s, N)[i] == if i < N then s[i] % 2 else (s[i] + s[i - N]) % 2
    {
      DiffSubAt(s, N, i);
    }
  }

  /** DiffSubIsXor at one index. */
  lemma DiffSubAt(s: seq<int>, N: nat, i: nat)
    requires N <= |s| && i < |s| && 0 <= s[i] <= 2 && (i >= N ==> 0 <= s[i - N] <= 2)
    ensures DiffSub(s, N)[i] == if i < N then s[i] % 2 else (s[i] + s[i - N]) % 2
  {
    if i >= N {
      SubStep(s[i], s[i - N]);
    }
  }

  lemma AddStep(a: uint32, b: uint32)
    ensures Wrap(a as int + b) % 2 == (a as int + b) % 2
  {
    WrapParity(a as int + b);
  }

  /** The adding copy computes the layer XOR for every uint32 input. */
  lemma DiffAddIsXor(s: seq<uint32>, N: nat)
    requires N <= |s|
    ensures IsLayerXor(s, N, DiffAdd(s, N))
  {
    forall i | N <= i < |s|
      ensures DiffAdd(s, N)[i] == (s[i] as int + s[i - N]) % 2
    {
      AddStep(s[i], s[i - N]);
    }
  }

  /** On entries in {0, 1, 2} the adding and the subtracting copies agree. */
  lemma DiffFormsAgree(s: seq<uint32>, N: nat)
    requires N <= |s| && Small(s)
    ensures DiffAdd(s, N) == DiffSub(s, N)
  {
    DiffAddIsXor(s, N);
    DiffSubIsXor(s, N);
  }

  /** With no syndrome anywhere, there is no difference anywhere. */
  lemma DiffSubOfZero(s: seq<int>, N: nat)
    requires N <= |s| && forall i :: 0 <= i < |s| ==> s[i] == 0
    ensures forall i :: 0 <= i < |s| ==> DiffSub(s, N)[i] == 0
  {
    DiffSubIsXor(s, N);
  }

  /** The running XOR over the layers, vertex by vertex: the inverse of the differencing. */
  function AccumulateAt(d: seq<int>, N: nat, i: nat): (r: int)
    requires 1 <= N && i < |d|
    ensures 0 <= r <= 1
    decreases i
  {
    if i < N then d[i] % 2 else (AccumulateAt(d, N, i - N) + d[i]) % 2
  }

  function Accumulate(d: seq<int>, N: nat): (r: seq<int>)
    requires 1 <= N
    ensures |r| == |d|
  {
    seq(|d|, i requires 0 <= i < |d| => AccumulateAt(d, N, i))
  }

  /** 0/1 entries. */
  predicate Bits01(s: seq<int>) {
    forall i :: 0 <= i < |s| ==> 0 <= s[i] <= 1
  }

  /** Differencing the running XOR gives back the differences. */
  lemma DiffOfAccumulate(d: seq<int>, N: nat)
    requires 1 <= N <= |d| && Bits01(d)
    ensures DiffSub(Accumulate(d, N), N) == d
  {
    var a := Accumulate(d, N);
    DiffSubIsXor(a, N);
  }

  /** The running XOR of the differences gives back the stacked syndromes. */
  lemma {:induction false} AccumulateOfDiffAt(s: seq<int>, N: nat, i: nat)
    requires 1 <= N <= |s| && Bits01(s) && i < |s|
    ensures AccumulateAt(DiffSub(s, N), N, i) == s[i]
    decreases i
  {
    DiffSubAt(s, N, i);
    if i >= N {
      AccumulateOfDiffAt(s, N, i - N);
      XorBack(s[i], s[i - N]);
    }
  }

  lemma XorBack(a: int, b: int)
    requires 0 <= a <= 1 && 0 <= b <= 1
    ensures (b + (a + b) % 2) % 2 == a
  {
  }

  lemma AccumulateOfDiff(s: seq<int>, N: nat)
    requires 1 <= N <= |s| && Bits01(s)
    ensures Accumulate(DiffSub(s, N), N) == s
  {
    forall i | 0 <= i < |s|
      ensures Accumulate(DiffSub(s, N), N)[i] == s[i]
    {
      AccumulateOfDiffAt(s, N, i);
    }
  }
}
