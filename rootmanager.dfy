// The cluster table of the Union-Find decoder (class RootManager). It keeps
// the set of cluster roots, the subset of roots whose cluster holds an odd
// number of syndrome vertices, and per-root size and parity counters.
//
// The table comes in two copies: one with int counters, whose arithmetic is
// unbounded here, and one with uint32 counters, whose additions wrap around
// 2^32. The copy is a constant of each table object.

module Roots {
  import opened Toric

  datatype Copy = IntCopy | U32Copy

  /** The four hash tables, as values. */
  datatype Tables = Tables(roots: set<nat>, oddRoots: set<nat>, size: map<nat, int>, parity: map<nat, int>)

  const Empty := Tables({}, {}, map[], map[])

  /** Addition of two counters in the given copy. */
  function Add(c: Copy, a: int, b: int): int {
    if c == U32Copy then Wrap(a + b) else a + b
  }

  /** Conversion of an int argument into a stored counter. */
  function Store(c: Copy, n: int): int {
    if c == U32Copy then Wrap(n) else n
  }

  /** odd_roots is a subset of roots, and size and parity are kept exactly for the roots. */
  predicate Valid(t: Tables) {
    && t.oddRoots <= t.roots
    && t.size.Keys == t.roots
    && t.parity.Keys == t.roots
  }

  /** A root is odd exactly when its stored parity is odd; parities are never negative. */
  predicate Consistent(t: Tables) {
    && (forall r :: r in t.parity ==> t.parity[r] >= 0)
    && (forall r :: r in t.roots && r in t.parity ==> (r in t.oddRoots <==> t.parity[r] % 2 == 1))
  }

  /** size(r): the cluster size of a root, 0 for any other vertex. */
  function SizeOf(t: Tables, r: nat): int
    requires r in t.roots ==> r in t.size
  {
    if r in t.roots then t.size[r] else 0
  }

  /** parity(r): the stored parity, 0 when there is none. */
  function ParityOf(t: Tables, r: nat): int {
    if r in t.parity then t.parity[r] else 0
  }

  /** One step of initialize_roots: every insertion is an emplace, which keeps an existing entry. */
  function Emplace(t: Tables, r: nat): Tables {
    Tables(t.roots + {r}, t.oddRoots + {r},
           if r in t.size then t.size else t.size[r := 1],
           if r in t.parity then t.parity else t.parity[r := 1])
  }

  /** initialize_roots: emplace every listed vertex in order. */
  function Initialized(t: Tables, rs: seq<nat>): Tables
    decreases |rs|
  {
    if |rs| == 0 then t else Emplace(Initialized(t, rs[..|rs| - 1]), rs[|rs| - 1])
  }

  /**
   * merge(r1, r2): r1 takes the summed parity and becomes odd or even
   * accordingly, its size grows by size(r2) (an absent size_ entry of r1
   * starts from 0), and r2 is erased from all four tables.
   */
  function Merged(c: Copy, t: Tables, r1: nat, r2: nat): Tables
    requires r2 in t.roots ==> r2 in t.size
  {
    var np := Add(c, ParityOf(t, r1), ParityOf(t, r2));
    var odd := if CMod(np, 2) == 1 then t.oddRoots + {r1} else t.oddRoots - {r1};
    var s2 := SizeOf(t, r2);
    var s1 := if r1 in t.size then t.size[r1] else 0;
    Tables(t.roots - {r2}, odd - {r2}, t.size[r1 := Add(c, s1, s2)] - {r2}, t.parity[r1 := np] - {r2})
  }

  /** remove(r): r is erased from all four tables. */
  function Removed(t: Tables, r: nat): Tables {
    Tables(t.roots - {r}, t.oddRoots - {r}, t.size - {r}, t.parity - {r})
  }

  /** SizeProxy::operator=: store a size for r, whether or not r is a root. */
  function SizeSet(c: Copy, t: Tables, r: nat, n: int): Tables {
    t.(size := t.size[r := Store(c, n)])
  }

  /** SizeProxy::operator++: r must already have a size entry. */
  function SizeIncremented(c: Copy, t: Tables, r: nat): Tables
    requires r in t.size
  {
    t.(size := t.size[r := Add(c, t.size[r], 1)])
  }

  class RootManager {
    const copy: Copy
    var roots: set<nat>
    var oddRoots: set<nat>
    var size: map<nat, int>
    var parity: map<nat, int>

    function State(): Tables
      reads this
    {
      Tables(roots, oddRoots, size, parity)
    }

    constructor (c: Copy)
      ensures copy == c && State() == Empty
    {
      copy := c;
      roots, oddRoots, size, parity := {}, {}, map[], map[];
    }

    method InitializeRoots(rs: seq<nat>)
      modifies this
      ensures State() == Initialized(old(State()), rs)
    {
      for i := 0 to |rs|
        invariant State() == Initialized(old(State()), rs[..i])
      {
        assert rs[..i + 1][..i] == rs[..i];
        var r := rs[i];
        roots := roots + {r};
        oddRoots := oddRoots + {r};
        if r !in size {
          size := size[r := 1];
        }
        if r !in parity {
          parity := parity[r := 1];
        }
      }
      assert rs[..|rs|] == rs;
    }

    function Size(r: nat): int
      reads this
      requires r in roots ==> r in size
    {
      SizeOf(State(), r)
    }

    function Parity(r: nat): int
      reads this
    {
      ParityOf(State(), r)
    }

    predicate IsRoot(v: nat)
      reads this
    {
      v in roots
    }

    predicate IsOddRoot(v: nat)
      reads this
    {
      v in oddRoots
    }

    /** isempty_odd_root: no root is odd. */
    function IsEmptyOddRoot(): (b: bool)
      reads this
      ensures b <==> forall v: nat :: !IsOddRoot(v)
    {
      if oddRoots == {} then true
      else
        var v :| v in oddRoots;
        assert IsOddRoot(v);
        false
    }

    method Merge(r1: nat, r2: nat)
      requires r2 in roots ==> r2 in size
      modifies this
      ensures State() == Merged(copy, old(State()), r1, r2)
    {
      var np := Add(copy, Parity(r1), Parity(r2));
      if CMod(np, 2) == 1 {
        oddRoots := oddRoots + {r1};
      } else {
        oddRoots := oddRoots - {r1};
      }
      var s2 := Size(r2);
      var s1 := if r1 in size then size[r1] else 0;
      size := size[r1 := Add(copy, s1, s2)];
      parity := parity[r1 := np];
      oddRoots := oddRoots - {r2};
      size := size - {r2};
      parity := parity - {r2};
      roots := roots - {r2};
    }

    method Remove(r: nat)
      modifies this
      ensures State() == Removed(old(State()), r)
    {
      oddRoots := oddRoots - {r};
      roots := roots - {r};
      size := size - {r};
      parity := parity - {r};
    }

    method Clear()
      modifies this
      ensures State() == Empty
    {
      roots, oddRoots, size, parity := {}, {}, map[], map[];
    }

    method SetSize(r: nat, n: int)
      modifies this
      ensures State() == SizeSet(copy, old(State()), r, n)
    {
      size := size[r := Store(copy, n)];
    }

    method IncrementSize(r: nat)
      requires r in size
      modifies this
      ensures State() == SizeIncremented(copy, old(State()), r)
    {
      size := size[r := Add(copy, size[r], 1)];
    }
  }

  // ---------------------------------------------------------------------
  // Properties of the table operations

  /** size and parity of a vertex that is not tracked are 0. */
  lemma UntrackedZero(t: Tables, v: nat)
    requires Valid(t) && v !in t.roots
    ensures SizeOf(t, v) == 0 && ParityOf(t, v) == 0
    ensures v !in t.oddRoots
  {
  }

  /**
   * initialize_roots makes every listed vertex a root and an odd root, gives
   * it size 1 and parity 1 unless it already had an entry, and leaves every
   * other vertex as it was.
   */
  lemma InitializedShape(t: Tables, rs: seq<nat>)
    ensures Initialized(t, rs).roots == t.roots + set r <- rs
    ensures Initialized(t, rs).oddRoots == t.oddRoots + set r <- rs
    ensures Initialized(t, rs).size.Keys == t.size.Keys + set r <- rs
    ensures Initialized(t, rs).parity.Keys == t.parity.Keys + set r <- rs
    ensures forall k :: k in t.size ==> Initialized(t, rs).size[k] == t.size[k]
    ensures forall k :: k in t.parity ==> Initialized(t, rs).parity[k] == t.parity[k]
    ensures forall k :: k in rs && k !in t.size ==> Initialized(t, rs).size[k] == 1
    ensures forall k :: k in rs && k !in t.parity ==> Initialized(t, rs).parity[k] == 1
  {
    InitializedSets(t, rs);
    InitializedSize(t, rs);
    InitializedParity(t, rs);
  }

  lemma {:induction false} InitializedSets(t: Tables, rs: seq<nat>)
    ensures Initialized(t, rs).roots == t.roots + set r <- rs
    ensures Initialized(t, rs).oddRoots == t.oddRoots + set r <- rs
    decreases |rs|
  {
    if |rs| > 0 {
      var front := rs[..|rs| - 1];
      InitializedSets(t, front);
      assert (set r <- rs) == (set r <- front) + {rs[|rs| - 1]};
    }
  }

  lemma InitializedSize(t: Tables, rs: seq<nat>)
    ensures Initialized(t, rs).size.Keys == t.size.Keys + set r <- rs
    ensures forall k :: k in t.size ==> Initialized(t, rs).size[k] == t.size[k]
    ensures forall k :: k in rs && k !in t.size ==> Initialized(t, rs).size[k] == 1
  {
    forall k {
      InitializedSizeAt(t, rs, k);
    }
  }

  lemma {:induction false} InitializedSizeAt(t: Tables, rs: seq<nat>, k: nat)
    ensures k in Initialized(t, rs).size <==> k in t.size || k in rs
    ensures k in t.size ==> Initialized(t, rs).size[k] == t.size[k]
    ensures k in rs && k !in t.size ==> Initialized(t, rs).size[k] == 1
    decreases |rs|
  {
    if |rs| > 0 {
      var front := rs[..|rs| - 1];
      InitializedSizeAt(t, front, k);
      assert k in rs <==> k in front || k == rs[|rs| - 1];
    }
  }

  lemma InitializedParity(t: Tables, rs: seq<nat>)
    ensures Initialized(t, rs).parity.Keys == t.parity.Keys + set r <- rs
    ensures forall k :: k in t.parity ==> Initialized(t, rs).parity[k] == t.parity[k]
    ensures forall k :: k in rs && k !in t.parity ==> Initialized(t, rs).parity[k] == 1
  {
    forall k {
      InitializedParityAt(t, rs, k);
    }
  }

  lemma {:induction false} InitializedParityAt(t: Tables, rs: seq<nat>, k: nat)
    ensures k in Initialized(t, rs).parity <==> k in t.parity || k in rs
    ensures k in t.parity ==> Initialized(t, rs).parity[k] == t.parity[k]
    ensures k in rs && k !in t.parity ==> Initialized(t, rs).parity[k] == 1
    decreases |rs|
  {
    if |rs| > 0 {
      var front := rs[..|rs| - 1];
      InitializedParityAt(t, front, k);
      assert k in rs <==> k in front || k == rs[|rs| - 1];
    }
  }

  /**
   * On an empty table, initialize_roots tracks exactly the listed vertices,
   * each an odd root of size 1 and parity 1, and the table is valid and
   * consistent.
   */
  lemma InitializedFresh(rs: seq<nat>)
    ensures var t := Initialized(Empty, rs);
      && t.roots == (set r <- rs) && t.oddRoots == t.roots
      && Valid(t) && Consistent(t)
    ensures forall r :: r in rs ==> SizeOf(Initialized(Empty, rs), r) == 1 && ParityOf(Initialized(Empty, rs), r) == 1
  {
    InitializedShape(Empty, rs);
  }

  /** initialize_roots keeps a valid table valid. */
  lemma InitializedValid(t: Tables, rs: seq<nat>)
    requires Valid(t)
    ensures Valid(Initialized(t, rs))
  {
    InitializedShape(t, rs);
  }

  /**
   * merge of two distinct roots: the size of r1 becomes the sum of the two
   * sizes, r2 disappears from every table, and every other vertex keeps its
   * size, parity, root and odd-root status.
   */
  lemma MergeSizes(c: Copy, t: Tables, r1: nat, r2: nat)
    requires Valid(t) && r1 in t.roots && r2 in t.roots && r1 != r2
    ensures SizeOf(Merged(c, t, r1, r2), r1) == Add(c, SizeOf(t, r1), SizeOf(t, r2))
    ensures var m := Merged(c, t, r1, r2);
      r2 !in m.roots && r2 !in m.oddRoots && r2 !in m.size && r2 !in m.parity
    ensures forall k: nat :: k != r1 && k != r2 ==>
      var m := Merged(c, t, r1, r2);
      && (k in m.roots <==> k in t.roots) && (k in m.oddRoots <==> k in t.oddRoots)
      && SizeOf(m, k) == SizeOf(t, k) && ParityOf(m, k) == ParityOf(t, k)
  {
  }

  /**
   * After merge(r1, r2) with r1 != r2, r1 is odd exactly when the two
   * parities add up to an odd number, and r1 stores the sum itself (wrapped
   * in the uint32 copy). The wrap-around keeps parity, since 2^32 is even.
   */
  lemma MergeOdd(c: Copy, t: Tables, r1: nat, r2: nat)
    requires Consistent(t) && (r2 in t.roots ==> r2 in t.size) && r1 != r2
    ensures var m := Merged(c, t, r1, r2);
      r1 in m.oddRoots <==> (ParityOf(t, r1) + ParityOf(t, r2)) % 2 == 1
    ensures ParityOf(Merged(c, t, r1, r2), r1) == Add(c, ParityOf(t, r1), ParityOf(t, r2))
  {
    var s := ParityOf(t, r1) + ParityOf(t, r2);
    if c == U32Copy {
      WrapParity(s);
    }
  }

  lemma WrapParity(s: int)
    requires s >= 0
    ensures Wrap(s) % 2 == s % 2
  {
    var q := s / U32;
    assert s == U32 * q + Wrap(s);
    assert U32 * q == 2 * (0x8000_0000 * q);
  }

  /** merge into a root keeps the table valid. */
  lemma MergeValid(c: Copy, t: Tables, r1: nat, r2: nat)
    requires Valid(t) && r1 in t.roots
    ensures Valid(Merged(c, t, r1, r2))
  {
  }

  /** merge of two distinct roots keeps odd_roots in step with the parities. */
  lemma MergeConsistent(c: Copy, t: Tables, r1: nat, r2: nat)
    requires Valid(t) && Consistent(t) && r1 in t.roots && r1 != r2
    ensures Consistent(Merged(c, t, r1, r2))
  {
    var m := Merged(c, t, r1, r2);
    MergeOdd(c, t, r1, r2);
    var np := Add(c, ParityOf(t, r1), ParityOf(t, r2));
    assert np >= 0;
    assert m.parity[r1] == np;
  }

  /** A sum below 2^32 does not wrap in either copy. */
  lemma AddSmall(c: Copy, a: int, b: int)
    requires 0 <= a + b < U32
    ensures Add(c, a, b) == a + b
  {
    if c == U32Copy {
      WrapSmall(a + b);
    }
  }

  /** When no counter wraps, the two copies of merge agree. */
  lemma MergeCopiesAgree(t: Tables, r1: nat, r2: nat)
    requires Valid(t) && Consistent(t) && r1 in t.roots && r2 in t.roots
    requires forall r :: r in t.size ==> t.size[r] >= 0
    requires SizeOf(t, r1) + SizeOf(t, r2) < U32 && ParityOf(t, r1) + ParityOf(t, r2) < U32
    ensures Merged(U32Copy, t, r1, r2) == Merged(IntCopy, t, r1, r2)
  {
    var a, b := Merged(U32Copy, t, r1, r2), Merged(IntCopy, t, r1, r2);
    WrapSmall(ParityOf(t, r1) + ParityOf(t, r2));
    WrapSmall(SizeOf(t, r1) + SizeOf(t, r2));
    assert a.size == b.size;
    assert a.parity == b.parity;
  }

  /** remove keeps the table valid and consistent. */
  lemma RemovedValid(t: Tables, r: nat)
    ensures Valid(t) ==> Valid(Removed(t, r))
    ensures Consistent(t) ==> Consistent(Removed(t, r))
    ensures var m := Removed(t, r); r !in m.roots && r !in m.oddRoots && r !in m.size && r !in m.parity
  {
  }

  /** SizeProxy::operator= on a root keeps the table valid ... */
  lemma SizeSetOnRoot(c: Copy, t: Tables, r: nat, n: int)
    requires Valid(t) && r in t.roots
    ensures Valid(SizeSet(c, t, r, n)) && SizeOf(SizeSet(c, t, r, n), r) == Store(c, n)
  {
  }

  /** ... but on a vertex that is not a root it leaves a size without a root. */
  lemma SizeSetOffRoot(c: Copy, t: Tables, r: nat, n: int)
    requires Valid(t) && r !in t.roots
    ensures !Valid(SizeSet(c, t, r, n))
    ensures SizeOf(SizeSet(c, t, r, n), r) == 0
  {
    assert r in SizeSet(c, t, r, n).size.Keys;
  }

  /** SizeProxy::operator++ adds one to the size of a root and keeps the table valid. */
  lemma SizeIncrementedValid(c: Copy, t: Tables, r: nat)
    requires Valid(t) && r in t.roots
    ensures Valid(SizeIncremented(c, t, r))
    ensures SizeOf(SizeIncremented(c, t, r), r) == Add(c, SizeOf(t, r), 1)
  {
  }
}
