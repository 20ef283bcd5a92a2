/** The prefix code of a Vorbis codebook as blocks of the 32-bit code space,
    and the table of free leaves from which the code is built.

    A codeword of length l, written from its most significant bit and padded
    with zeros to 32 bits, owns the block of 2^(32-l) numbers that begin with
    it. `available[z]` holds the first number of the free block at level z, or
    0 when that level has none. */
module PrefixCode {
  import opened Basics
  import opened Bits

  const TOP: nat := 0x1_0000_0000

  /** A codeword length that stands for a symbol without a code. */
  const NO_CODE: nat := 255

  datatype Entry = Entry(symbol: nat, len: nat, code: nat)

  predicate ValidLength(l: nat) {
    1 <= l <= 31
  }

  /** A codeword length table as the setup header produces it. */
  predicate ValidLengths(lens: seq<nat>) {
    forall i :: 0 <= i < |lens| ==> ValidLength(lens[i]) || lens[i] == NO_CODE
  }

  function Size(l: nat): (s: nat)
    requires l <= 32
    ensures s > 0
  {
    Pow2(32 - l)
  }

  predicate Aligned(code: nat, l: nat)
    requires l <= 32
  {
    code % Size(l) == 0 && code + Size(l) <= TOP
  }

  predicate Inside(p: nat, code: nat, l: nat)
    requires l <= 32
  {
    code <= p < code + Size(l)
  }

  predicate Disjoint(a: nat, k: nat, b: nat, l: nat)
    requires k <= 32 && l <= 32
  {
    a + Size(k) <= b || b + Size(l) <= a
  }

  predicate ValidEntries(es: seq<Entry>) {
    forall j :: 0 <= j < |es| ==> ValidLength(es[j].len)
  }

  /** The block of length l at `code` overlaps no block already assigned. */
  ghost predicate Free(es: seq<Entry>, code: nat, l: nat)
    requires ValidEntries(es) && l <= 32
  {
    forall j :: 0 <= j < |es| ==> Disjoint(es[j].code, es[j].len, code, l)
  }

  /** What section 3.2.1 of the Vorbis I specification asks of the next
      codeword: of all free codewords of its length, the numerically lowest. */
  ghost predicate LowestFree(es: seq<Entry>, l: nat, code: nat)
    requires ValidEntries(es) && l <= 32
  {
    && Aligned(code, l)
    && Free(es, code, l)
    && forall b: nat :: Aligned(b, l) && Free(es, b, l) ==> code <= b
  }

  ghost predicate Canonical(es: seq<Entry>) {
    && ValidEntries(es)
    && forall j {:trigger LowestFree(es[..j], es[j].len, es[j].code)} ::
         0 <= j < |es| ==> LowestFree(es[..j], es[j].len, es[j].code)
  }

  /** The used symbols of a length table, in order, with their lengths. */
  function Used(lens: seq<nat>): (u: seq<(nat, nat)>) {
    if |lens| == 0 then []
    else
      var n := |lens| - 1;
      Used(lens[..n]) + if lens[n] == NO_CODE then [] else [(n, lens[n])]
  }

  function Heads(es: seq<Entry>): (u: seq<(nat, nat)>)
    ensures |u| == |es|
  {
    seq(|es|, j requires 0 <= j < |es| => (es[j].symbol, es[j].len))
  }

  /** The share of the code space that the used lengths ask for: 2^32 times Kraft's sum. */
  function Kraft(lens: seq<nat>): (s: nat)
    requires ValidLengths(lens)
  {
    if |lens| == 0 then 0
    else
      var n := |lens| - 1;
      Kraft(lens[..n]) + if lens[n] == NO_CODE then 0 else Size(lens[n])
  }

  function Assigned(es: seq<Entry>): (s: nat)
    requires ValidEntries(es)
  {
    if |es| == 0 then 0 else Assigned(es[..|es| - 1]) + Size(es[|es| - 1].len)
  }

  // ---------------------------------------------------------------- free leaves

  type Leaves = a: seq<nat> | |a| == 32 witness seq(32, i => 0)

  predicate IsLeaf(a: Leaves, z: nat) {
    1 <= z <= 31 && a[z] != 0
  }

  /** At most one free leaf per level by construction of the table; every leaf
      is aligned, and a deeper leaf lies strictly to the left of a shallower one. */
  ghost predicate Ordered(a: Leaves) {
    && a[0] == 0
    && (forall z: nat :: IsLeaf(a, z) ==> Aligned(a[z], z))
    && (forall y: nat, z: nat :: IsLeaf(a, y) && IsLeaf(a, z) && y < z ==> a[z] + Size(z) <= a[y])
  }

  /** No free leaf overlaps an assigned block, and assigned blocks do not overlap. */
  ghost predicate Apart(a: Leaves, es: seq<Entry>)
    requires ValidEntries(es)
  {
    && (forall z: nat, j :: IsLeaf(a, z) && 0 <= j < |es| ==> Disjoint(es[j].code, es[j].len, a[z], z))
    && (forall i, j :: 0 <= i < j < |es| ==> Disjoint(es[i].code, es[i].len, es[j].code, es[j].len))
  }

  ghost predicate InEntry(es: seq<Entry>, p: nat)
    requires ValidEntries(es)
  {
    exists j :: 0 <= j < |es| && Inside(p, es[j].code, es[j].len)
  }

  ghost predicate InLeaf(a: Leaves, k: nat, p: nat) {
    exists z: nat :: k < z && IsLeaf(a, z) && Inside(p, a[z], z)
  }

  ghost predicate Covered(a: Leaves, es: seq<Entry>)
    requires ValidEntries(es)
  {
    forall p: nat :: p < TOP ==> InEntry(es, p) || InLeaf(a, 0, p)
  }

  /** Free space at levels deeper than k. */
  function FreeBelow(a: Leaves, k: nat): (s: nat)
    requires k <= 31
    decreases 31 - k
  {
    if k == 31 then 0 else (if a[k + 1] != 0 then Size(k + 1) else 0) + FreeBelow(a, k + 1)
  }

  /** Assigned blocks and free leaves partition the code space. */
  ghost predicate Partition(a: Leaves, es: seq<Entry>) {
    && ValidEntries(es)
    && Ordered(a)
    && Apart(a, es)
    && Covered(a, es)
    && Assigned(es) + FreeBelow(a, 0) == TOP
  }

  // ---------------------------------------------------------------- sizes

  lemma SizeHalves(l: nat)
    requires l < 32
    ensures Size(l) == 2 * Size(l + 1)
  {
  }

  lemma SizeFalls(k: nat, l: nat)
    requires k <= l <= 32
    ensures Size(l) <= Size(k)
    ensures k < l ==> 2 * Size(l) <= Size(k)
  {
    Pow2Monotone(32 - l, 32 - k);
    if k < l {
      Pow2Monotone(32 - l, 32 - k - 1);
    }
  }

  lemma AlignedDeeper(code: nat, k: nat, l: nat)
    requires k <= l <= 32 && code % Size(k) == 0
    ensures code % Size(l) == 0
  {
    Pow2Add(l - k, 32 - l);
    MultipleOfProduct(code, Pow2(l - k), Pow2(32 - l));
  }

  /** Between an aligned point and a later aligned point there is room for a whole block. */
  lemma AlignedGap(p: nat, q: nat, l: nat)
    requires l <= 32 && p % Size(l) == 0 && q % Size(l) == 0 && p < q
    ensures p + Size(l) <= q
  {
    MultiplesApart(p, q, Size(l));
  }

  lemma {:induction false} FreeBelowBound(a: Leaves, k: nat)
    requires k <= 31
    ensures FreeBelow(a, k) < Size(k)
    decreases 31 - k
  {
    SizeHalves(k);
    if k < 31 {
      FreeBelowBound(a, k + 1);
    }
  }

  // ---------------------------------------------------------------- a free block lies in one leaf

  /** An interval covered by leaves deeper than k is no longer than those leaves together. */
  lemma {:induction false} CoveredLength(a: Leaves, k: nat, lo: nat, hi: nat)
    requires Ordered(a) && k <= 31 && lo <= hi
    requires forall p: nat :: lo <= p < hi ==> InLeaf(a, k, p)
    ensures hi - lo <= FreeBelow(a, k)
    decreases 31 - k
  {
    if k == 31 {
      assert lo < hi ==> InLeaf(a, k, lo);
    } else {
      var d := k + 1;
      var leaf := a[d];
      var mid := if leaf == 0 || hi <= leaf then hi else if leaf <= lo then lo else leaf;
      forall p: nat | lo <= p < mid ensures InLeaf(a, d, p) {
        assert InLeaf(a, k, p);
      }
      CoveredLength(a, d, lo, mid);
      if mid < hi {
        assert IsLeaf(a, d) && InLeaf(a, k, hi - 1);
        var z: nat :| k < z && IsLeaf(a, z) && Inside(hi - 1, a[z], z);
        assert hi <= leaf + Size(d);
      }
    }
  }

  /** Two aligned blocks that share a point are nested. */
  lemma Nested(p: nat, leaf: nat, z: nat, b: nat, l: nat)
    requires z <= l <= 32 && leaf % Size(z) == 0 && b % Size(l) == 0
    requires Inside(p, leaf, z) && Inside(p, b, l)
    ensures leaf <= b && b + Size(l) <= leaf + Size(z)
  {
    AlignedDeeper(leaf, z, l);
    AlignedDeeper(Size(z), z, l);
    if b < leaf {
      AlignedGap(b, leaf, l);
    }
    assert (leaf + Size(z)) % Size(l) == 0 by { AlignedSum(leaf, Size(z), Size(l)); }
    AlignedGap(b, leaf + Size(z), l);
  }

  lemma AlignedSum(x: nat, y: nat, d: nat)
    requires d > 0 && x % d == 0 && y % d == 0
    ensures (x + y) % d == 0
  {
    DivMod(x, d);
    DivMod(y, d);
    assert x + y == (x / d + y / d) * d;
    DivModUnique(x + y, d, x / d + y / d, 0);
  }

  /** Any free aligned block lies inside a single available leaf at its own level or above. */
  lemma FreeBlockInLeaf(a: Leaves, es: seq<Entry>, b: nat, l: nat) returns (z: nat)
    requires Partition(a, es) && ValidLength(l) && Aligned(b, l) && Free(es, b, l)
    ensures IsLeaf(a, z) && z <= l && a[z] <= b && b + Size(l) <= a[z] + Size(z)
  {
    hide Size, FreeBelow;
    if deep :| b <= deep < b + Size(l) && !InLeaf(a, l, deep) {
      assert !InEntry(es, deep) by {
        forall j | 0 <= j < |es| ensures !Inside(deep, es[j].code, es[j].len) {
          assert Disjoint(es[j].code, es[j].len, b, l);
        }
      }
      assert InLeaf(a, 0, deep);
      z :| 0 < z && IsLeaf(a, z) && Inside(deep, a[z], z);
      Nested(deep, a[z], z, b, l);
    } else {
      CoveredLength(a, l, b, b + Size(l));
      FreeBelowBound(a, l);
      assert false;
    }
  }

  // ---------------------------------------------------------------- assigning one codeword

  /** The deepest free leaf at level l or above; 0 when there is none. */
  function Deepest(a: Leaves, l: nat): (z: nat)
    requires l <= 31
    ensures z <= l
    ensures z > 0 ==> a[z] != 0
    ensures forall y :: z < y <= l ==> a[y] == 0
  {
    if l == 0 || a[l] != 0 then l else Deepest(a, l - 1)
  }

  /** The leaves after the one at level z is spent on a codeword of length l:
      the right-hand halves met on the way down become free. */
  function Split(a: Leaves, z: nat, l: nat, res: nat): (b: Leaves)
    requires z <= l <= 31
  {
    seq(32, y requires 0 <= y < 32 => if y == z then 0 else if z < y <= l then res + Size(y) else a[y])
  }

  lemma SplitAligned(z: nat, y: nat, res: nat)
    requires z < y <= 31 && Aligned(res, z)
    ensures Aligned(res + Size(y), y)
    ensures res + Size(y) + Size(y) <= res + Size(z)
  {
    SizeFalls(z, y);
    AlignedDeeper(res, z, y);
    DivModUnique(Size(y), Size(y), 1, 0);
    AlignedSum(res, Size(y), Size(y));
  }

  lemma SplitOrdered(a: Leaves, z: nat, l: nat, res: nat)
    requires Ordered(a) && z <= l <= 31 && Aligned(res, z)
    requires IsLeaf(a, z) && res == a[z]
    requires forall y :: z < y <= l ==> a[y] == 0
    ensures Ordered(Split(a, z, l, res))
  {
    var b := Split(a, z, l, res);
    forall y: nat | IsLeaf(b, y) ensures Aligned(b[y], y) {
      if z < y <= l {
        SplitAligned(z, y, res);
      } else {
        assert IsLeaf(a, y);
      }
    }
    forall x: nat, y: nat | IsLeaf(b, x) && IsLeaf(b, y) && x < y ensures b[y] + Size(y) <= b[x] {
      if z < x <= l && z < y <= l {
        SizeFalls(x, y);
      } else if z < y <= l {
        assert IsLeaf(a, x);
        SizeFalls(z, y);
      } else if z < x <= l {
        assert IsLeaf(a, y);
      } else {
        assert IsLeaf(a, x) && IsLeaf(a, y);
      }
    }
  }

  /** Every point of the spent leaf is in the new codeword or in a new leaf. */
  lemma {:induction false} SplitCovers(z: nat, l: nat, res: nat, p: nat) returns (y: nat)
    requires z <= l <= 31 && Inside(p, res, z)
    ensures y == 0 ==> Inside(p, res, l)
    ensures y != 0 ==> z < y <= l && Inside(p, res + Size(y), y)
    decreases l - z
  {
    if z == l {
      y := 0;
    } else {
      SizeHalves(z);
      if p < res + Size(z + 1) {
        y := SplitCovers(z + 1, l, res, p);
      } else {
        y := z + 1;
      }
    }
  }

  lemma {:induction false} SplitWorthBelow(a: Leaves, z: nat, l: nat, res: nat, k: nat)
    requires z <= l <= k <= 31
    ensures FreeBelow(Split(a, z, l, res), k) == FreeBelow(a, k)
    decreases 31 - k
  {
    if k < 31 {
      SplitWorthBelow(a, z, l, res, k + 1);
    }
  }

  /** From the spent level down the new leaves are worth the spent block less the codeword. */
  lemma {:induction false} SplitWorth(a: Leaves, z: nat, l: nat, res: nat, k: nat)
    requires z <= k <= l <= 31
    requires forall y :: z < y <= l ==> a[y] == 0
    ensures FreeBelow(Split(a, z, l, res), k) + Size(l) == FreeBelow(a, k) + Size(k)
    decreases l - k
  {
    if k == l {
      SplitWorthBelow(a, z, l, res, k);
    } else {
      var d := k + 1;
      SplitWorth(a, z, l, res, d);
      SizeHalves(k);
      assert Split(a, z, l, res)[d] != 0 && a[d] == 0;
    }
  }

  /** Over the whole table, a codeword of length l costs exactly its block. */
  lemma {:induction false} SplitWorthAbove(a: Leaves, z: nat, l: nat, res: nat, k: nat)
    requires k < z <= l <= 31 && a[z] != 0
    requires forall y :: z < y <= l ==> a[y] == 0
    ensures FreeBelow(Split(a, z, l, res), k) + Size(l) == FreeBelow(a, k)
    decreases z - k
  {
    var d := k + 1;
    if d == z {
      SplitWorth(a, z, l, res, z);
    } else {
      SplitWorthAbove(a, z, l, res, d);
      assert Split(a, z, l, res)[d] == a[d];
    }
  }

  /** The deepest usable leaf starts the lowest free block of length l. */
  lemma DeepestIsLowest(a: Leaves, es: seq<Entry>, l: nat, z: nat)
    requires Partition(a, es) && ValidLength(l) && z == Deepest(a, l) && z > 0
    ensures LowestFree(es, l, a[z])
  {
    var res := a[z];
    assert IsLeaf(a, z);
    SizeFalls(z, l);
    AlignedDeeper(res, z, l);
    forall j | 0 <= j < |es| ensures Disjoint(es[j].code, es[j].len, res, l) {
      assert Disjoint(es[j].code, es[j].len, a[z], z);
    }
    forall q: nat | Aligned(q, l) && Free(es, q, l) ensures res <= q {
      var y := FreeBlockInLeaf(a, es, q, l);
      assert y <= z;
    }
  }

  /** Spending the deepest usable leaf on the next codeword keeps the partition. */
  lemma Assign(a: Leaves, es: seq<Entry>, symbol: nat, l: nat, z: nat)
    requires Partition(a, es) && ValidLength(l) && z == Deepest(a, l) && z > 0
    ensures Partition(Split(a, z, l, a[z]), es + [Entry(symbol, l, a[z])])
  {
    var b := Split(a, z, l, a[z]);
    var e := Entry(symbol, l, a[z]);
    var fs := es + [e];
    assert IsLeaf(a, z);
    SplitOrdered(a, z, l, a[z]);
    SplitApart(a, es, e, z);
    SplitCoverage(a, es, e, z);
    SplitWorthAbove(a, z, l, a[z], 0);
    AssignedAppend(es, e);
  }

  lemma SplitCoverage(a: Leaves, es: seq<Entry>, e: Entry, z: nat)
    requires ValidEntries(es) && ValidLength(e.len) && Covered(a, es)
    requires IsLeaf(a, z) && z <= e.len && e.code == a[z]
    requires forall y :: z < y <= e.len ==> a[y] == 0
    ensures Covered(Split(a, z, e.len, a[z]), es + [e])
  {
    var b := Split(a, z, e.len, a[z]);
    forall p: nat | p < TOP ensures InEntry(es + [e], p) || InLeaf(b, 0, p) {
      SplitPoint(a, es, e, z, p);
    }
  }

  lemma AssignedAppend(es: seq<Entry>, e: Entry)
    requires ValidEntries(es) && ValidLength(e.len)
    ensures ValidEntries(es + [e]) && Assigned(es + [e]) == Assigned(es) + Size(e.len)
  {
    assert (es + [e])[..|es|] == es;
  }

  lemma SplitApart(a: Leaves, es: seq<Entry>, e: Entry, z: nat)
    requires ValidEntries(es) && ValidLength(e.len) && Ordered(a) && Apart(a, es)
    requires IsLeaf(a, z) && z <= e.len && e.code == a[z]
    requires forall y :: z < y <= e.len ==> a[y] == 0
    ensures Apart(Split(a, z, e.len, a[z]), es + [e])
  {
    var res := a[z];
    var b := Split(a, z, e.len, res);
    var fs := es + [e];
    SizeFalls(z, e.len);
    forall y: nat, j | IsLeaf(b, y) && 0 <= j < |fs| ensures Disjoint(fs[j].code, fs[j].len, b[y], y) {
      if z < y <= e.len {
        SizeFalls(z, y);
        SizeFalls(y, e.len);
        if j < |es| {
          assert Disjoint(es[j].code, es[j].len, a[z], z);
        }
      } else {
        assert IsLeaf(a, y);
      }
    }
    forall i, j | 0 <= i < j < |fs| ensures Disjoint(fs[i].code, fs[i].len, fs[j].code, fs[j].len) {
      if j == |es| {
        assert Disjoint(es[i].code, es[i].len, a[z], z);
      }
    }
  }

  lemma SplitPoint(a: Leaves, es: seq<Entry>, e: Entry, z: nat, p: nat)
    requires ValidEntries(es) && ValidLength(e.len) && p < TOP
    requires IsLeaf(a, z) && z <= e.len && e.code == a[z]
    requires forall y :: z < y <= e.len ==> a[y] == 0
    requires InEntry(es, p) || InLeaf(a, 0, p)
    ensures InEntry(es + [e], p) || InLeaf(Split(a, z, e.len, a[z]), 0, p)
  {
    var b := Split(a, z, e.len, a[z]);
    var fs := es + [e];
    if InEntry(es, p) {
      var j :| 0 <= j < |es| && Inside(p, es[j].code, es[j].len);
      assert Inside(p, fs[j].code, fs[j].len);
    } else {
      var w :| 0 < w && IsLeaf(a, w) && Inside(p, a[w], w);
      if w == z {
        var y := SplitCovers(z, e.len, a[z], p);
        if y == 0 {
          assert Inside(p, fs[|es|].code, fs[|es|].len);
        } else {
          assert IsLeaf(b, y);
        }
      } else {
        assert IsLeaf(b, w) && b[w] == a[w];
      }
    }
  }

  // ---------------------------------------------------------------- the whole table

  function NoLeaves(): (a: Leaves)
    ensures forall z :: 0 <= z < 32 ==> a[z] == 0
  {
    seq(32, i => 0)
  }

  datatype Table = Table(leaves: Leaves, es: seq<Entry>)

  /** One used symbol: the first takes codeword 0, a later one the deepest usable leaf. */
  function Place(t: Table, symbol: nat, l: nat): (r: Option<Table>)
    requires l <= 31
  {
    if t.es == [] then
      Some(Table(Split(NoLeaves(), 0, l, 0), [Entry(symbol, l, 0)]))
    else
      var z := Deepest(t.leaves, l);
      if z == 0 then None
      else Some(Table(Split(t.leaves, z, l, t.leaves[z]), t.es + [Entry(symbol, l, t.leaves[z])]))
  }

  /** The table after all symbols of a length list; None when some symbol found no leaf. */
  function Build(lens: seq<nat>): (r: Option<Table>)
    requires ValidLengths(lens)
  {
    if |lens| == 0 then Some(Table(NoLeaves(), []))
    else
      var n := |lens| - 1;
      var t := Build(lens[..n]);
      if t.None? || lens[n] == NO_CODE then t else Place(t.value, n, lens[n])
  }

  ghost predicate Reachable(t: Table) {
    && Canonical(t.es)
    && (if t.es == [] then t.leaves == NoLeaves() else Partition(t.leaves, t.es))
  }

  lemma FirstApart(symbol: nat, l: nat)
    requires ValidLength(l)
    ensures Ordered(Split(NoLeaves(), 0, l, 0))
    ensures Apart(Split(NoLeaves(), 0, l, 0), [Entry(symbol, l, 0)])
  {
    var b := Split(NoLeaves(), 0, l, 0);
    Pow2At32();
    forall y: nat | IsLeaf(b, y) ensures Aligned(b[y], y) && Disjoint(0, l, b[y], y) {
      SplitAligned(0, y, 0);
      SizeFalls(y, l);
    }
    forall x: nat, y: nat | IsLeaf(b, x) && IsLeaf(b, y) && x < y ensures b[y] + Size(y) <= b[x] {
      SizeFalls(x, y);
    }
  }

  lemma FirstCovered(symbol: nat, l: nat)
    requires ValidLength(l)
    ensures Covered(Split(NoLeaves(), 0, l, 0), [Entry(symbol, l, 0)])
  {
    var b := Split(NoLeaves(), 0, l, 0);
    var es := [Entry(symbol, l, 0)];
    Pow2At32();
    forall p: nat | p < TOP ensures InEntry(es, p) || InLeaf(b, 0, p) {
      var y := SplitCovers(0, l, 0, p);
      if y == 0 {
        assert Inside(p, es[0].code, es[0].len);
      } else {
        assert IsLeaf(b, y);
      }
    }
  }

  lemma AssignFirst(symbol: nat, l: nat)
    requires ValidLength(l)
    ensures Partition(Split(NoLeaves(), 0, l, 0), [Entry(symbol, l, 0)])
    ensures Canonical([Entry(symbol, l, 0)])
  {
    var e := Entry(symbol, l, 0);
    FirstApart(symbol, l);
    FirstCovered(symbol, l);
    SplitWorth(NoLeaves(), 0, l, 0, 0);
    NothingFree(0);
    Pow2At32();
    AssignedAppend([], e);
    ZeroIsLowest(l);
    CanonicalAppend([], e);
    assert [] + [e] == [e];
  }

  lemma {:induction false} NothingFree(k: nat)
    requires k <= 31
    ensures FreeBelow(NoLeaves(), k) == 0
    decreases 31 - k
  {
    if k < 31 {
      NothingFree(k + 1);
    }
  }

  lemma CanonicalAppend(es: seq<Entry>, e: Entry)
    requires Canonical(es) && ValidLength(e.len) && LowestFree(es, e.len, e.code)
    ensures Canonical(es + [e])
  {
    var fs := es + [e];
    forall j | 0 <= j < |fs| ensures LowestFree(fs[..j], fs[j].len, fs[j].code) {
      assert fs[..j] == es[..j];
      assert es[..|es|] == es;
    }
  }

  /** Every step keeps the partition of the code space and the lowest-codeword rule. */
  lemma PlaceKeeps(t: Table, symbol: nat, l: nat)
    requires Reachable(t) && ValidLength(l)
    ensures Place(t, symbol, l).Some? ==> Reachable(Place(t, symbol, l).value)
  {
    if t.es == [] {
      AssignFirst(symbol, l);
    } else {
      var z := Deepest(t.leaves, l);
      if z > 0 {
        DeepestIsLowest(t.leaves, t.es, l, z);
        Assign(t.leaves, t.es, symbol, l, z);
        CanonicalAppend(t.es, Entry(symbol, l, t.leaves[z]));
      }
    }
  }

  lemma HeadsAppend(es: seq<Entry>, e: Entry)
    ensures Heads(es + [e]) == Heads(es) + [(e.symbol, e.len)]
  {
  }

  lemma PlaceGrows(t: Table, symbol: nat, l: nat)
    requires ValidEntries(t.es) && ValidLength(l) && Place(t, symbol, l).Some?
    ensures var r := Place(t, symbol, l).value;
      && ValidEntries(r.es)
      && Heads(r.es) == Heads(t.es) + [(symbol, l)]
      && Assigned(r.es) == Assigned(t.es) + Size(l)
  {
    var r := Place(t, symbol, l).value;
    var e := r.es[|r.es| - 1];
    assert r.es == t.es + [e];
    HeadsAppend(t.es, e);
    AssignedAppend(t.es, e);
  }

  /** The codebook builder keeps its invariant on every list of lengths, so none of its
      assertions fails, and what it assigns is the code the specification asks for. */
  lemma {:induction false} BuildReaches(lens: seq<nat>)
    requires ValidLengths(lens)
    ensures Build(lens).Some? ==> Reachable(Build(lens).value) && Heads(Build(lens).value.es) == Used(lens)
    ensures Build(lens).Some? ==> Assigned(Build(lens).value.es) == Kraft(lens)
  {
    hide Size, Aligned, Pow2, Place, Split, Deepest, LowestFree, Partition;
    if |lens| > 0 {
      var n := |lens| - 1;
      BuildReaches(lens[..n]);
      var t := Build(lens[..n]);
      if t.Some? && lens[n] != NO_CODE && Place(t.value, n, lens[n]).Some? {
        PlaceKeeps(t.value, n, lens[n]);
        PlaceGrows(t.value, n, lens[n]);
      }
    }
  }

  // ---------------------------------------------------------------- Kraft's inequality decides success

  lemma {:induction false} EmptyLevels(a: Leaves, k: nat, l: nat)
    requires k <= l <= 31
    requires forall y :: k < y <= l ==> a[y] == 0
    ensures FreeBelow(a, k) == FreeBelow(a, l)
    decreases l - k
  {
    if k < l {
      EmptyLevels(a, k + 1, l);
    }
  }

  /** With no leaf at level l or above, less than one block of length l is left. */
  lemma DeadEnd(a: Leaves, es: seq<Entry>, l: nat)
    requires Partition(a, es) && ValidLength(l) && Deepest(a, l) == 0
    ensures Assigned(es) + Size(l) > TOP
  {
    EmptyLevels(a, 0, l);
    FreeBelowBound(a, l);
  }

  lemma {:induction false} KraftGrows(lens: seq<nat>, n: nat)
    requires ValidLengths(lens) && n <= |lens|
    ensures Kraft(lens[..n]) <= Kraft(lens)
    decreases |lens|
  {
    if n == |lens| {
      assert lens[..n] == lens;
    } else {
      var m := |lens| - 1;
      KraftGrows(lens[..m], n);
      assert lens[..m][..n] == lens[..n];
    }
  }

  /** Building succeeds exactly when the lengths satisfy Kraft's inequality. */
  lemma {:induction false} KraftDecides(lens: seq<nat>)
    requires ValidLengths(lens)
    ensures Build(lens).Some? <==> Kraft(lens) <= TOP
  {
    BuildReaches(lens);
    if Build(lens).Some? {
      if Build(lens).value.es == [] {
        assert Kraft(lens) == 0;
      }
    } else {
      var n := |lens| - 1;
      KraftDecides(lens[..n]);
      BuildReaches(lens[..n]);
      KraftGrows(lens, n);
      var t := Build(lens[..n]);
      if t.Some? {
        DeadEnd(t.value.leaves, t.value.es, lens[n]);
      }
    }
  }

  lemma Verdict(lens: seq<nat>)
    requires ValidLengths(lens)
    ensures Build(lens).Some? <==> Kraft(lens) <= TOP
    ensures Build(lens).Some? ==> Canonical(Build(lens).value.es) && Heads(Build(lens).value.es) == Used(lens)
  {
    KraftDecides(lens);
    BuildReaches(lens);
  }

  /** The lowest-codeword rule has at most one solution, and the builder finds it:
      a length list has a canonical code exactly when Kraft's inequality holds. */
  lemma {:induction false} BuildComplete(lens: seq<nat>, es: seq<Entry>)
    requires ValidLengths(lens) && Canonical(es) && Heads(es) == Used(lens)
    ensures Build(lens).Some? && Build(lens).value.es == es
    decreases |lens|
  {
    if |lens| > 0 {
      var n := |lens| - 1;
      if lens[n] == NO_CODE {
        BuildComplete(lens[..n], es);
      } else {
        var m := |es| - 1;
        HeadsSplit(es, Used(lens[..n]), n, lens[n]);
        CanonicalPrefix(es, m);
        BuildComplete(lens[..n], es[..m]);
        BuildCompleteStep(lens, es);
      }
    }
  }

  lemma BuildCompleteStep(lens: seq<nat>, es: seq<Entry>)
    requires ValidLengths(lens) && Canonical(es) && Heads(es) == Used(lens)
    requires |lens| > 0 && lens[|lens| - 1] != NO_CODE && |es| > 0
    requires Build(lens[..|lens| - 1]).Some? && Build(lens[..|lens| - 1]).value.es == es[..|es| - 1]
    ensures Build(lens).Some? && Build(lens).value.es == es
  {
    hide Canonical, LowestFree, Reachable, Place, Heads, Build, Used, ValidLengths;
    var n := |lens| - 1;
    var m := |es| - 1;
    LastSymbol(lens);
    HeadsSplit(es, Used(lens[..n]), n, lens[n]);
    BuildReaches(lens[..n]);
    CanonicalAt(es, m);
    PlaceComplete(Build(lens[..n]).value, es[m]);
    assert es == es[..m] + [es[m]];
  }

  lemma LastSymbol(lens: seq<nat>)
    requires ValidLengths(lens) && |lens| > 0 && lens[|lens| - 1] != NO_CODE
    ensures var n := |lens| - 1;
      && ValidLengths(lens[..n]) && ValidLength(lens[n])
      && Used(lens) == Used(lens[..n]) + [(n, lens[n])]
      && (Build(lens[..n]).Some? ==> Build(lens) == Place(Build(lens[..n]).value, n, lens[n]))
  {
  }

  lemma HeadsSplit(es: seq<Entry>, u: seq<(nat, nat)>, symbol: nat, l: nat)
    requires Heads(es) == u + [(symbol, l)]
    ensures |es| == |u| + 1 && Heads(es[..|u|]) == u && es[|u|].symbol == symbol && es[|u|].len == l
  {
    assert |Heads(es)| == |u| + 1;
    assert Heads(es)[|u|] == (symbol, l);
    assert Heads(es[..|u|]) == Heads(es)[..|u|] == u;
  }

  lemma CanonicalPrefix(es: seq<Entry>, m: nat)
    requires Canonical(es) && m <= |es|
    ensures Canonical(es[..m])
  {
    var fs := es[..m];
    forall j | 0 <= j < m ensures LowestFree(fs[..j], fs[j].len, fs[j].code) {
      assert fs[..j] == es[..j];
    }
  }

  lemma CanonicalAt(es: seq<Entry>, j: nat)
    requires Canonical(es) && j < |es|
    ensures ValidLength(es[j].len) && ValidEntries(es[..j]) && LowestFree(es[..j], es[j].len, es[j].code)
  {
    assert LowestFree(es[..j], es[j].len, es[j].code);
  }

  lemma LowestFreeUnique(es: seq<Entry>, l: nat, a: nat, b: nat)
    requires ValidEntries(es) && l <= 32 && LowestFree(es, l, a) && LowestFree(es, l, b)
    ensures a == b
  {
  }

  lemma ZeroIsLowest(l: nat)
    requires ValidLength(l)
    ensures LowestFree([], l, 0)
  {
    SizeFalls(0, l);
    Pow2At32();
  }

  lemma PlaceComplete(t: Table, e: Entry)
    requires Reachable(t) && ValidLength(e.len) && LowestFree(t.es, e.len, e.code)
    ensures Place(t, e.symbol, e.len).Some? && Place(t, e.symbol, e.len).value.es == t.es + [e]
  {
    if t.es == [] {
      ZeroIsLowest(e.len);
      LowestFreeUnique([], e.len, 0, e.code);
      assert t.es + [e] == [e];
    } else {
      LowestIsDeepest(t.leaves, t.es, e.len, e.code);
    }
  }

  lemma LowestIsDeepest(a: Leaves, es: seq<Entry>, l: nat, code: nat)
    requires Partition(a, es) && ValidLength(l) && LowestFree(es, l, code)
    ensures Deepest(a, l) > 0 && a[Deepest(a, l)] == code
  {
    var y := FreeBlockInLeaf(a, es, code, l);
    DeepestIsLowest(a, es, l, Deepest(a, l));
    LowestFreeUnique(es, l, a[Deepest(a, l)], code);
  }

  /** A length list has a code that obeys the lowest-codeword rule exactly when Kraft's inequality holds. */
  lemma CanonicalExists(lens: seq<nat>)
    requires ValidLengths(lens)
    ensures (exists es :: Canonical(es) && Heads(es) == Used(lens)) <==> Kraft(lens) <= TOP
  {
    KraftDecides(lens);
    BuildReaches(lens);
    if es :| Canonical(es) && Heads(es) == Used(lens) {
      BuildComplete(lens, es);
    }
  }

  // ---------------------------------------------------------------- prefix freedom

  lemma CanonicalDisjoint(es: seq<Entry>, i: nat, j: nat)
    requires Canonical(es) && i < |es| && j < |es| && i != j
    ensures Disjoint(es[i].code, es[i].len, es[j].code, es[j].len)
  {
    if i < j {
      assert LowestFree(es[..j], es[j].len, es[j].code);
      assert es[..j][i] == es[i];
    } else {
      assert LowestFree(es[..i], es[i].len, es[i].code);
      assert es[..i][j] == es[j];
    }
  }

  /** What the decoder compares: the low bits of the accumulator against a stored, bit-reversed codeword. */
  predicate Begins(acc: nat, e: Entry) {
    acc % Pow2(e.len) == Reverse(e.code, 32)
  }

  /** A codeword is its first l bits, and it is stored as those bits reversed. */
  lemma StoredCode(code: nat, l: nat) returns (t: nat)
    requires ValidLength(l) && Aligned(code, l)
    ensures code == t * Size(l) && t < Pow2(l)
    ensures Reverse(code, 32) == Reverse(t, l) < Pow2(l)
  {
    hide Pow2, Reverse;
    t := code / Size(l);
    DivMod(code, Size(l));
    Pow2At32();
    Pow2Add(32 - l, l);
    QuotientBound(code, Size(l), Pow2(l));
    ReverseSplit(0, t, 32 - l, l);
    ReverseZero(32 - l);
    ReverseBound(t, l);
    assert 32 - l + l == 32 && 0 + Pow2(32 - l) * t == code;
    assert 0 * Pow2(l) == 0;
  }

  /** Reversal of the accumulator: its low l bits become the leading ones. */
  lemma LeadingBits(acc: nat, l: nat) returns (lo: nat)
    requires l <= 32
    ensures Reverse(acc, 32) == Reverse(acc % Pow2(l), l) * Size(l) + lo && lo < Size(l)
  {
    hide Pow2, Reverse;
    DivMod(acc, Pow2(l));
    lo := Reverse(acc / Pow2(l), 32 - l);
    assert l + (32 - l) == 32;
    ReverseSplit(acc % Pow2(l), acc / Pow2(l), l, 32 - l);
    ReverseBound(acc / Pow2(l), 32 - l);
  }

  /** The accumulator begins with a codeword exactly when the bit-reversed
      accumulator falls in the codeword's block. */
  lemma BeginsIffInside(acc: nat, e: Entry)
    requires ValidLength(e.len) && Aligned(e.code, e.len)
    ensures Begins(acc, e) <==> Inside(Reverse(acc, 32), e.code, e.len)
  {
    var l := e.len;
    var t := StoredCode(e.code, l);
    var lo := LeadingBits(acc, l);
    DivMod(acc, Pow2(l));
    ReverseTwice(t, l);
    ReverseTwice(acc % Pow2(l), l);
    if Inside(Reverse(acc, 32), e.code, l) {
      SameQuotient(Reverse(acc % Pow2(l), l), lo, t, Size(l));
    }
  }

  lemma {:induction false} ReverseZero(k: nat)
    ensures Reverse(0, k) == 0
  {
    if k > 0 {
      ReverseZero(k - 1);
    }
  }

  lemma QuotientBound(x: nat, s: nat, p: nat)
    requires s > 0 && p > 0 && x + s <= s * p
    ensures x / s < p
  {
    DivMod(x, s);
    PositiveMultiple(p - x / s, s);
  }

  lemma SameQuotient(hi: nat, lo: nat, t: nat, s: nat)
    requires s > 0 && lo < s && t * s <= hi * s + lo < t * s + s
    ensures hi == t
  {
    DivModUnique(hi * s + lo, s, hi, lo);
    DivModUnique(hi * s + lo, s, t, hi * s + lo - t * s);
  }

  /** At most one codeword begins the accumulator. */
  lemma BeginsUnique(acc: nat, es: seq<Entry>, i: nat, j: nat)
    requires Canonical(es) && i < |es| && j < |es|
    requires Begins(acc, es[i]) && Begins(acc, es[j])
    ensures i == j
  {
    assert LowestFree(es[..i], es[i].len, es[i].code) && LowestFree(es[..j], es[j].len, es[j].code);
    BeginsIffInside(acc, es[i]);
    BeginsIffInside(acc, es[j]);
    if i != j {
      CanonicalDisjoint(es, i, j);
    }
  }

  // ---------------------------------------------------------------- full codes

  lemma {:induction false} NoLeafLeft(a: Leaves, k: nat, z: nat)
    requires k < z <= 31 && FreeBelow(a, k) == 0
    ensures a[z] == 0
    decreases z - k
  {
    if k + 1 < z {
      NoLeafLeft(a, k + 1, z);
    }
  }

  lemma {:induction false} SomeLeafLeft(a: Leaves, k: nat) returns (z: nat)
    requires k <= 31 && FreeBelow(a, k) > 0
    ensures k < z <= 31 && a[z] != 0
    decreases 31 - k
  {
    hide Size;
    if a[k + 1] != 0 {
      z := k + 1;
    } else {
      z := SomeLeafLeft(a, k + 1);
    }
  }

  lemma LeafPoint(a: Leaves, es: seq<Entry>, z: nat)
    requires Partition(a, es) && IsLeaf(a, z)
    ensures a[z] < TOP && !InEntry(es, a[z])
  {
    forall j | 0 <= j < |es| ensures !Inside(a[z], es[j].code, es[j].len) {
      assert Disjoint(es[j].code, es[j].len, a[z], z);
    }
  }

  lemma NothingLeft(a: Leaves, es: seq<Entry>)
    requires Partition(a, es)
    ensures Assigned(es) == TOP <==> forall p: nat :: p < TOP ==> InEntry(es, p)
  {
    hide Size, Aligned, Apart;
    if FreeBelow(a, 0) == 0 {
      forall z: nat | IsLeaf(a, z) ensures false {
        NoLeafLeft(a, 0, z);
      }
    } else {
      var z := SomeLeafLeft(a, 0);
      LeafPoint(a, es, z);
    }
  }

  lemma PartitionValid(a: Leaves, es: seq<Entry>)
    requires Partition(a, es)
    ensures ValidEntries(es)
  {
  }

  /** The codewords take the whole code space exactly when Kraft's inequality is an equality. */
  lemma FullCode(lens: seq<nat>, es: seq<Entry>)
    requires ValidLengths(lens) && Canonical(es) && Heads(es) == Used(lens)
    ensures ValidEntries(es)
    ensures Kraft(lens) == TOP <==> forall p: nat :: p < TOP ==> InEntry(es, p)
  {
    hide Heads, Used, Kraft, Build, Size, Place, Partition;
    BuildComplete(lens, es);
    BuildReaches(lens);
    if es == [] {
      assert !InEntry(es, 0);
    } else {
      PartitionValid(Build(lens).value.leaves, es);
      NothingLeft(Build(lens).value.leaves, es);
    }
  }
}
