/** The codebook tables of the Vorbis decoder: codewords, the sorted table for
    binary search, and the table of short codes. */
module Codebooks {
  import opened Basics
  import opened Bits
  import opened PrefixCode


  const FAST_SIZE: nat := 1024

  class Codebook {
    var entries: nat
    var sparse: bool
    var sortedEntries: nat
    var codewordLengths: array?<nat>
    var codewords: array?<uint32>
    var sortedCodewords: array?<uint32>
    var sortedValues: array?<int>
    var fastHuffman: array<int>

    /** The header's allocation: `total` used symbols, `sorted` of them for the sorted table. */
    constructor (lens: seq<nat>, sparse: bool, sorted: nat)
      ensures entries == |lens| && this.sparse == sparse && sortedEntries == sorted
      ensures sortedCodewords == null && sortedValues == null
      ensures fresh(fastHuffman) && fastHuffman.Length == FAST_SIZE
      ensures codewordLengths != null ==> fresh(codewordLengths)
      ensures codewords != null ==> fresh(codewords)
      ensures !sparse ==> codewordLengths != null && codewordLengths[..] == lens
      ensures !sparse ==> codewords != null && codewords.Length == |lens|
      ensures sparse && sorted > 0 ==> codewordLengths != null && codewordLengths.Length == sorted
      ensures sparse && sorted > 0 ==> codewords != null && codewords.Length == sorted
      ensures sparse && sorted == 0 ==> codewordLengths == null && codewords == null
    {
      this.entries := |lens|;
      this.sparse := sparse;
      this.sortedEntries := sorted;
      this.sortedCodewords := null;
      this.sortedValues := null;
      this.fastHuffman := new int[FAST_SIZE];
      if !sparse {
        this.codewordLengths := new nat[|lens|](i requires 0 <= i < |lens| => lens[i]);
        this.codewords := new uint32[|lens|];
      } else if sorted > 0 {
        this.codewordLengths := new nat[sorted];
        this.codewords := new uint32[sorted];
      } else {
        this.codewordLengths := null;
        this.codewords := null;
      }
    }
  }

  /** The codewords table as add_entry leaves it: by symbol in a full book, by order of
      assignment in a sparse one. */
  ghost predicate Stored(c: Codebook, values: array?<nat>, es: seq<Entry>)
    reads c, c.codewords, c.codewordLengths, values
  {
    if c.sparse then
      es != [] ==>
        && c.codewords != null && c.codewordLengths != null && values != null
        && |es| <= c.codewords.Length && |es| <= c.codewordLengths.Length && |es| <= values.Length
        && forall j :: 0 <= j < |es| ==>
             && c.codewords[j] == Reverse(es[j].code, 32)
             && c.codewordLengths[j] == es[j].len
             && values[j] == es[j].symbol
    else
      && c.codewords != null
      && forall j :: 0 <= j < |es| ==>
           es[j].symbol < c.codewords.Length && c.codewords[es[j].symbol] == Reverse(es[j].code, 32)
  }

  ghost predicate Room(c: Codebook, lens: seq<nat>, values: array?<nat>)
    reads c
  {
    && c.entries == |lens|
    && ValidLengths(lens)
    && (!c.sparse ==> c.codewords != null && c.codewords.Length == |lens|)
    && (c.sparse && Used(lens) != [] ==>
          && c.codewords != null && c.codewordLengths != null && values != null
          && c.codewords.Length == c.codewordLengths.Length == values.Length == |Used(lens)|
          && c.codewordLengths != values)
  }

  /** Appends a codeword for the next used symbol; es and e are what the tables stand for. */
  method AddEntry(c: Codebook, huffCode: uint32, symbol: nat, count: nat, len: nat, values: array?<nat>,
                  ghost es: seq<Entry>, ghost e: Entry)
    requires Stored(c, values, es) && count == |es|
    requires e.symbol == symbol && e.len == len && huffCode == Reverse(e.code, 32)
    requires !c.sparse ==> c.codewords != null && symbol < c.codewords.Length
    requires !c.sparse ==> forall j :: 0 <= j < count ==> es[j].symbol < symbol
    requires c.sparse ==> c.codewords != null && c.codewordLengths != null && values != null
    requires c.sparse ==> count < c.codewords.Length && count < c.codewordLengths.Length && count < values.Length
    requires c.sparse ==> c.codewordLengths != values
    modifies c.codewords, if c.sparse then {c.codewordLengths, values} else {}
    ensures Stored(c, values, es + [e])
  {
    if !c.sparse {
      c.codewords[symbol] := huffCode;
    } else {
      c.codewords[count] := huffCode;
      c.codewordLengths[count] := len;
      values[count] := symbol;
    }
  }

  lemma UsedPrefix(lens: seq<nat>, i: nat)
    requires i < |lens|
    ensures Used(lens[..i + 1]) == Used(lens[..i]) + if lens[i] == NO_CODE then [] else [(i, lens[i])]
  {
    assert lens[..i + 1][..i] == lens[..i];
  }

  lemma {:induction false} UsedBelow(lens: seq<nat>)
    ensures forall k :: 0 <= k < |Used(lens)| ==> Used(lens)[k].0 < |lens|
  {
    if |lens| > 0 {
      UsedBelow(lens[..|lens| - 1]);
    }
  }

  lemma {:induction false} UsedGrows(lens: seq<nat>, i: nat)
    requires i <= |lens|
    ensures |Used(lens[..i])| <= |Used(lens)|
    decreases |lens|
  {
    if i == |lens| {
      assert lens[..i] == lens;
    } else {
      var n := |lens| - 1;
      UsedGrows(lens[..n], i);
      assert lens[..n][..i] == lens[..i];
    }
  }

  /** Unused symbols at the front leave the table empty. */
  lemma {:induction false} BuildSkips(lens: seq<nat>, k: nat)
    requires ValidLengths(lens) && k <= |lens|
    requires forall i :: 0 <= i < k ==> lens[i] == NO_CODE
    ensures Build(lens[..k]) == Some(Table(NoLeaves(), [])) && Used(lens[..k]) == []
  {
    if k > 0 {
      BuildSkips(lens, k - 1);
      assert lens[..k][..k - 1] == lens[..k - 1];
    }
  }

  lemma BuildStep(lens: seq<nat>, i: nat)
    requires ValidLengths(lens) && i < |lens|
    ensures Build(lens[..i + 1]) ==
      var t := Build(lens[..i]);
      if t.None? || lens[i] == NO_CODE then t else Place(t.value, i, lens[i])
  {
    assert lens[..i + 1][..i] == lens[..i];
  }

  lemma {:induction false} BuildStuck(lens: seq<nat>, i: nat)
    requires ValidLengths(lens) && i <= |lens| && Build(lens[..i]).None?
    ensures Build(lens).None?
    decreases |lens| - i
  {
    if i == |lens| {
      assert lens[..i] == lens;
    } else {
      BuildStep(lens, i);
      BuildStuck(lens, i + 1);
    }
  }

  ghost function Leaves32(a: array<uint32>): (l: Leaves)
    requires a.Length == 32
    reads a
  {
    a[..]
  }

  lemma {:induction false} DeepestHere(a: Leaves, l: nat, z: nat)
    requires z <= l <= 31 && (z == 0 || a[z] != 0)
    requires forall y :: z < y <= l ==> a[y] == 0
    ensures Deepest(a, l) == z
    decreases l - z
  {
    if z < l {
      DeepestHere(a, l - 1, z);
    }
  }

  /** The leaves left free by a first codeword 0 of length l. */
  method SeedLeaves(available: array<uint32>, l: nat)
    requires available.Length == 32 && l <= 31 && Leaves32(available) == NoLeaves()
    modifies available
    ensures Leaves32(available) == Split(NoLeaves(), 0, l, 0)
  {
    assert available[0] == Leaves32(available)[0];
    assert forall w :: 0 <= w < 32 ==> available[w] == Leaves32(available)[w];
    var i := 1;
    while i <= l
      invariant 1 <= i <= l + 1
      invariant forall w :: 0 <= w < 32 ==> available[w] == if 1 <= w < i then Size(w) else 0
    {
      Pow2At32();
      SizeFalls(0, i);
      available[i] := Pow2(32 - i);
      i := i + 1;
    }
  }

  /** The search for the lowest available leaf. */
  method FindLeaf(available: array<uint32>, l: nat) returns (z: nat)
    requires available.Length == 32 && l <= 31
    ensures z == Deepest(Leaves32(available), l)
  {
    z := l;
    while z > 0 && available[z] == 0
      invariant z <= l && forall y :: z < y <= l ==> available[y] == 0
    {
      z := z - 1;
    }
    DeepestHere(Leaves32(available), l, z);
  }

  /** Takes the leaf at level z for a codeword of length l and propagates availability. */
  method TakeLeaf(available: array<uint32>, z: nat, l: nat) returns (res: uint32)
    requires available.Length == 32 && ValidLength(l) && Ordered(Leaves32(available))
    requires 0 < z == Deepest(Leaves32(available), l)
    modifies available
    ensures res == old(Leaves32(available))[z]
    ensures Leaves32(available) == Split(old(Leaves32(available)), z, l, res)
  {
    ghost var a := Leaves32(available);
    assert IsLeaf(a, z);
    res := available[z];
    available[z] := 0;
    var y := l;
    while y > z
      invariant z <= y <= l
      invariant forall w :: 0 <= w < 32 ==>
        available[w] == if w == z then 0 else if y < w <= l then res + Size(w) else a[w]
    {
      assert available[y] == 0;
      SplitAligned(z, y, res);
      available[y] := res + Pow2(32 - y);
      y := y - 1;
    }
  }

  lemma StoredAppend(es: seq<Entry>, lens: seq<nat>, i: nat)
    requires i < |lens| && lens[i] != NO_CODE && Heads(es) == Used(lens[..i])
    ensures |es| < |Used(lens)|
    ensures forall j :: 0 <= j < |es| ==> es[j].symbol < i
  {
    UsedPrefix(lens, i);
    UsedGrows(lens, i + 1);
    UsedBelow(lens[..i]);
    forall j | 0 <= j < |es| ensures es[j].symbol < i {
      assert Heads(es)[j].0 < i;
    }
  }

  /** After i lengths: the leaf table and the codewords are those of the first i symbols. */
  ghost predicate BuiltTo(c: Codebook, lens: seq<nat>, values: array?<nat>, available: array<uint32>, i: nat, es: seq<Entry>)
    reads c, c.codewords, c.codewordLengths, values, available
  {
    && Room(c, lens, values)
    && available.Length == 32 && available != c.codewords
    && i <= |lens|
    && Build(lens[..i]) == Some(Table(Leaves32(available), es))
    && Stored(c, values, es)
  }

  lemma BuildHeads(lens: seq<nat>, i: nat)
    requires ValidLengths(lens) && i <= |lens| && Build(lens[..i]).Some?
    ensures Heads(Build(lens[..i]).value.es) == Used(lens[..i])
    ensures Build(lens[..i]).value.es != [] ==> Ordered(Build(lens[..i]).value.leaves)
  {
    BuildReaches(lens[..i]);
  }

  method AssignFirstSymbol(c: Codebook, lens: seq<nat>, values: array?<nat>, available: array<uint32>, k: nat)
      returns (ghost es: seq<Entry>)
    requires BuiltTo(c, lens, values, available, k, []) && k < |lens| && lens[k] != NO_CODE
    modifies available, c.codewords, if c.sparse then {c.codewordLengths, values} else {}
    ensures BuiltTo(c, lens, values, available, k + 1, es) && |es| == 1
  {
    ghost var e := Entry(k, lens[k], 0);
    BuildHeads(lens, k);
    StoredAppend([], lens, k);
    ReverseZero(32);
    BuildReaches(lens[..k]);
    assert Leaves32(available) == NoLeaves();
    AddEntry(c, 0, k, 0, lens[k], values, [], e);
    SeedLeaves(available, lens[k]);
    es := [] + [e];
    assert es == [e];
    BuildStep(lens, k);
  }

  method AssignSymbol(c: Codebook, lens: seq<nat>, values: array?<nat>, available: array<uint32>, i: nat, m: nat,
                      ghost es: seq<Entry>) returns (ok: bool, ghost fs: seq<Entry>)
    requires BuiltTo(c, lens, values, available, i, es) && i < |lens| && lens[i] != NO_CODE
    requires es != [] && m == |es|
    modifies available, c.codewords, if c.sparse then {c.codewordLengths, values} else {}
    ensures ok ==> BuiltTo(c, lens, values, available, i + 1, fs) && |fs| == m + 1
    ensures !ok ==> Build(lens[..i + 1]).None?
  {
    hide Aligned, Size, Pow2, Reverse, Ordered, Stored, Used, Heads;
    BuildStep(lens, i);
    BuildHeads(lens, i);
    StoredAppend(es, lens, i);
    var z := FindLeaf(available, lens[i]);
    if z == 0 {
      return false, es;
    }
    var res := TakeLeaf(available, z, lens[i]);
    ReverseBound(res, 32);
    Pow2At32();
    ghost var e := Entry(i, lens[i], res);
    AddEntry(c, Reverse(res, 32), i, m, lens[i], values, es, e);
    return true, es + [e];
  }

  /** Builds the codewords for lengths in symbol order and says whether they fit.
      The free-leaf table is exactly the one whose partition property is proved above. */
  method ComputeCodewords(c: Codebook, len: seq<nat>, values: array?<nat>) returns (ok: bool, ghost es: seq<Entry>)
    requires Room(c, len, values)
    modifies c.codewords, if c.sparse then {c.codewordLengths, values} else {}
    ensures ok <==> Kraft(len) <= TOP
    ensures ok ==> Canonical(es) && Heads(es) == Used(len) && Stored(c, values, es)
  {
    hide Build, Kraft, Canonical, Heads, Used;
    var n := |len|;
    var available := new uint32[32](_ => 0);
    var k := 0;
    while k < n && len[k] == NO_CODE
      invariant k <= n && forall i :: 0 <= i < k ==> len[i] == NO_CODE
    {
      k := k + 1;
    }
    BuildSkips(len, k);
    assert Leaves32(available) == NoLeaves();
    if k == n {
      assert len[..n] == len;
      Verdict(len);
      return true, [];
    }
    es := AssignFirstSymbol(c, len, values, available, k);
    var m := 1;
    var i := k + 1;
    while i < n
      invariant BuiltTo(c, len, values, available, i, es) && m == |es| && es != []
    {
      if len[i] == NO_CODE {
        BuildStep(len, i);
      } else {
        ok, es := AssignSymbol(c, len, values, available, i, m, es);
        if !ok {
          BuildStuck(len, i + 1);
          Verdict(len);
          return;
        }
        m := m + 1;
      }
      i := i + 1;
    }
    assert len[..n] == len;
    Verdict(len);
    return true, es;
  }
}
