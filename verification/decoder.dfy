/** Decoding symbols: the table of short codewords, binary search and linear scan over
    one bit reader. */
module Decoder {
  import opened Basics
  import opened Bits
  import opened PrefixCode
  import opened Ranking
  import opened Codebooks
  import opened HuffmanTables
  import opened PacketReader

  // ---------------------------------------------------------------- a finished codebook

  /** The tables of a codebook agree with the canonical code of its lengths. */
  ghost predicate Book(c: Codebook, lens: seq<nat>, es: seq<Entry>)
    reads c, c.codewords, c.codewordLengths, c.sortedCodewords, c.sortedValues, c.fastHuffman
  {
    && ValidLengths(lens) && Canonical(es) && Heads(es) == Used(lens)
    && c.entries == |lens|
    && c.sortedEntries == |Ranked(es, c.sparse)|
    && (if c.sortedEntries > 0 then SortedTable(c, Ranked(es, c.sparse))
        else c.sortedCodewords == null && c.sortedValues == null)
    && (if c.sparse then c.codewords == null && (c.sortedEntries == 0 ==> c.codewordLengths == null)
        else
          && c.codewordLengths != null && c.codewordLengths[..] == lens
          && c.codewords != null && c.codewords.Length == c.entries
          && forall j :: 0 <= j < |es| ==> es[j].symbol < c.entries && c.codewords[es[j].symbol] == Reverse(es[j].code, 32))
    && IndexArrays(c)
    && FastTable(c, FastCount(c))
  }

  function FastCount(c: Codebook): (n: nat)
    reads c
  {
    if Indices(c) > FAST_LIMIT then FAST_LIMIT else Indices(c)
  }

  /** x is the table index of entry e. */
  ghost predicate IndexOf(c: Codebook, es: seq<Entry>, e: Entry, x: int)
    reads c
  {
    if c.sparse then 0 <= x < |Ranked(es, true)| && Ranked(es, true)[x] == e
    else x == e.symbol
  }

  /** Every used entry has exactly one index, and its length and codeword are stored there. */
  lemma IndexFacts(c: Codebook, lens: seq<nat>, es: seq<Entry>, e: Entry) returns (x: nat)
    requires Book(c, lens, es) && e in es
    ensures ValidLength(e.len) && Aligned(e.code, e.len) && Reverse(e.code, 32) < TOP
    ensures x < Indices(c) && c.codewordLengths != null && x < c.codewordLengths.Length
    ensures IndexOf(c, es, e, x) && c.codewordLengths[x] == e.len && IndexCode(c, x) == Reverse(e.code, 32)
    ensures forall y :: IndexOf(c, es, e, y) ==> y == x
  {
    hide Canonical, Heads, Reverse, FastTable;
    var u :| 0 <= u < |es| && es[u] == e;
    CanonicalEntry(es, u);
    SymbolOf(lens, es, u);
    RankedIsStrict(es, c.sparse);
    ReverseBound(e.code, 32);
    Pow2At32();
    if c.sparse {
      assert e in Ranked(es, true);
      x :| 0 <= x < |Ranked(es, true)| && Ranked(es, true)[x] == e;
      SizePositive(Ranked(es, true));
    } else {
      x := e.symbol;
      assert c.codewordLengths[..][x] == lens[x];
    }
  }

  /** No two indices have codewords that begin the same ten bits: a cell of the table of short
      codewords has one index to hold at most. */
  lemma ShortUnique(c: Codebook, lens: seq<nat>, es: seq<Entry>, w: nat, x: nat, y: nat)
    requires Book(c, lens, es) && x < Indices(c) && y < Indices(c)
    requires ShortAt(c, x, w) && ShortAt(c, y, w)
    ensures x == y
  {
    hide Canonical, Heads, Reverse, FastTable, Pow2;
    var d := IndexEntry(c, lens, es, x);
    var e := IndexEntry(c, lens, es, y);
    var x' := IndexFacts(c, lens, es, d);
    var y' := IndexFacts(c, lens, es, e);
    var i :| 0 <= i < |es| && es[i] == d;
    var j :| 0 <= j < |es| && es[j] == e;
    BeginsUnique(w, es, i, j);
  }

  lemma SizePositive(r: seq<Entry>)
    requires StrictlyRanked(r)
    ensures forall i, j :: 0 <= i < |r| && 0 <= j < |r| && r[i] == r[j] ==> i == j
  {
  }

  /** An index whose length is not NO_CODE belongs to a used entry. */
  lemma IndexEntry(c: Codebook, lens: seq<nat>, es: seq<Entry>, x: nat) returns (e: Entry)
    requires Book(c, lens, es) && x < Indices(c) && c.codewordLengths[x] != NO_CODE
    ensures e in es && IndexOf(c, es, e, x)
  {
    hide Canonical, Heads, Reverse, FastTable;
    RankedIsStrict(es, c.sparse);
    if c.sparse {
      e := Ranked(es, true)[x];
      assert e in Ranked(es, true);
    } else {
      assert c.codewordLengths[..][x] == lens[x];
      var u := EntryOf(lens, es, x);
      e := es[u];
    }
  }

  // ---------------------------------------------------------------- the setup of one codebook

  /** How many used symbols, and how many for the sorted table. */
  method CountLengths(lens: seq<nat>, ghost es: seq<Entry>) returns (total: nat, long: nat)
    ensures total == |Used(lens)|
    ensures Heads(es) == Used(lens) ==> long == |Long(es, false)|
    ensures long <= total <= |lens|
  {
    total := 0;
    long := 0;
    var j := 0;
    while j < |lens|
      invariant 0 <= j <= |lens| && total == |Used(lens[..j])| && long <= total <= j
      invariant Heads(es) == Used(lens) ==> total <= |es| && long == |Long(es[..total], false)|
    {
      UsedPrefix(lens, j);
      if Heads(es) == Used(lens) && lens[j] != NO_CODE {
        var u := EntryOf(lens, es, j);
        LongStep(es, u, false);
      }
      if lens[j] != NO_CODE {
        total := total + 1;
        if lens[j] > FAST_LENGTH {
          long := long + 1;
        }
      }
      j := j + 1;
    }
    assert lens[..j] == lens;
    if Heads(es) == Used(lens) {
      FullHeads(es, lens);
      assert es[..total] == es;
    }
  }

  lemma StoredSmall(es: seq<Entry>, u: nat)
    requires Canonical(es) && u < |es|
    ensures ValidLength(es[u].len) && Reverse(es[u].code, 32) < Pow2(es[u].len)
  {
    CanonicalEntry(es, u);
    var t := StoredCode(es[u].code, es[u].len);
  }

  lemma SparseArrays(c: Codebook, es: seq<Entry>)
    requires c.sparse && Canonical(es) && SortedTable(c, Ranked(es, true)) && c.fastHuffman.Length == FAST_SIZE
    ensures IndexArrays(c)
  {
    hide Canonical, Reverse, Pow2;
    RankedIsStrict(es, true);
    var r := Ranked(es, true);
    forall j | 0 <= j < |r|
      ensures 1 <= c.codewordLengths[j] && IndexCode(c, j) < Pow2(c.codewordLengths[j])
    {
      assert r[j] in es;
      var u :| 0 <= u < |es| && es[u] == r[j];
      StoredSmall(es, u);
    }
  }

  lemma FullArrays(c: Codebook, lens: seq<nat>, es: seq<Entry>)
    requires !c.sparse && ValidLengths(lens) && Canonical(es) && Heads(es) == Used(lens) && c.entries == |lens|
    requires c.codewordLengths != null && c.codewordLengths[..] == lens && c.fastHuffman.Length == FAST_SIZE
    requires c.codewords != null && c.codewords.Length == c.entries
    requires forall j :: 0 <= j < |es| ==> es[j].symbol < c.entries && c.codewords[es[j].symbol] == Reverse(es[j].code, 32)
    ensures IndexArrays(c)
  {
    hide Canonical, Reverse, Pow2, Heads;
    forall j | 0 <= j < c.entries
      ensures 1 <= c.codewordLengths[j]
      ensures c.codewordLengths[j] <= FAST_LENGTH ==> IndexCode(c, j) < Pow2(c.codewordLengths[j])
    {
      assert c.codewordLengths[..][j] == lens[j];
      if lens[j] != NO_CODE {
        var u := EntryOf(lens, es, j);
        StoredSmall(es, u);
      }
    }
  }

  /** Allocates and fills the sorted table, if it has entries. */
  method SetupSorted(c: Codebook, lens: seq<nat>, values: array?<nat>, ghost es: seq<Entry>)
    requires Canonical(es) && Heads(es) == Used(lens) && c.entries == |lens|
    requires c.sortedCodewords == null && c.sortedValues == null && c.sortedEntries <= c.entries
    requires c.sortedEntries == |Long(es, c.sparse)|
    requires c.sortedEntries > 0 ==> CodesAt(c, values, es)
    requires c.sparse && c.sortedEntries > 0 ==> c.codewordLengths != null && c.codewordLengths.Length == c.sortedEntries
    requires c.sparse && c.sortedEntries > 0 ==> c.codewordLengths != values
    modifies c`sortedCodewords, c`sortedValues, if c.sparse then {c.codewordLengths} else {}
    ensures c.sortedEntries == |Ranked(es, c.sparse)|
    ensures if c.sortedEntries > 0 then SortedTable(c, Ranked(es, c.sparse))
            else c.sortedCodewords == null && c.sortedValues == null
    ensures c.sortedCodewords != null ==> fresh(c.sortedCodewords)
    ensures c.sortedValues != null ==> fresh(c.sortedValues)
  {
    hide Canonical, Heads, Used, Long, Ranked, Reverse;
    RankedIsStrict(es, c.sparse);
    if c.sortedEntries > 0 {
      c.sortedCodewords := new uint32[c.sortedEntries + 1];
      c.sortedValues := new int[c.sortedEntries + 1];
      c.sortedValues[0] := -1;
      ComputeSortedHuffman(c, lens, values, es);
    }
  }

  /** A codebook with its codewords in place and the other tables still to be built. */
  ghost predicate Coded(c: Codebook, lens: seq<nat>, values: array?<nat>, es: seq<Entry>)
    reads c, c.codewords, c.codewordLengths, values
  {
    && ValidLengths(lens) && Canonical(es) && Heads(es) == Used(lens) && c.entries == |lens|
    && c.sortedCodewords == null && c.sortedValues == null && c.fastHuffman.Length == FAST_SIZE
    && c.sortedEntries <= c.entries && c.sortedEntries == |Long(es, c.sparse)|
    && (c.sortedEntries > 0 ==> CodesAt(c, values, es))
    && (if c.sparse then
          && (c.sortedEntries > 0 ==> c.codewordLengths != null && c.codewordLengths.Length == c.sortedEntries
                                      && c.codewordLengths != values)
          && (c.sortedEntries == 0 ==> c.codewordLengths == null)
        else
          && c.codewordLengths != null && c.codewordLengths[..] == lens
          && c.codewords != null && c.codewords.Length == c.entries
          && forall j :: 0 <= j < |es| ==> es[j].symbol < c.entries && c.codewords[es[j].symbol] == Reverse(es[j].code, 32))
  }

  /** Allocates a codebook and computes its codewords; null when the lengths ask for
      more code space than there is. */
  method SetupCodes(lens: seq<nat>, sparseFlag: bool) returns (c: Codebook?, values: array?<nat>, ghost es: seq<Entry>)
    requires ValidLengths(lens)
    ensures c != null <==> Kraft(lens) <= TOP
    ensures c != null ==> fresh(c) && fresh(c.fastHuffman) && Coded(c, lens, values, es)
    ensures c != null ==> (c.sparse <==> sparseFlag && |Used(lens)| < |lens| / 4)
    ensures c != null && c.codewordLengths != null ==> fresh(c.codewordLengths)
  {
    hide Canonical, Heads, Used, Long, Reverse, Kraft, Build;
    Verdict(lens);
    ghost var planned := if Build(lens).Some? then Build(lens).value.es else [];
    var total, long := CountLengths(lens, planned);
    var sparse := sparseFlag && total < |lens| / 4;
    var d := new Codebook(lens, sparse, if sparse then total else long);
    values := null;
    if sparse && total > 0 {
      values := new nat[total];
    }
    EmptyUsed(lens, total);
    var ok;
    ok, es := ComputeCodewords(d, lens, values);
    if !ok {
      return null, values, es;
    }
    BuildComplete(lens, es);
    FullHeads(es, lens);
    LongAll(es);
    StoredCodes(d, lens, values, es);
    return d, values, es;
  }

  lemma StoredCodes(c: Codebook, lens: seq<nat>, values: array?<nat>, es: seq<Entry>)
    requires Stored(c, values, es) && Heads(es) == Used(lens) && c.entries == |lens|
    requires c.sortedEntries == |Long(es, c.sparse)|
    requires Room(c, lens, values)
    requires c.sparse ==> |es| == c.sortedEntries
    ensures c.sortedEntries > 0 ==> CodesAt(c, values, es)
    ensures !c.sparse ==> forall j :: 0 <= j < |es| ==> es[j].symbol < c.entries && c.codewords[es[j].symbol] == Reverse(es[j].code, 32)
  {
    FullHeads(es, lens);
  }

  /** Builds every table of one codebook from its lengths; null when the lengths ask for
      more code space than there is. */
  method SetupCodebook(lens: seq<nat>, sparseFlag: bool) returns (c: Codebook?, ghost es: seq<Entry>)
    requires ValidLengths(lens)
    ensures c != null <==> Kraft(lens) <= TOP
    ensures c != null ==> Book(c, lens, es) && fresh(c) && (c.sparse <==> sparseFlag && |Used(lens)| < |lens| / 4)
  {
    hide Canonical, Heads, Used, Long, Ranked, Reverse, Kraft, CodesAt;
    var values;
    c, values, es := SetupCodes(lens, sparseFlag);
    if c == null {
      return;
    }
    SetupSorted(c, lens, values, es);
    if c.sparse {
      c.codewords := null;
      if c.sortedEntries > 0 {
        SparseArrays(c, es);
      }
    } else {
      FullArrays(c, lens, es);
    }
    ComputeAcceleratedHuffman(c);
  }

  lemma EmptyUsed(lens: seq<nat>, total: nat)
    requires total == |Used(lens)|
    ensures Used(lens) == [] <==> total == 0
  {
  }

  // ---------------------------------------------------------------- codewords in the bit stream

  /** A codeword as it is written: least significant stored bit first. */
  function CodeBits(e: Entry): (b: seq<bool>)
    ensures |b| == e.len
  {
    BitsOf(Reverse(e.code, 32), e.len)
  }

  predicate StartsWith(s: seq<bool>, e: Entry) {
    CodeBits(e) <= s
  }

  /** How many bits a refilled accumulator holds when n bits of the packet are left: all of
      them, or those up to the end of the fourth byte from the one being read. */
  function Window(n: nat): (w: nat)
    ensures w <= n && w <= 32
    ensures n < 25 ==> w == n
    ensures n >= 25 ==> w >= 25 && (n - w) % 8 == 0
  {
    if n < 25 then n else 25 + (n + 7) % 8
  }

  lemma WindowUnique(v: nat, n: nat)
    requires v <= n && v <= 32 && (n - v) % 8 == 0 && (v >= 25 || v == n)
    ensures v == Window(n)
  {
  }

  /** The accumulator begins with a codeword of at most v bits exactly when the stream does. */
  lemma BeginsStream(acc: nat, v: nat, s: seq<bool>, e: Entry)
    requires v <= |s| && s[..v] == BitsOf(acc, v) && e.len <= v && Reverse(e.code, 32) < Pow2(e.len)
    ensures Begins(acc, e) <==> StartsWith(s, e)
  {
    hide Pow2, Reverse, BitsOf, ValueOf;
    BitsSplit(acc, e.len, v);
    assert s[..e.len] == s[..v][..e.len] == BitsOf(acc % Pow2(e.len), e.len);
    ValueOfBits(Reverse(e.code, 32), e.len);
    DivMod(acc, Pow2(e.len));
    ValueOfBits(acc % Pow2(e.len), e.len);
  }

  /** A bit stream starts with at most one codeword. */
  lemma StartsUnique(s: seq<bool>, es: seq<Entry>, d: Entry, e: Entry)
    requires Canonical(es) && d in es && e in es && StartsWith(s, d) && StartsWith(s, e)
    ensures d == e
  {
    hide Pow2, Reverse, BitsOf, ValueOf, Canonical, Begins;
    var i :| 0 <= i < |es| && es[i] == d;
    var j :| 0 <= j < |es| && es[j] == e;
    StoredSmall(es, i);
    StoredSmall(es, j);
    var acc := ValueOf(s);
    BitsOfValue(s);
    assert s[..|s|] == s;
    BeginsStream(acc, |s|, s, d);
    BeginsStream(acc, |s|, s, e);
    BeginsUnique(acc, es, i, j);
  }

  // ---------------------------------------------------------------- one symbol from the accumulator

  /** Whether the codewords are scanned linearly: a full book that is small or has no sorted table. */
  predicate Linear(c: Codebook)
    reads c
  {
    if c.entries > 8 then c.sortedCodewords == null else c.codewords != null
  }

  /** The scan or binary search can meet entry e. */
  predicate Searchable(c: Codebook, e: Entry)
    reads c
  {
    c.sparse || e.len > FAST_LENGTH || Linear(c)
  }

  /** The index x is usable: its codeword length is known and no longer than the valid bits. */
  ghost predicate Usable(c: Codebook, x: int, validBits: nat)
    reads c, c.codewordLengths
  {
    0 <= x < Indices(c) && c.codewordLengths != null && x < c.codewordLengths.Length && 1 <= c.codewordLengths[x] <= validBits
  }

  lemma SearchMeets(c: Codebook, lens: seq<nat>, es: seq<Entry>, acc: uint32, x: nat, e: Entry)
    requires Book(c, lens, es) && c.sortedCodewords != null && c.sortedCodewords.Length > c.sortedEntries > x
    requires x == 0 || c.sortedCodewords[x] <= BitReverse(acc)
    requires x + 1 == c.sortedEntries || BitReverse(acc) < c.sortedCodewords[x + 1]
    ensures x < |Ranked(es, c.sparse)|
    ensures e in es && Begins(acc, e) && (c.sparse || e.len > FAST_LENGTH) ==> Ranked(es, c.sparse)[x] == e
  {
    hide Canonical, Heads, Reverse, FastTable, Begins, Pow2, Aligned, Ranked;
    if e in es && Begins(acc, e) && (c.sparse || e.len > FAST_LENGTH) {
      var r := Ranked(es, c.sparse);
      RankedIsStrict(es, c.sparse);
      var y :| 0 <= y < |r| && r[y] == e;
      var z := IndexFacts(c, lens, es, e);
      BeginsIffInside(acc, e);
      SearchHits(r, x, y, BitReverse(acc));
    }
  }

  /** No code space is left over. */
  ghost predicate Full(lens: seq<nat>) {
    ValidLengths(lens) && Kraft(lens) == TOP
  }

  /** In a full code some codeword begins the accumulator, whatever its bits are. */
  lemma FullBegins(lens: seq<nat>, es: seq<Entry>, acc: uint32) returns (d: Entry)
    requires Full(lens) && Canonical(es) && Heads(es) == Used(lens)
    ensures d in es && Begins(acc, d)
  {
    hide Canonical, Heads, Used, Kraft, Reverse, Begins;
    FullCode(lens, es);
    Pow2At32();
    ReverseBound(acc, 32);
    assert InEntry(es, Reverse(acc, 32));
    var j :| 0 <= j < |es| && Inside(Reverse(acc, 32), es[j].code, es[j].len);
    CanonicalEntry(es, j);
    BeginsIffInside(acc, es[j]);
    d := es[j];
    assert d in es;
  }

  /** x is the index of an entry, and its length is stored there. */
  ghost predicate Indexed(c: Codebook, es: seq<Entry>, x: int)
    reads c, c.codewordLengths
  {
    exists d :: d in es && IndexOf(c, es, d, x) && d.len == LengthAt(c, x)
  }

  /** A codeword begins the valid bits, and x is its index unless the search cannot meet it. */
  ghost predicate Meets(c: Codebook, es: seq<Entry>, acc: nat, validBits: nat, x: int)
    reads c
  {
    exists d :: d in es && Begins(acc, d) && d.len <= validBits && (IndexOf(c, es, d, x) || !Searchable(c, d))
  }

  /** The length stored for index x, or 0. */
  ghost function LengthAt(c: Codebook, x: int): (l: nat)
    reads c, c.codewordLengths
  {
    if c.codewordLengths != null && 0 <= x < c.codewordLengths.Length then c.codewordLengths[x] else 0
  }

  /** In a full code, what the binary search returns is the codeword that begins the accumulator,
      unless that one is not in the table. */
  lemma FullMeets(c: Codebook, lens: seq<nat>, es: seq<Entry>, acc: uint32, validBits: nat, y: nat, x: int)
    requires Book(c, lens, es) && c.sortedCodewords != null && c.sortedCodewords.Length > c.sortedEntries > y
    requires y == 0 || c.sortedCodewords[y] <= BitReverse(acc)
    requires y + 1 == c.sortedEntries || BitReverse(acc) < c.sortedCodewords[y + 1]
    requires y < |Ranked(es, c.sparse)| && Ranked(es, c.sparse)[y] in es && IndexOf(c, es, Ranked(es, c.sparse)[y], x)
    requires !Linear(c) && Full(lens) && Ranked(es, c.sparse)[y].len <= validBits && (c.sparse || Ranked(es, c.sparse)[y].len > FAST_LENGTH)
    ensures Meets(c, es, acc, validBits, x)
  {
    hide Canonical, Heads, Reverse, FastTable, Begins, Pow2, Aligned, Ranked, Kraft, IndexOf;
    var d := FullBegins(lens, es, acc);
    SearchMeets(c, lens, es, acc, y, d);
  }

  /** Entry y is the last one with a codeword not above the code, or the first. */
  predicate LastNotAbove(r: seq<Entry>, y: nat, code: nat) {
    y < |r| && (y == 0 || r[y].code <= code) && (y + 1 == |r| || code < r[y + 1].code)
  }

  /** Whatever the accumulator holds, the last entry not above it is returned if the valid bits
      allow its length: the prefix is not compared again. */
  method SearchSorted(c: Codebook, acc: uint32, validBits: nat, ghost lens: seq<nat>, ghost es: seq<Entry>, ghost e: Entry)
      returns (x: int)
    requires Book(c, lens, es) && c.sortedCodewords != null && !Linear(c)
    ensures x == -1 || Usable(c, x, validBits)
    ensures x >= 0 && !c.sparse ==> c.codewordLengths[x] > FAST_LENGTH
    ensures e in es && Begins(acc, e) && e.len <= validBits && (c.sparse || e.len > FAST_LENGTH) ==> IndexOf(c, es, e, x)
    ensures x >= 0 ==> Indexed(c, es, x)
    ensures x >= 0 && Full(lens) ==> Meets(c, es, acc, validBits, x)
    ensures exists y: nat ::
      (LastNotAbove(Ranked(es, c.sparse), y, BitReverse(acc))
       && if Ranked(es, c.sparse)[y].len <= validBits then IndexOf(c, es, Ranked(es, c.sparse)[y], x) else x == -1)
  {
    hide Canonical, Heads, Reverse, FastTable, Begins, Pow2, Aligned, Ranked, Full, Meets;
    ghost var r := Ranked(es, c.sparse);
    RankedIsStrict(es, c.sparse);
    var code := BitReverse(acc);
    x := BinarySearch(c.sortedCodewords, c.sortedEntries, code);
    ghost var found := r[x];
    assert found in r;
    SearchMeets(c, lens, es, acc, x, e);
    ghost var y := x;
    ghost var at := IndexFacts(c, lens, es, found);
    if !c.sparse {
      x := c.sortedValues[x + 1];
    }
    var len := c.codewordLengths[x];
    assert LastNotAbove(r, y, code) && r[y].len == len;
    if validBits < len {
      return -1;
    }
    if Full(lens) {
      FullMeets(c, lens, es, acc, validBits, y, x);
    }
  }

  method SearchLinear(c: Codebook, acc: uint32, validBits: nat, ghost lens: seq<nat>, ghost es: seq<Entry>, ghost e: Entry)
      returns (x: int)
    requires Book(c, lens, es) && !c.sparse
    ensures x == -1 || Usable(c, x, validBits)
    ensures e in es && Begins(acc, e) && e.len <= validBits ==> IndexOf(c, es, e, x)
    ensures x >= 0 ==> Indexed(c, es, x) && Meets(c, es, acc, validBits, x)
  {
    hide Canonical, Heads, FastTable, Reverse, Pow2, Aligned, Ranked;
    ghost var z := 0;
    if e in es {
      z := IndexFacts(c, lens, es, e);
    }
    var i := 0;
    while i < c.entries
      invariant 0 <= i <= c.entries
      invariant e in es && Begins(acc, e) ==> i <= z
    {
      if c.codewordLengths[i] != NO_CODE && c.codewords[i] == acc % Pow2(c.codewordLengths[i]) {
        ghost var d := IndexEntry(c, lens, es, i);
        ghost var y := IndexFacts(c, lens, es, d);
        if e in es && Begins(acc, e) {
          SameEntry(acc, es, d, e);
        }
        if validBits >= c.codewordLengths[i] {
          return i;
        }
        return -1;
      }
      i := i + 1;
    }
    return -1;
  }

  lemma SameEntry(acc: nat, es: seq<Entry>, d: Entry, e: Entry)
    requires Canonical(es) && d in es && e in es && Begins(acc, d) && Begins(acc, e)
    ensures d == e
  {
    var i :| 0 <= i < |es| && es[i] == d;
    var j :| 0 <= j < |es| && es[j] == e;
    BeginsUnique(acc, es, i, j);
  }

  /** The slow path's search; -1 when nothing is found or too few bits are valid. */
  method Search(c: Codebook, acc: uint32, validBits: nat, ghost lens: seq<nat>, ghost es: seq<Entry>, ghost e: Entry)
      returns (x: int)
    requires Book(c, lens, es) && !NoCodes(c)
    ensures x == -1 || Usable(c, x, validBits)
    ensures x >= 0 && !Linear(c) && !c.sparse ==> c.codewordLengths[x] > FAST_LENGTH
    ensures e in es && Begins(acc, e) && e.len <= validBits && Searchable(c, e) ==> IndexOf(c, es, e, x)
    ensures x >= 0 ==> Indexed(c, es, x)
    ensures x >= 0 && (Full(lens) || Linear(c)) ==> Meets(c, es, acc, validBits, x)
  {
    hide Canonical, Heads, Reverse, FastTable, Begins, Pow2, Aligned, Indexed, Meets, Full;
    if !Linear(c) {
      x := SearchSorted(c, acc, validBits, lens, es, e);
    } else {
      x := SearchLinear(c, acc, validBits, lens, es, e);
    }
  }

  // ---------------------------------------------------------------- decoding from a reader

  /** A reader inside a packet, ready to decode. */
  ghost predicate Ready(f: Reader)
    reads f
  {
    f.Valid() && !f.idle && f.BitsValid() && f.validBits >= 0 && f.Flags()
  }

  /** The accumulator holds the first bits of the stream and nothing more. */
  ghost predicate Loaded(f: Reader)
    requires f.Valid()
    reads f
  {
    && f.BitsValid() && f.validBits >= 0 && f.acc < Pow2(f.validBits)
    && f.validBits <= |f.Stream()| && f.Stream()[..f.validBits] == BitsOf(f.acc, f.validBits)
  }

  lemma StreamParts(f: Reader)
    requires Ready(f)
    ensures |f.Stream()| == f.validBits + 8 * |f.Rest().current|
    ensures f.acc < Pow2(f.validBits) ==> Loaded(f)
    ensures f.validBits > 0 ==> Loaded(f)
  {
    hide Pow2, BitsOf;
    NoBits(f.acc);
    assert f.Stream()[..f.validBits] == f.Buffered();
  }

  /** Fills the accumulator with exactly the window. */
  method Refill(f: Reader)
    requires Ready(f)
    modifies f
    ensures Ready(f) && Loaded(f) && f.Stream() == old(f.Stream()) && f.Rest().later == old(f.Rest()).later
    ensures f.validBits == Window(|f.Stream()|)
  {
    hide Pow2, BitsOf, Reader.Valid, Reader.Rest, Reader.Flags;
    StreamParts(f);
    f.PrepHuffman();
    StreamParts(f);
    WindowUnique(f.validBits, |f.Stream()|);
  }

  /** The book has no codewords to search, as it has no used symbol. */
  predicate NoCodes(c: Codebook)
    reads c
  {
    c.codewords == null && c.sortedCodewords == null
  }

  lemma NoCodesUnused(c: Codebook, lens: seq<nat>, es: seq<Entry>)
    requires Book(c, lens, es) && NoCodes(c)
    ensures es == []
  {
    hide Canonical, Heads, Reverse, FastTable, Ranked;
    if es != [] {
      var d := es[0];
      assert d in es;
      RankedIsStrict(es, true);
    }
  }

  /** Nothing was decoded from stream s: the buffered bits are dropped, unless there was nothing to search. */
  ghost predicate Dropped(c: Codebook, f: Reader, s: seq<bool>)
    requires f.Valid()
    reads c, f
  {
    f.Stream() == if NoCodes(c) then s else s[Window(|s|)..]
  }

  /** A codeword of at most a window's bits stands at the front of s, and x is its index unless it
      cannot be met by the search, or with the table of short codewords, not be found at all. */
  ghost predicate AtFront(c: Codebook, es: seq<Entry>, s: seq<bool>, x: int, fast: bool)
    reads c
  {
    exists d :: d in es && StartsWith(s, d) && d.len <= Window(|s|)
      && (IndexOf(c, es, d, x) || !(if fast then Findable(c, d) else Searchable(c, d)))
  }

  /** Index x was decoded from stream s: its bits lie within the window, and they are gone. */
  ghost predicate Took(c: Codebook, f: Reader, s: seq<bool>, x: int)
    requires f.Valid()
    reads c, c.codewordLengths, f
  {
    && 0 <= x < Indices(c)
    && 1 <= LengthAt(c, x) <= Window(|s|)
    && f.Stream() == s[LengthAt(c, x)..]
  }

  /** Decodes by search. It finds a codeword exactly when its bits lie within the window and
      it is in the searched table. */
  method CodebookDecodeScalarRaw(f: Reader, c: Codebook, ghost lens: seq<nat>, ghost es: seq<Entry>, ghost e: Entry)
      returns (x: int)
    requires Ready(f) && Book(c, lens, es)
    modifies f
    ensures Ready(f) && f.Rest().later == old(f.Rest()).later
    ensures x == -1 || Took(c, f, old(f.Stream()), x)
    ensures e in es && StartsWith(old(f.Stream()), e) ==>
      (IndexOf(c, es, e, x) <==> e.len <= Window(|old(f.Stream())|) && Searchable(c, e))
    ensures x == -1 ==> Dropped(c, f, old(f.Stream()))
    ensures x >= 0 ==> Indexed(c, es, x)
    ensures x >= 0 && (Full(lens) || Linear(c)) ==> AtFront(c, es, old(f.Stream()), x, false)
  {
    hide Canonical, Heads, Reverse, Book, Begins, Pow2, IndexOf, Searchable, StartsWith, BitsOf, Reader.Valid, Reader.Rest, Reader.Flags,
      Indexed, Meets, Full, Linear, AtFront;
    ghost var s := f.Stream();
    Refill(f);
    if e in es && StartsWith(s, e) {
      Matching(f, c, lens, es, e);
    }
    if c.codewords == null && c.sortedCodewords == null {
      NoCodesUnused(c, lens, es);
      return -1;
    }
    x := Search(c, f.acc, f.validBits, lens, es, e);
    if x >= 0 && (Full(lens) || Linear(c)) {
      MeetsFront(f, c, lens, es, x);
    }
    Consume(f, c, x);
  }

  lemma MeetsFront(f: Reader, c: Codebook, lens: seq<nat>, es: seq<Entry>, x: int)
    requires Ready(f) && Loaded(f) && Book(c, lens, es) && f.validBits == Window(|f.Stream()|)
    requires Meets(c, es, f.acc, f.validBits, x)
    ensures AtFront(c, es, f.Stream(), x, false)
  {
    hide Canonical, Heads, Reverse, FastTable, Begins, Pow2, BitsOf, SortedTable, IndexOf, Searchable, Reader.Valid, Reader.Rest, Reader.Flags;
    var d :| d in es && Begins(f.acc, d) && d.len <= f.validBits && (IndexOf(c, es, d, x) || !Searchable(c, d));
    CodeFits(d, es);
    BeginsStream(f.acc, f.validBits, f.Stream(), d);
  }

  /** Drops the bits of index x, or all buffered bits when nothing was found. */
  method Consume(f: Reader, c: Codebook, x: int)
    requires Ready(f) && (x == -1 || Usable(c, x, f.validBits))
    modifies f`acc, f`validBits
    ensures Ready(f) && f.Rest() == old(f.Rest())
    ensures x >= 0 ==> f.Stream() == old(f.Stream())[LengthAt(c, x)..]
    ensures x < 0 ==> f.Stream() == old(f.Stream())[old(f.validBits)..]
  {
    hide Pow2, BitsOf, Reader.Valid, Reader.Rest, Reader.Flags;
    StreamParts(f);
    if x >= 0 {
      var bits := f.TakeBits(c.codewordLengths[x]);
    } else {
      f.validBits := 0;
    }
  }

  /** A codeword at the front of the stream begins the accumulator if it lies within it; an
      index with a shorter codeword, or missing from the searched table, is not its index. */
  lemma Matching(f: Reader, c: Codebook, lens: seq<nat>, es: seq<Entry>, e: Entry)
    requires Ready(f) && Loaded(f) && Book(c, lens, es) && e in es && StartsWith(f.Stream(), e)
    ensures e.len <= f.validBits ==> Begins(f.acc, e)
    ensures !IndexOf(c, es, e, -1)
    ensures forall x :: Usable(c, x, f.validBits) && IndexOf(c, es, e, x) ==> e.len <= f.validBits
    ensures forall x :: Usable(c, x, f.validBits) && IndexOf(c, es, e, x) && (!Linear(c) && !c.sparse ==> c.codewordLengths[x] > FAST_LENGTH) ==> Searchable(c, e)
  {
    hide Canonical, Heads, Reverse, FastTable, Begins, Pow2, BitsOf, SortedTable;
    var y := IndexFacts(c, lens, es, e);
    CodeFits(e, es);
    if e.len <= f.validBits {
      BeginsStream(f.acc, f.validBits, f.Stream(), e);
    }
  }

  lemma CodeFits(e: Entry, es: seq<Entry>)
    requires Canonical(es) && e in es
    ensures ValidLength(e.len) && Reverse(e.code, 32) < Pow2(e.len)
  {
    var u :| 0 <= u < |es| && es[u] == e;
    StoredSmall(es, u);
  }

  /** Entry e can be decoded at all: it is met by the search, or it is short and its symbol
      fits the 16-bit table. */
  predicate Findable(c: Codebook, e: Entry)
    reads c
  {
    Searchable(c, e) || (e.len <= FAST_LENGTH && e.symbol < FAST_LIMIT)
  }

  lemma FastEntry(f: Reader, c: Codebook, lens: seq<nat>, es: seq<Entry>, x: int) returns (d: Entry)
    requires Book(c, lens, es) && x == c.fastHuffman[f.acc % FAST_SIZE] && x >= 0
    ensures x < Indices(c) && c.codewordLengths != null && x < c.codewordLengths.Length
    ensures 1 <= c.codewordLengths[x] <= FAST_LENGTH && x < FAST_LIMIT && LengthAt(c, x) == c.codewordLengths[x]
    ensures d in es && IndexOf(c, es, d, x) && d.len == c.codewordLengths[x] && Begins(f.acc, d)
  {
    hide Canonical, Heads, Reverse, SortedTable, Ranked, BitReverse;
    var w := f.acc % FAST_SIZE;
    assert FastCell(c, FastCount(c), w, x);
    assert ShortAt(c, x, w);
    d := IndexEntry(c, lens, es, x);
    var y := IndexFacts(c, lens, es, d);
    ShortMod(f.acc, d.len);
  }

  /** Ten bits are enough to compare a short codeword. */
  lemma ShortMod(acc: nat, l: nat)
    requires l <= FAST_LENGTH
    ensures (acc % FAST_SIZE) % Pow2(l) == acc % Pow2(l)
  {
    hide Pow2;
    Pow2Add(l, FAST_LENGTH - l);
    TenBits();
    NestedMod(acc, Pow2(l), Pow2(FAST_LENGTH - l));
  }

  lemma TenBits()
    ensures Pow2(FAST_LENGTH) == FAST_SIZE
  {
    assert Pow2(10) == 1024;
  }

  lemma NestedMod(x: nat, a: nat, b: nat)
    requires a > 0 && b > 0 && a * b > 0
    ensures (x % (a * b)) % a == x % a
  {
    var q := x / (a * b);
    DivMod(x, a * b);
    var r := x % (a * b);
    DivMod(r, a);
    DivMod(x, a * b);
    MulAssociative(a, b, q);
    NotNegative(b, q);
    assert x == (b * q + r / a) * a + r % a by { Distribute(a, b * q, r / a); }
    DivModUnique(x, a, b * q + r / a, r % a);
  }

  lemma Distribute(a: nat, p: nat, q: nat)
    ensures (p + q) * a == a * p + a * q
  {
  }

  /** What the table of short codewords says about the codeword at the front of the stream. */
  lemma FastMatching(f: Reader, c: Codebook, lens: seq<nat>, es: seq<Entry>, e: Entry, x: int)
    requires Ready(f) && Loaded(f) && Book(c, lens, es) && e in es && StartsWith(f.Stream(), e)
    requires f.validBits >= FAST_LENGTH || f.validBits == |f.Stream()|
    requires x == c.fastHuffman[f.acc % FAST_SIZE]
    ensures x >= 0 ==> IndexOf(c, es, e, x) && LengthAt(c, x) == e.len <= f.validBits && e.len <= FAST_LENGTH && Findable(c, e)
    ensures x < 0 ==> Searchable(c, e) || !Findable(c, e)
    ensures !IndexOf(c, es, e, -1)
  {
    hide Canonical, Heads, Reverse, SortedTable, Pow2, BitsOf, Reader.Valid, Reader.Rest, Reader.Flags, Begins;
    var y := IndexFacts(c, lens, es, e);
    CodeFits(e, es);
    if e.len <= f.validBits {
      BeginsStream(f.acc, f.validBits, f.Stream(), e);
    }
    if x >= 0 {
      var d := FastEntry(f, c, lens, es, x);
      CodeFits(d, es);
      if d.len <= f.validBits {
        BeginsStream(f.acc, f.validBits, f.Stream(), d);
        StartsUnique(f.Stream(), es, d, e);
      } else {
        SameEntry(f.acc, es, d, e);
      }
    } else {
      FastMiss(f, c, lens, es, e, y);
    }
  }

  lemma FastMiss(f: Reader, c: Codebook, lens: seq<nat>, es: seq<Entry>, e: Entry, y: nat)
    requires Book(c, lens, es) && c.fastHuffman[f.acc % FAST_SIZE] < 0
    requires y < Indices(c) && c.codewordLengths != null && y < c.codewordLengths.Length
    requires c.codewordLengths[y] == e.len && IndexCode(c, y) == Reverse(e.code, 32)
    requires e.len <= FAST_LENGTH ==> Begins(f.acc, e)
    ensures e.len <= FAST_LENGTH ==> y >= FAST_LIMIT
  {
    hide Canonical, Heads, Reverse, SortedTable, Ranked, BitReverse;
    var w := f.acc % FAST_SIZE;
    assert FastCell(c, FastCount(c), w, c.fastHuffman[w]);
    if e.len <= FAST_LENGTH {
      ShortMod(f.acc, e.len);
      assert ShortAt(c, y, w);
    }
  }

  /** One table index from the reader; -1 when no codeword is found in the buffered bits.
      A codeword at the front of the packet is decoded exactly when it lies in the window
      and is findable. */
  method DecodeRaw(f: Reader, c: Codebook, ghost lens: seq<nat>, ghost es: seq<Entry>, ghost e: Entry) returns (x: int)
    requires Ready(f) && Book(c, lens, es)
    modifies f
    ensures Ready(f) && f.Rest().later == old(f.Rest()).later
    ensures x == -1 || Took(c, f, old(f.Stream()), x)
    ensures e in es && StartsWith(old(f.Stream()), e) ==>
      (IndexOf(c, es, e, x) <==> e.len <= Window(|old(f.Stream())|) && Findable(c, e))
    ensures x == -1 ==> Dropped(c, f, old(f.Stream()))
    ensures x >= 0 ==> Indexed(c, es, x)
    ensures x >= 0 && (Full(lens) || Linear(c)) ==> AtFront(c, es, old(f.Stream()), x, true)
  {
    hide Canonical, Heads, Reverse, Book, Begins, Pow2, IndexOf, Searchable, StartsWith, BitsOf, Reader.Valid, Reader.Rest, Reader.Flags,
      Indexed, Full, Linear, AtFront, NoCodes;
    ghost var s := f.Stream();
    StreamParts(f);
    if f.validBits < FAST_LENGTH {
      Refill(f);
    }
    var w := f.acc % FAST_SIZE;
    FastLength(c, lens, es);
    x := c.fastHuffman[w];
    if e in es && StartsWith(s, e) {
      FastMatching(f, c, lens, es, e, x);
    }
    if x >= 0 {
      ghost var d := FastEntry(f, c, lens, es, x);
      FastFront(f, c, lens, es, d, x);
      x := TakeFast(f, c, x);
    } else {
      forall d | d in es && StartsWith(s, d) ensures Searchable(c, d) || !Findable(c, d) {
        FastMatching(f, c, lens, es, d, x);
      }
      x := CodebookDecodeScalarRaw(f, c, lens, es, e);
      FrontMissed(c, es, s, x);
    }
  }

  /** A short codeword met in the table stands at the front of the stream, if it has all its bits. */
  lemma FastFront(f: Reader, c: Codebook, lens: seq<nat>, es: seq<Entry>, d: Entry, x: int)
    requires Ready(f) && Loaded(f) && Book(c, lens, es) && d in es && IndexOf(c, es, d, x) && Begins(f.acc, d)
    requires x >= 0 && d.len == LengthAt(c, x)
    ensures Indexed(c, es, x) && !NoCodes(c)
    ensures d.len <= f.validBits && d.len <= Window(|f.Stream()|) ==> AtFront(c, es, f.Stream(), x, true)
  {
    hide Canonical, Heads, Reverse, FastTable, Begins, Pow2, BitsOf, SortedTable, IndexOf, Findable, Reader.Valid, Reader.Rest, Reader.Flags;
    CodeFits(d, es);
    if NoCodes(c) {
      NoCodesUnused(c, lens, es);
    }
    if d.len <= f.validBits {
      BeginsStream(f.acc, f.validBits, f.Stream(), d);
    }
  }

  /** What the table of short codewords does not have and the search cannot meet, cannot be found. */
  lemma FrontMissed(c: Codebook, es: seq<Entry>, s: seq<bool>, x: int)
    requires forall d :: d in es && StartsWith(s, d) ==> Searchable(c, d) || !Findable(c, d)
    ensures AtFront(c, es, s, x, false) ==> AtFront(c, es, s, x, true)
  {
    hide IndexOf, Searchable, Findable, StartsWith;
  }

  lemma FastLength(c: Codebook, lens: seq<nat>, es: seq<Entry>)
    requires Book(c, lens, es)
    ensures c.fastHuffman.Length == FAST_SIZE
  {
  }

  /** Removes the bits of a short codeword; -1 when the packet has fewer. */
  method TakeFast(f: Reader, c: Codebook, x: nat) returns (y: int)
    requires Ready(f) && Loaded(f) && x < Indices(c) && c.codewordLengths != null && x < c.codewordLengths.Length
    requires 1 <= c.codewordLengths[x] <= FAST_LENGTH
    modifies f`acc, f`validBits
    ensures Ready(f) && f.Rest() == old(f.Rest())
    ensures y == if c.codewordLengths[x] <= old(f.validBits) then x else -1
    ensures y >= 0 ==> f.Stream() == old(f.Stream())[LengthAt(c, x)..]
    ensures y < 0 ==> f.Stream() == old(f.Stream())[old(f.validBits)..]
  {
    hide Pow2, BitsOf, Reader.Valid, Reader.Rest, Reader.Flags;
    StreamParts(f);
    var n := c.codewordLengths[x];
    if n <= f.validBits {
      var bits := f.TakeBits(n);
      y := x;
    } else {
      QuotientSmaller(f.acc, Pow2(n));
      DivMod(f.acc, Pow2(n));
      f.acc := f.acc / Pow2(n);
      f.validBits := 0;
      y := -1;
    }
  }
}
