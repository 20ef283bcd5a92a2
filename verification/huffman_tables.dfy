/** The two lookup tables derived from the codewords, and the search they serve. */
module HuffmanTables {
  import opened Basics
  import opened Bits
  import opened PrefixCode
  import opened Ranking
  import opened Codebooks

  // ---------------------------------------------------------------- symbols and entries

  lemma {:induction false} UsedIsPrefix(lens: seq<nat>, i: nat)
    requires i <= |lens|
    ensures |Used(lens[..i])| <= |Used(lens)|
    ensures Used(lens[..i]) == Used(lens)[..|Used(lens[..i])|]
    decreases |lens|
  {
    if i == |lens| {
      assert lens[..i] == lens;
    } else {
      var n := |lens| - 1;
      UsedIsPrefix(lens[..n], i);
      assert lens[..n][..i] == lens[..i];
    }
  }

  /** The entry of a used symbol. */
  lemma EntryOf(lens: seq<nat>, es: seq<Entry>, i: nat) returns (u: nat)
    requires Heads(es) == Used(lens) && i < |lens| && lens[i] != NO_CODE
    ensures u == |Used(lens[..i])| < |es| && es[u].symbol == i && es[u].len == lens[i]
    ensures |Used(lens[..i + 1])| == u + 1
  {
    u := |Used(lens[..i])|;
    UsedPrefix(lens, i);
    UsedIsPrefix(lens, i + 1);
    assert Used(lens)[u] == (i, lens[i]);
    assert Heads(es)[u] == (es[u].symbol, es[u].len);
  }

  lemma {:induction false} UsedSymbols(lens: seq<nat>)
    ensures forall u :: 0 <= u < |Used(lens)| ==> Used(lens)[u].0 < |lens| && lens[Used(lens)[u].0] == Used(lens)[u].1
    ensures forall u :: 0 <= u < |Used(lens)| ==> Used(lens)[u].1 != NO_CODE
  {
    if |lens| > 0 {
      UsedSymbols(lens[..|lens| - 1]);
    }
  }

  /** An entry's symbol has the entry's length in the length table. */
  lemma SymbolOf(lens: seq<nat>, es: seq<Entry>, u: nat)
    requires Heads(es) == Used(lens) && u < |es|
    ensures es[u].symbol < |lens| && lens[es[u].symbol] == es[u].len != NO_CODE
  {
    UsedSymbols(lens);
    assert Heads(es)[u] == (es[u].symbol, es[u].len);
  }

  lemma LongStep(es: seq<Entry>, u: nat, all: bool)
    requires u < |es|
    ensures Long(es[..u + 1], all) == Long(es[..u], all) + if all || es[u].len > FAST_LENGTH then [es[u]] else []
  {
    assert es[..u + 1][..u] == es[..u];
  }

  lemma {:induction false} LongGrows(es: seq<Entry>, u: nat, all: bool)
    requires u <= |es|
    ensures |Long(es[..u], all)| <= |Long(es, all)|
    decreases |es| - u
  {
    if u == |es| {
      assert es[..u] == es;
    } else {
      LongStep(es, u, all);
      LongGrows(es, u + 1, all);
    }
  }

  // ---------------------------------------------------------------- the sorted table

  predicate IncludeInSort(sparse: bool, len: nat) {
    if sparse then true else if len == NO_CODE then false else len > FAST_LENGTH
  }

  /** The codewords are in place: by symbol, or by order of assignment. */
  ghost predicate CodesAt(c: Codebook, values: array?<nat>, es: seq<Entry>)
    reads c, c.codewords, values
  {
    && c.codewords != null
    && (if c.sparse then
          && values != null && |es| == c.sortedEntries
          && c.codewords.Length == values.Length == |es|
          && forall j :: 0 <= j < |es| ==> c.codewords[j] == Reverse(es[j].code, 32) && values[j] == es[j].symbol
        else
          && c.codewords.Length == c.entries && |Long(es, false)| == c.sortedEntries
          && forall j :: 0 <= j < |es| ==> es[j].symbol < c.entries && c.codewords[es[j].symbol] == Reverse(es[j].code, 32))
  }

  lemma ReverseStored(e: Entry)
    requires ValidLength(e.len) && Aligned(e.code, e.len)
    ensures Reverse(Reverse(e.code, 32), 32) == e.code
  {
    Pow2At32();
    ReverseTwice(e.code, 32);
  }

  lemma CanonicalEntry(es: seq<Entry>, j: nat)
    requires Canonical(es) && j < |es|
    ensures ValidLength(es[j].len) && Aligned(es[j].code, es[j].len)
  {
    CanonicalAt(es, j);
  }

  /** bit_reverse on a 32-bit word. */
  function BitReverse(n: uint32): (r: uint32)
  {
    ReverseBound(n, 32);
    Pow2At32();
    Reverse(n, 32)
  }

  method CollectFull(c: Codebook, lengths: seq<nat>, values: array?<nat>, ghost es: seq<Entry>)
    requires Canonical(es) && Heads(es) == Used(lengths) && c.entries == |lengths| && CodesAt(c, values, es)
    requires c.sortedCodewords != null && c.sortedCodewords.Length == c.sortedEntries + 1
    requires c.sortedCodewords != c.codewords && !c.sparse
    modifies c.sortedCodewords
    ensures c.sortedCodewords[..c.sortedEntries] == Codes(Long(es, false))
  {
    hide Canonical, Heads, Aligned, Reverse;
    var k := 0;
    var i := 0;
    ghost var u := 0;
    while i < c.entries
      invariant 0 <= i <= c.entries && u == |Used(lengths[..i])| <= |es|
      invariant k == |Long(es[..u], false)| <= c.sortedEntries
      invariant c.sortedCodewords[..k] == Codes(Long(es[..u], false))
    {
      UsedPrefix(lengths, i);
      if lengths[i] != NO_CODE {
        u := EntryOf(lengths, es, i);
        LongStep(es, u, false);
        LongGrows(es, u + 1, false);
        CanonicalEntry(es, u);
        ReverseStored(es[u]);
      }
      if IncludeInSort(c.sparse, lengths[i]) {
        c.sortedCodewords[k] := BitReverse(c.codewords[i]);
        k := k + 1;
      }
      u := |Used(lengths[..i + 1])|;
      i := i + 1;
    }
    assert lengths[..i] == lengths;
    FullHeads(es, lengths);
    assert es[..u] == es;
  }

  method CollectSparse(c: Codebook, values: array?<nat>, ghost es: seq<Entry>)
    requires Canonical(es) && CodesAt(c, values, es)
    requires c.sortedCodewords != null && c.sortedCodewords.Length == c.sortedEntries + 1
    requires c.sortedCodewords != c.codewords && c.sparse
    modifies c.sortedCodewords
    ensures c.sortedCodewords[..c.sortedEntries] == Codes(Long(es, true))
  {
    LongAll(es);
    hide Canonical, Aligned, Reverse;
    var i := 0;
    while i < c.sortedEntries
      invariant 0 <= i <= c.sortedEntries
      invariant c.sortedCodewords[..i] == Codes(es[..i])
    {
      CanonicalEntry(es, i);
      ReverseStored(es[i]);
      c.sortedCodewords[i] := BitReverse(c.codewords[i]);
      i := i + 1;
    }
    assert es[..i] == es;
  }

  lemma FullHeads(es: seq<Entry>, lengths: seq<nat>)
    requires Heads(es) == Used(lengths)
    ensures |es| == |Used(lengths)|
  {
  }

  /** The library sort on the first n elements. */
  method QSort(a: array<uint32>, n: nat)
    requires n <= a.Length
    modifies a
    ensures a[..n] == SortCodes(old(a[..n])) && a[n..] == old(a[n..])
  {
    var s: seq<nat> := a[..n];
    var r := SortCodes(s);
    SortedWords(s);
    var i := 0;
    while i < n
      invariant 0 <= i <= n && a[..i] == r[..i] && a[n..] == old(a[n..])
    {
      a[i] := r[i];
      i := i + 1;
    }
  }

  lemma {:induction false} InsertedWords(x: nat, s: seq<nat>)
    requires x < TOP && forall k :: 0 <= k < |s| ==> s[k] < TOP
    ensures forall k :: 0 <= k <= |s| ==> InsertCode(x, s)[k] < TOP
  {
    if |s| == 0 || x <= s[0] {
    } else {
      InsertedWords(x, s[1..]);
    }
  }

  lemma {:induction false} SortedWords(s: seq<nat>)
    requires forall k :: 0 <= k < |s| ==> s[k] < TOP
    ensures forall k :: 0 <= k < |s| ==> SortCodes(s)[k] < TOP
  {
    if |s| > 0 {
      SortedWords(s[..|s| - 1]);
      InsertedWords(s[|s| - 1], SortCodes(s[..|s| - 1]));
    }
  }

  /** The binary search shared by table building and decoding: the last position whose
      codeword is at most `code`, or 0. */
  method BinarySearch(sc: array<uint32>, m: nat, code: uint32) returns (x: nat)
    requires 1 <= m < sc.Length
    ensures x < m
    ensures x == 0 || sc[x] <= code
    ensures x + 1 == m || code < sc[x + 1]
  {
    x := 0;
    var n := m;
    while n > 1
      invariant 1 <= n && x + n <= m
      invariant x == 0 || sc[x] <= code
      invariant x + n == m || code < sc[x + n]
      // with a table that brackets the code, the source's own invariant holds
      invariant sc[0] <= code < sc[m] ==> sc[x] <= code < sc[x + n]
    {
      var mid := x + n / 2;
      if sc[mid] <= code {
        x := mid;
        n := n - n / 2;
      } else {
        n := n / 2;
      }
    }
  }

  ghost predicate SortedTable(c: Codebook, r: seq<Entry>)
    reads c, c.sortedCodewords, c.sortedValues, c.codewordLengths
  {
    && |r| == c.sortedEntries
    && c.sortedCodewords != null && c.sortedCodewords.Length == |r| + 1
    && c.sortedValues != null && c.sortedValues.Length == |r| + 1
    && (forall x :: 0 <= x < |r| ==> c.sortedCodewords[x] == r[x].code)
    && c.sortedCodewords[|r|] == 0xffff_ffff
    && c.sortedValues[0] == -1
    && (forall x :: 0 <= x < |r| ==> c.sortedValues[x + 1] == r[x].symbol)
    && (c.sparse ==> c.codewordLengths != null && c.codewordLengths.Length == |r|
                     && forall x :: 0 <= x < |r| ==> c.codewordLengths[x] == r[x].len)
  }

  /** The ranked entries behind a book's sorted table. */
  function Ranked(es: seq<Entry>, all: bool): (r: seq<Entry>) {
    Rank(Long(es, all))
  }

  ghost predicate StrictlyRanked(r: seq<Entry>) {
    && ValidEntries(r)
    && forall i, j :: 0 <= i < j < |r| ==> r[i].code + Size(r[i].len) <= r[j].code
  }

  lemma RankedIsStrict(es: seq<Entry>, all: bool)
    requires Canonical(es)
    ensures StrictlyRanked(Ranked(es, all))
    ensures forall e :: e in Ranked(es, all) <==> e in es && (all || e.len > FAST_LENGTH)
    ensures |Ranked(es, all)| == |Long(es, all)|
  {
    var s := Long(es, all);
    var r := Rank(s);
    CanonicalSeparated(es, all);
    LongMembers(es, all);
    RankMembers(s);
    forall j | 0 <= j < |r| ensures ValidLength(r[j].len) {
      assert r[j] in r;
    }
    forall i, j | 0 <= i < j < |r| ensures r[i].code + Size(r[i].len) <= r[j].code {
      RankBlocks(s, i, j);
    }
  }

  /** A search that brackets a number inside a block of the table stops at that block. */
  lemma SearchHits(r: seq<Entry>, x: nat, y: nat, code: nat)
    requires StrictlyRanked(r) && x < |r| && y < |r| && Inside(code, r[y].code, r[y].len)
    requires x == 0 || r[x].code <= code
    requires x + 1 == |r| || code < r[x + 1].code
    ensures x == y
  {
  }

  ghost predicate Filled(c: Codebook, r: seq<Entry>, done: seq<Entry>)
    reads c, c.sortedValues, c.codewordLengths
  {
    && c.sortedValues != null && c.sortedValues.Length == |r| + 1
    && (c.sparse ==> c.codewordLengths != null && c.codewordLengths.Length == |r|)
    && forall x :: 0 <= x < |r| && r[x] in done ==>
         c.sortedValues[x + 1] == r[x].symbol && (c.sparse ==> c.codewordLengths[x] == r[x].len)
  }

  /** Records which symbol, and in a sparse book which length, a sorted position belongs to. */
  method PlaceValue(c: Codebook, code: uint32, symbol: nat, huffLen: nat, ghost r: seq<Entry>, ghost done: seq<Entry>, ghost e: Entry)
    requires StrictlyRanked(r) && Filled(c, r, done) && e in r
    requires e.code == code && e.symbol == symbol && e.len == huffLen
    requires |r| == c.sortedEntries && c.sortedCodewords != null && c.sortedCodewords.Length == |r| + 1
    requires forall x :: 0 <= x < |r| ==> c.sortedCodewords[x] == r[x].code
    modifies c.sortedValues, if c.sparse then {c.codewordLengths} else {}
    ensures Filled(c, r, done + [e]) && c.sortedValues[0] == old(c.sortedValues[0])
  {
    ghost var y :| 0 <= y < |r| && r[y] == e;
    var x := BinarySearch(c.sortedCodewords, c.sortedEntries, code);
    SearchHits(r, x, y, code);
    assert c.sortedCodewords[x] == code;
    c.sortedValues[x + 1] := symbol;
    if c.sparse {
      c.codewordLengths[x] := huffLen;
    }
  }

  ghost predicate Sorting(c: Codebook, lengths: seq<nat>, values: array?<nat>, es: seq<Entry>)
    reads c, c.codewords, values, c.sortedCodewords
  {
    && Canonical(es) && Heads(es) == Used(lengths) && c.entries == |lengths|
    && CodesAt(c, values, es)
    && c.sortedCodewords != null && c.sortedCodewords.Length == c.sortedEntries + 1
    && c.sortedCodewords != c.codewords
    && (c.sparse ==> c.codewordLengths != values)
    && |Ranked(es, c.sparse)| == c.sortedEntries
    && forall x :: 0 <= x < c.sortedEntries ==> c.sortedCodewords[x] == Ranked(es, c.sparse)[x].code
  }

  lemma FilledSkip(c: Codebook, r: seq<Entry>, es: seq<Entry>, u: nat)
    requires u < |es| && es[u] !in r && Filled(c, r, es[..u])
    ensures Filled(c, r, es[..u + 1])
  {
    assert es[..u + 1] == es[..u] + [es[u]];
  }

  /** Entries met before step i of the placing loop. */
  ghost function Met(c: Codebook, lengths: seq<nat>, i: nat): (u: nat)
    requires i <= |lengths|
    reads c
  {
    if c.sparse then i else |Used(lengths[..i])|
  }

  /** What step i of the placing loop reads. */
  lemma PlacingStep(c: Codebook, lengths: seq<nat>, values: array?<nat>, es: seq<Entry>, i: nat)
    requires Sorting(c, lengths, values, es) && i < (if c.sparse then c.sortedEntries else c.entries) <= |lengths|
    ensures Met(c, lengths, i) <= |es|
    ensures c.sparse ==> values[i] < |lengths|
    ensures var huffLen := if c.sparse then lengths[values[i]] else lengths[i];
      var u := Met(c, lengths, i);
      if huffLen == NO_CODE then Met(c, lengths, i + 1) == u && !c.sparse
      else
        && u < |es| && Met(c, lengths, i + 1) == u + 1
        && es[u].len == huffLen && es[u].symbol == (if c.sparse then values[i] else i)
        && BitReverse(c.codewords[i]) == es[u].code
        && (es[u] in Ranked(es, c.sparse) <==> IncludeInSort(c.sparse, huffLen))
  {
    hide Canonical, Reverse, Ranked, Aligned;
    RankedIsStrict(es, c.sparse);
    if c.sparse {
      SymbolOf(lengths, es, i);
      CanonicalEntry(es, i);
      ReverseStored(es[i]);
    } else {
      UsedPrefix(lengths, i);
      UsedIsPrefix(lengths, i);
      FullHeads(es, lengths);
      if lengths[i] != NO_CODE {
        var u := EntryOf(lengths, es, i);
        CanonicalEntry(es, u);
        ReverseStored(es[u]);
      }
    }
  }

  method PlaceStep(c: Codebook, lengths: seq<nat>, values: array?<nat>, i: nat, ghost es: seq<Entry>)
    requires Sorting(c, lengths, values, es) && i < (if c.sparse then c.sortedEntries else c.entries) <= |lengths|
    requires Met(c, lengths, i) <= |es| && Filled(c, Ranked(es, c.sparse), es[..Met(c, lengths, i)])
    modifies c.sortedValues, if c.sparse then {c.codewordLengths} else {}
    ensures Sorting(c, lengths, values, es) && Met(c, lengths, i + 1) <= |es|
    ensures Filled(c, Ranked(es, c.sparse), es[..Met(c, lengths, i + 1)])
    ensures c.sortedValues[0] == old(c.sortedValues[0])
  {
    hide Canonical, Heads, Reverse, Ranked, Used, Met;
    RankedIsStrict(es, c.sparse);
    PlacingStep(c, lengths, values, es, i);
    ghost var u := Met(c, lengths, i);
    var huffLen := if c.sparse then lengths[values[i]] else lengths[i];
    if IncludeInSort(c.sparse, huffLen) {
      var code := BitReverse(c.codewords[i]);
      assert es[..u] + [es[u]] == es[..u + 1];
      PlaceValue(c, code, if c.sparse then values[i] else i, huffLen, Ranked(es, c.sparse), es[..u], es[u]);
    } else if huffLen != NO_CODE {
      FilledSkip(c, Ranked(es, c.sparse), es, u);
    }
  }

  method PlaceValues(c: Codebook, lengths: seq<nat>, values: array?<nat>, ghost es: seq<Entry>)
    requires Sorting(c, lengths, values, es) && Filled(c, Ranked(es, c.sparse), [])
    requires c.sortedValues != null && c.sortedValues.Length > 0
    requires c.sortedEntries <= c.entries
    modifies c.sortedValues, if c.sparse then {c.codewordLengths} else {}
    ensures Filled(c, Ranked(es, c.sparse), es) && Sorting(c, lengths, values, es)
    ensures c.sortedValues[0] == old(c.sortedValues[0])
  {
    hide Canonical, Reverse, Ranked, Filled;
    var len := if c.sparse then c.sortedEntries else c.entries;
    var i := 0;
    MetNothing(c, lengths);
    while i < len
      invariant 0 <= i <= len && Met(c, lengths, i) <= |es|
      invariant Filled(c, Ranked(es, c.sparse), es[..Met(c, lengths, i)]) && Sorting(c, lengths, values, es)
      invariant c.sortedValues != null && c.sortedValues.Length > 0
      invariant c.sortedValues[0] == old(c.sortedValues[0])
    {
      PlaceStep(c, lengths, values, i, es);
      i := i + 1;
    }
    MetAll(c, lengths, es);
    assert es[..Met(c, lengths, len)] == es;
  }

  lemma MetNothing(c: Codebook, lengths: seq<nat>)
    ensures Met(c, lengths, 0) == 0
  {
  }

  lemma MetAll(c: Codebook, lengths: seq<nat>, es: seq<Entry>)
    requires Heads(es) == Used(lengths) && c.entries == |lengths| && c.sortedEntries <= |lengths|
    requires c.sparse ==> |es| == c.sortedEntries
    ensures Met(c, lengths, if c.sparse then c.sortedEntries else c.entries) == |es|
  {
    FullHeads(es, lengths);
    assert lengths[..|lengths|] == lengths;
  }

  /** Sorts collected codewords and adds the sentinel. */
  method SortAndSeal(sc: array<uint32>, m: nat, ghost s: seq<Entry>)
    requires sc.Length == m + 1 && sc[..m] == Codes(s)
    modifies sc
    ensures |Rank(s)| == m && forall x :: 0 <= x < m ==> sc[x] == Rank(s)[x].code
    ensures sc[m] == 0xffff_ffff
  {
    hide SortCodes, Rank;
    QSort(sc, m);
    RankCodes(s);
    CodesFrom(Rank(s), sc[..m]);
    assert forall x :: 0 <= x < m ==> sc[..m][x] == sc[x];
    sc[m] := 0xffff_ffff;
  }

  /** The codewords of the sorted table and its sentinel. */
  method SortCodewords(c: Codebook, lengths: seq<nat>, values: array?<nat>, ghost es: seq<Entry>)
    requires Canonical(es) && Heads(es) == Used(lengths) && c.entries == |lengths| && CodesAt(c, values, es)
    requires c.sortedCodewords != null && c.sortedCodewords.Length == c.sortedEntries + 1
    requires c.sortedCodewords != c.codewords && (c.sparse ==> c.codewordLengths != values)
    requires values as object? != c.sortedCodewords
    modifies c.sortedCodewords
    ensures Sorting(c, lengths, values, es)
    ensures c.sortedCodewords[c.sortedEntries] == 0xffff_ffff
  {
    hide Canonical, Heads, Used, Reverse, Long, Rank, Codes;
    LongAll(es);
    if !c.sparse {
      CollectFull(c, lengths, values, es);
    } else {
      CollectSparse(c, values, es);
    }
    SortAndSeal(c.sortedCodewords, c.sortedEntries, Long(es, c.sparse));
  }

  /** Builds the sorted table of a codebook. */
  method ComputeSortedHuffman(c: Codebook, lengths: seq<nat>, values: array?<nat>, ghost es: seq<Entry>)
    requires Canonical(es) && Heads(es) == Used(lengths) && c.entries == |lengths| && CodesAt(c, values, es)
    requires c.sortedCodewords != null && c.sortedCodewords.Length == c.sortedEntries + 1
    requires c.sortedCodewords != c.codewords
    requires c.sortedValues != null && c.sortedValues.Length == c.sortedEntries + 1 && c.sortedValues[0] == -1
    requires c.sparse ==> c.codewordLengths != null && c.codewordLengths.Length == c.sortedEntries
    requires c.sparse ==> c.codewordLengths != values
    requires c.sortedEntries <= c.entries
    requires values as object? != c.sortedCodewords
    modifies c.sortedCodewords, c.sortedValues, if c.sparse then {c.codewordLengths} else {}
    ensures SortedTable(c, Ranked(es, c.sparse))
  {
    hide Canonical, Heads, Used, Reverse, Ranked, CodesAt;
    SortCodewords(c, lengths, values, es);
    PlaceValues(c, lengths, values, es);
    RankedIsStrict(es, c.sparse);
    ghost var r := Ranked(es, c.sparse);
    assert forall x :: 0 <= x < |r| ==> r[x] in r;
  }

  lemma CodesFrom(r: seq<Entry>, s: seq<nat>)
    requires s == Codes(r)
    ensures |s| == |r| && forall x :: 0 <= x < |r| ==> s[x] == r[x].code
  {
  }

  // ---------------------------------------------------------------- the table of short codewords

  /** How many table indices there are: sorted positions in a sparse book, symbols otherwise. */
  function Indices(c: Codebook): (n: nat)
    reads c
  {
    if c.sparse then c.sortedEntries else c.entries
  }

  /** The largest index an entry of the 16-bit table can hold, plus one. */
  const FAST_LIMIT: nat := 32767

  ghost predicate IndexArrays(c: Codebook)
    reads c, c.codewords, c.codewordLengths, c.sortedCodewords
  {
    && c.fastHuffman.Length == FAST_SIZE
    && (Indices(c) > 0 ==>
          && c.codewordLengths != null && Indices(c) <= c.codewordLengths.Length
          && (forall j :: 0 <= j < Indices(c) ==> 1 <= c.codewordLengths[j])
          && (if c.sparse then c.sortedCodewords != null && Indices(c) <= c.sortedCodewords.Length
              else c.codewords != null && Indices(c) <= c.codewords.Length)
          && (forall j :: 0 <= j < Indices(c) && c.codewordLengths[j] <= FAST_LENGTH ==> IndexCode(c, j) < Pow2(c.codewordLengths[j])))
  }

  /** The stored codeword of a table index. */
  function IndexCode(c: Codebook, j: nat): (z: uint32)
    requires c.sparse ==> c.sortedCodewords != null && j < c.sortedCodewords.Length
    requires !c.sparse ==> c.codewords != null && j < c.codewords.Length
    reads c, c.codewords, c.sortedCodewords
  {
    if c.sparse then BitReverse(c.sortedCodewords[j]) else c.codewords[j]
  }

  /** Ten buffered bits w begin with the codeword of index j. */
  ghost predicate ShortAt(c: Codebook, j: nat, w: nat)
    requires IndexArrays(c) && j < Indices(c)
    reads c, c.codewords, c.codewordLengths, c.sortedCodewords
  {
    c.codewordLengths[j] <= FAST_LENGTH && w % Pow2(c.codewordLengths[j]) == IndexCode(c, j)
  }

  ghost predicate FastCell(c: Codebook, n: nat, w: nat, cell: int)
    requires IndexArrays(c) && n <= Indices(c)
    reads c, c.codewords, c.codewordLengths, c.sortedCodewords
  {
    if cell == -1 then forall j :: 0 <= j < n ==> !ShortAt(c, j, w)
    else 0 <= cell < n && ShortAt(c, cell, w)
  }

  /** The table names, for every ten bits, an index among the first n whose codeword begins them, or -1. */
  ghost predicate FastTable(c: Codebook, n: nat)
    requires IndexArrays(c) && n <= Indices(c)
    reads c, c.codewords, c.codewordLengths, c.sortedCodewords, c.fastHuffman
  {
    forall w :: 0 <= w < FAST_SIZE ==> FastCell(c, n, w, c.fastHuffman[w])
  }

  lemma NextMatch(z: nat, p: nat, w: nat)
    requires p > 0 && z < w < z + p
    ensures w % p != z % p
    ensures (z + p) % p == z % p
  {
    DivMod(z, p);
    DivMod(w, p);
    assert z + p == (z / p + 1) * p + z % p;
    DivModUnique(z + p, p, z / p + 1, z % p);
    if w % p == z % p {
      var k := w / p - z / p;
      assert k * p == p * (w / p) - p * (z / p) == w - z;
      PositiveMultiple(k, p);
    }
  }

  /** Enters index i at every ten bits that begin with its codeword. */
  method FillCells(fast: array<int>, i: nat, code: uint32, len: nat)
    requires fast.Length == FAST_SIZE && 1 <= len <= FAST_LENGTH && code < Pow2(len)
    modifies fast
    ensures forall w :: 0 <= w < FAST_SIZE ==>
      fast[w] == if w % Pow2(len) == code then i else old(fast[w])
  {
    var p := Pow2(len);
    var z := code;
    ModSmall(code, p);
    while z < FAST_SIZE
      invariant z >= code && z % p == code
      invariant forall w :: 0 <= w < FAST_SIZE ==>
        fast[w] == if w < z && w % p == code then i else old(fast[w])
      invariant forall w :: 0 <= w < code ==> w % p != code
      decreases FAST_SIZE - z
    {
      fast[z] := i;
      forall w | z < w < z + p ensures w % p != code {
        NextMatch(z, p, w);
      }
      if p > 1 {
        NextMatch(z, p, z + 1);
      }
      PowAtLeastTwo(len);
      z := z + p;
    }
  }

  lemma ModSmall(code: nat, p: nat)
    requires code < p
    ensures code % p == code
    ensures forall w :: 0 <= w < code ==> w % p == w
  {
  }

  lemma PowAtLeastTwo(len: nat)
    requires len >= 1
    ensures Pow2(len) >= 2
  {
  }

  /** Builds the table of short codewords. */
  method ComputeAcceleratedHuffman(c: Codebook)
    requires IndexArrays(c)
    modifies c.fastHuffman
    ensures IndexArrays(c)
    ensures FastTable(c, if Indices(c) > FAST_LIMIT then FAST_LIMIT else Indices(c))
  {
    hide BitReverse, Pow2;
    var i := 0;
    while i < FAST_SIZE
      invariant 0 <= i <= FAST_SIZE && forall w :: 0 <= w < i ==> c.fastHuffman[w] == -1
    {
      c.fastHuffman[i] := -1;
      i := i + 1;
    }
    var len := if c.sparse then c.sortedEntries else c.entries;
    if len > FAST_LIMIT {
      len := FAST_LIMIT;
    }
    i := 0;
    while i < len
      invariant 0 <= i <= len && IndexArrays(c)
      invariant FastTable(c, i)
    {
      if c.codewordLengths[i] <= FAST_LENGTH {
        var z := if c.sparse then BitReverse(c.sortedCodewords[i]) else c.codewords[i];
        FillCells(c.fastHuffman, i, z, c.codewordLengths[i]);
      }
      i := i + 1;
    }
  }
}
