/** Encoding a sequence of symbols and decoding it again. */
module RoundTrip {
  import opened Basics
  import opened Bits
  import opened PrefixCode
  import opened Ranking
  import opened Codebooks
  import opened HuffmanTables
  import opened PacketReader
  import opened Decoder

  /** The symbol behind a table index; -1 for no index. */
  ghost predicate Names(c: Codebook, x: int, symbol: int)
    reads c, c.sortedValues
  {
    if c.sparse then
      -1 <= x < c.sortedEntries && c.sortedValues != null && c.sortedValues.Length == c.sortedEntries + 1
      && symbol == c.sortedValues[x + 1]
    else symbol == x
  }

  /** Entries are told apart by their symbols. */
  lemma SymbolsDiffer(lens: seq<nat>, es: seq<Entry>, i: nat, j: nat)
    requires Heads(es) == Used(lens) && i < |es| && j < |es| && es[i].symbol == es[j].symbol
    ensures i == j
  {
    SymbolOf(lens, es, i);
    SymbolOf(lens, es, j);
    IndexInUsed(lens, es, i);
    IndexInUsed(lens, es, j);
  }

  lemma IndexInUsed(lens: seq<nat>, es: seq<Entry>, i: nat)
    requires Heads(es) == Used(lens) && i < |es| && es[i].symbol < |lens|
    ensures i == |Used(lens[..es[i].symbol])|
  {
    UsedIndex(lens, i);
    assert Heads(es)[i] == (es[i].symbol, es[i].len);
  }

  lemma {:induction false} UsedIndex(lens: seq<nat>, i: nat)
    requires i < |Used(lens)|
    ensures Used(lens)[i].0 < |lens| && i == |Used(lens[..Used(lens)[i].0])|
  {
    var n := |lens| - 1;
    UsedPrefix(lens, n);
    assert lens[..n + 1] == lens;
    if i < |Used(lens[..n])| {
      UsedIndex(lens[..n], i);
      assert lens[..n][..Used(lens)[i].0] == lens[..Used(lens)[i].0];
    }
  }

  /** An index names an entry's symbol exactly when it is the entry's index. */
  lemma NamesIndex(c: Codebook, lens: seq<nat>, es: seq<Entry>, e: Entry, x: int, symbol: int)
    requires Book(c, lens, es) && e in es && Names(c, x, symbol)
    ensures symbol == e.symbol <==> IndexOf(c, es, e, x)
  {
    hide Canonical, Heads, Used, Reverse, FastTable, Ranked;
    if c.sparse && x >= 0 {
      RankedIsStrict(es, true);
      var d := Ranked(es, true)[x];
      assert d in es;
      var i :| 0 <= i < |es| && es[i] == d;
      var j :| 0 <= j < |es| && es[j] == e;
      if d.symbol == e.symbol {
        SymbolsDiffer(lens, es, i, j);
      }
    }
  }

  /** Either no symbol was found, and the buffered bits are dropped unless there is nothing to search;
      or it is the symbol of an entry whose codeword's length fits the window, and so many bits are gone. */
  ghost predicate Answers(c: Codebook, es: seq<Entry>, s: seq<bool>, t: seq<bool>, symbol: int)
    reads c
  {
    (symbol == -1 && t == if NoCodes(c) then s else s[Window(|s|)..])
    || (exists d :: d in es && symbol == d.symbol && 1 <= d.len <= Window(|s|) && t == s[d.len..])
  }

  /** The symbol is that of the codeword at the front, or that one cannot be found at all. */
  ghost predicate FrontAnswer(c: Codebook, es: seq<Entry>, s: seq<bool>, symbol: int)
    reads c
  {
    exists d :: d in es && StartsWith(s, d) && d.len <= Window(|s|) && (symbol == d.symbol || !Findable(c, d))
  }

  /** At the end of the packet, and where no codeword of a full code stands, no symbol is found. */
  lemma NothingThere(c: Codebook, es: seq<Entry>, s: seq<bool>, t: seq<bool>, symbol: int)
    requires Answers(c, es, s, t, symbol)
    ensures s == [] ==> symbol == -1
    ensures FrontAnswer(c, es, s, symbol) ==> exists d :: d in es && StartsWith(s, d)
  {
    hide StartsWith, Findable;
  }

  /** The symbol behind the index is that of the entry it belongs to. */
  lemma SymbolOfIndex(c: Codebook, lens: seq<nat>, es: seq<Entry>, s: seq<bool>, x: int, symbol: int) returns (d: Entry)
    requires Book(c, lens, es) && Indexed(c, es, x) && Names(c, x, symbol)
    ensures d in es && symbol == d.symbol && d.len == LengthAt(c, x)
    ensures AtFront(c, es, s, x, true) ==> FrontAnswer(c, es, s, symbol)
  {
    hide Canonical, Heads, Used, Reverse, FastTable, Ranked, StartsWith, Findable, IndexOf, Book, Names;
    d :| d in es && IndexOf(c, es, d, x) && d.len == LengthAt(c, x);
    NamesIndex(c, lens, es, d, x, symbol);
    if AtFront(c, es, s, x, true) {
      var e :| e in es && StartsWith(s, e) && e.len <= Window(|s|) && (IndexOf(c, es, e, x) || !Findable(c, e));
      NamesIndex(c, lens, es, e, x, symbol);
    }
  }

  /** What stands behind an index taken, or behind -1, is an answer. */
  lemma AnswerOf(f: Reader, c: Codebook, lens: seq<nat>, es: seq<Entry>, s: seq<bool>, x: int, symbol: int)
    requires Book(c, lens, es) && Names(c, x, symbol) && f.Valid()
    requires x == -1 ==> Dropped(c, f, s)
    requires x != -1 ==> Took(c, f, s, x) && Indexed(c, es, x)
    ensures Answers(c, es, s, f.Stream(), symbol) && (symbol != -1 ==> x >= 0)
    ensures x >= 0 && AtFront(c, es, s, x, true) ==> FrontAnswer(c, es, s, symbol)
  {
    hide Canonical, Heads, Used, Reverse, FastTable, AtFront, FrontAnswer, Indexed, Reader.Valid, Reader.Rest, LengthAt;
    if x >= 0 {
      var d := SymbolOfIndex(c, lens, es, s, x, symbol);
    }
  }

  lemma TookLength(f: Reader, c: Codebook, lens: seq<nat>, es: seq<Entry>, s: seq<bool>, e: Entry, x: int)
    requires Book(c, lens, es) && e in es && f.Valid()
    ensures IndexOf(c, es, e, x) && Took(c, f, s, x) ==> e.len <= |s| && f.Stream() == s[e.len..]
    ensures IndexOf(c, es, e, x) ==> x != -1
  {
    hide Canonical, Heads, Reverse, FastTable, Ranked, Reader.Valid, Reader.Rest;
    var y := IndexFacts(c, lens, es, e);
  }

  /** The index decoded is in range. */
  lemma TookIndex(f: Reader, c: Codebook, s: seq<bool>, x: int)
    requires f.Valid() && Took(c, f, s, x)
    ensures 0 <= x < Indices(c)
  {
  }

  /** One symbol, or -1. A codeword at the front of the packet is decoded to its symbol exactly
      when it ends within the window and is findable; its bits are then gone. Whatever is there, the
      answer is -1 or the symbol of an entry; and from a full code, or one scanned linearly, it is -1
      or the symbol of the codeword at the front, unless that cannot be found. A sparse book without
      a symbol table gives nothing: the source reads the table through a null pointer. */
  method Decode(f: Reader, c: Codebook, ghost lens: seq<nat>, ghost es: seq<Entry>, ghost e: Entry) returns (symbol: Option<int>)
    requires Ready(f) && Book(c, lens, es)
    modifies f
    ensures Ready(f) && f.Rest().later == old(f.Rest()).later
    ensures symbol.None? <==> NoTable(c)
    ensures e in es && StartsWith(old(f.Stream()), e) ==>
      (symbol == Some(e.symbol) <==> e.len <= Window(|old(f.Stream())|) && Findable(c, e))
    ensures e in es && StartsWith(old(f.Stream()), e) && symbol == Some(e.symbol) ==>
      f.Stream() == old(f.Stream())[e.len..]
    ensures symbol.Some? ==> Answers(c, es, old(f.Stream()), f.Stream(), symbol.value)
    ensures symbol.Some? && symbol.value != -1 && (Full(lens) || Linear(c)) ==> FrontAnswer(c, es, old(f.Stream()), symbol.value)
    ensures symbol.Some? && old(f.Stream()) == [] ==> symbol.value == -1
    ensures symbol.Some? && (Full(lens) || Linear(c)) && (forall d :: d in es ==> !StartsWith(old(f.Stream()), d)) ==> symbol.value == -1
  {
    hide Canonical, Heads, Reverse, Book, Pow2, IndexOf, Findable, StartsWith, BitsOf, Used, Reader.Valid, Reader.Rest, Reader.Flags,
      Indexed, AtFront, FrontAnswer, Full, Linear, Answers, Took, Dropped, NoCodes;
    ghost var front := f.Stream();
    var x := DecodeRaw(f, c, lens, es, e);
    if x != -1 {
      TookIndex(f, c, front, x);
    }
    TableSizes(c, lens, es);
    NoTableExactly(c, lens, es);
    var s := x;
    if c.sparse {
      if c.sortedValues == null {
        return None;
      }
      s := c.sortedValues[x + 1];
    }
    if e in es {
      NamesIndex(c, lens, es, e, x, s);
      TookLength(f, c, lens, es, front, e, x);
    }
    AnswerOf(f, c, lens, es, front, x, s);
    NothingThere(c, es, front, f.Stream(), s);
    symbol := Some(s);
  }

  /** The book has no table to look symbols up in, though it is sparse. */
  predicate NoTable(c: Codebook)
    reads c
  {
    c.sparse && c.sortedValues == null
  }

  /** An accepted book can be decoded from if and only if it is not sparse or has a used symbol. */
  lemma NoTableExactly(c: Codebook, lens: seq<nat>, es: seq<Entry>)
    requires Book(c, lens, es)
    ensures NoTable(c) <==> c.sparse && Used(lens) == []
    ensures NoTable(c) ==> es == []
  {
    hide Canonical, Used, Reverse, FastTable, Ranked, IndexArrays;
    RankedIsStrict(es, true);
    var r := Ranked(es, true);
    if es != [] {
      assert es[0] in r;
    }
    if r != [] {
      assert r[0] in es;
    }
    assert |Heads(es)| == |es|;
  }

  /** Four symbols, none of them used: the book is accepted as a sparse one, and decoding from it
      fails. */
  method UnusedBook(f: Reader) returns (symbol: Option<int>)
    requires Ready(f)
    modifies f
    ensures symbol == None
  {
    hide Book, Canonical, Heads, Reader.Valid, Reader.Rest, Reader.Flags, BitsOf;
    var lens := [NO_CODE, NO_CODE, NO_CODE, NO_CODE];
    NothingUsed(lens);
    var c, es := SetupCodebook(lens, true);
    NoTableExactly(c, lens, es);
    symbol := Decode(f, c, lens, es, Entry(0, 1, 0));
  }

  lemma {:induction false} NothingUsed(lens: seq<nat>)
    requires forall i :: 0 <= i < |lens| ==> lens[i] == NO_CODE
    ensures Used(lens) == [] && Kraft(lens) == 0
  {
    if |lens| > 0 {
      NothingUsed(lens[..|lens| - 1]);
    }
  }

  lemma TableSizes(c: Codebook, lens: seq<nat>, es: seq<Entry>)
    requires Book(c, lens, es)
    ensures c.sortedValues != null ==> c.sortedValues.Length == c.sortedEntries + 1
  {
  }

  // ---------------------------------------------------------------- sequences of symbols

  /** Encoded symbols: the codewords one after another. */
  function Encode(word: seq<Entry>): (b: seq<bool>) {
    if |word| == 0 then [] else CodeBits(word[0]) + Encode(word[1..])
  }

  function Symbols(word: seq<Entry>): (s: seq<int>)
    ensures |s| == |word|
  {
    seq(|word|, i requires 0 <= i < |word| => word[i].symbol)
  }

  /** Every codeword of the word ends within the window at its place in the packet, when n bits
      are left at the start, and is findable. */
  predicate Fits(c: Codebook, word: seq<Entry>, n: nat)
    reads c
  {
    |word| == 0 || (word[0].len <= Window(n) && Findable(c, word[0]) && Fits(c, word[1..], n - word[0].len))
  }

  predicate AllIn(word: seq<Entry>, es: seq<Entry>) {
    forall i :: 0 <= i < |word| ==> word[i] in es
  }

  lemma EncodeStep(s: seq<bool>, word: seq<Entry>)
    requires |word| > 0 && Encode(word) <= s
    ensures StartsWith(s, word[0]) && word[0].len <= |Encode(word)| && Encode(word[1..]) <= s[word[0].len..]
    ensures s[word[0].len..][|Encode(word[1..])|..] == s[|Encode(word)|..]
  {
    assert CodeBits(word[0]) == Encode(word)[..word[0].len];
    assert Encode(word[1..]) == Encode(word)[word[0].len..];
  }

  lemma SymbolsStep(word: seq<Entry>, i: nat)
    requires i < |word|
    ensures Symbols(word[..i + 1]) == Symbols(word[..i]) + [word[i].symbol]
  {
  }

  lemma SymbolsDrift(symbols: seq<int>, word: seq<Entry>, i: nat, symbol: int)
    requires i < |word| && |symbols| == i
    ensures symbols + [symbol] == Symbols(word[..i + 1]) <==> symbols == Symbols(word[..i]) && symbol == word[i].symbol
  {
    SymbolsStep(word, i);
    if symbols + [symbol] == Symbols(word[..i + 1]) {
      assert symbols == (symbols + [symbol])[..i] && symbol == (symbols + [symbol])[i];
    }
  }

  /** Round trip: symbols written as their codewords are read back, with exactly their bits
      consumed, if and only if every codeword fits where it stands. */
  method DecodeSequence(f: Reader, c: Codebook, n: nat, ghost lens: seq<nat>, ghost es: seq<Entry>, ghost word: seq<Entry>)
      returns (symbols: Option<seq<int>>)
    requires Ready(f) && Book(c, lens, es)
    requires |word| == n && AllIn(word, es) && Encode(word) <= f.Stream()
    modifies f
    ensures Ready(f) && f.Rest().later == old(f.Rest()).later && symbols.Some?
    ensures symbols == Some(Symbols(word)) <==> Fits(c, word, |old(f.Stream())|)
    ensures symbols == Some(Symbols(word)) ==> f.Stream() == old(f.Stream())[|Encode(word)|..]
  {
    hide Canonical, Heads, Reverse, Book, Pow2, IndexOf, Findable, StartsWith, BitsOf, Encode, Fits, Symbols, Window, NoTable, Used,
      Reader.Valid, Reader.Rest, Reader.Flags, Reader.Buffered, Reader.Stream;
    ghost var s := f.Stream();
    var read: seq<int> := [];
    assert word[0..] == word;
    SymbolsEmpty(word);
    var i := 0;
    while i < n
      invariant 0 <= i <= n && |read| == i && Ready(f) && f.Rest().later == old(f.Rest()).later
      invariant read != Symbols(word[..i]) ==> !Fits(c, word, |s|)
      invariant read == Symbols(word[..i]) ==>
        && Encode(word[i..]) <= f.Stream()
        && f.Stream()[|Encode(word[i..])|..] == s[|Encode(word)|..]
        && (Fits(c, word, |s|) <==> Fits(c, word[i..], |f.Stream()|))
    {
      ghost var e := word[i];
      ghost var t := f.Stream();
      ghost var good := read == Symbols(word[..i]);
      TailStep(word, i);
      if good {
        EncodeStep(t, word[i..]);
        FitsStep(c, word[i..], |t|);
      }
      var symbol := Decode(f, c, lens, es, e);
      NoTableExactly(c, lens, es);
      assert es != [];
      SymbolsDrift(read, word, i, symbol.value);
      read := read + [symbol.value];
      i := i + 1;
    }
    assert word[..n] == word;
    FitsStep(c, word[n..], |f.Stream()|);
    EncodeNone(word[n..]);
    symbols := Some(read);
  }

  lemma SymbolsEmpty(word: seq<Entry>)
    ensures Symbols(word[..0]) == []
  {
  }

  lemma EncodeNone(word: seq<Entry>)
    requires word == []
    ensures Encode(word) == []
  {
  }

  lemma TailStep(word: seq<Entry>, i: nat)
    requires i < |word|
    ensures word[i..][0] == word[i] && word[i..][1..] == word[i + 1..]
  {
  }

  lemma FitsStep(c: Codebook, word: seq<Entry>, n: nat)
    ensures word == [] ==> Fits(c, word, n)
    ensures word != [] ==> (Fits(c, word, n) <==>
      word[0].len <= Window(n) && Findable(c, word[0]) && word[0].len <= n && Fits(c, word[1..], n - word[0].len))
  {
  }

  /** A packet written with a word's codewords. */
  function Pack(b: seq<bool>): (p: seq<byte>)
    decreases |b|
  {
    if |b| == 0 then []
    else if |b| < 8 then [ByteOf(b)]
    else [ByteOf(b[..8])] + Pack(b[8..])
  }

  function ByteOf(b: seq<bool>): (x: byte)
    requires |b| <= 8
  {
    EightBits(b);
    ValueOf(b)
  }

  lemma EightBits(b: seq<bool>)
    requires |b| <= 8
    ensures ValueOf(b) < 256
  {
    Pow2Monotone(|b|, 8);
    assert Pow2(8) == 256;
  }

  lemma ByteHolds(b: seq<bool>)
    requires |b| <= 8
    ensures BitsOf(ByteOf(b), 8)[..|b|] == b
  {
    hide Pow2;
    EightBits(b);
    BitsSplit(ValueOf(b), |b|, 8);
    BitsOfValue(b);
    SmallLow(ValueOf(b), |b|);
  }

  lemma SmallLow(x: nat, n: nat)
    requires x < Pow2(n)
    ensures Low(x, n) == x
  {
    hide Pow2;
    DivModUnique(x, Pow2(n), 0, x);
  }

  /** The bits of a written packet start with what was written. */
  lemma {:induction false} PackHolds(b: seq<bool>)
    ensures b <= ByteBits(Pack(b))
    decreases |b|
  {
    hide BitsOf, ByteOf;
    if 0 < |b| < 8 {
      ByteHolds(b);
      assert [ByteOf(b)][1..] == [];
    } else if |b| >= 8 {
      ByteHolds(b[..8]);
      PackHolds(b[8..]);
      assert b == b[..8] + b[8..];
      assert Pack(b)[1..] == Pack(b[8..]);
    }
  }

  /** The whole way: starting the next packet of a file and decoding it gives the word written to
      that packet, wherever its bytes lie on the pages, if and only if every codeword fits. */
  method DecodePacket(f: Reader, c: Codebook, n: nat, ghost lens: seq<nat>, ghost es: seq<Entry>, ghost word: seq<Entry>)
      returns (symbols: Option<seq<int>>)
    requires f.Valid() && f.Flags() && f.BitsValid() && (f.idle || (f.lastSeg && f.bytesInSeg == 0))
    requires Book(c, lens, es)
    requires f.Rest().later != [] && f.Rest().later[0] == Pack(Encode(word)) && |word| == n && AllIn(word, es)
    modifies f
    ensures Ready(f) && f.Rest().later == old(f.Rest()).later[1..]
    ensures symbols == Some(Symbols(word)) <==> Fits(c, word, 8 * |Pack(Encode(word))|)
  {
    hide Canonical, Heads, Book, Pow2, IndexOf, Findable, StartsWith, BitsOf, Encode, Fits, Symbols, Window, Pack,
      Reader.Valid, Reader.Rest, Reader.Flags;
    var ok := f.StartPacket();
    PackHolds(Encode(word));
    StartedStream(f);
    symbols := DecodeSequence(f, c, n, lens, es, word);
  }

  lemma StartedStream(f: Reader)
    requires f.Valid() && f.BitsValid() && f.validBits == 0
    ensures f.Stream() == ByteBits(f.Rest().current) && |f.Stream()| == 8 * |f.Rest().current|
  {
    hide Reader.Valid, Reader.Rest;
  }

  // ---------------------------------------------------------------- when every word is decoded

  /** A codeword that cannot be found: a full book with a sorted table leaves its short
      codewords to a 16-bit table that stops at symbol 32766. */
  lemma FindableExactly(c: Codebook, lens: seq<nat>, es: seq<Entry>, e: Entry)
    requires Book(c, lens, es) && e in es
    ensures Findable(c, e) <==>
      c.sparse || e.len > FAST_LENGTH || e.symbol < FAST_LIMIT || (forall d :: d in es ==> d.len <= FAST_LENGTH)
  {
    hide Canonical, Heads, Reverse, FastTable, Ranked;
    RankedIsStrict(es, c.sparse);
    var y := IndexFacts(c, lens, es, e);
    var r := Ranked(es, c.sparse);
    if c.sortedEntries > 0 {
      assert r[0] in r;
    } else {
      assert r == [];
    }
  }

  /** Books whose codewords have at most 25 bits, and whose symbols fit the 16-bit table,
      decode every word at every place in a packet. */
  lemma {:induction false} AlwaysFits(c: Codebook, es: seq<Entry>, word: seq<Entry>, n: nat)
    requires AllIn(word, es) && |Encode(word)| <= n
    requires forall e :: e in es ==> e.len <= 25 && (c.sparse || e.symbol < FAST_LIMIT)
    ensures Fits(c, word, n)
  {
    if |word| > 0 {
      AlwaysFits(c, es, word[1..], n - word[0].len);
    }
  }

  lemma FitsOne(c: Codebook, e: Entry, n: nat)
    ensures Fits(c, [e], n) <==> e.len <= Window(n) && Findable(c, e)
  {
    assert [e][1..] == [];
  }

  /** A codeword of a book is missed at some place of some packet, though the packet has all its
      bits, exactly when it is longer than 25 bits. */
  lemma LongCodeMissed(c: Codebook, lens: seq<nat>, es: seq<Entry>, e: Entry)
    requires Book(c, lens, es) && e in es && Findable(c, e)
    ensures e.len > 25 <==> exists n: nat :: e.len <= n && !Fits(c, [e], n)
  {
    hide Fits, Findable;
    var x := IndexFacts(c, lens, es, e);
    assert Window(33) == 25;
    FitsOne(c, e, 33);
    if n: nat :| e.len <= n && !Fits(c, [e], n) {
      FitsOne(c, e, n);
    }
  }

  /** A book with one codeword, of 26 bits: it is decoded when 32 or 34 bits of the packet are left
      and missed when 33 are. */
  lemma MissedAt33(c: Codebook, es: seq<Entry>) returns (e: Entry)
    requires Book(c, [26], es)
    ensures ValidLengths([26]) && Kraft([26]) <= TOP
    ensures e in es && e.len == 26 && Fits(c, [e], 32) && !Fits(c, [e], 33) && Fits(c, [e], 34)
  {
    hide Book, Fits, Window, Canonical, Findable;
    var lens := [26];
    BookCode(c, lens, es);
    KraftOf26();
    var u := EntryOf(lens, es, 0);
    e := es[u];
    LongFindable(c, e);
    FitsOne(c, e, 32);
    FitsOne(c, e, 33);
    FitsOne(c, e, 34);
    Windows();
  }

  lemma BookCode(c: Codebook, lens: seq<nat>, es: seq<Entry>)
    requires Book(c, lens, es)
    ensures Canonical(es) && Heads(es) == Used(lens)
  {
  }

  lemma LongFindable(c: Codebook, e: Entry)
    requires e.len > FAST_LENGTH
    ensures Findable(c, e)
  {
  }

  lemma Windows()
    ensures Window(32) == 32 && Window(33) == 25 && Window(34) == 26
  {
  }

  lemma KraftOf26()
    ensures ValidLengths([26]) && Kraft([26]) <= TOP
  {
    assert [26][..0] == [];
    assert Kraft([26]) == Kraft([]) + Size(26);
    Pow2At32();
    Pow2Monotone(6, 32);
  }

  function Repeated(n: nat, l: nat): (lens: seq<nat>)
    ensures |lens| == n && forall i :: 0 <= i < n ==> lens[i] == l
  {
    if n == 0 then [] else Repeated(n - 1, l) + [l]
  }

  /** 32767 codewords of 16 bits, one of a single bit, and another of 16. */
  function Crowd(): (lens: seq<nat>)
    ensures |lens| == 32769 && lens[32767] == 1 && lens[32768] == 16 && ValidLengths(lens)
  {
    Repeated(32767, 16) + [1] + [16]
  }

  lemma Sizes()
    ensures Size(16) == 0x1_0000 && Size(1) == 0x8000_0000
  {
    hide Pow2;
    Pow2At32();
    Pow2Add(1, 31);
    PowerOne();
  }

  lemma PowerOne()
    ensures Pow2(1) == 2
  {
  }

  lemma {:induction false} KraftRepeated(n: nat)
    ensures ValidLengths(Repeated(n, 16)) && Kraft(Repeated(n, 16)) == 0x1_0000 * n
  {
    hide Size;
    if n > 0 {
      KraftRepeated(n - 1);
      KraftAppend(Repeated(n - 1, 16), 16);
      Sizes();
    }
  }

  lemma KraftAppend(lens: seq<nat>, l: nat)
    requires ValidLengths(lens) && ValidLength(l)
    ensures ValidLengths(lens + [l]) && Kraft(lens + [l]) == Kraft(lens) + Size(l)
  {
    assert (lens + [l])[..|lens|] == lens;
  }

  /** Those lengths fill the code space exactly, so the book is accepted; and its one-bit codeword
      is never found, wherever it stands. */
  lemma NeverFound(c: Codebook, es: seq<Entry>) returns (e: Entry)
    requires Book(c, Crowd(), es) && !c.sparse
    ensures Kraft(Crowd()) == TOP
    ensures e in es && e.symbol == 32767 && e.len == 1 && !Findable(c, e) && forall n: nat :: !Fits(c, [e], n)
  {
    hide Book, Fits, Canonical, Findable, Crowd, Size, Repeated;
    var lens := Crowd();
    CrowdFits();
    BookCode(c, lens, es);
    var u := EntryOf(lens, es, 32767);
    e := es[u];
    var v := EntryOf(lens, es, 32768);
    var d := es[v];
    assert d in es && d.len > FAST_LENGTH;
    FindableExactly(c, lens, es, e);
    forall n: nat ensures !Fits(c, [e], n) {
      FitsOne(c, e, n);
    }
  }

  lemma CrowdFits()
    ensures Kraft(Crowd()) == TOP
  {
    hide Size, Repeated, Kraft;
    KraftRepeated(32767);
    KraftAppend(Repeated(32767, 16), 1);
    KraftAppend(Repeated(32767, 16) + [1], 16);
    Sizes();
  }

  /** A packet of 32 bits or more starts with a codeword whatever its bits are, exactly when
      the codeword lengths leave no code space over. */
  lemma EveryStreamDecodes(lens: seq<nat>, es: seq<Entry>)
    requires ValidLengths(lens) && Canonical(es) && Heads(es) == Used(lens)
    ensures Kraft(lens) == TOP <==>
      forall s: seq<bool> :: |s| == 32 ==> exists e :: e in es && StartsWith(s, e)
  {
    hide Canonical, Heads, Used, Kraft, Reverse, BitsOf, ValueOf, StartsWith, Inside, CodeBits;
    FullCode(lens, es);
    if Kraft(lens) == TOP {
      forall s: seq<bool> | |s| == 32 ensures exists e :: e in es && StartsWith(s, e) {
        var p := PointOf(s);
        assert InEntry(es, p);
        var j :| 0 <= j < |es| && Inside(p, es[j].code, es[j].len);
        StreamPoint(s, es, j);
        assert es[j] in es;
      }
    } else {
      var p: nat :| p < TOP && !InEntry(es, p);
      var s := BitsOf(Reverse(p, 32), 32);
      PointBack(p);
      assert |s| == 32;
      forall e | e in es ensures !StartsWith(s, e) {
        var j :| 0 <= j < |es| && es[j] == e;
        StreamPoint(s, es, j);
      }
    }
  }

  /** The point of the code space that 32 bits of a packet name: their number, bit-reversed. */
  function PointOf(s: seq<bool>): (p: nat)
    requires |s| == 32
    ensures p < TOP
  {
    Pow2At32();
    ReverseBound(ValueOf(s), 32);
    Reverse(ValueOf(s), 32)
  }

  lemma PointBack(p: nat)
    requires p < TOP
    ensures PointOf(BitsOf(Reverse(p, 32), 32)) == p
  {
    hide Reverse, Pow2, BitsOf, ValueOf;
    Pow2At32();
    ReverseBound(p, 32);
    ValueOfBits(Reverse(p, 32), 32);
    ReverseTwice(p, 32);
  }

  lemma StreamPoint(s: seq<bool>, es: seq<Entry>, j: nat)
    requires |s| == 32 && Canonical(es) && j < |es|
    ensures ValidLength(es[j].len)
    ensures StartsWith(s, es[j]) <==> Inside(PointOf(s), es[j].code, es[j].len)
  {
    hide Canonical, Reverse, Pow2, BitsOf, ValueOf, Aligned, Inside, Begins, StartsWith;
    CanonicalEntry(es, j);
    StoredSmall(es, j);
    BitsOfValue(s);
    assert s[..32] == s;
    BeginsStream(ValueOf(s), 32, s, es[j]);
    BeginsIffInside(ValueOf(s), es[j]);
  }
}
