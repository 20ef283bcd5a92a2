/** The checksum of Ogg pages: a table-driven update against division by the polynomial. */
module Crc32 {
  import opened Basics

  /** A 32-bit word, most significant bit first. */
  type Word = w: seq<bool> | |w| == 32 witness seq(32, i => false)

  function Zeros(n: nat): (z: seq<bool>)
    ensures |z| == n && forall i :: 0 <= i < n ==> !z[i]
  {
    seq(n, i => false)
  }

  function Xor(a: seq<bool>, b: seq<bool>): (c: seq<bool>)
    requires |a| == |b|
    ensures |c| == |a| && forall i :: 0 <= i < |a| ==> c[i] == (a[i] != b[i])
  {
    seq(|a|, i requires 0 <= i < |a| => a[i] != b[i])
  }

  /** The low k bits of x, most significant first. */
  function Bits(x: nat, k: nat): (b: seq<bool>)
    ensures |b| == k
  {
    if k == 0 then [] else Bits(x / 2, k - 1) + [x % 2 == 1]
  }

  function Value(b: seq<bool>): (x: nat) {
    if |b| == 0 then 0 else 2 * Value(b[..|b| - 1]) + if b[|b| - 1] then 1 else 0
  }

  lemma {:induction false} BitsValue(b: seq<bool>)
    ensures Bits(Value(b), |b|) == b
  {
    hide Bits, Value;
    if |b| > 0 {
      BitsValue(b[..|b| - 1]);
      ValueStep(b);
      BitsStep(Value(b), |b|);
      assert b == b[..|b| - 1] + [b[|b| - 1]];
    } else {
      assert Bits(Value(b), 0) == b;
    }
  }

  lemma ValueStep(b: seq<bool>)
    requires |b| > 0
    ensures Value(b) / 2 == Value(b[..|b| - 1]) && (Value(b) % 2 == 1 <==> b[|b| - 1])
  {
  }

  lemma BitsStep(x: nat, k: nat)
    requires k > 0
    ensures Bits(x, k) == Bits(x / 2, k - 1) + [x % 2 == 1]
  {
  }

  lemma {:induction false} ValueBound(b: seq<bool>)
    requires |b| <= 8
    ensures |b| == 8 ==> Value(b) < 256
    ensures |b| < 8 ==> Value(b) < 128
    ensures |b| < 7 ==> Value(b) < 64
    ensures |b| < 6 ==> Value(b) < 32
    ensures |b| < 5 ==> Value(b) < 16
    ensures |b| < 4 ==> Value(b) < 8
    ensures |b| < 3 ==> Value(b) < 4
    ensures |b| < 2 ==> Value(b) < 2
    ensures |b| < 1 ==> Value(b) < 1
  {
    if |b| > 0 {
      ValueBound(b[..|b| - 1]);
    }
  }

  /** x times 2 to the j. */
  function Doubled(x: nat, j: nat): (y: nat) {
    if j == 0 then x else 2 * Doubled(x, j - 1)
  }

  /** Bit j of x, counted from the least significant one. */
  lemma {:induction false} BitsAt(x: nat, k: nat, j: nat)
    requires j < k
    ensures Doubled(1, j) > 0 && (Bits(x, k)[k - 1 - j] <==> x / Doubled(1, j) % 2 == 1)
  {
    if j > 0 {
      BitsAt(x / 2, k - 1, j - 1);
      HalfThen(x, Doubled(1, j - 1));
    }
  }

  lemma HalfThen(x: nat, d: nat)
    requires d > 0
    ensures x / (2 * d) == x / 2 / d
  {
    var q, r := x / 2 / d, x / 2 % d;
    assert x / 2 == q * d + r;
    assert x == q * (2 * d) + (2 * r + x % 2);
    QuotientOf(x, 2 * d, q, 2 * r + x % 2);
  }

  lemma QuotientOf(x: nat, d: nat, q: nat, r: nat)
    requires x == q * d + r && r < d
    ensures x / d == q
  {
    if x / d < q {
      Times(x / d + 1, q, d);
    } else if x / d > q {
      Times(q + 1, x / d, d);
    }
  }

  lemma Times(a: nat, b: nat, d: nat)
    requires a <= b
    ensures a * d <= b * d
  {
  }

  /** Bits behind a number's bits are added below it. */
  lemma {:induction false} BitsJoin(x: nat, k: nat, b: seq<bool>)
    ensures Bits(Doubled(x, |b|) + Value(b), k + |b|) == Bits(x, k) + b
  {
    if |b| == 0 {
      assert Bits(x, k) + b == Bits(x, k);
    } else {
      var front := b[..|b| - 1];
      BitsJoin(x, k, front);
      ValueStep(b);
      BitsStep(Doubled(x, |b|) + Value(b), k + |b|);
      assert Bits(x, k) + b == Bits(x, k) + front + [b[|b| - 1]];
    }
  }

  lemma {:induction false} ValueBits(x: nat, k: nat)
    requires x < Doubled(1, k)
    ensures Value(Bits(x, k)) == x
  {
    if k > 0 {
      ValueBits(x / 2, k - 1);
      assert Bits(x, k)[..k - 1] == Bits(x / 2, k - 1);
    }
  }

  /** 0x04c11db7. */
  function Poly(): (w: Word) {
    Bits(0x04c11db7, 32)
  }

  /** The generator is x^32 + x^26 + x^23 + x^22 + x^16 + x^12 + x^11 + x^10 + x^8 + x^7 + x^5 + x^4
      + x^2 + x + 1, with x^32 left implicit. */
  lemma Generator()
    ensures Value(Poly()) ==
      Doubled(1, 26) + Doubled(1, 23) + Doubled(1, 22) + Doubled(1, 16) + Doubled(1, 12) + Doubled(1, 11) + Doubled(1, 10)
      + Doubled(1, 8) + Doubled(1, 7) + Doubled(1, 5) + Doubled(1, 4) + Doubled(1, 2) + Doubled(1, 1) + Doubled(1, 0)
  {
    LowPowers();
    HighPowers();
    hide Doubled;
    ValueBits(0x04c11db7, 32);
  }

  lemma LowPowers()
    ensures Doubled(1, 12) + Doubled(1, 11) + Doubled(1, 10) + Doubled(1, 8) + Doubled(1, 7) + Doubled(1, 5)
      + Doubled(1, 4) + Doubled(1, 2) + Doubled(1, 1) + Doubled(1, 0) == 0x1db7
  {
  }

  lemma HighPowers()
    ensures Doubled(1, 16) == 0x1_0000 && Doubled(1, 22) == 0x40_0000 && Doubled(1, 23) == 0x80_0000
    ensures Doubled(1, 26) == 0x400_0000 && Doubled(1, 32) == 0x1_0000_0000
  {
    assert Doubled(1, 8) == 0x100;
    assert Doubled(1, 12) == 0x1000;
    assert Doubled(1, 16) == 0x1_0000;
    assert Doubled(1, 19) == 0x8_0000;
    assert Doubled(1, 22) == 0x40_0000;
    assert Doubled(1, 26) == 0x400_0000;
    assert Doubled(1, 29) == 0x2000_0000;
  }

  // ---------------------------------------------------------------- division by the polynomial

  /** r added on top of the first 32 bits of d. */
  function OnTop(r: Word, d: seq<bool>): (s: seq<bool>)
    requires |d| >= 32
    ensures |s| == |d|
  {
    Xor(r, d[..32]) + d[32..]
  }

  /** Schoolbook division: while more than 32 bits are left, a leading one is cancelled by the
      polynomial, a leading zero is dropped. */
  function Remainder(d: seq<bool>): (r: Word)
    requires |d| >= 32
    decreases |d|
  {
    if |d| == 32 then d
    else if d[0] then Remainder(OnTop(Poly(), d[1..]))
    else Remainder(d[1..])
  }

  function ByteBits(s: seq<byte>): (b: seq<bool>)
    ensures |b| == 8 * |s|
  {
    if |s| == 0 then [] else Bits(s[0], 8) + ByteBits(s[1..])
  }

  /** The checksum of a page: the remainder of its bytes followed by 32 zero bits. */
  function Checksum(s: seq<byte>): (r: Word) {
    Remainder(ByteBits(s) + Zeros(32))
  }

  /** The checksum of the single byte 1 is the polynomial. */
  lemma ChecksumOfOne()
    ensures Checksum([1]) == Poly()
  {
    hide Poly, Bits, Remainder;
    OneAsBits();
    assert [1][1..] == [];
    assert ByteBits([1]) == Zeros(7) + [true];
    var d := Zeros(7) + [true] + Zeros(32);
    DropZeros(d, 7);
    assert d[7..] == [true] + Zeros(32);
    LastStep();
  }

  lemma OneAsBits()
    ensures Bits(1, 8) == Zeros(7) + [true]
  {
    NoBitsOfZero(7);
  }

  lemma {:induction false} NoBitsOfZero(k: nat)
    ensures Bits(0, k) == Zeros(k)
  {
    if k > 0 {
      NoBitsOfZero(k - 1);
    }
  }

  lemma {:induction false} DropZeros(d: seq<bool>, n: nat)
    requires |d| >= 32 + n && forall i :: 0 <= i < n ==> !d[i]
    ensures Remainder(d) == Remainder(d[n..])
  {
    if n == 0 {
      assert d[0..] == d;
    } else {
      DropZeros(d[1..], n - 1);
      assert d[1..][n - 1..] == d[n..];
    }
  }

  lemma LastStep()
    ensures Remainder([true] + Zeros(32)) == Poly()
  {
    hide Poly;
    var d := [true] + Zeros(32);
    assert d[1..] == Zeros(32);
    assert OnTop(Poly(), Zeros(32)) == Poly();
  }

  // ---------------------------------------------------------------- one bit at a time in a register

  /** One shift: (s << 1) ^ (s >= 2^31 ? poly : 0). */
  function Shift(s: Word): (r: Word) {
    var t := s[1..] + [false];
    if s[0] then Xor(t, Poly()) else t
  }

  function Shifts(s: Word, n: nat): (r: Word)
    decreases n
  {
    if n == 0 then s else Shifts(Shift(s), n - 1)
  }

  /** A bit enters at the top of the register. */
  function Feed(r: Word, b: bool): (s: Word) {
    Shift([r[0] != b] + r[1..])
  }

  function FeedAll(r: Word, m: seq<bool>): (s: Word)
    decreases |m|
  {
    if |m| == 0 then r else FeedAll(Feed(r, m[0]), m[1..])
  }

  lemma OnTopTail(r: Word, d: seq<bool>)
    requires |d| >= 33
    ensures OnTop(r, d)[1..] == OnTop(r[1..] + [false], d[1..])
    ensures OnTop(r, d)[0] == (r[0] != d[0])
  {
    var a := OnTop(r, d)[1..];
    var b := OnTop(r[1..] + [false], d[1..]);
    forall i | 0 <= i < |a| ensures a[i] == b[i] {
      assert a[i] == OnTop(r, d)[i + 1];
    }
  }

  lemma OnTopTwice(a: Word, b: Word, d: seq<bool>)
    requires |d| >= 32
    ensures OnTop(a, OnTop(b, d)) == OnTop(Xor(b, a), d)
  {
    assert OnTop(b, d)[..32] == Xor(b, d[..32]);
    assert OnTop(b, d)[32..] == d[32..];
    assert Xor(a, Xor(b, d[..32])) == Xor(Xor(b, a), d[..32]);
  }

  /** Feeding bits through the register is dividing them, with 32 zero bits behind. */
  lemma {:induction false} FeedDivides(r: Word, m: seq<bool>)
    ensures FeedAll(r, m) == Remainder(OnTop(r, m + Zeros(32)))
    decreases |m|
  {
    hide Poly, Bits, OnTop;
    if |m| == 0 {
      assert m + Zeros(32) == Zeros(32);
      OnTopZeros(r);
    } else {
      FeedDivides(Feed(r, m[0]), m[1..]);
      var t := m[1..] + Zeros(32);
      assert (m + Zeros(32))[1..] == t;
      OnTopTail(r, m + Zeros(32));
      var low: Word := r[1..] + [false];
      OnTopTwice(Poly(), low, t);
      assert Feed(r, m[0]) == if r[0] != m[0] then Xor(low, Poly()) else low;
    }
  }

  lemma OnTopZeros(r: Word)
    ensures OnTop(r, Zeros(32)) == r
  {
  }

  // ---------------------------------------------------------------- eight bits at once

  lemma ShiftXor(a: Word, b: Word)
    ensures Shift(Xor(a, b)) == Xor(Shift(a), Shift(b))
  {
    hide Poly;
    var p := Poly();
    forall i | 0 <= i < 32 ensures Shift(Xor(a, b))[i] == Xor(Shift(a), Shift(b))[i] {
      assert Xor(a, b)[0] == (a[0] != b[0]);
      if i < 31 {
        assert Xor(a, b)[i + 1] == (a[i + 1] != b[i + 1]);
      }
    }
  }

  lemma {:induction false} ShiftsXor(a: Word, b: Word, n: nat)
    ensures Shifts(Xor(a, b), n) == Xor(Shifts(a, n), Shifts(b, n))
    decreases n
  {
    hide Shift, Xor;
    if n > 0 {
      ShiftXor(a, b);
      ShiftsXor(Shift(a), Shift(b), n - 1);
    }
  }

  /** A register whose top n bits are zero is only shifted. */
  lemma {:induction false} ShiftsLow(low: seq<bool>, n: nat)
    requires n + |low| <= 32
    ensures Shifts(Zeros(n) + low + Zeros(32 - n - |low|), n) == low + Zeros(32 - |low|)
  {
    hide Shift, Poly;
    if n == 0 {
      assert Zeros(0) + low + Zeros(32 - |low|) == low + Zeros(32 - |low|);
    } else {
      ShiftLow(low, n);
      ShiftsLow(low, n - 1);
    }
  }

  lemma ShiftLow(low: seq<bool>, n: nat)
    requires 1 <= n && n + |low| <= 32
    ensures Shift(Zeros(n) + low + Zeros(32 - n - |low|)) == Zeros(n - 1) + low + Zeros(33 - n - |low|)
  {
    var s: Word := Zeros(n) + low + Zeros(32 - n - |low|);
    var t: Word := Zeros(n - 1) + low + Zeros(33 - n - |low|);
    assert !s[0];
    forall i | 0 <= i < 32 ensures (s[1..] + [false])[i] == t[i] {
    }
  }

  /** n bits fed one by one are n bits added at the top, then shifted through. */
  lemma {:induction false} FeedShifts(r: Word, m: seq<bool>)
    requires |m| <= 32
    ensures FeedAll(r, m) == Shifts(Xor(r, m + Zeros(32 - |m|)), |m|)
    decreases |m|
  {
    hide Shift, Feed;
    if |m| == 0 {
      assert Xor(r, m + Zeros(32)) == r;
    } else {
      FeedShifts(Feed(r, m[0]), m[1..]);
      var whole: Word := Xor(r, m + Zeros(32 - |m|));
      var rest: Word := m[1..] + Zeros(33 - |m|);
      FirstShift(r, m);
      assert Shift(whole) == Xor(Feed(r, m[0]), rest);
    }
  }

  lemma FirstShift(r: Word, m: seq<bool>)
    requires 1 <= |m| <= 32
    ensures Shift(Xor(r, m + Zeros(32 - |m|))) == Xor(Feed(r, m[0]), m[1..] + Zeros(33 - |m|))
  {
    var top: Word := [r[0] != m[0]] + r[1..];
    var below: Word := [false] + m[1..] + Zeros(32 - |m|);
    assert Xor(r, m + Zeros(32 - |m|)) == Xor(top, below);
    ShiftXor(top, below);
    assert Shift(below) == m[1..] + Zeros(33 - |m|);
  }

  /** The table entry for an index: the index at the top of a register, shifted through. */
  function Entry(i: nat): (w: Word) {
    Shifts(Bits(i, 8) + Zeros(24), 8)
  }

  /** The shape of one update: the register moves up a byte, and the table entry for the byte
      that left, mixed with the new one, is added. */
  function Mixed(crc: Word, b: byte): (w: Word) {
    Xor(crc[8..] + Zeros(8), Entry(Value(Xor(Bits(b, 8), crc[..8]))))
  }

  /** One update is eight bits fed one by one. */
  lemma MixedFeeds(crc: Word, b: byte)
    ensures Mixed(crc, b) == FeedAll(crc, Bits(b, 8))
  {
    hide Shifts, FeedAll, Poly, Bits, Value;
    var m := Bits(b, 8);
    var top := Xor(m, crc[..8]);
    BitsValue(top);
    FeedShifts(crc, m);
    var high: Word := top + Zeros(24);
    var low: Word := Zeros(8) + crc[8..] + Zeros(0);
    assert Xor(crc, m + Zeros(24)) == Xor(low, high);
    ShiftsXor(low, high, 8);
    ShiftsLow(crc[8..], 8);
  }

  // ---------------------------------------------------------------- bytes

  function Fold(crc: Word, s: seq<byte>): (w: Word)
    decreases |s|
  {
    if |s| == 0 then crc else Fold(Mixed(crc, s[0]), s[1..])
  }

  lemma {:induction false} FeedAppend(r: Word, a: seq<bool>, b: seq<bool>)
    ensures FeedAll(r, a + b) == FeedAll(FeedAll(r, a), b)
    decreases |a|
  {
    hide Feed;
    if |a| == 0 {
      assert a + b == b;
    } else {
      FeedAppend(Feed(r, a[0]), a[1..], b);
      assert (a + b)[1..] == a[1..] + b;
    }
  }

  lemma {:induction false} FoldFeeds(crc: Word, s: seq<byte>)
    ensures Fold(crc, s) == FeedAll(crc, ByteBits(s))
    decreases |s|
  {
    if |s| > 0 {
      MixedFeeds(crc, s[0]);
      FoldFeeds(Mixed(crc, s[0]), s[1..]);
      FeedAppend(crc, Bits(s[0], 8), ByteBits(s[1..]));
    }
  }

  /** The table-driven checksum of any bytes is the remainder of dividing them by the polynomial. */
  lemma FoldDivides(s: seq<byte>)
    ensures Fold(Zeros(32), s) == Checksum(s)
  {
    hide Poly, FeedAll, Remainder, Fold;
    FoldFeeds(Zeros(32), s);
    FeedDivides(Zeros(32), ByteBits(s));
    var d := ByteBits(s) + Zeros(32);
    assert OnTop(Zeros(32), d) == d;
  }

  lemma {:induction false} FoldAppend(crc: Word, a: seq<byte>, b: seq<byte>)
    ensures Fold(crc, a + b) == Fold(Fold(crc, a), b)
    decreases |a|
  {
    hide Mixed;
    if |a| == 0 {
      assert a + b == b;
    } else {
      FoldAppend(Mixed(crc, a[0]), a[1..], b);
      assert (a + b)[1..] == a[1..] + b;
    }
  }

  // ---------------------------------------------------------------- the table

  ghost predicate IsTable(t: array<Word>)
    reads t
  {
    t.Length == 256 && forall i :: 0 <= i < 256 ==> t[i] == Entry(i)
  }

  method Crc32Init() returns (crcTable: array<Word>)
    ensures fresh(crcTable) && IsTable(crcTable)
  {
    hide Bits, Shift;
    crcTable := new Word[256](_ => Zeros(32));
    var i := 0;
    while i < 256
      invariant 0 <= i <= 256
      invariant forall k :: 0 <= k < i ==> crcTable[k] == Entry(k)
    {
      var s: Word := Bits(i, 8) + Zeros(24);
      var j := 0;
      while j < 8
        invariant 0 <= j <= 8
        invariant Shifts(s, 8 - j) == Entry(i)
      {
        s := Shift(s);
        j := j + 1;
      }
      crcTable[i] := s;
      i := i + 1;
    }
  }

  /** One byte enters the checksum: its eight bits, most significant first, pass through the
      shift register. */
  method Crc32Update(crcTable: array<Word>, crc: Word, b: byte) returns (r: Word)
    requires IsTable(crcTable)
    ensures r == FeedAll(crc, Bits(b, 8)) == Mixed(crc, b)
  {
    hide Value, Bits, Entry, FeedAll;
    MixedFeeds(crc, b);
    var index := Xor(Bits(b, 8), crc[..8]);
    ValueBound(index);
    r := Xor(crc[8..] + Zeros(8), crcTable[Value(index)]);
  }
}
