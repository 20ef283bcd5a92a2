/** Powers of two, bit strings written least significant bit first, and the
    reversal of the low bits of a number: the arithmetic under the entropy
    decoder's `>>`, `<<`, `&` and `bit_reverse`. */
module Bits {

  function Pow2(n: nat): (r: nat)
    ensures r > 0
  {
    if n == 0 then 1 else 2 * Pow2(n - 1)
  }

  lemma Pow2Step(n: nat)
    requires n > 0
    ensures Pow2(n) == 2 * Pow2(n - 1)
  {
  }

  lemma Pow2Zero()
    ensures Pow2(0) == 1
  {
  }

  lemma Double(p: int, q: int)
    ensures 2 * (p * q) == (2 * p) * q
  {
  }

  lemma {:induction false} Pow2Add(a: nat, b: nat)
    ensures Pow2(a + b) == Pow2(a) * Pow2(b)
  {
    hide Pow2;
    if a > 0 {
      Pow2Add(a - 1, b);
      Pow2Step(a);
      Pow2Step(a + b);
      assert a + b - 1 == a - 1 + b;
      Double(Pow2(a - 1), Pow2(b));
    } else {
      Pow2Zero();
    }
  }

  lemma Pow2At8()
    ensures Pow2(8) == 0x100
  {
    assert Pow2(4) == 0x10;
  }

  lemma Pow2At32()
    ensures Pow2(8) == 0x100 && Pow2(16) == 0x1_0000 && Pow2(32) == 0x1_0000_0000
  {
    hide Pow2;
    Pow2At8();
    Pow2Add(8, 8);
    Pow2Add(16, 16);
  }

  lemma {:induction false} Pow2Monotone(a: nat, b: nat)
    requires a <= b
    ensures Pow2(a) <= Pow2(b)
    decreases b - a
  {
    if a < b {
      Pow2Monotone(a + 1, b);
    }
  }

  /** A quotient and a remainder determine each other. */
  lemma DivModUnique(x: nat, d: nat, q: nat, r: nat)
    requires d > 0 && r < d && x == q * d + r
    ensures x / d == q && x % d == r
  {
    var dq := x / d - q;
    assert x == (x / d) * d + x % d;
    assert dq * d == (x / d) * d - q * d;
    if dq >= 1 {
      MulAtLeast(dq, d);
    } else if dq <= -1 {
      MulAtMost(dq, d);
    }
  }

  lemma MulAtMost(k: int, d: nat)
    requires k <= -1
    ensures k * d + d <= 0
  {
    MulAtLeast(-k, d);
  }

  lemma MulAtLeast(k: int, d: nat)
    requires k >= 1
    ensures k * d >= d
  {
    assert k * d == (k - 1) * d + d;
    assert (k - 1) * d >= 0;
  }

  /** Consecutive multiples of d differ by at least d. */
  lemma MultiplesApart(x: nat, y: nat, d: nat)
    requires d > 0 && x % d == 0 && y % d == 0 && x < y
    ensures x + d <= y
  {
    DivMod(x, d);
    DivMod(y, d);
    MultiplesGap(x / d, y / d, d);
  }

  lemma MultiplesGap(a: int, b: int, d: nat)
    requires d * a < d * b
    ensures d * a + d <= d * b
  {
    PositiveMultiple(b - a, d);
  }

  lemma MulAssociative(x: int, y: int, z: int)
    ensures x * (y * z) == (x * y) * z
  {
  }

  lemma PositiveMultiple(k: int, d: nat)
    requires k * d > 0
    ensures k * d >= d
  {
    if k >= 1 {
      MulAtLeast(k, d);
    } else {
      NotPositive(k, d);
    }
  }

  lemma NotPositive(k: int, d: nat)
    requires k <= 0
    ensures k * d <= 0
  {
    NotNegative(-k, d);
  }

  lemma MultipleOfProduct(x: nat, a: nat, b: nat)
    requires a > 0 && b > 0 && a * b > 0 && x % (a * b) == 0
    ensures x % b == 0
  {
    var q := x / (a * b);
    DivMod(x, a * b);
    MulAssociative(q, a, b);
    NotNegative(q, a);
    DivModUnique(x, b, q * a, 0);
  }

  lemma NotNegative(x: nat, y: nat)
    ensures x * y >= 0
  {
  }

  // ---------------------------------------------------------------- bit strings

  /** The k low bits of x, least significant first. */
  function BitsOf(x: nat, k: nat): (b: seq<bool>)
    ensures |b| == k
  {
    if k == 0 then [] else [x % 2 == 1] + BitsOf(x / 2, k - 1)
  }

  /** The number whose bits, least significant first, are b. */
  function ValueOf(b: seq<bool>): (x: nat)
    ensures x < Pow2(|b|)
  {
    if |b| == 0 then 0 else (if b[0] then 1 else 0) + 2 * ValueOf(b[1..])
  }

  lemma {:induction false} ValueOfBits(x: nat, k: nat)
    requires x < Pow2(k)
    ensures ValueOf(BitsOf(x, k)) == x
  {
    if k > 0 {
      ValueOfBits(x / 2, k - 1);
      assert BitsOf(x, k)[1..] == BitsOf(x / 2, k - 1);
    }
  }

  lemma {:induction false} BitsOfValue(b: seq<bool>)
    ensures BitsOf(ValueOf(b), |b|) == b
  {
    if |b| > 0 {
      BitsOfValue(b[1..]);
      assert ValueOf(b) / 2 == ValueOf(b[1..]);
    }
  }

  /** Placing y above the j low bits of x puts y's bits after x's. */
  lemma {:induction false} BitsAppend(x: nat, j: nat, y: nat, k: nat)
    requires x < Pow2(j)
    ensures BitsOf(x + Pow2(j) * y, j + k) == BitsOf(x, j) + BitsOf(y, k)
  {
    if j > 0 {
      var z := x + Pow2(j) * y;
      HalfOfSum(x, y, j);
      BitsAppend(x / 2, j - 1, y, k);
      assert BitsOf(z, j + k) == [z % 2 == 1] + BitsOf(z / 2, j - 1 + k);
      assert [z % 2 == 1] + (BitsOf(x / 2, j - 1) + BitsOf(y, k)) == ([x % 2 == 1] + BitsOf(x / 2, j - 1)) + BitsOf(y, k);
    } else {
      assert BitsOf(x, j) + BitsOf(y, k) == BitsOf(y, k);
    }
  }

  /** The n low bits of x: a mask. */
  function Low(x: nat, n: nat): (r: nat) {
    x % Pow2(n)
  }

  /** x without its n low bits: a right shift. */
  function High(x: nat, n: nat): (r: nat)
  {
    NotNegativeQuotient(x, Pow2(n));
    x / Pow2(n)
  }

  lemma NotNegativeQuotient(x: nat, d: nat)
    requires d > 0
    ensures x / d >= 0
  {
  }

  /** Shifting right and masking split the bit string. */
  lemma BitsSplit(x: nat, n: nat, k: nat)
    requires n <= k
    ensures BitsOf(x, k)[..n] == BitsOf(Low(x, n), n)
    ensures BitsOf(x, k)[n..] == BitsOf(High(x, n), k - n)
  {
    DivMod(x, Pow2(n));
    BitsAppend(x % Pow2(n), n, x / Pow2(n), k - n);
    assert n + (k - n) == k;
    assert BitsOf(x, k) == BitsOf(x % Pow2(n), n) + BitsOf(x / Pow2(n), k - n);
  }

  lemma DivMod(x: nat, d: nat)
    requires d > 0
    ensures x == x % d + d * (x / d) && x % d < d && x / d >= 0
  {
  }

  // ---------------------------------------------------------------- reversal

  /** The k low bits of x in the opposite order. */
  function Reverse(x: nat, k: nat): (r: nat)
  {
    if k == 0 then 0 else (x % 2) * Pow2(k - 1) + Reverse(x / 2, k - 1)
  }

  lemma {:induction false} ReverseBound(x: nat, k: nat)
    ensures Reverse(x, k) < Pow2(k)
  {
    if k > 0 {
      ReverseBound(x / 2, k - 1);
      var p := Pow2(k - 1);
      assert (x % 2) * p <= p by {
        if x % 2 == 0 {
          assert (x % 2) * p == 0;
        }
      }
    }
  }

  /** Reversal sends the low block of bits to the top and the high block to the bottom. */
  lemma {:induction false} ReverseSplit(u: nat, v: nat, a: nat, b: nat)
    requires u < Pow2(a)
    ensures Reverse(u + Pow2(a) * v, a + b) == Reverse(u, a) * Pow2(b) + Reverse(v, b)
  {
    if a > 0 {
      HalfOfSum(u, v, a);
      ReverseSplit(u / 2, v, a - 1, b);
      Pow2Add(a - 1, b);
      ReverseProduct(u % 2, Pow2(a - 1), Reverse(u / 2, a - 1), Pow2(b));
    }
  }

  lemma HalfOfSum(u: nat, v: nat, a: nat)
    requires a > 0
    ensures (u + Pow2(a) * v) % 2 == u % 2
    ensures (u + Pow2(a) * v) / 2 == u / 2 + Pow2(a - 1) * v
  {
    MulAssociative(2, Pow2(a - 1), v);
  }

  lemma ReverseProduct(d: nat, p: nat, r: nat, q: nat)
    ensures (d * p + r) * q == d * (p * q) + r * q
  {
    MulAssociative(d, p, q);
  }

  lemma HalfBound(x: nat, k: nat)
    requires k > 0 && x < Pow2(k)
    ensures x / 2 < Pow2(k - 1)
  {
  }

  lemma ReverseStep(x: nat, k: nat)
    requires k > 0
    ensures Reverse(x, k) == Reverse(x / 2, k - 1) + Pow2(k - 1) * (x % 2)
  {
  }

  /** Reversing twice gives the number back. */
  lemma {:induction false} ReverseTwice(x: nat, k: nat)
    requires x < Pow2(k)
    ensures Reverse(Reverse(x, k), k) == x
  {
    hide Pow2, Reverse;
    if k > 0 {
      var y := Reverse(x / 2, k - 1);
      HalfBound(x, k);
      ReverseBound(x / 2, k - 1);
      ReverseTwice(x / 2, k - 1);
      ReverseSplit(y, x % 2, k - 1, 1);
      ReverseOne(x % 2);
      ReverseStep(x, k);
      assert k - 1 + 1 == k;
    } else {
      ReverseNone(x);
    }
  }

  lemma ReverseNone(x: nat)
    requires x < Pow2(0)
    ensures Reverse(Reverse(x, 0), 0) == x
  {
  }

  lemma ReverseOne(d: nat)
    requires d < 2
    ensures Reverse(d, 1) == d && Pow2(1) == 2
  {
    assert Reverse(d / 2, 0) == 0;
  }

  /** The mask-and-shift bit reversal of a 32-bit word. */
  function BitReverseWord(n0: bv32): bv32 {
    var n1 := ((n0 & 0xAAAAAAAA) >> 1) | ((n0 & 0x55555555) << 1);
    var n2 := ((n1 & 0xCCCCCCCC) >> 2) | ((n1 & 0x33333333) << 2);
    var n3 := ((n2 & 0xF0F0F0F0) >> 4) | ((n2 & 0x0F0F0F0F) << 4);
    var n4 := ((n3 & 0xFF00FF00) >> 8) | ((n3 & 0x00FF00FF) << 8);
    (n4 >> 16) | (n4 << 16)
  }

  /** Bit i of the result is bit 31 - i of the argument, for every position. */
  lemma BitReverseWordAt(n: bv32, i: bv32)
    requires i < 32
    ensures (BitReverseWord(n) >> i) & 1 == (n >> (31 - i)) & 1
  {
  }

  /** Bit i of the reversal of k bits is bit k - 1 - i of the number: the same law for numbers. */
  lemma {:induction false} ReverseAt(x: nat, k: nat, i: nat)
    requires i < k
    ensures BitsOf(Reverse(x, k), k)[i] == BitsOf(x, k)[k - 1 - i]
  {
    var y := Reverse(x / 2, k - 1);
    ReverseBits(x, k);
    if i < k - 1 {
      ReverseAt(x / 2, k - 1, i);
    } else {
      assert BitsOf(x % 2, 1)[0] == (x % 2 == 1);
    }
  }

  lemma ReverseBits(x: nat, k: nat)
    requires k > 0
    ensures BitsOf(Reverse(x, k), k) == BitsOf(Reverse(x / 2, k - 1), k - 1) + BitsOf(x % 2, 1)
  {
    ReverseBound(x / 2, k - 1);
    BitsAppend(Reverse(x / 2, k - 1), k - 1, x % 2, 1);
  }

  // ---------------------------------------------------------------- words and numbers

  /** The number i, as a distance to shift a word by. */
  function Shift(i: nat): (d: bv32)
  {
    if i == 0 then 0 else Twice(Shift(i / 2), i % 2 == 1)
  }

  /** w is the number m, a power of two. */
  predicate Level(m: nat, w: bv32) {
    (m, w) in [(1, 1), (2, 2), (4, 4), (8, 8), (16, 16), (32, 32)]
  }

  lemma LevelDown(m: nat, w: bv32)
    requires Level(m, w)
    ensures m == 1 ==> w == 1
    ensures m > 1 ==> m % 2 == 0 && Level(m / 2, w >> 1) && w == (w >> 1) << 1 && w >> 1 <= 16
  {
  }

  lemma {:induction false} ShiftBack(i: nat, m: nat, w: bv32)
    requires i < m && Level(m, w)
    ensures ShiftsBack(Shift(i), Shift(m - 1 - i), w)
  {
    hide Shift, Level, ShiftsBack, Twice;
    ShiftStep(i);
    LevelDown(m, w);
    if m > 1 {
      ShiftBack(i / 2, m / 2, w >> 1);
      Halves(i, m);
      ShiftStep(m - 1 - i);
      DoubleBack(Shift(i / 2), Shift(m / 2 - 1 - i / 2), w >> 1, w, i % 2 == 1);
    } else {
      NoShift();
    }
  }

  predicate ShiftsBack(d: bv32, e: bv32, w: bv32) {
    d < w && e < w && e == w - 1 - d
  }

  lemma NoShift()
    ensures ShiftsBack(0, 0, 1)
  {
  }

  lemma Halves(i: nat, m: nat)
    requires i < m && m % 2 == 0
    ensures (m - 1 - i) / 2 == m / 2 - 1 - i / 2 && (m - 1 - i) % 2 == 1 - i % 2
  {
  }

  function Twice(d: bv32, odd: bool): bv32 {
    (d << 1) | (if odd then 1 else 0)
  }

  lemma ShiftStep(i: nat)
    ensures Shift(i) == if i == 0 then 0 else Twice(Shift(i / 2), i % 2 == 1)
    ensures Shift(0) == 0 && Twice(0, false) == 0
  {
  }

  lemma DoubleBack(d: bv32, e: bv32, h: bv32, w: bv32, odd: bool)
    requires ShiftsBack(d, e, h) && h <= 16 && w == h << 1
    ensures ShiftsBack(Twice(d, odd), Twice(e, !odd), w)
  {
  }

  /** Bit i of a word. */
  predicate BitAt(n: bv32, i: nat)
    requires i < 32
  {
    ShiftBack(i, 32, 32);
    (n >> Shift(i)) & 1 == 1
  }

  /** The bits of a word, least significant first. */
  function WordBits(n: bv32): (b: seq<bool>)
    ensures |b| == 32
  {
    seq(32, i requires 0 <= i < 32 => BitAt(n, i))
  }

  /** The number a word stands for. */
  function Number(n: bv32): (x: nat) {
    ValueOf(WordBits(n))
  }

  function Backwards(b: seq<bool>): (r: seq<bool>)
    ensures |r| == |b| && forall i :: 0 <= i < |b| ==> r[i] == b[|b| - 1 - i]
  {
    seq(|b|, i requires 0 <= i < |b| => b[|b| - 1 - i])
  }

  /** The mask-and-shift steps move every bit to the opposite place. */
  lemma BitReversed(n: bv32, i: nat)
    requires i < 32
    ensures BitAt(BitReverseWord(n), i) == BitAt(n, 31 - i)
  {
    hide BitReverseWord, Shift;
    ShiftBack(i, 32, 32);
    BitReverseWordAt(n, Shift(i));
  }

  lemma WordReversed(n: bv32)
    ensures WordBits(BitReverseWord(n)) == Backwards(WordBits(n))
  {
    hide BitReverseWord, BitAt;
    var w := BitReverseWord(n);
    forall i: nat | i < 32 ensures WordBits(w)[i] == Backwards(WordBits(n))[i] {
      BitReversed(n, i);
    }
  }

  lemma ReverseBackwards(x: nat, k: nat)
    ensures BitsOf(Reverse(x, k), k) == Backwards(BitsOf(x, k))
  {
    hide Reverse, BitsOf;
    forall i: nat | i < k ensures BitsOf(Reverse(x, k), k)[i] == Backwards(BitsOf(x, k))[i] {
      ReverseAt(x, k, i);
    }
  }

  /** On every 32-bit word, the mask-and-shift steps and the reversal of numbers are the same. */
  lemma BitReverseAgrees(n: bv32)
    ensures Number(BitReverseWord(n)) == Reverse(Number(n), 32)
  {
    hide WordBits, ValueOf, BitsOf, Reverse, Pow2, BitReverseWord, Backwards;
    var x := Number(n);
    WordReversed(n);
    BitsOfValue(WordBits(n));
    ReverseBackwards(x, 32);
    ReverseBound(x, 32);
    ValueOfBits(Reverse(x, 32), 32);
  }
}
