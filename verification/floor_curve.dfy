/** Floor type 1: the set-up of its X positions, the unfolding of its amplitudes, and the curve
    drawn through them. */
module FloorCurve {
  import opened Basics

  function Abs(x: int): (y: nat) {
    if x < 0 then -x else x
  }

  function Min(a: int, b: int): (m: int) {
    if a < b then a else b
  }

  function Max(a: int, b: int): (m: int) {
    if a < b then b else a
  }

  // ---------------------------------------------------------------- points on a line

  lemma ProductNotNegative(a: int, b: int)
    requires a >= 0 && b >= 0
    ensures a * b >= 0
  {
  }

  lemma ProductMonotone(a: int, b: int, c: int)
    requires a <= b && c >= 0
    ensures a * c <= b * c
  {
  }

  lemma Quotient(a: int, d: int)
    requires a >= 0 && d > 0
    ensures a == a / d * d + a % d && 0 <= a % d < d && a / d >= 0
  {
  }

  /** A quotient and remainder determine each other. */
  lemma QuotientIs(a: int, d: int, q: int, r: int)
    requires d > 0 && a == q * d + r && 0 <= r < d
    ensures a / d == q && a % d == r
  {
    var p := a / d - q;
    assert p * d == r - a % d by { Difference(a / d, q, d); }
    if p > 0 {
      ProductMonotone(1, p, d);
    } else if p < 0 {
      ProductMonotone(p, -1, d);
    }
  }

  lemma Difference(a: int, b: int, d: int)
    ensures (a - b) * d == a * d - b * d
  {
  }

  /** The line from (x0, y0) to (x1, y1) at x, rounded towards y0. */
  function PredictPoint(x: int, x0: int, x1: int, y0: int, y1: int): (y: int)
    requires x0 < x1 && x0 <= x
  {
    var dy := y1 - y0;
    var adx := x1 - x0;
    var off := Abs(dy) * (x - x0) / adx;
    if dy < 0 then y0 - off else y0 + off
  }

  /** A prediction lies between the two ends and meets them. */
  lemma PredictBetween(x: int, x0: int, x1: int, y0: int, y1: int)
    requires x0 < x1 && x0 <= x <= x1
    ensures Min(y0, y1) <= PredictPoint(x, x0, x1, y0, y1) <= Max(y0, y1)
    ensures x == x0 ==> PredictPoint(x, x0, x1, y0, y1) == y0
    ensures x == x1 ==> PredictPoint(x, x0, x1, y0, y1) == y1
  {
    var h := Abs(y1 - y0);
    var w := x1 - x0;
    var e := h * (x - x0);
    ProductNotNegative(h, x - x0);
    ProductMonotone(x - x0, w, h);
    assert e <= h * w;
    Quotient(e, w);
    if e / w > h {
      ProductMonotone(h + 1, e / w, w);
      assert false;
    }
    if x == x0 {
      assert e == 0;
    }
    if x == x1 {
      QuotientIs(e, w, h, 0);
    }
  }

  /** The division of C, which rounds towards zero. */
  function Divide(a: int, d: int): (q: int)
    requires d > 0
  {
    if a < 0 then -((-a) / d) else a / d
  }

  /** After k steps along a rise of h over w, the line is q above its start, with err left over. */
  ghost predicate OnLine(h: nat, w: nat, k: nat, q: int, err: int) {
    w > 0 && h * k == q * w + err && 0 <= err < w
  }

  /** One step of the error accumulator carries the exact quotient along. */
  lemma LineStep(h: nat, w: nat, k: nat, q: int, err: int)
    requires OnLine(h, w, k, q, err)
    ensures if err + h % w >= w then OnLine(h, w, k + 1, q + h / w + 1, err + h % w - w)
            else OnLine(h, w, k + 1, q + h / w, err + h % w)
  {
    Quotient(h, w);
    assert h * (k + 1) == h * k + h;
    assert (q + h / w) * w == q * w + h / w * w;
    assert (q + h / w + 1) * w == q * w + h / w * w + w;
  }

  lemma LineStart(h: nat, w: nat)
    requires w > 0
    ensures OnLine(h, w, 0, 0, 0)
  {
  }

  /** Standing on the line is being where the prediction formula says. */
  lemma LineValue(x: int, x0: int, x1: int, y0: int, y1: int, q: int, err: int)
    requires x0 < x1 && x0 <= x && OnLine(Abs(y1 - y0), x1 - x0, x - x0, q, err)
    ensures PredictPoint(x, x0, x1, y0, y1) == if y1 - y0 < 0 then y0 - q else y0 + q
  {
    QuotientIs(Abs(y1 - y0) * (x - x0), x1 - x0, q, err);
  }

  lemma LineSlope(dy: int, adx: int)
    requires adx > 0
    ensures Abs(Divide(dy, adx)) == Abs(dy) / adx && Abs(dy) - Abs(Divide(dy, adx)) * adx == Abs(dy) % adx
    ensures Divide(dy, adx) == if dy < 0 then -(Abs(dy) / adx) else Abs(dy) / adx
  {
    Quotient(Abs(dy), adx);
  }

  /** A sample times a table entry. */
  function Scaled(a: real, b: real): (c: real) {
    a * b
  }

  /** Draws the line into output, from x0 up to x1 or n: every sample is scaled by the table entry
      for the point the prediction formula gives there. */
  method DrawLine(output: array<real>, table: seq<real>, x0: nat, y0: int, x1: nat, y1: int, n: nat)
    requires n <= output.Length && x0 < x1 && |table| == 256
    modifies output
    ensures forall x :: x0 <= x < x1 && x < n ==> output[x] == Scaled(old(output[x]), table[PredictPoint(x, x0, x1, y0, y1) % 256])
    ensures forall x :: 0 <= x < output.Length && !(x0 <= x < x1 && x < n) ==> output[x] == old(output[x])
  {
    hide PredictPoint, OnLine, Abs, Divide, Scaled;
    var dy := y1 - y0;
    var adx := x1 - x0;
    var ady := Abs(dy);
    var x, y, err := x0, y0, 0;
    var base := Divide(dy, adx);
    var sy := if dy < 0 then base - 1 else base + 1;
    ghost var h := ady;
    LineSlope(dy, adx);
    ady := ady - Abs(base) * adx;
    var end := if x1 > n then n else x1;
    if x < end {
      LineStart(h, adx);
      LineValue(x0, x0, x1, y0, y1, 0, 0);
      output[x] := Scaled(output[x], table[y % 256]);
      x := x + 1;
      ghost var q := 0;
      while x < end
        invariant x0 < x <= end && OnLine(h, adx, x - 1 - x0, q, err)
        invariant y == if dy < 0 then y0 - q else y0 + q
        invariant forall i :: x0 <= i < x ==> output[i] == Scaled(old(output[i]), table[PredictPoint(i, x0, x1, y0, y1) % 256])
        invariant forall i :: 0 <= i < output.Length && !(x0 <= i < x) ==> output[i] == old(output[i])
      {
        LineStep(h, adx, x - 1 - x0, q, err);
        err := err + ady;
        if err >= adx {
          err := err - adx;
          y := y + sy;
          q := q + h / adx + 1;
        } else {
          y := y + base;
          q := q + h / adx;
        }
        LineValue(x, x0, x1, y0, y1, q, err);
        output[x] := Scaled(output[x], table[y % 256]);
        x := x + 1;
      }
    }
  }

  // ---------------------------------------------------------------- amplitudes

  /** The amplitude a decoded value stands for, next to a prediction. */
  function Unfold(val: int, pred: int, range: int): (y: int) {
    var highroom := range - pred;
    var lowroom := pred;
    var room := if highroom < lowroom then highroom * 2 else lowroom * 2;
    if val == 0 then pred
    else if val >= room then
      if highroom > lowroom then val - lowroom + pred else pred - val + highroom - 1
    else if val % 2 == 1 then pred - (val + 1) / 2
    else pred + val / 2
  }

  /** The value that stands for an amplitude: differences small enough for both sides alternate,
      the rest count on. */
  function Fold(y: int, pred: int, range: int): (val: int) {
    var highroom := range - pred;
    var lowroom := pred;
    var room := if highroom < lowroom then highroom else lowroom;
    if y < pred then
      if pred - y <= room then 2 * (pred - y) - 1 else range - 1 - y
    else
      if y - pred < room then 2 * (y - pred) else if highroom > lowroom then y else range - 1 - y
  }

  /** Unfolding is a bijection of the range, with folding as its inverse. */
  lemma FoldInverse(v: int, pred: int, range: int)
    requires 0 <= pred < range && 0 <= v < range
    ensures 0 <= Unfold(v, pred, range) < range && Fold(Unfold(v, pred, range), pred, range) == v
    ensures 0 <= Fold(v, pred, range) < range && Unfold(Fold(v, pred, range), pred, range) == v
  {
    hide Fold, Unfold;
    FoldUnfold(v, pred, range);
    UnfoldFold(v, pred, range);
  }

  lemma FoldUnfold(v: int, pred: int, range: int)
    requires 0 <= pred < range && 0 <= v < range
    ensures 0 <= Unfold(v, pred, range) < range && Fold(Unfold(v, pred, range), pred, range) == v
  {
  }

  lemma UnfoldFold(y: int, pred: int, range: int)
    requires 0 <= pred < range && 0 <= y < range
    ensures 0 <= Fold(y, pred, range) < range && Unfold(Fold(y, pred, range), pred, range) == y
  {
  }

  /** Values and amplitudes are kept in an array of 16-bit elements. */
  type int16 = x: int | -0x8000 <= x < 0x8000

  /** What storing a number in such an element leaves of it. */
  function Store16(v: int): (s: int16)
    ensures (v - s) % 0x1_0000 == 0
    ensures -0x8000 <= v < 0x8000 ==> s == v
  {
    (v + 0x8000) % 0x1_0000 - 0x8000
  }

  /** The value is below the range, and if it is negative, small enough for the room on the side
      it goes to: odd values go up, even ones down. */
  predicate Suits(val: int, pred: int, range: int) {
    val < range && (val < -1 ==> if val % 2 == 1 then -val - 1 < 2 * (range - pred) else -val <= 2 * pred)
  }

  /** Next to a prediction in range, a value gives an amplitude in range exactly when it suits. */
  lemma UnfoldInRange(val: int, pred: int, range: int)
    requires 0 <= pred < range
    ensures 0 <= Unfold(val, pred, range) < range <==> Suits(val, pred, range)
  {
  }

  /** Next to every prediction, the values from -1 up to the range suit, and no others. */
  lemma SuitsAlways(val: int, range: int)
    requires range > 0
    ensures -1 <= val < range <==> forall pred :: 0 <= pred < range ==> Suits(val, pred, range)
  {
    if !(-1 <= val < range) {
      assert !Suits(val, 0, range) || !Suits(val, range - 1, range);
    }
  }

  /** A decoded symbol is safe after its store exactly when its low 16 bits are below the range, or
      all ones, which stands for -1. */
  lemma SafeSymbol(v: int, range: int)
    requires 0 < range <= 0x8000
    ensures -1 <= Store16(v) < range <==> v % 0x1_0000 < range || v % 0x1_0000 == 0xFFFF
  {
  }

  /** Symbol 65536 is not below any range, and is stored as 0: the amplitude is the prediction. */
  lemma Symbol65536(pred: int, range: int)
    requires 0 <= pred < range <= 256
    ensures 65536 >= range && Store16(65536) == 0 && Unfold(Store16(65536), pred, range) == pred
  {
  }

  /** Symbol 40000 is stored as a negative value, which is below the range; the amplitude is negative
      next to every prediction. */
  lemma Symbol40000(pred: int, range: int)
    requires 0 <= pred < range <= 256
    ensures Store16(40000) == -25536 < range && Unfold(Store16(40000), pred, range) < 0
  {
  }

  /** An amplitude next to a prediction in range is stored as it is. */
  lemma UnfoldStores(val: int16, pred: int, range: int)
    requires 0 <= pred < range <= 256
    ensures Store16(Unfold(val, pred, range)) == Unfold(val, pred, range)
  {
  }

  // ---------------------------------------------------------------- X positions

  /** The X positions of a floor as its header gives them: the two ends, then points between. */
  predicate Positions(xs: seq<nat>) {
    && 2 <= |xs| && xs[0] == 0 && xs[1] <= 0x8000
    && forall j :: 2 <= j < |xs| ==> xs[j] < xs[1]
  }

  predicate Distinct(xs: seq<nat>) {
    forall i, j :: 0 <= i < j < |xs| ==> xs[i] != xs[j]
  }

  /** low and high are the nearest of the first n positions on either side of position n. */
  predicate Nearest(xs: seq<nat>, n: nat, low: nat, high: nat)
    requires n < |xs|
  {
    && low < n && high < n && xs[low] < xs[n] < xs[high]
    && forall i :: 0 <= i < n ==> xs[i] <= xs[low] || xs[i] == xs[n] || xs[i] >= xs[high]
  }

  method Neighbors(xs: seq<nat>, n: nat) returns (low: nat, high: nat)
    requires Positions(xs) && Distinct(xs) && 2 <= n < |xs|
    ensures Nearest(xs, n, low, high)
  {
    var lowX: int, highX: int := -1, 65536;
    low, high := 0, 0;
    var i := 0;
    while i < n
      invariant 0 <= i <= n
      invariant lowX == -1 <==> i == 0
      invariant i > 0 ==> low < i && lowX == xs[low] < xs[n]
      invariant highX == 65536 || (high < i && highX == xs[high] > xs[n])
      invariant i > 1 ==> highX != 65536
      invariant forall k :: 0 <= k < i && xs[k] < xs[n] ==> xs[k] <= lowX
      invariant forall k :: 0 <= k < i && xs[k] > xs[n] ==> xs[k] >= highX
    {
      assert i == 0 ==> xs[i] < xs[n];
      assert i == 1 ==> xs[i] > xs[n];
      if xs[i] > lowX && xs[i] < xs[n] {
        low := i;
        lowX := xs[i];
      }
      if xs[i] < highX && xs[i] > xs[n] {
        high := i;
        highX := xs[i];
      }
      i := i + 1;
    }
  }

  /** The C library's sort of the positions, as the order it leaves their indices in. */
  function InsertPoint(xs: seq<nat>, j: nat, order: seq<nat>): (r: seq<nat>)
    requires j < |xs| && forall k :: 0 <= k < |order| ==> order[k] < |xs|
    ensures |r| == |order| + 1
    ensures forall k :: 0 <= k < |r| ==> r[k] < |xs|
  {
    if |order| == 0 || xs[j] <= xs[order[0]] then [j] + order else [order[0]] + InsertPoint(xs, j, order[1..])
  }

  function SortPoints(xs: seq<nat>, m: nat): (r: seq<nat>)
    requires m <= |xs|
    ensures |r| == m
    ensures forall k :: 0 <= k < |r| ==> r[k] < |xs|
  {
    if m == 0 then [] else InsertPoint(xs, m - 1, SortPoints(xs, m - 1))
  }

  predicate Ascending(xs: seq<nat>, order: seq<nat>)
    requires forall k :: 0 <= k < |order| ==> order[k] < |xs|
  {
    forall i, j :: 0 <= i < j < |order| ==> xs[order[i]] <= xs[order[j]]
  }

  lemma {:induction false} InsertMembers(xs: seq<nat>, j: nat, order: seq<nat>)
    requires j < |xs| && forall k :: 0 <= k < |order| ==> order[k] < |xs|
    ensures multiset(InsertPoint(xs, j, order)) == multiset(order) + multiset{j}
  {
    if |order| == 0 || xs[j] <= xs[order[0]] {
    } else {
      InsertMembers(xs, j, order[1..]);
      assert order == [order[0]] + order[1..];
    }
  }

  lemma InsertMember(xs: seq<nat>, j: nat, order: seq<nat>, k: nat)
    requires j < |xs| && (forall k :: 0 <= k < |order| ==> order[k] < |xs|) && k < |InsertPoint(xs, j, order)|
    ensures InsertPoint(xs, j, order)[k] == j || InsertPoint(xs, j, order)[k] in order
  {
    InsertMembers(xs, j, order);
    assert InsertPoint(xs, j, order)[k] in multiset(InsertPoint(xs, j, order));
  }

  lemma {:induction false} InsertAscending(xs: seq<nat>, j: nat, order: seq<nat>)
    requires j < |xs| && (forall k :: 0 <= k < |order| ==> order[k] < |xs|) && Ascending(xs, order)
    ensures Ascending(xs, InsertPoint(xs, j, order))
  {
    if |order| == 0 || xs[j] <= xs[order[0]] {
    } else {
      var rest := order[1..];
      InsertAscending(xs, j, rest);
      var r := InsertPoint(xs, j, rest);
      assert InsertPoint(xs, j, order) == [order[0]] + r;
      forall k | 0 <= k < |r| ensures xs[order[0]] <= xs[r[k]] {
        InsertMember(xs, j, rest, k);
      }
    }
  }

  function UpTo(m: nat): (r: seq<nat>) {
    if m == 0 then [] else UpTo(m - 1) + [m - 1]
  }

  lemma {:induction false} CountUpTo(m: nat, k: nat)
    ensures multiset(UpTo(m))[k] == if k < m then 1 else 0
  {
    if m > 0 {
      CountUpTo(m - 1, k);
    }
  }

  lemma UpToMembers(m: nat)
    ensures multiset(UpTo(m + 1)) == multiset(UpTo(m)) + multiset{m}
  {
    assert UpTo(m + 1) == UpTo(m) + [m];
  }

  lemma {:induction false} SortMembers(xs: seq<nat>, m: nat)
    requires m <= |xs|
    ensures multiset(SortPoints(xs, m)) == multiset(UpTo(m))
  {
    hide InsertPoint, UpTo;
    if m == 0 {
      assert UpTo(0) == [] by { EmptyUpTo(); }
    } else {
      SortMembers(xs, m - 1);
      UpToMembers(m - 1);
      InsertMembers(xs, m - 1, SortPoints(xs, m - 1));
    }
  }

  lemma EmptyUpTo()
    ensures UpTo(0) == []
  {
  }

  lemma {:induction false} SortAscending(xs: seq<nat>, m: nat)
    requires m <= |xs|
    ensures Ascending(xs, SortPoints(xs, m))
  {
    hide InsertPoint;
    if m > 0 {
      SortAscending(xs, m - 1);
      InsertAscending(xs, m - 1, SortPoints(xs, m - 1));
    }
  }

  /** No index is listed twice. */
  lemma SortOnce(xs: seq<nat>, i: nat, j: nat)
    requires i < j < |xs|
    ensures SortPoints(xs, |xs|)[i] != SortPoints(xs, |xs|)[j]
  {
    hide SortPoints, UpTo;
    var r := SortPoints(xs, |xs|);
    if r[i] == r[j] {
      SortMembers(xs, |xs|);
      CountUpTo(|xs|, r[i]);
      TwiceCounted(r, i, j);
    }
  }

  lemma TwiceCounted(r: seq<nat>, i: nat, j: nat)
    requires i < j < |r| && r[i] == r[j]
    ensures multiset(r)[r[i]] >= 2
  {
    assert r == r[..j] + r[j..];
    assert r[i] in r[..j] && r[j] in r[j..];
  }

  /** Every index is listed. */
  lemma SortFinds(xs: seq<nat>, k: nat) returns (i: nat)
    requires k < |xs|
    ensures i < |xs| && SortPoints(xs, |xs|)[i] == k
  {
    var r := SortPoints(xs, |xs|);
    SortMembers(xs, |xs|);
    CountUpTo(|xs|, k);
    assert k in multiset(r);
    i :| 0 <= i < |r| && r[i] == k;
  }

  predicate StrictlyAscending(xs: seq<nat>, order: seq<nat>)
    requires forall k :: 0 <= k < |order| ==> order[k] < |xs|
  {
    forall i, j :: 0 <= i < j < |order| ==> xs[order[i]] < xs[order[j]]
  }

  /** Sorted neighbours differ exactly when all positions differ. */
  lemma SortDistinct(xs: seq<nat>)
    ensures Distinct(xs) <==> StrictlyAscending(xs, SortPoints(xs, |xs|))
  {
    var r := SortPoints(xs, |xs|);
    SortAscending(xs, |xs|);
    if Distinct(xs) {
      forall i, j | 0 <= i < j < |r| ensures xs[r[i]] < xs[r[j]] {
        SortOnce(xs, i, j);
        assert xs[if r[i] < r[j] then r[i] else r[j]] != xs[if r[i] < r[j] then r[j] else r[i]];
      }
    }
    if StrictlyAscending(xs, r) {
      forall i, j | 0 <= i < j < |xs| ensures xs[i] != xs[j] {
        var a := SortFinds(xs, i);
        var b := SortFinds(xs, j);
        assert a != b;
        assert xs[r[if a < b then a else b]] < xs[r[if a < b then b else a]];
      }
    }
  }

  // ---------------------------------------------------------------- one floor's configuration

  datatype Floor = Floor(xs: seq<nat>, order: seq<nat>, low: seq<nat>, high: seq<nat>, multiplier: nat)

  predicate Ready(g: Floor) {
    && Positions(g.xs) && Distinct(g.xs) && |g.low| == |g.high| == |g.xs|
    && (forall j :: 2 <= j < |g.xs| ==> Nearest(g.xs, j, g.low[j], g.high[j]))
    && g.order == SortPoints(g.xs, |g.xs|)
    && 1 <= g.multiplier <= 4
  }

  /** Whether no two neighbours of a sorted list coincide. */
  method NoneCoincide(xs: seq<nat>, p: seq<nat>) returns (ok: bool)
    requires |p| > 0 && (forall k :: 0 <= k < |p| ==> p[k] < |xs|) && Ascending(xs, p)
    ensures ok <==> StrictlyAscending(xs, p)
  {
    var j := 0;
    while j < |p| - 1
      invariant 0 <= j <= |p| - 1
      invariant StrictlyAscending(xs, p[..j + 1])
    {
      if xs[p[j]] == xs[p[j + 1]] {
        return false;
      }
      j := j + 1;
    }
    assert p[..|p|] == p;
    ok := true;
  }

  /** A floor is accepted exactly when no two of its positions coincide. */
  method SetupFloor(xs: seq<nat>, multiplier: nat) returns (r: Option<Floor>)
    requires Positions(xs) && 1 <= multiplier <= 4
    ensures r.Some? <==> Distinct(xs)
    ensures r.Some? ==> Ready(r.value) && r.value.xs == xs && r.value.multiplier == multiplier
  {
    hide SortPoints, Ascending, StrictlyAscending, Distinct;
    var p := SortPoints(xs, |xs|);
    SortDistinct(xs);
    SortAscending(xs, |xs|);
    var ok := NoneCoincide(xs, p);
    if !ok {
      return None;
    }
    var low, high := [0, 0], [0, 0];
    var j := 2;
    while j < |xs|
      invariant 2 <= j <= |xs| && |low| == |high| == j
      invariant forall k :: 2 <= k < j ==> Nearest(xs, k, low[k], high[k])
    {
      var l, h := Neighbors(xs, j);
      low, high := low + [l], high + [h];
      j := j + 1;
    }
    r := Some(Floor(xs, p, low, high, multiplier));
  }

  function RangeOf(multiplier: nat): (range: nat)
    requires 1 <= multiplier <= 4
  {
    if multiplier == 1 then 256 else if multiplier == 2 then 128 else if multiplier == 3 then 86 else 64
  }

  /** The range is the least one whose scaled amplitudes reach all 256 heights. */
  lemma RangeLeast(multiplier: nat)
    requires 1 <= multiplier <= 4
    ensures (RangeOf(multiplier) - 1) * multiplier < 256 <= RangeOf(multiplier) * multiplier
  {
  }

  // ---------------------------------------------------------------- unfolding a whole floor

  /** The amplitudes of the first m points: the two ends as they are, every other point next to
      the line between its nearest neighbours. */
  function Amplitudes(g: Floor, vals: seq<int16>, m: nat): (ys: seq<int16>)
    requires Ready(g) && |vals| == |g.xs| && m <= |vals|
    ensures |ys| == m
  {
    if m <= 2 then vals[..m]
    else
      var ys := Amplitudes(g, vals, m - 1);
      ys + [Store16(Unfold(vals[m - 1], Prediction(g, ys, m - 1), RangeOf(g.multiplier)))]
  }

  function Prediction(g: Floor, ys: seq<int>, j: nat): (pred: int)
    requires Ready(g) && 2 <= j < |g.xs| && |ys| >= j
  {
    assert Nearest(g.xs, j, g.low[j], g.high[j]);
    PredictPoint(g.xs[j], g.xs[g.low[j]], g.xs[g.high[j]], ys[g.low[j]], ys[g.high[j]])
  }

  predicate AllInRange(ys: seq<int>, range: int) {
    forall j :: 0 <= j < |ys| ==> 0 <= ys[j] < range
  }

  lemma PredictionInRange(g: Floor, ys: seq<int>, j: nat, range: int)
    requires Ready(g) && 2 <= j < |g.xs| && |ys| == j && AllInRange(ys, range)
    ensures 0 <= Prediction(g, ys, j) < range
  {
    assert Nearest(g.xs, j, g.low[j], g.high[j]);
    PredictBetween(g.xs[j], g.xs[g.low[j]], g.xs[g.high[j]], ys[g.low[j]], ys[g.high[j]]);
  }

  /** The bit stream delivers the two end points with limited width. */
  predicate EndsInRange(vals: seq<int>, range: int) {
    |vals| >= 2 && 0 <= vals[0] < range && 0 <= vals[1] < range
  }

  /** The value of point j suits the prediction made for it. */
  predicate SuitsAt(g: Floor, vals: seq<int16>, j: nat)
    requires Ready(g) && |vals| == |g.xs| && 2 <= j < |vals|
  {
    Suits(vals[j], Prediction(g, Amplitudes(g, vals, j), j), RangeOf(g.multiplier))
  }

  /** Every amplitude is in range exactly when every stored value suits its prediction. */
  lemma {:induction false} AmplitudesInRange(g: Floor, vals: seq<int16>, m: nat)
    requires Ready(g) && |vals| == |g.xs| && 2 <= m <= |vals| && EndsInRange(vals, RangeOf(g.multiplier))
    ensures AllInRange(Amplitudes(g, vals, m), RangeOf(g.multiplier)) <==> forall j :: 2 <= j < m ==> SuitsAt(g, vals, j)
  {
    hide Prediction, Unfold, Store16, Suits;
    if m > 2 {
      var range := RangeOf(g.multiplier);
      AmplitudesInRange(g, vals, m - 1);
      var ys := Amplitudes(g, vals, m - 1);
      var pred := Prediction(g, ys, m - 1);
      if AllInRange(ys, range) {
        PredictionInRange(g, ys, m - 1, range);
        UnfoldInRange(vals[m - 1], pred, range);
        UnfoldStores(vals[m - 1], pred, range);
      }
      InRangeAppend(ys, Store16(Unfold(vals[m - 1], pred, range)), range);
      assert SuitsAt(g, vals, m - 1) == Suits(vals[m - 1], pred, range);
      assert Amplitudes(g, vals, m) == ys + [Store16(Unfold(vals[m - 1], pred, range))];
    } else {
      assert Amplitudes(g, vals, m) == vals[..2];
    }
  }

  /** The decoded numbers as the array keeps them. */
  function Stored(decoded: seq<int>): (vals: seq<int16>)
    ensures |vals| == |decoded|
  {
    seq(|decoded|, j requires 0 <= j < |decoded| => Store16(decoded[j]))
  }

  /** A floor decoded with these symbols: end points in range, and for every other point one of
      the symbols, or 0 where the point has no codebook. */
  predicate FromSymbols(g: Floor, decoded: seq<int>, symbols: set<int>)
    requires 1 <= g.multiplier <= 4
  {
    && |decoded| == |g.xs| && EndsInRange(decoded, RangeOf(g.multiplier))
    && forall j :: 2 <= j < |decoded| ==> decoded[j] == 0 || decoded[j] in symbols
  }

  /** Stored values from -1 up to the range keep all amplitudes in range. */
  lemma SafeInRange(g: Floor, vals: seq<int16>)
    requires Ready(g) && |vals| == |g.xs| && EndsInRange(vals, RangeOf(g.multiplier))
    requires forall j :: 2 <= j < |vals| ==> -1 <= vals[j] < RangeOf(g.multiplier)
    ensures AllInRange(Amplitudes(g, vals, |vals|), RangeOf(g.multiplier))
  {
    hide Prediction, Amplitudes, RangeOf;
    AmplitudesInRange(g, vals, |vals|);
  }

  /** Whatever is decoded from these symbols, all amplitudes are in range: exactly when every
      symbol is stored as a value from -1 up to the range. */
  lemma SafeSymbols(g: Floor, symbols: set<int>)
    requires Ready(g) && |g.xs| > 2
    ensures (forall v :: v in symbols ==> -1 <= Store16(v) < RangeOf(g.multiplier)) <==>
      (forall decoded :: FromSymbols(g, decoded, symbols) ==>
         AllInRange(Amplitudes(g, Stored(decoded), |g.xs|), RangeOf(g.multiplier)))
  {
    hide Ready, Amplitudes, RangeOf, Store16, AllInRange;
    RangeBound(g);
    var range := RangeOf(g.multiplier);
    if forall v :: v in symbols ==> -1 <= Store16(v) < range {
      forall decoded | FromSymbols(g, decoded, symbols) ensures AllInRange(Amplitudes(g, Stored(decoded), |g.xs|), range) {
        SafeInRange(g, Stored(decoded));
      }
    } else {
      var v :| v in symbols && !(-1 <= Store16(v) < range);
      var decoded := Unsafe(g, v);
      assert FromSymbols(g, decoded, symbols);
    }
  }

  /** A floor with symbol v at its third point, between ends that leave v no room. */
  lemma Unsafe(g: Floor, v: int) returns (decoded: seq<int>)
    requires Ready(g) && |g.xs| > 2 && !(-1 <= Store16(v) < RangeOf(g.multiplier))
    ensures FromSymbols(g, decoded, {v}) && !AllInRange(Amplitudes(g, Stored(decoded), |g.xs|), RangeOf(g.multiplier))
  {
    hide Store16, Suits, Prediction, SortPoints, AllInRange, Positions, Distinct, Amplitudes, Nearest;
    RangeBound(g);
    var range := RangeOf(g.multiplier);
    SuitsAlways(Store16(v), range);
    var pred :| 0 <= pred < range && !Suits(Store16(v), pred, range);
    decoded := seq(|g.xs|, j requires 0 <= j < |g.xs| => if j < 2 then pred else v);
    var vals := Stored(decoded);
    assert vals[0] == vals[1] == pred && vals[2] == Store16(v);
    AmplitudesInRange(g, vals, |vals|);
    LevelPrediction(g, vals, pred);
    assert !SuitsAt(g, vals, 2);
  }

  /** Between ends of the same height the third point is predicted at it. */
  lemma LevelPrediction(g: Floor, vals: seq<int16>, pred: int)
    requires Ready(g) && |vals| == |g.xs| > 2 && vals[0] == vals[1] == pred
    ensures Prediction(g, Amplitudes(g, vals, 2), 2) == pred
  {
    hide SortPoints, PredictPoint;
    var ys := Amplitudes(g, vals, 2);
    assert ys[0] == ys[1] == pred;
    assert Nearest(g.xs, 2, g.low[2], g.high[2]);
    PredictBetween(g.xs[2], g.xs[g.low[2]], g.xs[g.high[2]], ys[g.low[2]], ys[g.high[2]]);
  }

  lemma InRangeAppend(ys: seq<int>, y: int, range: int)
    ensures AllInRange(ys + [y], range) <==> AllInRange(ys, range) && 0 <= y < range
  {
    if AllInRange(ys + [y], range) {
      assert (ys + [y])[|ys|] == y;
      forall j | 0 <= j < |ys| ensures 0 <= ys[j] < range {
        assert (ys + [y])[j] == ys[j];
      }
    }
  }

  /** Point k is drawn: an end, a point with a value, or a neighbour of one. */
  ghost predicate Drawn(g: Floor, vals: seq<int>, m: nat, k: nat)
    requires Ready(g) && |vals| == |g.xs| && m <= |vals|
  {
    k < 2 || (k < m && vals[k] != 0) || exists j :: 2 <= j < m && NeighborOf(g, vals, j, k)
  }

  predicate NeighborOf(g: Floor, vals: seq<int>, j: nat, k: nat)
    requires |g.low| == |g.high| == |vals| && j < |vals|
  {
    vals[j] != 0 && (g.low[j] == k || g.high[j] == k)
  }

  lemma DrawnMore(g: Floor, vals: seq<int>, m: nat, k: nat)
    requires Ready(g) && |vals| == |g.xs| && 2 <= m < |vals|
    ensures Drawn(g, vals, m + 1, k) <==> Drawn(g, vals, m, k) || (vals[m] != 0 && (k == m || g.low[m] == k || g.high[m] == k))
  {
    if NeighborOf(g, vals, m, k) {
      assert Drawn(g, vals, m + 1, k);
    }
    if exists j :: 2 <= j < m + 1 && NeighborOf(g, vals, j, k) {
      var j :| 2 <= j < m + 1 && NeighborOf(g, vals, j, k);
      assert j == m || Drawn(g, vals, m, k);
    }
    if exists j :: 2 <= j < m && NeighborOf(g, vals, j, k) {
      var j :| 2 <= j < m && NeighborOf(g, vals, j, k);
      assert 2 <= j < m + 1;
    }
  }

  /** The marks after the first m points. */
  ghost predicate Marked(g: Floor, vals: seq<int>, m: nat, flags: seq<bool>)
    requires Ready(g) && |vals| == |g.xs| && m <= |vals|
  {
    |flags| == m && forall k: nat :: k < m ==> (flags[k] <==> Drawn(g, vals, m, k))
  }

  lemma MarkedMore(g: Floor, vals: seq<int>, j: nat, flags: seq<bool>)
    requires Ready(g) && |vals| == |g.xs| && 2 <= j < |vals| && Marked(g, vals, j, flags)
    ensures g.low[j] < j && g.high[j] < j
    ensures Marked(g, vals, j + 1, if vals[j] != 0 then flags[g.low[j] := true][g.high[j] := true] + [true] else flags + [false])
  {
    hide Drawn, Positions, Distinct, SortPoints;
    assert Nearest(g.xs, j, g.low[j], g.high[j]);
    DrawnSelf(g, vals, j);
    var more := if vals[j] != 0 then flags[g.low[j] := true][g.high[j] := true] + [true] else flags + [false];
    forall k: nat | k < j + 1 ensures more[k] <==> Drawn(g, vals, j + 1, k) {
      DrawnMore(g, vals, j, k);
      assert k < j ==> (flags[k] <==> Drawn(g, vals, j, k));
    }
  }

  /** Stores what was decoded, point by point. */
  method StoreDecoded(decoded: seq<int>, finalY: array<int16>)
    requires finalY.Length == |decoded|
    modifies finalY
    ensures finalY[..] == Stored(decoded)
  {
    hide Store16;
    var offset := 0;
    while offset < |decoded|
      invariant 0 <= offset <= |decoded|
      invariant forall k :: 0 <= k < offset ==> finalY[k] == Store16(decoded[k])
    {
      finalY[offset] := Store16(decoded[offset]);
      offset := offset + 1;
    }
  }

  /** Replaces the stored values by amplitudes, point by point, and marks the points to draw. */
  method UnfoldFloor(g: Floor, finalY: array<int16>) returns (step2Flag: seq<bool>)
    requires Ready(g) && finalY.Length == |g.xs|
    modifies finalY
    ensures finalY[..] == Amplitudes(g, old(finalY[..]), |g.xs|)
    ensures Marked(g, old(finalY[..]), |g.xs|, step2Flag)
  {
    hide Ready, Drawn, Marked, Amplitudes;
    ghost var vals := finalY[..];
    TwoPoints(g, vals);
    step2Flag := [true, true];
    DrawnFirst(g, vals);
    var j := 2;
    while j < |g.xs|
      invariant 2 <= j <= |g.xs|
      invariant finalY[..j] == Amplitudes(g, vals, j) && finalY[j..] == vals[j..]
      invariant Marked(g, vals, j, step2Flag)
    {
      step2Flag := UnfoldPoint(g, finalY, j, step2Flag, vals);
      j := j + 1;
    }
    assert finalY[..j] == finalY[..];
  }

  lemma TwoPoints(g: Floor, vals: seq<int16>)
    requires Ready(g) && |vals| == |g.xs|
    ensures |vals| >= 2 && Amplitudes(g, vals, 2) == vals[..2]
  {
  }

  /** One point: its value becomes its amplitude, and a value other than zero marks it and its neighbours. */
  method UnfoldPoint(g: Floor, finalY: array<int16>, j: nat, flags: seq<bool>, ghost vals: seq<int16>) returns (step2Flag: seq<bool>)
    requires Ready(g) && finalY.Length == |g.xs| == |vals| && 2 <= j < |g.xs|
    requires finalY[..j] == Amplitudes(g, vals, j) && finalY[j..] == vals[j..] && Marked(g, vals, j, flags)
    modifies finalY
    ensures finalY[..j + 1] == Amplitudes(g, vals, j + 1) && finalY[j + 1..] == vals[j + 1..]
    ensures Marked(g, vals, j + 1, step2Flag)
  {
    hide Unfold, PredictPoint, SortPoints, Drawn, Marked, Distinct, RangeOf, Positions, Store16;
    assert Nearest(g.xs, j, g.low[j], g.high[j]);
    MarkedMore(g, vals, j, flags);
    MarkedLength(g, vals, j, flags);
    var low, high := g.low[j], g.high[j];
    assert finalY[low] == finalY[..j][low] && finalY[high] == finalY[..j][high];
    var pred := PredictPoint(g.xs[j], g.xs[low], g.xs[high], finalY[low], finalY[high]);
    var val := finalY[j];
    assert val == finalY[j..][0] == vals[j];
    UnfoldZero(pred, RangeOf(g.multiplier));
    if val != 0 {
      step2Flag := flags[low := true][high := true] + [true];
      finalY[j] := Store16(Unfold(val, pred, RangeOf(g.multiplier)));
    } else {
      step2Flag := flags + [false];
      finalY[j] := Store16(pred);
    }
    assert finalY[..j + 1] == Amplitudes(g, vals, j) + [finalY[j]];
    assert finalY[j + 1..] == vals[j..][1..];
  }

  lemma MarkedLength(g: Floor, vals: seq<int>, m: nat, flags: seq<bool>)
    requires Ready(g) && |vals| == |g.xs| && m <= |vals| && Marked(g, vals, m, flags)
    ensures |flags| == m
  {
  }

  /** A value of zero leaves the prediction as it is. */
  lemma UnfoldZero(pred: int, range: int)
    ensures Unfold(0, pred, range) == pred
  {
  }

  lemma DrawnFirst(g: Floor, vals: seq<int>)
    requires Ready(g) && |vals| == |g.xs|
    ensures Marked(g, vals, 2, [true, true])
  {
  }

  lemma DrawnSelf(g: Floor, vals: seq<int>, j: nat)
    requires Ready(g) && |vals| == |g.xs| && 2 <= j < |vals|
    ensures !Drawn(g, vals, j, j)
  {
    assert forall i :: 2 <= i < j ==> Nearest(g.xs, i, g.low[i], g.high[i]);
  }

  // ---------------------------------------------------------------- the curve

  datatype Point = Point(x: nat, y: int)

  /** The points drawn, by position: the left end, then every point of the order that is not
      marked as unused, scaled by the multiplier. */
  function Points(g: Floor, ys: seq<int>, q: nat): (ps: seq<Point>)
    requires Ready(g) && |ys| == |g.xs| && 1 <= q <= |g.xs|
    ensures |ps| >= 1
  {
    if q == 1 then [Point(0, ys[0] * g.multiplier)]
    else
      var j := g.order[q - 1];
      Points(g, ys, q - 1) + if ys[j] >= 0 then [Point(g.xs[j], ys[j] * g.multiplier)] else []
  }

  /** The curve through the points at x: the line between the two points around x, or the last
      point's height behind it. */
  function Curve(ps: seq<Point>, x: nat): (y: int)
    requires |ps| >= 1 && ps[0].x <= x && Increasing(ps)
  {
    var last := ps[|ps| - 1];
    if |ps| == 1 || x >= last.x then last.y
    else
      var before := ps[|ps| - 2];
      if x >= before.x then PredictPoint(x, before.x, last.x, before.y, last.y)
      else Curve(ps[..|ps| - 1], x)
  }

  predicate Increasing(ps: seq<Point>) {
    forall i, j :: 0 <= i < j < |ps| ==> ps[i].x < ps[j].x
  }

  predicate HeightsFit(ps: seq<Point>) {
    forall i :: 0 <= i < |ps| ==> 0 <= ps[i].y < 256
  }

  /** Between points that fit the table, the whole curve fits it. */
  lemma {:induction false} CurveFits(ps: seq<Point>, x: nat)
    requires |ps| >= 1 && ps[0].x <= x && Increasing(ps) && HeightsFit(ps)
    ensures 0 <= Curve(ps, x) < 256
  {
    var n := |ps|;
    if n > 1 && x < ps[n - 1].x {
      if x >= ps[n - 2].x {
        PredictBetween(x, ps[n - 2].x, ps[n - 1].x, ps[n - 2].y, ps[n - 1].y);
      } else {
        CurveFits(ps[..n - 1], x);
      }
    }
  }

  /** One more point behind the last changes the curve only from the last point on. */
  lemma CurveMore(ps: seq<Point>, p: Point, x: nat)
    requires |ps| >= 1 && ps[0].x <= x && Increasing(ps) && Increasing(ps + [p])
    ensures x < ps[|ps| - 1].x ==> Curve(ps + [p], x) == Curve(ps, x)
    ensures ps[|ps| - 1].x <= x < p.x ==>
      Curve(ps + [p], x) == PredictPoint(x, ps[|ps| - 1].x, p.x, ps[|ps| - 1].y, p.y)
  {
    var n := |ps|;
    assert (ps + [p])[..n] == ps;
  }

  /** What the first q points of the order give: increasing positions, at most the q-th's, from 0 on. */
  lemma {:induction false} PointsIncrease(g: Floor, ys: seq<int>, q: nat)
    requires Ready(g) && |ys| == |g.xs| && 1 <= q <= |g.xs|
    ensures Increasing(Points(g, ys, q)) && Points(g, ys, q)[0].x == 0
    ensures Points(g, ys, q)[|Points(g, ys, q)| - 1].x <= g.xs[g.order[q - 1]]
    ensures q < |g.xs| ==> forall i :: 0 <= i < |Points(g, ys, q)| ==> Points(g, ys, q)[i].x < g.xs[g.order[q]]
  {
    hide SortPoints, Nearest, Distinct;
    OrderStrict(g);
    if q > 1 {
      PointsIncrease(g, ys, q - 1);
    }
  }

  /** The order of a floor is strictly ascending and starts at position 0. */
  lemma OrderStrict(g: Floor)
    requires Ready(g)
    ensures |g.order| == |g.xs| && StrictlyAscending(g.xs, g.order)
    ensures g.xs[g.order[0]] == 0 && g.order[0] == 0
  {
    hide SortPoints, Nearest;
    SortDistinct(g.xs);
    var i := SortFinds(g.xs, 0);
    FirstSmallest(g.xs, g.order, i);
  }

  lemma FirstSmallest(xs: seq<nat>, order: seq<nat>, i: nat)
    requires (forall k :: 0 <= k < |order| ==> order[k] < |xs|) && StrictlyAscending(xs, order) && i < |order|
    ensures i == 0 || xs[order[0]] < xs[order[i]]
  {
  }

  /** Amplitudes in range, or marked as unused. */
  predicate Usable(ys: seq<int>, range: int) {
    |ys| > 0 && ys[0] >= 0 && forall j :: 0 <= j < |ys| ==> -1 <= ys[j] < range
  }

  /** Scaled amplitudes fit the table of 256 heights. */
  lemma {:induction false} PointsFit(g: Floor, ys: seq<int>, q: nat)
    requires Ready(g) && |ys| == |g.xs| && 1 <= q <= |g.xs| && Usable(ys, RangeOf(g.multiplier))
    ensures HeightsFit(Points(g, ys, q))
  {
    hide SortPoints, Nearest, Distinct, Positions;
    if q > 1 {
      PointsFit(g, ys, q - 1);
      ScaledFits(g.multiplier, ys[g.order[q - 1]]);
    } else {
      ScaledFits(g.multiplier, ys[0]);
    }
  }

  lemma ScaledFits(multiplier: nat, y: int)
    requires 1 <= multiplier <= 4 && y < RangeOf(multiplier)
    ensures y * multiplier < 256 && (y >= 0 ==> y * multiplier >= 0)
  {
  }

  /** Draws the curve: every sample up to n2 is scaled by the table entry for the curve's height
      there, and every height is inside the table. */
  method DoFloor(g: Floor, finalY: array<int16>, output: array<real>, n2: nat, table: seq<real>)
    requires Ready(g) && finalY.Length == |g.xs| && Usable(finalY[..], RangeOf(g.multiplier))
    requires n2 <= output.Length && |table| == 256
    modifies output
    ensures var ps := Points(g, finalY[..], |g.xs|);
      Increasing(ps) && ps[0].x == 0 && HeightsFit(ps)
      && (forall x: nat :: x < n2 ==> 0 <= Curve(ps, x) < 256 && output[x] == Scaled(old(output[x]), table[Curve(ps, x)]))
      && (forall x :: n2 <= x < output.Length ==> output[x] == old(output[x]))
  {
    hide SortPoints, Nearest, Distinct, Positions, PredictPoint, Scaled, Curve, RangeOf, Points;
    ghost var ys := finalY[..];
    OrderStrict(g);
    PointsStart(g, ys);
    var lx: nat, ly: int := 0, finalY[0] * g.multiplier;
    var q := 1;
    while q < |g.xs|
      invariant 1 <= q <= |g.xs| && finalY[..] == ys
      invariant DrawnTo(g, ys, q, Point(lx, ly), n2, table, old(output[..]), output[..])
    {
      PointsStep(g, ys, q);
      var j := g.order[q];
      if finalY[j] >= 0 {
        var hy := finalY[j] * g.multiplier;
        var hx := g.xs[j];
        assert lx != hx;
        ghost var before := output[..];
        DrawLine(output, table, lx, ly, hx, hy, n2);
        DrawnMoreCurve(g, ys, q, Point(lx, ly), Point(hx, hy), n2, table, old(output[..]), before, output[..]);
        lx, ly := hx, hy;
      }
      q := q + 1;
    }
    PointsFit(g, ys, q);
    PointsIncrease(g, ys, q);
    ghost var middle := output[..];
    var j := lx;
    while j < n2
      invariant lx <= j && (j <= n2 || j == lx)
      invariant forall x :: lx <= x < j && x < n2 ==> output[x] == Scaled(middle[x], table[ly])
      invariant forall x :: 0 <= x < output.Length && !(lx <= x < j && x < n2) ==> output[x] == middle[x]
      invariant 0 <= ly < 256
    {
      output[j] := Scaled(output[j], table[ly]);
      j := j + 1;
    }
    forall x: nat | x < n2
      ensures 0 <= Curve(Points(g, ys, q), x) < 256 && output[x] == Scaled(old(output[x]), table[Curve(Points(g, ys, q), x)])
    {
      CurveFits(Points(g, ys, q), x);
      CurveBehind(Points(g, ys, q), x);
    }
  }

  lemma CurveBehind(ps: seq<Point>, x: nat)
    requires |ps| >= 1 && ps[0].x <= x && Increasing(ps)
    ensures x >= ps[|ps| - 1].x ==> Curve(ps, x) == ps[|ps| - 1].y
  {
  }

  /** Samples before the last point drawn follow the curve; the rest is untouched. */
  ghost predicate DrawnTo(g: Floor, ys: seq<int>, q: nat, last: Point, n2: nat, table: seq<real>, was: seq<real>, now: seq<real>)
    requires Ready(g) && |ys| == |g.xs| && 1 <= q <= |g.xs| && |table| == 256
  {
    var ps := Points(g, ys, q);
    && |was| == |now| && n2 <= |now|
    && Increasing(ps) && ps[0].x == 0 && ps[|ps| - 1] == last
    && (forall x: nat :: x < n2 && x < last.x ==> now[x] == Scaled(was[x], table[Curve(ps, x) % 256]))
    && (forall x :: 0 <= x < |now| && (x >= n2 || x >= last.x) ==> now[x] == was[x])
  }

  lemma PointsStart(g: Floor, ys: seq<int>)
    requires Ready(g) && |ys| == |g.xs|
    ensures Points(g, ys, 1) == [Point(0, ys[0] * g.multiplier)]
  {
  }

  lemma PointsStep(g: Floor, ys: seq<int>, q: nat)
    requires Ready(g) && |ys| == |g.xs| && 1 <= q < |g.xs|
    ensures Points(g, ys, q + 1) ==
      if ys[g.order[q]] >= 0 then Points(g, ys, q) + [Point(g.xs[g.order[q]], ys[g.order[q]] * g.multiplier)] else Points(g, ys, q)
    ensures Points(g, ys, q)[|Points(g, ys, q)| - 1].x < g.xs[g.order[q]]
    ensures Increasing(Points(g, ys, q + 1))
  {
    PointsIncrease(g, ys, q);
    PointsIncrease(g, ys, q + 1);
  }

  lemma DrawnMoreCurve(g: Floor, ys: seq<int>, q: nat, last: Point, p: Point, n2: nat, table: seq<real>,
                       was: seq<real>, before: seq<real>, now: seq<real>)
    requires Ready(g) && |ys| == |g.xs| && 1 <= q < |g.xs| && |table| == 256
    requires DrawnTo(g, ys, q, last, n2, table, was, before) && |now| == |before| && last.x < p.x
    requires Points(g, ys, q + 1) == Points(g, ys, q) + [p] && Increasing(Points(g, ys, q + 1))
    requires forall x :: last.x <= x < p.x && x < n2 ==> now[x] == Scaled(before[x], table[PredictPoint(x, last.x, p.x, last.y, p.y) % 256])
    requires forall x :: 0 <= x < |now| && !(last.x <= x < p.x && x < n2) ==> now[x] == before[x]
    ensures DrawnTo(g, ys, q + 1, p, n2, table, was, now)
  {
    hide Ready, PredictPoint, Scaled, Curve, Points;
    var ps := Points(g, ys, q);
    forall x: nat | x < n2 && x < p.x ensures now[x] == Scaled(was[x], table[Curve(ps + [p], x) % 256]) {
      CurveMore(ps, p, x);
    }
  }

  /** Amplitudes with the points that are not drawn marked by -1. */
  ghost function Deferred(g: Floor, vals: seq<int16>): (ys: seq<int16>)
    requires Ready(g) && |vals| == |g.xs|
    ensures |ys| == |vals|
    ensures forall k :: 0 <= k < |ys| ==> ys[k] == if Drawn(g, vals, |vals|, k) then Amplitudes(g, vals, |vals|)[k] else -1
  {
    seq(|vals|, k requires 0 <= k < |vals| => if Drawn(g, vals, |vals|, k) then Amplitudes(g, vals, |vals|)[k] else -1)
  }

  /** A channel's floor from its decoded symbols: the spectrum is scaled by the curve through the
      unfolded amplitudes. When every stored value suits its prediction, no table index is out of
      bounds. */
  method RenderFloor(g: Floor, decoded: seq<int>, finalY: array<int16>, output: array<real>, n2: nat, table: seq<real>)
    requires Ready(g) && finalY.Length == |decoded| == |g.xs| && EndsInRange(decoded, RangeOf(g.multiplier))
    requires forall j :: 2 <= j < |g.xs| ==> SuitsAt(g, Stored(decoded), j)
    requires n2 <= output.Length && |table| == 256
    modifies finalY, output
    ensures finalY[..] == Deferred(g, Stored(decoded))
    ensures var ps := Points(g, finalY[..], |g.xs|);
      Increasing(ps) && ps[0].x == 0 && HeightsFit(ps)
      && (forall x: nat :: x < n2 ==> 0 <= Curve(ps, x) < 256 && output[x] == Scaled(old(output[x]), table[Curve(ps, x)]))
      && (forall x :: n2 <= x < output.Length ==> output[x] == old(output[x]))
  {
    hide Ready, Drawn, Curve, Scaled, Points, RangeOf, Amplitudes, SuitsAt, Store16;
    StoreDecoded(decoded, finalY);
    ghost var vals := finalY[..];
    RangeBound(g);
    EndsStored(decoded, RangeOf(g.multiplier));
    var step2Flag := UnfoldFloor(g, finalY);
    AmplitudesInRange(g, vals, |vals|);
    ghost var ys := finalY[..];
    var j := 0;
    while j < |g.xs|
      modifies finalY
      invariant 0 <= j <= |g.xs|
      invariant forall k :: 0 <= k < j ==> finalY[k] == if Drawn(g, vals, |vals|, k) then ys[k] else -1
      invariant forall k :: j <= k < |g.xs| ==> finalY[k] == ys[k]
    {
      if !step2Flag[j] {
        finalY[j] := -1;
      }
      j := j + 1;
    }
    assert finalY[..] == Deferred(g, vals);
    DrawnEnd(g, vals);
    DoFloor(g, finalY, output, n2, table);
  }

  lemma RangeBound(g: Floor)
    requires Ready(g)
    ensures 1 <= g.multiplier <= 4 && 0 < RangeOf(g.multiplier) <= 256
  {
  }

  lemma EndsStored(decoded: seq<int>, range: int)
    requires EndsInRange(decoded, range) && range <= 256
    ensures EndsInRange(Stored(decoded), range)
  {
  }

  lemma DrawnEnd(g: Floor, vals: seq<int>)
    requires Ready(g) && |vals| == |g.xs|
    ensures |vals| >= 2 && Drawn(g, vals, |vals|, 0)
  {
  }
}
