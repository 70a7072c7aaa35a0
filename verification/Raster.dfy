/** The integer square root and the line of the demo scene. */
module Raster {
  import opened Bitmap

  newtype uint32 = x: int | 0 <= x < 0x1_0000_0000

  /** The bit the square root is working on, 2^15 down to 1. */
  predicate RootBit(p: int) {
    p in {0x8000, 0x4000, 0x2000, 0x1000, 0x800, 0x400, 0x200, 0x100, 0x80, 0x40, 0x20, 0x10, 8, 4, 2, 1}
  }

  lemma NextBit(p: int)
    requires RootBit(p) && p > 1
    ensures p % 2 == 0 && RootBit(p / 2) && p * p / 4 == (p / 2) * (p / 2)
  {
  }

  /** The square root stands at the bit p with the part s of the root found: what the
      code keeps is the doubled, shifted root and the remainder. */
  ghost predicate AtBit(V: int, v: int, r: int, bit: int, s: int, p: int) {
    && RootBit(p) && bit == p * p
    && 0 <= s && s + 2 * p <= 0x1_0000 && r == 2 * (s * p)
    && 0 <= v == V - s * s && V < (s + 2 * p) * (s + 2 * p)
  }

  predicate IsRoot(V: int, r: int) {
    0 <= r && r * r <= V < (r + 1) * (r + 1)
  }

  lemma Squares(s: int, p: int)
    ensures (s + p) * (s + p) == s * s + 2 * (s * p) + p * p
    ensures (s + 2 * p) * (s + 2 * p) == s * s + 4 * (s * p) + 4 * (p * p)
    ensures (s + p) * p == s * p + p * p
  {
  }

  lemma Fits(s: int, p: int)
    requires 0 <= s && 1 <= p <= 0x8000 && s + 2 * p <= 0x1_0000
    ensures 0 <= s * p <= 0x1_0000 * 0x8000 && 2 * (s * p) + p * p <= 0xFFFF * 0x1_0000
  {
    MulMono(p, 0, s);
    MulMono(p, s, 0x1_0000);
    MulMono(0x1_0000, p, 0x8000);
    var t := 2 * s + p;
    assert p * t == 2 * (s * p) + p * p;
    MulMono(p, t, 0x2_0000 - 3 * p);
    MulMono(p, 0x2_0000 - 3 * p, 0x2_0000 - 3);
    Parabola(p);
  }

  lemma Parabola(p: int)
    requires 1 <= p <= 0x8000
    ensures p * (0x2_0000 - 3 * p) <= 0xFFFF * 0x1_0000
  {
    var q := p - 0x5555;
    assert p * (0x2_0000 - 3 * p) == 0x2_0000 * p - 3 * (p * p);
    assert q * q == p * p - 2 * 0x5555 * p + 0x5555 * 0x5555;
    SquareNonNegative(q);
  }

  lemma SquareNonNegative(q: int)
    ensures q * q >= 0
  {
  }

  lemma MulMono(m: int, a: int, b: int)
    requires m >= 0 && a <= b
    ensures m * a <= m * b
  {
  }

  /** One turn of the loop, whichever way the comparison goes. */
  lemma RootStep(V: int, v: int, r: int, bit: int, s: int, p: int)
    requires AtBit(V, v, r, bit, s, p)
    ensures 0 <= r && 0 < bit && r + bit < 0x1_0000_0000 && r / 2 + bit < 0x1_0000_0000
    ensures p > 1 && v >= r + bit ==> AtBit(V, v - (r + bit), r / 2 + bit, bit / 4, s + p, p / 2)
    ensures p > 1 && v < r + bit ==> AtBit(V, v, r / 2, bit / 4, s, p / 2)
    ensures p == 1 ==> bit / 4 == 0 && IsRoot(V, if v >= r + bit then r / 2 + bit else r / 2)
  {
    Squares(s, p);
    Fits(s, p);
    assert 0 < p * p by { MulMono(p, 1, p); }
    if p > 1 {
      NextBit(p);
      Halved(s, p);
    } else {
      Squares(s, 1);
      Squares(s + 1, 1);
    }
  }

  lemma Halved(s: int, p: int)
    requires p % 2 == 0
    ensures 2 * (s * (p / 2)) == s * p && 2 * ((s + p) * (p / 2)) == s * p + p * p
    ensures 2 * (p / 2) == p
  {
    var h := p / 2;
    assert p == 2 * h;
    assert s * p == 2 * (s * h) && (s + p) * p == 2 * ((s + p) * h) && (s + p) * p == s * p + p * p;
  }

  /** isqrt32: no step leaves 32 bits, and the result is the floor of the root. */
  method Isqrt32(v0: uint32) returns (r: uint32)
    ensures IsRoot(v0 as int, r as int)
  {
    hide AtBit, BitOf, IsRoot;
    var v := v0;
    r := 0;
    var bit: uint32 := 0x4000_0000;
    ghost var p: int := 0x8000;
    FirstBit();
    while bit > v
      invariant bit == 0 ==> v == 0
      invariant bit != 0 ==> BitOf(p, bit as int) && v as int < 4 * bit as int
      decreases bit
    {
      ShiftBit(p, bit as int);
      p := p / 2;
      bit := bit / 4;
    }
    ghost var s: int := 0;
    if bit != 0 {
      StartAt(v as int, bit as int, p);
    }
    while bit != 0
      invariant bit != 0 ==> AtBit(v0 as int, v as int, r as int, bit as int, s, p)
      invariant bit == 0 ==> IsRoot(v0 as int, r as int)
      decreases bit
    {
      RootStep(v0 as int, v as int, r as int, bit as int, s, p);
      OneIsLast(v0 as int, v as int, r as int, bit as int, s, p);
      if v >= r + bit {
        v := v - (r + bit);
        r := r / 2 + bit;
        s := s + p;
      } else {
        r := r / 2;
      }
      bit := bit / 4;
      p := p / 2;
    }
  }

  ghost predicate BitOf(p: int, bit: int) {
    RootBit(p) && bit == p * p
  }

  lemma FirstBit()
    ensures BitOf(0x8000, 0x4000_0000) && IsRoot(0, 0)
  {
  }

  lemma ShiftBit(p: int, bit: int)
    requires BitOf(p, bit)
    ensures p >= 1 && bit >= 1 && (bit / 4 == 0 <==> p == 1) && (p == 1 ==> bit == 1)
    ensures p > 1 ==> BitOf(p / 2, bit / 4) && bit == 4 * (bit / 4)
  {
    if p > 1 {
      NextBit(p);
      Halved(0, p);
      Squares(0, p / 2);
    }
  }

  lemma StartAt(v: int, bit: int, p: int)
    requires BitOf(p, bit) && 0 <= v < 4 * bit
    ensures AtBit(v, v, 0, bit, 0, p)
  {
    Squares(0, p);
  }

  lemma OneIsLast(V: int, v: int, r: int, bit: int, s: int, p: int)
    requires AtBit(V, v, r, bit, s, p)
    ensures p >= 1 && (bit / 4 == 0 <==> p == 1)
  {
    ShiftBit(p, bit);
  }

  function Abs(a: int): (r: int)
    ensures r >= 0
  {
    if a < 0 then -a else a
  }

  function Max(a: int, b: int): int { if a < b then b else a }

  /** a / b to the nearest integer, halves up. */
  function Round(a: int, b: int): int
    requires b > 0
  {
    (2 * a + b) / (2 * b)
  }

  lemma RoundIs(a: int, b: int, q: int)
    requires b > 0
    ensures Round(a, b) == q <==> b * (2 * q - 1) <= 2 * a < b * (2 * q + 1)
  {
    var d := (2 * a + b) / (2 * b);
    assert 2 * b * d <= 2 * a + b < 2 * b * d + 2 * b;
    assert b * (2 * q - 1) == 2 * b * q - b && b * (2 * q + 1) == 2 * b * q + b;
    if q < d {
      assert 2 * b * (q + 1) <= 2 * b * d by { MulMono(2 * b, q + 1, d); }
    } else if q > d {
      assert 2 * b * (d + 1) <= 2 * b * q by { MulMono(2 * b, d + 1, q); }
    }
  }

  /** The straight line walked in `length` equal parts, each coordinate rounded to the
      nearest pixel counting from the start. */
  function Length(x0: int, y0: int, x1: int, y1: int): nat {
    Max(Abs(x1 - x0), Abs(y1 - y0))
  }

  function Sign(from: int, to: int): int { if from < to then 1 else -1 }

  /** How far along one axis the k-th pixel lies. */
  function Along(k: int, distance: int, length: int): int {
    if length <= 0 then 0 else Round(k * distance, length)
  }

  function PointAt(x0: int, y0: int, x1: int, y1: int, k: int): (int, int) {
    var n := Length(x0, y0, x1, y1);
    (x0 + Sign(x0, x1) * Along(k, Abs(x1 - x0), n), y0 + Sign(y0, y1) * Along(k, Abs(y1 - y0), n))
  }

  /** The pixels of the first `count` points that are on the screen. */
  function Pixels(x0: int, y0: int, x1: int, y1: int, count: nat): set<(int, int)> {
    if count == 0 then {}
    else
      var (x, y) := PointAt(x0, y0, x1, y1, count - 1);
      Pixels(x0, y0, x1, y1, count - 1) + Visible(x, y)
  }

  lemma PixelsStep(x0: int, y0: int, x1: int, y1: int, k: nat)
    ensures Pixels(x0, y0, x1, y1, 0) == {}
    ensures Pixels(x0, y0, x1, y1, k + 1) ==
            Pixels(x0, y0, x1, y1, k) + Visible(PointAt(x0, y0, x1, y1, k).0, PointAt(x0, y0, x1, y1, k).1)
  {
    hide PointAt;
  }

  lemma {:induction false} PixelsAre(x0: int, y0: int, x1: int, y1: int, count: nat, c: int, r: int)
    ensures (c, r) in Pixels(x0, y0, x1, y1, count) <==>
            OnScreen(c, r) && exists k :: 0 <= k < count && PointAt(x0, y0, x1, y1, k) == (c, r)
  {
    hide PointAt;
    if count > 0 {
      PixelsAre(x0, y0, x1, y1, count - 1, c, r);
    }
  }

  lemma AlongLongAxis(k: int, length: int)
    requires length > 0
    ensures Along(k, length, length) == k
  {
    RoundIs(k * length, length, k);
    assert length * (2 * k - 1) == 2 * (k * length) - length;
    assert length * (2 * k + 1) == 2 * (k * length) + length;
  }

  lemma AlongStart(distance: int, length: int)
    ensures Along(0, distance, length) == 0
  {
    if length > 0 {
      RoundIs(0 * distance, length, 0);
    }
  }

  lemma AlongEnd(distance: int, length: int)
    requires 0 <= distance <= length
    ensures Along(length, distance, length) == distance
  {
    if length > 0 {
      RoundIs(length * distance, length, distance);
      assert length * (2 * distance - 1) == 2 * (length * distance) - length;
      assert length * (2 * distance + 1) == 2 * (length * distance) + length;
    }
  }

  /** When the short axis moves. */
  lemma AlongStep(k: int, distance: int, length: int)
    requires 0 <= distance <= length && length > 0
    ensures var b := Along(k, distance, length);
            && 2 * (length * b) - length <= 2 * (k * distance) < 2 * (length * b) + length
            && Along(k + 1, distance, length) ==
               if 2 * (length * b) + length <= 2 * (k * distance) + 2 * distance then b + 1 else b
  {
    var b := Along(k, distance, length);
    RoundIs(k * distance, length, b);
    assert (k + 1) * distance == k * distance + distance;
    RoundIs((k + 1) * distance, length, b + 1);
    RoundIs((k + 1) * distance, length, b);
    assert length * (2 * b - 1) == 2 * (length * b) - length;
    assert length * (2 * b + 1) == 2 * (length * b) + length;
    assert length * (2 * (b + 1) - 1) == 2 * (length * b) + length;
    assert length * (2 * (b + 1) + 1) == 2 * (length * b) + 3 * length;
  }

  /** The value of `err` after a steps along x and b along y, for |dx| = X, |dy| = Y. */
  function ErrorAfter(X: int, Y: int, a: int, b: int): int {
    X * (1 + b) - Y * (1 + a)
  }

  lemma ErrorExpands(X: int, Y: int, a: int, b: int)
    ensures ErrorAfter(X, Y, a, b) == X + X * b - Y - a * Y
    ensures ErrorAfter(X, Y, a, b) == X + b * X - Y - Y * a
  {
  }

  /** The two comparisons of the loop move each coordinate exactly when its rounded
      position moves; the doubled error stays within three lengths. */
  lemma StepsTogether(X: int, Y: int, k: nat)
    requires X >= 0 && Y >= 0 && Max(X, Y) > 0
    ensures var n := Max(X, Y); var a, b := Along(k, X, n), Along(k, Y, n); var e2 := 2 * ErrorAfter(X, Y, a, b);
            && -3 * n <= e2 <= 3 * n
            && Along(k + 1, X, n) == (if e2 >= -Y then a + 1 else a)
            && Along(k + 1, Y, n) == (if e2 <= X then b + 1 else b)
  {
    var n := Max(X, Y);
    AlongLongAxis(k, n);
    AlongLongAxis(k + 1, n);
    ErrorExpands(X, Y, Along(k, X, n), Along(k, Y, n));
    AlongStep(k, if Y <= X then Y else X, n);
    hide Along, ErrorAfter;
  }

  lemma ErrorSteps(X: int, Y: int, a: int, b: int)
    ensures ErrorAfter(X, Y, a + 1, b) == ErrorAfter(X, Y, a, b) - Y
    ensures ErrorAfter(X, Y, a, b + 1) == ErrorAfter(X, Y, a, b) + X
    ensures ErrorAfter(X, Y, a + 1, b + 1) == ErrorAfter(X, Y, a, b) - Y + X
    ensures ErrorAfter(X, Y, 0, 0) == X - Y
  {
  }

  /** Every pixel of the line: the first is (x0, y0), the last (x1, y1), each is one
      king's move from the one before and within half a pixel of the true line on both
      axes; along the longer axis it moves by one each time. */
  lemma LineIsTrue(x0: int, y0: int, x1: int, y1: int, k: nat)
    requires k <= Length(x0, y0, x1, y1)
    ensures var n := Length(x0, y0, x1, y1); var (px, py) := PointAt(x0, y0, x1, y1, k);
            && PointAt(x0, y0, x1, y1, 0) == (x0, y0) && PointAt(x0, y0, x1, y1, n) == (x1, y1)
            && 2 * Abs(n * (px - x0) - k * (x1 - x0)) <= n
            && 2 * Abs(n * (py - y0) - k * (y1 - y0)) <= n
            && (k < n ==> var (qx, qy) := PointAt(x0, y0, x1, y1, k + 1);
                          && Abs(qx - px) <= 1 && Abs(qy - py) <= 1
                          && (if Abs(x1 - x0) >= Abs(y1 - y0) then qx == px + Sign(x0, x1) else qy == py + Sign(y0, y1)))
  {
    var n := Length(x0, y0, x1, y1);
    AxisIsTrue(x0, x1, n, k);
    AxisIsTrue(y0, y1, n, k);
    if k < n {
      AlongLongAxis(k, n);
      AlongLongAxis(k + 1, n);
    }
    hide Along;
    Offset(x0, Sign(x0, x1), Along(k, Abs(x1 - x0), n), Along(k + 1, Abs(x1 - x0), n));
    Offset(y0, Sign(y0, y1), Along(k, Abs(y1 - y0), n), Along(k + 1, Abs(y1 - y0), n));
  }

  lemma Offset(from: int, s: int, b: int, c: int)
    requires s == 1 || s == -1
    ensures from + s * b - from == s * b && Abs((from + s * c) - (from + s * b)) == Abs(c - b)
    ensures c == b + 1 ==> from + s * c == from + s * b + s
    ensures c == b ==> from + s * c == from + s * b
  {
  }

  lemma AxisIsTrue(from: int, to: int, n: nat, k: nat)
    requires Abs(to - from) <= n && k <= n
    ensures from + Sign(from, to) * Along(0, Abs(to - from), n) == from
    ensures from + Sign(from, to) * Along(n, Abs(to - from), n) == to
    ensures 2 * Abs(n * (Sign(from, to) * Along(k, Abs(to - from), n)) - k * (to - from)) <= n
    ensures k < n ==> 0 <= Along(k + 1, Abs(to - from), n) - Along(k, Abs(to - from), n) <= 1
  {
    var d := Abs(to - from);
    AlongStart(d, n);
    AlongEnd(d, n);
    if n > 0 {
      AlongStep(k, d, n);
      hide Along;
      Signed(Sign(from, to), n, Along(k, d, n), k, d);
      assert to - from == Sign(from, to) * d;
    }
  }

  lemma Signed(s: int, n: int, b: int, k: int, d: int)
    requires s == 1 || s == -1
    ensures Abs(n * (s * b) - k * (s * d)) == Abs(n * b - k * d)
  {
    if s == -1 {
      assert n * (s * b) == -(n * b) && k * (s * d) == -(k * d);
    }
  }

  /** The value of `err` when the k-th pixel is plotted. */
  function ErrorAt(x0: int, y0: int, x1: int, y1: int, k: nat): int {
    var n, X, Y := Length(x0, y0, x1, y1), Abs(x1 - x0), Abs(y1 - y0);
    ErrorAfter(X, Y, Along(k, X, n), Along(k, Y, n))
  }

  lemma LineStarts(x0: int, y0: int, x1: int, y1: int)
    ensures PointAt(x0, y0, x1, y1, 0) == (x0, y0)
    ensures ErrorAt(x0, y0, x1, y1, 0) == Abs(x1 - x0) - Abs(y1 - y0)
  {
    var n, X, Y := Length(x0, y0, x1, y1), Abs(x1 - x0), Abs(y1 - y0);
    LineIsTrue(x0, y0, x1, y1, 0);
    AlongStart(X, n);
    AlongStart(Y, n);
    ErrorSteps(X, Y, 0, 0);
  }

  /** One turn of the loop takes the k-th pixel and its error to the next. */
  lemma LineStep(x0: int, y0: int, x1: int, y1: int, k: nat)
    requires k < Length(x0, y0, x1, y1)
    ensures var n, X, Y := Length(x0, y0, x1, y1), Abs(x1 - x0), Abs(y1 - y0);
            var (x, y) := PointAt(x0, y0, x1, y1, k); var err := ErrorAt(x0, y0, x1, y1, k);
            && -3 * n <= 2 * err <= 3 * n
            && ErrorAt(x0, y0, x1, y1, k + 1) ==
               err + (if 2 * err >= -Y then -Y else 0) + (if 2 * err <= X then X else 0)
            && PointAt(x0, y0, x1, y1, k + 1) ==
               (x + (if 2 * err >= -Y then Sign(x0, x1) else 0), y + (if 2 * err <= X then Sign(y0, y1) else 0))
  {
    var n, X, Y := Length(x0, y0, x1, y1), Abs(x1 - x0), Abs(y1 - y0);
    StepsTogether(X, Y, k);
    ErrorSteps(X, Y, Along(k, X, n), Along(k, Y, n));
    hide Along, ErrorAfter;
    Offset(x0, Sign(x0, x1), Along(k, X, n), Along(k + 1, X, n));
    Offset(y0, Sign(y0, y1), Along(k, Y, n), Along(k + 1, Y, n));
  }

  /** The loop's own stopping test holds at the last pixel and at none before it. */
  lemma EndsAtEnd(x0: int, y0: int, x1: int, y1: int, k: nat)
    requires k <= Length(x0, y0, x1, y1)
    ensures PointAt(x0, y0, x1, y1, k) == (x1, y1) <==> k == Length(x0, y0, x1, y1)
  {
    var n := Length(x0, y0, x1, y1);
    LineIsTrue(x0, y0, x1, y1, n);
    if k < n {
      AlongLongAxis(k, n);
    }
  }

  /** An `int` of the program. */
  predicate IsInt(v: int) {
    -0x8000_0000 <= v < 0x8000_0000
  }

  predicate Near(v: int) {
    -0x1000_0000 <= v <= 0x1000_0000
  }

  /** With end points within 2^28 of the origin no `int` of the loop overflows: not the
      distances, the error, its double or either partial sum, and no coordinate. */
  lemma NoOverflow(x0: int, y0: int, x1: int, y1: int, k: nat)
    requires Near(x0) && Near(y0) && Near(x1) && Near(y1) && k < Length(x0, y0, x1, y1)
    ensures var X, Y, err := Abs(x1 - x0), Abs(y1 - y0), ErrorAt(x0, y0, x1, y1, k);
            var (x, y) := PointAt(x0, y0, x1, y1, k + 1);
            && IsInt(x1 - x0) && IsInt(y1 - y0) && IsInt(X - Y) && IsInt(err) && IsInt(2 * err)
            && IsInt(err - Y) && IsInt(err + X) && IsInt(err - Y + X) && IsInt(x) && IsInt(y)
  {
    hide PointAt, ErrorAt;
    ErrorNear(x0, y0, x1, y1, k);
    PointNear(x0, y0, x1, y1, k + 1);
  }

  lemma ErrorNear(x0: int, y0: int, x1: int, y1: int, k: nat)
    requires k < Length(x0, y0, x1, y1)
    ensures -3 * Length(x0, y0, x1, y1) <= 2 * ErrorAt(x0, y0, x1, y1, k) <= 3 * Length(x0, y0, x1, y1)
  {
    hide PointAt, ErrorAt, Length;
    LineStep(x0, y0, x1, y1, k);
  }

  /** No point is further from the start than the end is, on either axis. */
  lemma PointNear(x0: int, y0: int, x1: int, y1: int, k: nat)
    requires 0 < k <= Length(x0, y0, x1, y1)
    ensures var (px, py) := PointAt(x0, y0, x1, y1, k); Abs(px - x0) <= Abs(x1 - x0) && Abs(py - y0) <= Abs(y1 - y0)
  {
    hide PointAt, Length;
    var n := Length(x0, y0, x1, y1);
    var (px, py) := PointAt(x0, y0, x1, y1, k);
    LineIsTrue(x0, y0, x1, y1, k);
    hide Abs;
    Reaches(n, px - x0, x1 - x0, k);
    Reaches(n, py - y0, y1 - y0, k);
  }

  lemma Reaches(n: int, p: int, d: int, k: int)
    requires 0 <= k <= n && n > 0 && 2 * Abs(n * p - k * d) <= n
    ensures Abs(p) <= Abs(d)
  {
    Scaled(n, d, k);
    Scaled(n, -d, k);
    assert n * (Abs(d) + 1) == n * Abs(d) + n;
    assert n * -p == -(n * p) && k * -d == -(k * d);
    Cancel(n, p, Abs(d) + 1);
    Cancel(n, -p, Abs(d) + 1);
  }

  lemma Scaled(n: int, d: int, k: int)
    requires 0 <= k <= n
    ensures k * d <= n * Abs(d)
  {
    assert k * d <= k * Abs(d) by { Scale(k, d, Abs(d)); }
    assert Abs(d) * k <= Abs(d) * n by { Scale(Abs(d), k, n); }
  }

  lemma Scale(n: int, a: int, b: int)
    requires n >= 0 && a <= b
    ensures n * a <= n * b
  {
  }

  lemma Cancel(n: int, a: int, b: int)
    requires n > 0
    ensures n * a < n * b ==> a < b
  {
  }

  /** The two conditional moves of one turn; 2 * err stays within three lengths. */
  method Advance(x0: int, y0: int, x1: int, y1: int, ghost k: nat, x: int, y: int, err: int)
    returns (x': int, y': int, err': int)
    requires k < Length(x0, y0, x1, y1)
    requires (x, y) == PointAt(x0, y0, x1, y1, k) && err == ErrorAt(x0, y0, x1, y1, k)
    ensures (x', y') == PointAt(x0, y0, x1, y1, k + 1) && err' == ErrorAt(x0, y0, x1, y1, k + 1)
    ensures -3 * Length(x0, y0, x1, y1) <= 2 * err <= 3 * Length(x0, y0, x1, y1)
  {
    var dx, sx := Abs(x1 - x0), Sign(x0, x1);
    var dy, sy := -Abs(y1 - y0), Sign(y0, y1);
    LineStep(x0, y0, x1, y1, k);
    hide *;
    x', y', err' := x, y, err;
    var e2 := 2 * err;
    if e2 >= dy {
      err' := err' + dy;
      x' := x' + sx;
    }
    if e2 <= dx {
      err' := err' + dx;
      y' := y' + sy;
    }
  }

  /** line: stops after exactly Length + 1 pixels and lights those of the rounded line
      that are on the screen, and no others, for any end points at all. */
  method Line(screen: Picture, x0: int, y0: int, x1: int, y1: int) returns (plotted: nat)
    requires screen.Valid()
    modifies screen.cells
    ensures plotted == Length(x0, y0, x1, y1) + 1
    ensures screen.Image() == old(screen.Image()) + Pixels(x0, y0, x1, y1, plotted)
  {
    hide *;
    var err := Abs(x1 - x0) - Abs(y1 - y0);
    var x, y := x0, y0;
    ghost var n := Length(x0, y0, x1, y1);
    plotted := 0;
    LineStarts(x0, y0, x1, y1);
    PixelsStep(x0, y0, x1, y1, 0);
    while true
      invariant plotted <= n
      invariant err == ErrorAt(x0, y0, x1, y1, plotted)
      invariant (x, y) == PointAt(x0, y0, x1, y1, plotted)
      invariant screen.Image() == old(screen.Image()) + Pixels(x0, y0, x1, y1, plotted)
      decreases n - plotted
    {
      screen.Plot(x, y, true);
      assert screen.Image() == old(screen.Image()) + (Pixels(x0, y0, x1, y1, plotted) + Visible(x, y));
      PixelsStep(x0, y0, x1, y1, plotted);
      EndsAtEnd(x0, y0, x1, y1, plotted);
      if x == x1 && y == y1 {
        plotted := plotted + 1;
        break;
      }
      x, y, err := Advance(x0, y0, x1, y1, plotted, x, y, err);
      plotted := plotted + 1;
    }
  }
}
