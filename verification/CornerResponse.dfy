/** The full corner response: early exit, centre of gravity, and the test that refuses false corners. */
module CornerResponse {
  import opened Usan

  function Abs(x: int): (r: int)
    ensures r >= 0
  {
    if x < 0 then -x else x
  }

  /** C's integer division: truncation towards zero. */
  function TruncDiv(p: int, q: int): int
    requires q > 0
  {
    if p >= 0 then p / q else -((-p) / q)
  }

  /** FTOI(p/q): the nearest integer, halves away from zero. */
  function RoundDiv(p: int, q: int): int
    requires q > 0
  {
    if p >= 0 then (2 * p + q) / (2 * q) else -((2 * -p + q) / (2 * q))
  }

  lemma RoundDivBound(p: int, q: int, k: int)
    requires q > 0 && k >= 0 && -(k * q) <= p <= k * q
    ensures -k <= RoundDiv(p, q) <= k
  {
    var a := Abs(p);
    QuotientBound(2 * a + q, 2 * q, k);
  }

  lemma QuotientBound(a: int, b: int, k: nat)
    requires b > 0 && 0 <= a < (k + 1) * b
    ensures 0 <= a / b <= k
  {
    var d := a / b;
    assert a == d * b + a % b;
    assert d >= k + 1 ==> d * b >= (k + 1) * b;
  }

  /** Rounding is to a nearest integer: no integer is closer than RoundDiv(p,q). */
  lemma RoundDivNearest(p: int, q: int)
    requires q > 0
    ensures 2 * Abs(p - RoundDiv(p, q) * q) <= q
  {
    var a := Abs(p);
    var d := (2 * a + q) / (2 * q);
    assert 2 * a + q == d * (2 * q) + (2 * a + q) % (2 * q);
    assert RoundDiv(p, q) * q == if p >= 0 then d * q else -(d * q);
    assert d * (2 * q) == 2 * (d * q);
  }

  lemma MultipleDivides(a: int, b: int)
    requires b > 0
    ensures a * b / b == a
  {
    var d := a * b / b;
    assert a * b == d * b + a * b % b;
    assert (a - d) * b == a * b % b;
    assert a - d >= 1 ==> (a - d) * b >= b;
    assert a - d <= -1 ==> (a - d) * b <= -b;
  }

  /** A half is rounded away from zero, on either side of it: p/h is k + 1/2 for p = q(2k+1) and h = 2q. */
  lemma RoundDivHalf(k: nat, q: int, p: int, h: int)
    requires q > 0 && p == q * (2 * k + 1) && h == 2 * q
    ensures RoundDiv(p, h) == k + 1 && RoundDiv(-p, h) == -(k + 1)
  {
    assert p == 2 * (q * k) + q && q * k >= 0;
    assert 2 * p + h == (k + 1) * (2 * h);
    MultipleDivides(k + 1, 2 * h);
  }

  /** Truncation: the quotient has the sign of p and is the largest in magnitude that fits into it. */
  lemma TruncDivExact(p: int, q: int)
    requires q > 0
    ensures Abs(TruncDiv(p, q)) * q <= Abs(p) < (Abs(TruncDiv(p, q)) + 1) * q
    ensures (p >= 0 ==> TruncDiv(p, q) >= 0) && (p <= 0 ==> TruncDiv(p, q) <= 0)
  {
    var a := Abs(p);
    assert a == a / q * q + a % q;
    assert (a / q + 1) * q == a / q * q + q;
  }

  // ------------------------------------------------------------------ centre of gravity

  lemma {:induction false} SpanMoment(s: seq<int>, dy: int, from: int, end: int)
    requires Levels(s) && -3 <= dy <= 3 && -3 <= from && end <= 4
    ensures 0 <= Span(s, dy, from, end).n &&
      -3 * Span(s, dy, from, end).n <= Span(s, dy, from, end).x <= 3 * Span(s, dy, from, end).n
    decreases end - from
  {
    if from < end {
      SpanMoment(s, dy, from, end - 1);
      var c, dx := s[At(dy, end - 1)], end - 1;
      assert -3 * c <= dx * c <= 3 * c;
    }
  }

  lemma MiddleMoment(s: seq<int>)
    requires Levels(s)
    ensures Span(s, 0, -3, 4).x == Span(s, 0, -3, 0).x + Span(s, 0, 1, 4).x
  {
    Span7(s, 0);
    assert Span(s, 0, 1, 2).x == s[At(0, 1)];
    assert Span(s, 0, -3, -2).x == -3 * s[At(0, -3)];
    assert Span(s, 0, -3, -1).x == -3 * s[At(0, -3)] - 2 * s[At(0, -2)];
  }

  /** The nucleus does not pull: both moments are at most three times the rest of the area. */
  lemma MomentsBounded(s: seq<int>)
    requires Levels(s)
    ensures Disc(s).n >= 100
    ensures Abs(Disc(s).x) <= 3 * (Disc(s).n - 100) && Abs(Disc(s).y) <= 3 * (Disc(s).n - 100)
  {
    DiscRows(s);
    MiddleRow(s);
    MiddleMoment(s);
    SpanMoment(s, -3, -1, 2);
    SpanMoment(s, -2, -2, 3);
    SpanMoment(s, -1, -3, 4);
    SpanMoment(s, 0, -3, 0);
    SpanMoment(s, 0, 1, 4);
    SpanMoment(s, 1, -3, 4);
    SpanMoment(s, 2, -2, 3);
    SpanMoment(s, 3, -1, 2);
  }

  /** Accumulates x += dx*c and y += dy*c over a run of row dy. */
  method MomentRow(img: array2<int>, bp: Lut, i: int, j: int, dy: int, from: int, end: int, x0: int, y0: int,
                   ghost s: seq<int>)
    returns (x: int, y: int)
    requires DiscInside(img, i, j) && IsWindow(img, bp, i, j, s) && -3 <= dy <= 3 && -3 <= from <= end <= 4
    ensures x == x0 + Span(s, dy, from, end).x && y == y0 + dy * Span(s, dy, from, end).n
  {
    x, y := x0, y0;
    var dx := from;
    while dx < end
      invariant from <= dx <= end && x == x0 + Span(s, dy, from, dx).x && y == y0 + dy * Span(s, dy, from, dx).n
    {
      var c := Read(img, bp, i, j, dy, dx, s);
      assert dy * (Span(s, dy, from, dx).n + c) == dy * Span(s, dy, from, dx).n + dy * c;
      x := x + dx * c;
      y := y + dy * c;
      dx := dx + 1;
    }
  }

  method Gravity(img: array2<int>, bp: Lut, i: int, j: int, ghost s: seq<int>) returns (x: int, y: int)
    requires DiscInside(img, i, j) && IsWindow(img, bp, i, j, s) && Levels(s)
    ensures x == Disc(s).x && y == Disc(s).y
  {
    x, y := MomentRow(img, bp, i, j, -3, -1, 2, 0, 0, s);
    x, y := MomentRow(img, bp, i, j, -2, -2, 3, x, y, s);
    x, y := MomentRow(img, bp, i, j, -1, -3, 4, x, y, s);
    x, y := MomentRow(img, bp, i, j, 0, -3, 0, x, y, s);
    x, y := MomentRow(img, bp, i, j, 0, 1, 4, x, y, s);
    x, y := MomentRow(img, bp, i, j, 1, -3, 4, x, y, s);
    x, y := MomentRow(img, bp, i, j, 2, -2, 3, x, y, s);
    x, y := MomentRow(img, bp, i, j, 3, -1, 2, x, y, s);
    DiscRows(s);
    MiddleMoment(s);
  }

  // ------------------------------------------------------------------ the false-corner test

  /** The three sample offsets (dy,dx), k = 1..3 steps towards (x,y) along its longer axis. */
  function Sample(x: int, y: int, k: int): (int, int)
    requires x != 0 || y != 0
  {
    if y * y < x * x then
      assert x != 0;
      (RoundDiv(k * y, Abs(x)), k * (Abs(x) / x))
    else
      assert y == 0 ==> x * x > 0;
      (k * (Abs(y) / y), RoundDiv(k * x, Abs(y)))
  }

  lemma SquareGrows(a: nat, b: nat)
    requires a < b
    ensures a * a < b * b
  {
    var d := b - a;
    assert b * b == a * a + (2 * a + d) * d;
    assert (2 * a + d) * d > 0;
  }

  lemma AbsSquare(x: int)
    ensures Abs(x) * Abs(x) == x * x
  {
    if x < 0 { assert (-x) * (-x) == x * x; }
  }

  lemma SquareOrder(x: int, y: int)
    ensures y * y < x * x ==> Abs(y) <= Abs(x)
    ensures y * y >= x * x ==> Abs(x) <= Abs(y)
  {
    AbsSquare(x);
    AbsSquare(y);
    if Abs(y) > Abs(x) { SquareGrows(Abs(x), Abs(y)); }
    if Abs(x) > Abs(y) { SquareGrows(Abs(y), Abs(x)); }
  }

  lemma UnitStep(x: int)
    requires x != 0
    ensures Abs(x) / x == if x > 0 then 1 else -1
  {
    if x < 0 { assert Abs(x) == (-1) * x; }
  }

  /** Whatever the direction, all three samples stay within the 7x7 window, hence in the image. */
  lemma SampleInWindow(x: int, y: int, k: int)
    requires (x != 0 || y != 0) && 1 <= k <= 3
    ensures -3 <= Sample(x, y, k).0 <= 3 && -3 <= Sample(x, y, k).1 <= 3
  {
    SquareOrder(x, y);
    if y * y < x * x {
      UnitStep(x);
      ScaleBound(y, Abs(x), k);
      RoundDivBound(k * y, Abs(x), k);
    } else {
      assert y == 0 ==> x * x > 0;
      UnitStep(y);
      ScaleBound(x, Abs(y), k);
      RoundDivBound(k * x, Abs(y), k);
    }
  }

  /** The samples lie on the line from the nucleus to (x,y), on that side: k steps along the longer axis,
      and along the other at a nearest pixel to the line. */
  lemma SampleTowards(x: int, y: int, k: int)
    requires (x != 0 || y != 0) && 1 <= k <= 3
    ensures var (dy, dx) := Sample(x, y, k);
      if y * y < x * x then dx == (if x > 0 then k else -k) && 2 * Abs(dy * Abs(x) - k * y) <= Abs(x)
      else y != 0 && dy == (if y > 0 then k else -k) && 2 * Abs(dx * Abs(y) - k * x) <= Abs(y)
  {
    SquareOrder(x, y);
    if y * y < x * x {
      UnitStep(x);
      RoundDivNearest(k * y, Abs(x));
    } else {
      assert y == 0 ==> x * x > 0;
      UnitStep(y);
      RoundDivNearest(k * x, Abs(y));
    }
  }

  lemma ScaleBound(p: int, q: int, k: int)
    requires Abs(p) <= q && k >= 0
    ensures -(k * q) <= k * p <= k * q
  {
    assert k * (q - p) >= 0 && k * (q + p) >= 0;
    assert k * (q - p) == k * q - k * p && k * (q + p) == k * q + k * p;
  }

  function SampleValue(s: seq<int>, x: int, y: int, k: int): int
    requires |s| == 49 && (x != 0 || y != 0) && 1 <= k <= 3
  {
    SampleInWindow(x, y, k);
    s[At(Sample(x, y, k).0, Sample(x, y, k).1)]
  }

  /** A response only counts when the gravity is far from the nucleus and the line to it is uniform. */
  predicate TrueCorner(s: seq<int>)
    requires |s| == 49
  {
    var m := Disc(s);
    && m.x * m.x + m.y * m.y > (m.n * m.n) / 2
    && (m.x != 0 || m.y != 0)
    && SampleValue(s, m.x, m.y, 1) + SampleValue(s, m.x, m.y, 2) + SampleValue(s, m.x, m.y, 3) > 290
  }

  function Refined(s: seq<int>, maxNo: int): int
    requires |s| == 49
  {
    if Disc(s).n < maxNo && TrueCorner(s) then maxNo - Disc(s).n else 0
  }

  /** What sample k misses to full similarity. */
  function Missing(s: seq<int>, x: int, y: int, k: int): int
    requires |s| == 49 && 1 <= k <= 3
  {
    if x == 0 && y == 0 then 100 else 100 - SampleValue(s, x, y, k)
  }

  /** What the test asks: the centre of gravity is farther from the nucleus than the area times the root of
      one half, and the three samples together miss less than 10 to full similarity. */
  lemma TrueCornerMeans(s: seq<int>)
    requires Levels(s)
    ensures var m := Disc(s);
      TrueCorner(s) <==>
        (2 * (m.x * m.x + m.y * m.y) > m.n * m.n &&
         Missing(s, m.x, m.y, 1) + Missing(s, m.x, m.y, 2) + Missing(s, m.x, m.y, 3) < 10)
  {
    var m := Disc(s);
    MomentsBounded(s);
    HalfSquare(m.x * m.x + m.y * m.y, m.n);
    if 2 * (m.x * m.x + m.y * m.y) > m.n * m.n { NonZeroSum(m.x, m.y, m.n); }
  }

  /** The halved square, rounded down, decides like the square: no doubled number equals an odd one. */
  lemma HalfSquare(g: int, n: int)
    ensures g > n * n / 2 <==> 2 * g > n * n
  {
    if n % 2 == 1 { OddSquare(n / 2, n); }
  }

  lemma OddSquare(k: int, n: int)
    requires n == 2 * k + 1
    ensures n * n % 2 == 1
  {
    assert n * n == 2 * (2 * k * k + 2 * k) + 1;
  }

  /** The response of a true corner is what its area leaves missing to the limit; others have none. */
  lemma RefinedMeans(s: seq<int>, maxNo: int)
    requires Levels(s)
    ensures Refined(s, maxNo) > 0 <==> Disc(s).n < maxNo && TrueCorner(s)
    ensures Refined(s, maxNo) in {0, maxNo - Disc(s).n}
  {
  }

  /** The test as the code makes it. It divides by x or y only where they are not zero. */
  method FalseCornerTest(img: array2<int>, bp: Lut, i: int, j: int, n: int, x: int, y: int, ghost s: seq<int>)
    returns (genuine: bool)
    requires DiscInside(img, i, j) && IsWindow(img, bp, i, j, s) && Levels(s) && Disc(s) == Moments(n, x, y)
    ensures genuine == TrueCorner(s)
  {
    MomentsBounded(s);
    genuine := false;
    if x * x + y * y > (n * n) / 2 {
      assert x != 0 || y != 0 by { NonZeroSum(x, y, n); }
      SampleInWindow(x, y, 1);
      SampleInWindow(x, y, 2);
      SampleInWindow(x, y, 3);
      var c1 := Read(img, bp, i, j, Sample(x, y, 1).0, Sample(x, y, 1).1, s);
      var c2 := Read(img, bp, i, j, Sample(x, y, 2).0, Sample(x, y, 2).1, s);
      var c3 := Read(img, bp, i, j, Sample(x, y, 3).0, Sample(x, y, 3).1, s);
      genuine := c1 + c2 + c3 > 290;
    }
  }

  lemma NonZeroSum(x: int, y: int, n: int)
    requires x * x + y * y > (n * n) / 2
    ensures x != 0 || y != 0
  {
    assert n * n >= 0;
  }

  /** The stored direction attributes are small. */
  lemma AttributeBound(s: seq<int>, p: int)
    requires Levels(s) && Abs(p) <= 3 * (Disc(s).n - 100)
    ensures Disc(s).n >= 100 && Abs(TruncDiv(51 * p, Disc(s).n)) < 153
  {
    MomentsBounded(s);
    QuotientBound(51 * Abs(p), Disc(s).n, 152);
  }

  /** Response and attributes of one pixel. */
  method RespondAt(img: array2<int>, bp: Lut, maxNo: int, i: int, j: int) returns (v: int, dx: int, dy: int)
    requires DiscInside(img, i, j) && Bytes(img) && BrightnessLut(bp)
    ensures v == Refined(Window(img, bp, i, j), maxNo)
    ensures v > 0 ==> var m := Disc(Window(img, bp, i, j));
      m.n >= 100 && dx == TruncDiv(51 * m.x, m.n) && dy == TruncDiv(51 * m.y, m.n) && Abs(dx) < 153 && Abs(dy) < 153
  {
    v, dx, dy := 0, 0, 0;
    WindowLevels(img, bp, i, j);
    ghost var s := Window(img, bp, i, j);
    var n, stop := EarlyArea(img, bp, i, j, maxNo, s);
    if !stop {
      var x, y := Gravity(img, bp, i, j, s);
      var genuine := FalseCornerTest(img, bp, i, j, n, x, y, s);
      if genuine {
        MomentsBounded(s);
        AttributeBound(s, x);
        AttributeBound(s, y);
        v := maxNo - n;
        dx := TruncDiv(51 * x, n);
        dy := TruncDiv(51 * y, n);
      }
    }
  }
}
