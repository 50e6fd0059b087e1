/** The direction across an edge, from the moments of the area around a pixel. */
module Gradient {
  import opened Usan
  import opened CornerResponse

  /** The four directions in which an edge can be crossed. */
  datatype Axis = Vertical | Horizontal | Diagonal | Antidiagonal

  /** One step across the edge, as (rows, columns). */
  function Across(x: Axis): (int, int) {
    match x
    case Vertical => (0, 1)
    case Horizontal => (1, 0)
    case Diagonal => (1, 1)
    case Antidiagonal => (-1, 1)
  }

  /** What a pixel decides: the axis, and whether it came from the symmetry moments. */
  datatype Direction = Direction(axis: Axis, symmetric: bool)

  /** Second moments: of the columns, of the rows, and mixed. */
  datatype Spread = Spread(x: int, y: int, w: int)

  /** The axis nearest the line to the centre of gravity (x,y): z = y/x against 0.5 and 2. */
  function GravityAxis(x: int, y: int): Axis {
    if x == 0 then Horizontal
    else if 2 * Abs(y) < Abs(x) then Vertical
    else if Abs(y) > 2 * Abs(x) then Horizontal
    else if (x > 0) == (y >= 0) then Diagonal else Antidiagonal
  }

  /** The axis of symmetry: z = x/y against 0.5 and 2. */
  function SymmetryAxis(m: Spread): Axis {
    if m.y == 0 then Horizontal
    else if 2 * m.x < m.y then Vertical
    else if m.x > 2 * m.y then Horizontal
    else if m.w > 0 then Antidiagonal else Diagonal
  }

  /** The gravity decides when the area is large enough and the centre of gravity far enough from the
      nucleus, tenths of the area; otherwise the symmetry does. */
  function Direct(m: Moments, spread: Spread, least: int, tenths: int): Direction {
    if m.n > least && 100 * (m.x * m.x + m.y * m.y) > tenths * tenths * (m.n * m.n) then
      Direction(GravityAxis(m.x, m.y), false)
    else Direction(SymmetryAxis(spread), true)
  }

  // ----------------------------------------------------------------- what the axes mean

  function MirrorAxis(x: Axis): Axis {
    match x
    case Diagonal => Antidiagonal
    case Antidiagonal => Diagonal
    case _ => x
  }

  function TurnAxis(x: Axis): Axis {
    match x
    case Vertical => Horizontal
    case Horizontal => Vertical
    case Diagonal => Antidiagonal
    case Antidiagonal => Diagonal
  }

  /** The axis does not depend on the side the gravity lies on; mirroring the picture mirrors the axis,
      and turning it by a right angle turns the axis. */
  lemma GravityAxisTurns(x: int, y: int)
    ensures x != 0 && y != 0 ==> GravityAxis(-x, -y) == GravityAxis(x, y)
    ensures x != 0 && y != 0 ==> GravityAxis(x, -y) == MirrorAxis(GravityAxis(x, y))
    ensures x != 0 && y != 0 ==> GravityAxis(-y, x) == TurnAxis(GravityAxis(x, y))
    ensures x != 0 && y == 0 ==> GravityAxis(x, y) == Vertical
    ensures x == 0 ==> GravityAxis(x, y) == Horizontal
  {
  }

  /** The chosen axis is within 45 degrees of the line to the centre of gravity. */
  lemma GravityAxisNear(x: int, y: int)
    requires x != 0
    ensures var (a, b) := Across(GravityAxis(x, y)); Abs(a * x - b * y) <= Abs(a * y + b * x)
  {
  }

  /** Turning the picture by a right angle exchanges the moments and turns the axis of symmetry. */
  lemma SymmetryAxisTurns(m: Spread)
    requires m.x > 0 && m.y > 0 && m.w != 0
    ensures SymmetryAxis(Spread(m.y, m.x, -m.w)) == TurnAxis(SymmetryAxis(m))
  {
  }

  /** A line from top to bottom, all of it in the column of the nucleus, is a vertical edge and is crossed
      along the row; a line from left to right is a horizontal edge and is crossed along the column. */
  lemma LineAxis(m: Spread)
    requires m.x >= 0 && m.y >= 0
    ensures m.x == 0 && m.y > 0 ==> SymmetryAxis(m) == Vertical && Across(SymmetryAxis(m)) == (0, 1)
    ensures m.y == 0 ==> SymmetryAxis(m) == Horizontal && Across(SymmetryAxis(m)) == (1, 0)
  {
  }

  /** A diagonal line is crossed at a right angle: pixels on the falling diagonal have positive mixed moment
      and are crossed along the rising one, and the other way round. */
  lemma DiagonalAxis(m: Spread)
    requires m.x == m.y > 0 && m.w != 0
    ensures Across(SymmetryAxis(m)) == if m.w > 0 then (-1, 1) else (1, 1)
  {
  }

  // ------------------------------------------------------------------ the quotients of the code

  /** The axis by the quotient z = y/x, a very large one standing for x = 0. */
  function QuotientAxis(z: real): Axis {
    var (t, w) := if z < 0.0 then (-z, -1) else (z, 1);
    if t < 0.5 then Vertical else if t > 2.0 then Horizontal else if w > 0 then Diagonal else Antidiagonal
  }

  lemma Scaled(t: real, c: real, a: real)
    requires a > 0.0
    ensures t < c <==> t * a < c * a
    ensures t > c <==> t * a > c * a
  {
    var d := t - c;
    assert d * a == t * a - c * a;
    assert d > 0.0 ==> d * a > 0.0;
    assert d < 0.0 ==> (-d) * a > 0.0;
  }

  lemma QuotientSign(y: int, x: int, z: real)
    requires x != 0 && z * x as real == y as real
    ensures z < 0.0 <==> (y < 0 < x || x < 0 < y)
    ensures (if z < 0.0 then -z else z) * Abs(x) as real == Abs(y) as real
  {
    if x > 0 {
      Scaled(z, 0.0, x as real);
    } else {
      var a := (-x) as real;
      assert z * a == -(y as real);
      Scaled(z, 0.0, a);
    }
  }

  lemma Compared(t: real, a: real, b: real)
    requires a > 0.0 && t * a == b
    ensures t < 0.5 <==> 2.0 * b < a
    ensures t > 2.0 <==> b > 2.0 * a
  {
    Scaled(t, 0.5, a);
    Scaled(t, 2.0, a);
  }

  lemma RealOrder(p: int, q: int)
    ensures 2.0 * p as real < q as real <==> 2 * p < q
  {
    assert (2 * p) as real == 2.0 * p as real;
  }

  lemma ScaledOrder(y: int, x: int, z: real)
    requires x != 0 && z * x as real == y as real
    ensures z < 0.0 <==> (y < 0 < x || x < 0 < y)
    ensures var t := if z < 0.0 then -z else z;
      (t < 0.5 <==> 2 * Abs(y) < Abs(x)) && (t > 2.0 <==> Abs(y) > 2 * Abs(x))
  {
    QuotientSign(y, x, z);
    Compared(if z < 0.0 then -z else z, Abs(x) as real, Abs(y) as real);
    RealOrder(Abs(y), Abs(x));
    RealOrder(Abs(x), Abs(y));
  }

  /** The integer comparisons decide like the quotient. */
  lemma GravityAxisByQuotient(x: int, y: int, z: real)
    requires if x == 0 then z == 1000000.0 else z * x as real == y as real
    ensures GravityAxis(x, y) == QuotientAxis(z)
  {
    if x != 0 { ScaledOrder(y, x, z); }
  }

  /** So do those of the second moments. */
  lemma SymmetryAxisByQuotient(m: Spread, z: real)
    requires m.x >= 0 && m.y >= 0 && if m.y == 0 then z == 1000000.0 else z * m.y as real == m.x as real
    ensures SymmetryAxis(m) ==
      if z < 0.5 then Vertical else if z > 2.0 then Horizontal else if m.w > 0 then Antidiagonal else Diagonal
  {
    if m.y != 0 { ScaledOrder(m.x, m.y, z); }
  }

  /** And the squared comparison decides like the distance z of the centre of gravity: more than `tenths`
      tenths of the area. */
  lemma FarByDistance(x: int, y: int, n: int, tenths: int, z: real)
    requires n >= 0 && tenths >= 0 && z >= 0.0 && z * z == (x * x + y * y) as real
    ensures 100 * (x * x + y * y) > tenths * tenths * (n * n) <==> 10.0 * z > (tenths * n) as real
  {
    var t := (tenths * n) as real;
    assert tenths * n >= 0;
    RealSquares(10.0 * z, t);
    assert 10.0 * z * (10.0 * z) == 100.0 * (z * z);
    ProductSquare(tenths, n);
    RealProduct(tenths * n);
  }

  lemma RealSquares(a: real, b: real)
    requires a >= 0.0 && b >= 0.0
    ensures a > b <==> a * a > b * b
  {
    var d := a - b;
    assert a * a - b * b == d * (a + b);
    if d > 0.0 {
      Scaled(d, 0.0, a + b);
    } else {
      assert d * (a + b) <= 0.0;
    }
  }

  lemma ProductSquare(a: int, b: int)
    ensures a * b * (a * b) == a * a * (b * b)
  {
  }

  lemma {:induction false} RealProduct(k: int)
    requires k >= 0
    ensures k as real * k as real == (k * k) as real
  {
    if k > 0 {
      RealProduct(k - 1);
      assert (k - 1) * (k - 1) == k * k - 2 * k + 1;
      var a := (k - 1) as real;
      assert k as real == a + 1.0;
      assert (a + 1.0) * (a + 1.0) == a * a + 2.0 * a + 1.0;
    }
  }

  /** When the gravity decides: for the disc, an area above 600 with its centre of gravity more than 0.9 of
      the area away. */
  lemma GravityDecides(s: seq<int>, z: real)
    requires |s| == 49 && Disc(s).n >= 0 && z >= 0.0
    requires z * z == (Disc(s).x * Disc(s).x + Disc(s).y * Disc(s).y) as real
    ensures !DiscDirection(s).symmetric <==> Disc(s).n > 600 && z > 0.9 * Disc(s).n as real
    ensures DiscDirection(s).axis ==
      if DiscDirection(s).symmetric then SymmetryAxis(DiscSpread(s)) else GravityAxis(Disc(s).x, Disc(s).y)
  {
    FarByDistance(Disc(s).x, Disc(s).y, Disc(s).n, 9, z);
  }

  // -------------------------------------------------------------- moments of the 37-pixel disc

  /** Second moment along a row. */
  function RowSpread(s: seq<int>, dy: int, from: int, end: int): int
    requires |s| == 49 && -3 <= dy <= 3 && -3 <= from && end <= 4
    decreases |s|, end - from
  {
    if from >= end then 0
    else RowSpread(s, dy, from, end - 1) + (end - 1) * (end - 1) * s[At(dy, end - 1)]
  }

  /** The first n rows of the disc. */
  function Spreads(s: seq<int>, n: nat): Spread
    requires |s| == 49 && n <= 7
    decreases |s|, n
  {
    if n == 0 then Spread(0, 0, 0)
    else
      var dy := n - 4;
      var m, t := Spreads(s, n - 1), Span(s, dy, -Half(dy), Half(dy) + 1);
      Spread(m.x + RowSpread(s, dy, -Half(dy), Half(dy) + 1), m.y + dy * dy * t.n, m.w + dy * t.x)
  }

  function DiscSpread(s: seq<int>): Spread
    requires |s| == 49
  {
    Spreads(s, |s| / 7)
  }

  function DiscDirection(s: seq<int>): Direction
    requires |s| == 49
  {
    Direct(Disc(s), DiscSpread(s), 600, 9)
  }

  /** One row of the accumulation x += dx*dx*c, y += dy*dy*c, w += dx*dy*c; the nucleus is not read. */
  method SpreadRow(img: array2<int>, bp: Lut, i: int, j: int, dy: int, m: Spread, ghost s: seq<int>)
    returns (t: Spread)
    requires DiscInside(img, i, j) && IsWindow(img, bp, i, j, s) && -3 <= dy <= 3
    ensures var span := Span(s, dy, -Half(dy), Half(dy) + 1);
      t == Spread(m.x + RowSpread(s, dy, -Half(dy), Half(dy) + 1), m.y + dy * dy * span.n, m.w + dy * span.x)
  {
    var x, y, w := m.x, m.y, m.w;
    var from, end := -Half(dy), Half(dy) + 1;
    var dx := from;
    while dx < end
      invariant from <= dx <= end && x == m.x + RowSpread(s, dy, from, dx)
      invariant y == m.y + dy * dy * Span(s, dy, from, dx).n && w == m.w + dy * Span(s, dy, from, dx).x
    {
      ghost var c := s[At(dy, dx)];
      SpreadStep(dy, dx, c, Span(s, dy, from, dx).n, Span(s, dy, from, dx).x);
      if dx != 0 || dy != 0 {
        var c := Read(img, bp, i, j, dy, dx, s);
        x, y, w := x + dx * dx * c, y + dy * dy * c, w + dx * dy * c;
      }
      dx := dx + 1;
    }
    t := Spread(x, y, w);
  }

  lemma SpreadStep(dy: int, dx: int, c: int, n: int, x: int)
    ensures dy * dy * (n + c) == dy * dy * n + dy * dy * c
    ensures dy * (x + dx * c) == dy * x + dx * dy * c
  {
    assert dy * (dx * c) == dx * dy * c;
  }

  /** The second moments of the disc, row by row. */
  method Symmetry(img: array2<int>, bp: Lut, i: int, j: int, ghost s: seq<int>) returns (m: Spread)
    requires DiscInside(img, i, j) && IsWindow(img, bp, i, j, s)
    ensures m == DiscSpread(s)
  {
    m := Spread(0, 0, 0);
    var dy := -3;
    while dy <= 3
      invariant -3 <= dy <= 4 && m == Spreads(s, dy + 3)
    {
      m := SpreadRow(img, bp, i, j, dy, m, s);
      dy := dy + 1;
    }
  }

  /** The direction at one pixel, for n its area. */
  method FindDirection(img: array2<int>, bp: Lut, i: int, j: int, n: int) returns (d: Direction)
    requires DiscInside(img, i, j) && Bytes(img) && BrightnessLut(bp) && n == Disc(Window(img, bp, i, j)).n
    ensures d == DiscDirection(Window(img, bp, i, j))
  {
    ghost var s := Window(img, bp, i, j);
    WindowLevels(img, bp, i, j);
    d := DirectionOf(img, bp, i, j, n, s);
  }

  method DirectionOf(img: array2<int>, bp: Lut, i: int, j: int, n: int, ghost s: seq<int>) returns (d: Direction)
    requires DiscInside(img, i, j) && IsWindow(img, bp, i, j, s) && Levels(s) && n == Disc(s).n
    ensures d == DiscDirection(s)
  {
    if n > 600 {
      var x, y := Gravity(img, bp, i, j, s);
      if 100 * (x * x + y * y) > 81 * (n * n) {
        return Direction(GravityAxis(x, y), false);
      }
    }
    var m := Symmetry(img, bp, i, j, s);
    d := Direction(SymmetryAxis(m), true);
  }

  // ------------------------------------------------------------------ a straight edge

  /** The window looks the same upside down. */
  predicate UpsideDown(s: seq<int>) {
    |s| == 49 && forall dy, dx :: -3 <= dy <= 3 && -3 <= dx <= 3 ==> s[At(dy, dx)] == s[At(-dy, dx)]
  }

  lemma {:induction false} SpanUpsideDown(s: seq<int>, dy: int, from: int, end: int)
    requires UpsideDown(s) && -3 <= dy <= 3 && -3 <= from && end <= 4
    ensures Span(s, dy, from, end) == Span(s, -dy, from, end)
    decreases end - from
  {
    if from < end {
      SpanUpsideDown(s, dy, from, end - 1);
      assert s[At(dy, end - 1)] == s[At(-dy, end - 1)];
    }
  }

  /** An edge that runs straight up is found to be vertical, whenever the gravity decides. */
  lemma StraightUpIsVertical(s: seq<int>)
    requires UpsideDown(s)
    ensures Disc(s).y == 0 && (Disc(s).x != 0 && !DiscDirection(s).symmetric ==> DiscDirection(s).axis == Vertical)
  {
    DiscRows(s);
    SpanUpsideDown(s, 1, -3, 4);
    SpanUpsideDown(s, 2, -2, 3);
    SpanUpsideDown(s, 3, -1, 2);
  }
}
