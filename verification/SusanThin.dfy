/** One pixel of the edge-thinning scan: what it decides, what it writes, where it jumps. */
module SusanThin {
  import opened EdgeGraph
  import opened RingTest

  /** A snapshot of an image buffer. */
  type Grid = map<Pix, int>

  ghost function View(a: array2<int>): (m: Grid)
    reads a
  {
    map p | p in Rect(a.Length0, a.Length1) :: a[p.i, p.j]
  }

  function At(m: Grid, i: int, j: int): int {
    if Pix(i, j) in m then m[Pix(i, j)] else 100
  }

  /** A pixel of the edge map is an edge pixel when its level is below 8. */
  predicate On(m: Grid, i: int, j: int) {
    At(m, i, j) < 8
  }

  ghost function Edges(m: Grid): set<Pix> {
    set p | p in m && m[p] < 8
  }

  /** What the loop body does with an edge pixel. */
  datatype Act =
    | Keep                        // nothing is written
    | Drop                        // no neighbour: the pixel is removed
    | Grow(to: Pix, level: int)   // one neighbour: the line is extended
    | Shift(to: Pix)              // two corner neighbours: the pixel moves between them
    | Square                      // two sides at a right angle: the pixel is removed
    | Thin                        // more neighbours in one piece: the pixel is removed

  function NeighbourCount(m: Grid, i: int, j: int): int {
    B(On(m, i - 1, j - 1)) + B(On(m, i - 1, j)) + B(On(m, i - 1, j + 1)) +
    B(On(m, i, j - 1)) + B(On(m, i, j + 1)) +
    B(On(m, i + 1, j - 1)) + B(On(m, i + 1, j)) + B(On(m, i + 1, j + 1))
  }

  // ------------------------------------------------------------ extending a line

  /** Raster index 0..8 of the first neighbour that is an edge pixel; 8 is the last to be asked. */
  function FirstNeighbour(m: Grid, i: int, j: int): int {
    if On(m, i - 1, j - 1) then 0
    else if On(m, i - 1, j) then 1
    else if On(m, i - 1, j + 1) then 2
    else if On(m, i, j - 1) then 3
    else if On(m, i, j + 1) then 5
    else if On(m, i + 1, j - 1) then 6
    else if On(m, i + 1, j) then 7
    else 8
  }

  /** How much each of the nine cells counts when the neighbour sits at raster index k. */
  function Weights(k: int): (l: seq<int>)
    ensures |l| == 9 && l[4] == 0 && (forall q :: 0 <= q < 9 ==> 0 <= l[q] <= 4)
    ensures k in {0, 1, 2, 3, 5, 6, 7, 8} ==> l[k] == 0
  {
    if k == 0 then      [0, 0, 2,  0, 0, 3,  2, 3, 4]
    else if k == 1 then [0, 0, 0,  2, 0, 2,  3, 4, 3]
    else if k == 2 then [2, 0, 0,  3, 0, 0,  4, 3, 2]
    else if k == 3 then [0, 2, 3,  0, 0, 4,  0, 2, 3]
    else if k == 5 then [3, 2, 0,  4, 0, 0,  3, 2, 0]
    else if k == 6 then [2, 3, 4,  0, 0, 3,  0, 0, 2]
    else if k == 7 then [3, 4, 3,  2, 0, 2,  0, 0, 0]
    else                [4, 3, 2,  3, 0, 0,  2, 0, 0]
  }

  /** Steps between raster indices of the 3x3 block, along rows and columns. */
  function Distance(q: int, k: int): int {
    var d, e := q / 3 - k / 3, q % 3 - k % 3;
    (if d < 0 then -d else d) + (if e < 0 then -e else e)
  }

  /** Nothing for the pixel itself, the neighbour and what touches it; 4 straight across; elsewhere the
      distance from the neighbour. */
  predicate FavoursStraight(w: int, k: int, q: int) {
    w == if q == 4 || Distance(q, k) <= 1 then 0 else if q == 8 - k then 4 else Distance(q, k)
  }

  lemma CornerWeights(k: int, q: int)
    requires k in {0, 2, 6, 8} && 0 <= q < 9
    ensures FavoursStraight(Weights(k)[q], k, q)
  {
    if k == 0 {
    } else if k == 2 {
    } else if k == 6 {
    } else {
    }
  }

  lemma SideWeights(k: int, q: int)
    requires k in {1, 3, 5, 7} && 0 <= q < 9
    ensures FavoursStraight(Weights(k)[q], k, q)
  {
    if k == 1 {
    } else if k == 3 {
    } else if k == 5 {
    } else {
    }
  }

  /** Extensions favour going on straight, away from the neighbour already present. */
  lemma WeightsFavourStraight(k: int, q: int)
    requires 0 <= k < 9 && k != 4 && 0 <= q < 9
    ensures FavoursStraight(Weights(k)[q], k, q)
  {
    if k % 2 == 0 { CornerWeights(k, q); } else { SideWeights(k, q); }
  }

  function Cell(i: int, j: int, q: int): Pix {
    Pix(i + q / 3 - 1, j + q % 3 - 1)
  }

  /** The nine weighted responses l[0..8] around (i,j). */
  function Scores(r: Grid, i: int, j: int, k: int): (l: seq<int>)
    ensures |l| == 9
    ensures forall q :: 0 <= q < 9 ==> l[q] == Weights(k)[q] * At(r, Cell(i, j, q).i, Cell(i, j, q).j)
  {
    seq(9, q requires 0 <= q < 9 => Weights(k)[q] * At(r, Cell(i, j, q).i, Cell(i, j, q).j))
  }

  datatype Peak = Peak(m: int, q: int)

  /** Scan the first n entries, keeping the highest positive one met so far. */
  function Best(l: seq<int>, n: nat): Peak
    requires n <= |l|
  {
    if n == 0 then Peak(0, 0)
    else
      var b := Best(l, n - 1);
      if l[n - 1] > b.m then Peak(l[n - 1], n - 1) else b
  }

  /** The scan finds the highest positive entry and the first place where it stands. */
  lemma {:induction false} BestIsFirstHighest(l: seq<int>, n: nat)
    requires n <= |l|
    ensures var b := Best(l, n);
      && b.m >= 0 && 0 <= b.q && (b.m > 0 ==> b.q < n && l[b.q] == b.m)
      && (forall q :: 0 <= q < n ==> l[q] <= b.m)
      && (b.m > 0 ==> forall q :: 0 <= q < b.q ==> l[q] < b.m)
  {
    if n > 0 { BestIsFirstHighest(l, n - 1); }
  }

  function Top(l: seq<int>): Peak { Best(l, |l|) }

  function Extension(m: Grid, r: Grid, i: int, j: int): Act {
    var b := Top(Scores(r, i, j, FirstNeighbour(m, i, j)));
    if At(m, i, j) < 6 && b.m > 0 then
      Grow(Cell(i, j, b.q), if At(m, i, j) < 4 then 4 else At(m, i, j) + 1)
    else Keep
  }

  // ------------------------------------------------------------- two neighbours

  predicate TwoCorners(m: Grid, i: int, j: int) {
    var b00, b02, b20, b22 := On(m, i - 1, j - 1), On(m, i - 1, j + 1), On(m, i + 1, j - 1), On(m, i + 1, j + 1);
    B(b00) + B(b02) + B(b20) + B(b22) == 2 && (b00 || b22) && (b02 || b20)
  }

  /** The side between the two corners, as a step (dy, dx). */
  function Towards(m: Grid, i: int, j: int): (int, int) {
    if On(m, i - 1, j - 1) then (if On(m, i - 1, j + 1) then (-1, 0) else (0, -1))
    else (if On(m, i - 1, j + 1) then (0, 1) else (1, 0))
  }

  predicate ClearBeyond(m: Grid, i: int, j: int, y: int, x: int) {
    || (x == 0 && !On(m, i + 2 * y, j) && !On(m, i + 2 * y, j - 1) && !On(m, i + 2 * y, j + 1))
    || (y == 0 && !On(m, i, j + 2 * x) && !On(m, i + 1, j + 2 * x) && !On(m, i - 1, j + 2 * x))
  }

  function Straighten(m: Grid, r: Grid, i: int, j: int): Act {
    var (y, x) := Towards(m, i, j);
    if 10 * At(r, i + y, j + x) > 7 * At(r, i, j) && ClearBeyond(m, i, j, y, x) then Shift(Pix(i + y, j + x))
    else Keep
  }

  predicate RightAngle(m: Grid, i: int, j: int) {
    var b01, b12, b21, b10 := On(m, i - 1, j), On(m, i, j + 1), On(m, i + 1, j), On(m, i, j - 1);
    && B(b01) + B(b12) + B(b21) + B(b10) == 2 && (b10 || b12) && (b01 || b21)
    && (|| (b01 && (On(m, i - 2, j - 1) || On(m, i - 2, j + 1)))
        || (b10 && (On(m, i - 1, j - 2) || On(m, i + 1, j - 2)))
        || (b12 && (On(m, i - 1, j + 2) || On(m, i + 1, j + 2)))
        || (b21 && (On(m, i + 2, j - 1) || On(m, i + 2, j + 1))))
  }

  // -------------------------------------------------- more than two neighbours

  predicate OnePiece(m: Grid, i: int, j: int) {
    var b01, b12, b21, b10 := On(m, i - 1, j), On(m, i, j + 1), On(m, i + 1, j), On(m, i, j - 1);
    var p1 := On(m, i - 1, j - 1) || b01;
    var p2 := On(m, i - 1, j + 1) || b12;
    var p3 := On(m, i + 1, j + 1) || b21;
    var p4 := On(m, i + 1, j - 1) || b10;
    B(p1) + B(p2) + B(p3) + B(p4) - (B(b01 && p2) + B(b12 && p3) + B(b21 && p4) + B(b10 && p1)) < 2
  }

  function SideCount(m: Grid, i: int, j: int): int {
    B(On(m, i - 1, j)) + B(On(m, i, j + 1)) + B(On(m, i + 1, j)) + B(On(m, i, j - 1))
  }

  function Decide(m: Grid, r: Grid, i: int, j: int): Act {
    var n := NeighbourCount(m, i, j);
    if !On(m, i, j) then Keep
    else if n == 0 then Drop
    else if n == 1 then Extension(m, r, i, j)
    else if n == 2 then
      if TwoCorners(m, i, j) then Straighten(m, r, i, j)
      else if RightAngle(m, i, j) then Square else Keep
    else if SideCount(m, i, j) > 1 && OnePiece(m, i, j) then Thin
    else Keep
  }

  function Apply(m: Grid, i: int, j: int, act: Act): Grid {
    match act
    case Keep => m
    case Grow(to, level) => m[to := level]
    case Shift(to) => m[Pix(i, j) := 100][to := 3]
    case _ => m[Pix(i, j) := 100]
  }

  function AtLeast4(k: int): int { if k < 4 then 4 else k }

  /** Loop counters after the body; the loop then adds one to the column. */
  function Jump(i: int, j: int, act: Act): (int, int) {
    match act
    case Grow(to, _) =>
      var a, b := to.i - i + 1, to.j - j + 1;
      if a + a + b < 3 then (AtLeast4(i + a - 1), AtLeast4(j + b - 2)) else (i, j)
    case Square => (AtLeast4(i - 1), AtLeast4(j - 2))
    case Thin => (AtLeast4(i - 1), AtLeast4(j - 2))
    case _ => (i, j)
  }

  // ------------------------------------------------------------ the loop body

  /** `(*p < 8)` as 0 or 1. */
  function Bit(a: array2<int>, i: int, j: int): (b: int)
    requires 0 <= i < a.Length0 && 0 <= j < a.Length1
    reads a
    ensures b == B(On(View(a), i, j))
  {
    assert Pix(i, j) in View(a);
    B(a[i, j] < 8)
  }

  function Level(a: array2<int>, i: int, j: int): (v: int)
    requires 0 <= i < a.Length0 && 0 <= j < a.Length1
    reads a
    ensures v == At(View(a), i, j)
  {
    assert Pix(i, j) in View(a);
    a[i, j]
  }

  /** Raster scan of the nine weighted responses for the first highest one. */
  method Highest(l: seq<int>) returns (m: int, a: int, b: int)
    requires |l| == 9
    ensures 0 <= a < 3 && 0 <= b < 3 && Top(l) == Peak(m, 3 * a + b)
  {
    m, a, b := 0, 0, 0;
    var y := 0;
    while y < 3
      invariant 0 <= y <= 3 && 0 <= a < 3 && 0 <= b < 3
      invariant Best(l, 3 * y) == Peak(m, 3 * a + b)
    {
      var x := 0;
      while x < 3
        invariant 0 <= x <= 3 && 0 <= a < 3 && 0 <= b < 3
        invariant Best(l, 3 * y + x) == Peak(m, 3 * a + b)
      {
        if l[y + y + y + x] > m { m, a, b := l[y + y + y + x], y, x; }
        x := x + 1;
      }
      y := y + 1;
    }
  }

  method Weighted(r: array2<int>, i: int, j: int, k: int) returns (l: seq<int>)
    requires 1 <= i < r.Length0 - 1 && 1 <= j < r.Length1 - 1
    ensures l == Scores(View(r), i, j, k)
  {
    var wt := Weights(k);
    l := [wt[0] * Level(r, i - 1, j - 1), wt[1] * Level(r, i - 1, j), wt[2] * Level(r, i - 1, j + 1),
          wt[3] * Level(r, i, j - 1), wt[4] * Level(r, i, j), wt[5] * Level(r, i, j + 1),
          wt[6] * Level(r, i + 1, j - 1), wt[7] * Level(r, i + 1, j), wt[8] * Level(r, i + 1, j + 1)];
  }

  method AskNeighbours(mid: array2<int>, i: int, j: int) returns (k: int)
    requires 1 <= i < mid.Length0 - 1 && 1 <= j < mid.Length1 - 1
    ensures k == FirstNeighbour(View(mid), i, j)
  {
    if Bit(mid, i - 1, j - 1) == 1 { return 0; }
    if Bit(mid, i - 1, j) == 1 { return 1; }
    if Bit(mid, i - 1, j + 1) == 1 { return 2; }
    if Bit(mid, i, j - 1) == 1 { return 3; }
    if Bit(mid, i, j + 1) == 1 { return 5; }
    if Bit(mid, i + 1, j - 1) == 1 { return 6; }
    if Bit(mid, i + 1, j) == 1 { return 7; }
    return 8;
  }

  lemma CellAt(i: int, j: int, a: int, b: int)
    requires 0 <= a < 3 && 0 <= b < 3
    ensures Cell(i, j, 3 * a + b) == Pix(i + a - 1, j + b - 1)
  {
  }

  /** Where the line is to be continued and at which level; (m, a, b) as the code names them. */
  method BestContinuation(mid: array2<int>, r: array2<int>, i: int, j: int) returns (m: int, a: int, b: int, level: int)
    requires mid.Length0 == r.Length0 && mid.Length1 == r.Length1
    requires 1 <= i < mid.Length0 - 1 && 1 <= j < mid.Length1 - 1
    ensures 0 <= a < 3 && 0 <= b < 3
    ensures Extension(View(mid), View(r), i, j) == if m > 0 then Grow(Pix(i + a - 1, j + b - 1), level) else Keep
  {
    m, a, b := 0, 0, 0;
    var own := Level(mid, i, j);
    level := if own < 4 then 4 else own + 1;
    if own < 6 {
      var k := AskNeighbours(mid, i, j);
      var l := Weighted(r, i, j, k);
      m, a, b := Highest(l);
      CellAt(i, j, a, b);
    }
  }

  /** Two corner neighbours on one side: is the pixel to move into the line between them? */
  method ChooseShift(mid: array2<int>, r: array2<int>, i: int, j: int) returns (move: bool, x: int, y: int)
    requires mid.Length0 == r.Length0 && mid.Length1 == r.Length1
    requires 4 <= i < mid.Length0 - 4 && 4 <= j < mid.Length1 - 4 && TwoCorners(View(mid), i, j)
    ensures -1 <= x <= 1 && -1 <= y <= 1
    ensures Straighten(View(mid), View(r), i, j) == if move then Shift(Pix(i + y, j + x)) else Keep
  {
    move := false;
    if Bit(mid, i - 1, j - 1) == 1 {
      if Bit(mid, i - 1, j + 1) == 1 { x, y := 0, -1; } else { x, y := -1, 0; }
    } else {
      if Bit(mid, i - 1, j + 1) == 1 { x, y := 1, 0; } else { x, y := 0, 1; }
    }
    if 10 * Level(r, i + y, j + x) > 7 * Level(r, i, j) {
      if x == 0 {
        move := Bit(mid, i + 2 * y, j) == 0 && Bit(mid, i + 2 * y, j - 1) == 0 && Bit(mid, i + 2 * y, j + 1) == 0;
      } else {
        move := Bit(mid, i, j + 2 * x) == 0 && Bit(mid, i + 1, j + 2 * x) == 0 && Bit(mid, i - 1, j + 2 * x) == 0;
      }
    }
  }

  /** The odd right angle: two touching sides, one of which goes on diagonally. */
  method OddRightAngle(mid: array2<int>, i: int, j: int) returns (odd: bool)
    requires 4 <= i < mid.Length0 - 4 && 4 <= j < mid.Length1 - 4
    ensures odd == RightAngle(View(mid), i, j)
  {
    var b01, b12, b21, b10 := Bit(mid, i - 1, j), Bit(mid, i, j + 1), Bit(mid, i + 1, j), Bit(mid, i, j - 1);
    odd := false;
    if b01 + b12 + b21 + b10 == 2 && (b10 == 1 || b12 == 1) && (b01 == 1 || b21 == 1) {
      if b01 == 1 { odd := odd || Bit(mid, i - 2, j - 1) == 1 || Bit(mid, i - 2, j + 1) == 1; }
      if b10 == 1 { odd := odd || Bit(mid, i - 1, j - 2) == 1 || Bit(mid, i + 1, j - 2) == 1; }
      if b12 == 1 { odd := odd || Bit(mid, i - 1, j + 2) == 1 || Bit(mid, i + 1, j + 2) == 1; }
      if b21 == 1 { odd := odd || Bit(mid, i + 2, j - 1) == 1 || Bit(mid, i + 2, j + 1) == 1; }
    }
  }

  /** Two neighbours: straighten a notch, or clear an odd right angle. */
  method TidyPair(mid: array2<int>, r: array2<int>, i: int, j: int) returns (act: Act)
    requires mid.Length0 == r.Length0 && mid.Length1 == r.Length1
    requires 4 <= i < mid.Length0 - 4 && 4 <= j < mid.Length1 - 4
    ensures act == if TwoCorners(View(mid), i, j) then Straighten(View(mid), View(r), i, j)
                   else if RightAngle(View(mid), i, j) then Square else Keep
  {
    act := Keep;
    var b00, b02 := Bit(mid, i - 1, j - 1), Bit(mid, i - 1, j + 1);
    var b20, b22 := Bit(mid, i + 1, j - 1), Bit(mid, i + 1, j + 1);
    if b00 + b02 + b20 + b22 == 2 && (b00 == 1 || b22 == 1) && (b02 == 1 || b20 == 1) {
      var move, x, y := ChooseShift(mid, r, i, j);
      if move { act := Shift(Pix(i + y, j + x)); }
    } else {
      var odd := OddRightAngle(mid, i, j);
      if odd { act := Square; }
    }
  }

  /** More than two neighbours: delete the pixel when they form a single piece. */
  method ThinThick(mid: array2<int>, i: int, j: int) returns (act: Act)
    requires 4 <= i < mid.Length0 - 4 && 4 <= j < mid.Length1 - 4
    ensures act == if SideCount(View(mid), i, j) > 1 && OnePiece(View(mid), i, j) then Thin else Keep
  {
    act := Keep;
    var b01, b12, b21, b10 := Bit(mid, i - 1, j), Bit(mid, i, j + 1), Bit(mid, i + 1, j), Bit(mid, i, j - 1);
    if b01 + b12 + b21 + b10 > 1 {
      var b00, b02 := Bit(mid, i - 1, j - 1), Bit(mid, i - 1, j + 1);
      var b20, b22 := Bit(mid, i + 1, j - 1), Bit(mid, i + 1, j + 1);
      var p1 := if b00 == 1 || b01 == 1 then 1 else 0;
      var p2 := if b02 == 1 || b12 == 1 then 1 else 0;
      var p3 := if b22 == 1 || b21 == 1 then 1 else 0;
      var p4 := if b20 == 1 || b10 == 1 then 1 else 0;
      var links := (if b01 == 1 && p2 == 1 then 1 else 0) + (if b12 == 1 && p3 == 1 then 1 else 0) +
                   (if b21 == 1 && p4 == 1 then 1 else 0) + (if b10 == 1 && p1 == 1 then 1 else 0);
      if p1 + p2 + p3 + p4 - links < 2 { act := Thin; }
    }
  }

  /** The decision of the loop body for one edge pixel; every read is inside the image. */
  method Choose(mid: array2<int>, r: array2<int>, i: int, j: int) returns (act: Act)
    requires mid.Length0 == r.Length0 && mid.Length1 == r.Length1
    requires 4 <= i < mid.Length0 - 4 && 4 <= j < mid.Length1 - 4 && Bit(mid, i, j) == 1
    ensures act == Decide(View(mid), View(r), i, j)
  {
    act := Keep;
    var n := Bit(mid, i - 1, j - 1) + Bit(mid, i - 1, j) + Bit(mid, i - 1, j + 1) +
             Bit(mid, i, j - 1) + Bit(mid, i, j + 1) +
             Bit(mid, i + 1, j - 1) + Bit(mid, i + 1, j) + Bit(mid, i + 1, j + 1);
    assert n == NeighbourCount(View(mid), i, j);
    if n == 0 {
      act := Drop;
    } else if n == 1 {
      var m, a, b, level := BestContinuation(mid, r, i, j);
      if m > 0 { act := Grow(Pix(i + a - 1, j + b - 1), level); }
    } else if n == 2 {
      act := TidyPair(mid, r, i, j);
    } else {
      act := ThinThick(mid, i, j);
    }
  }

  /** The act writes at most the pixel itself and one of its eight neighbours. */
  predicate Local(i: int, j: int, act: Act) {
    match act
    case Grow(to, _) => -1 <= to.i - i <= 1 && -1 <= to.j - j <= 1
    case Shift(to) => -1 <= to.i - i <= 1 && -1 <= to.j - j <= 1
    case _ => true
  }

  lemma DecideIsLocal(m: Grid, r: Grid, i: int, j: int)
    ensures Local(i, j, Decide(m, r, i, j))
  {
    BestIsFirstHighest(Scores(r, i, j, FirstNeighbour(m, i, j)), 9);
  }

  method Write(mid: array2<int>, i: int, j: int, act: Act)
    requires 1 <= i < mid.Length0 - 1 && 1 <= j < mid.Length1 - 1 && Local(i, j, act)
    modifies mid
    ensures View(mid) == Apply(old(View(mid)), i, j, act)
  {
    match act
    case Keep =>
    case Grow(to, level) => mid[to.i, to.j] := level;
    case Shift(to) => mid[i, j] := 100; mid[to.i, to.j] := 3;
    case _ => mid[i, j] := 100;
    assert View(mid) == Apply(old(View(mid)), i, j, act);
  }

  /** The loop body for one edge pixel: decide, write, step the loop counters back if asked to. */
  method ThinPixel(mid: array2<int>, r: array2<int>, i: int, j: int) returns (ni: int, nj: int)
    requires mid != r && mid.Length0 == r.Length0 && mid.Length1 == r.Length1
    requires 4 <= i < mid.Length0 - 4 && 4 <= j < mid.Length1 - 4 && Bit(mid, i, j) == 1
    modifies mid
    ensures var act := Decide(old(View(mid)), View(r), i, j);
      View(mid) == Apply(old(View(mid)), i, j, act) && (ni, nj) == Jump(i, j, act)
  {
    var act := Choose(mid, r, i, j);
    DecideIsLocal(View(mid), View(r), i, j);
    Write(mid, i, j, act);
    ni, nj := i, j;
    match act
    case Grow(to, _) =>
      var a, b := to.i - i + 1, to.j - j + 1;
      if a + a + b < 3 {
        ni, nj := i + (a - 1), j + (b - 2);
        if ni < 4 { ni := 4; }
        if nj < 4 { nj := 4; }
      }
    case Keep =>
    case Drop =>
    case Shift(_) =>
    case _ =>
      ni, nj := i - 1, j - 2;
      if ni < 4 { ni := 4; }
      if nj < 4 { nj := 4; }
  }
}
