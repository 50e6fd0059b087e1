/** The edge mode from image to marked image: responses, suppression across the edge, thinning, drawing.
    `small` selects the 3x3 mask. */
module EdgeMode {
  import opened EdgeGraph
  import opened Usan
  import opened Gradient
  import opened SmallMask
  import opened SusanThin
  import opened ThinRun
  import Draw = EdgeDraw

  /** How far inside the image pixels are marked. */
  function Border(small: bool): int { if small then 2 else 4 }

  /** Strictly above the next pixel one way across the edge, not below the next the other way; with the
      large mask the same for the pixels after these. */
  predicate Ridge(r: array2<int>, small: bool, x: Axis, i: int, j: int)
    requires Scanned(r, Border(small), i, j)
    reads r
  {
    var (a, b) := Across(x);
    && r[i, j] > r[i + a, j + b] && r[i, j] >= r[i - a, j - b]
    && (!small ==> r[i, j] > r[i + 2 * a, j + 2 * b] && r[i, j] >= r[i - 2 * a, j - 2 * b])
  }

  /** How many pixels are compared on either side. */
  function Reach(small: bool): int { if small then 1 else 2 }

  /** Strictly above the pixel t steps one way, not below the one t steps the other way. */
  predicate Dominates(r: array2<int>, small: bool, x: Axis, i: int, j: int, t: int)
    requires Scanned(r, Border(small), i, j) && 1 <= t <= Reach(small)
    reads r
  {
    var (a, b) := Across(x);
    r[i, j] > r[i + t * a, j + t * b] && r[i, j] >= r[i - t * a, j - t * b]
  }

  /** The comparisons, distance by distance. */
  lemma RidgeMeans(r: array2<int>, small: bool, x: Axis, i: int, j: int)
    requires Scanned(r, Border(small), i, j)
    ensures Ridge(r, small, x, i, j) <==> forall t :: 1 <= t <= Reach(small) ==> Dominates(r, small, x, i, j, t)
  {
    if forall t :: 1 <= t <= Reach(small) ==> Dominates(r, small, x, i, j, t) {
      assert Dominates(r, small, x, i, j, 1);
      assert !small ==> Dominates(r, small, x, i, j, 2);
    }
  }

  /** The direction at each pixel, row by row. */
  type Compass = seq<seq<Direction>>

  ghost predicate Shaped(img: array2<int>, compass: Compass) {
    |compass| == img.Length0 && forall a :: 0 <= a < |compass| ==> |compass[a]| == img.Length1
  }

  function DirectionAt(img: array2<int>, bp: Lut, small: bool, i: int, j: int): Direction
    requires Scanned(img, Border(small), i, j)
    reads img
  {
    if small then BlockDirection(Block(img, bp, i, j)) else DiscDirection(Window(img, bp, i, j))
  }

  /** `compass` holds the direction of every pixel that can be marked. */
  ghost predicate Directs(img: array2<int>, bp: Lut, small: bool, compass: Compass)
    reads img
  {
    Shaped(img, compass) &&
    forall i, j {:trigger DirectionAt(img, bp, small, i, j)} ::
      Scanned(img, Border(small), i, j) ==> compass[i][j] == DirectionAt(img, bp, small, i, j)
  }

  lemma ListDirections(img: array2<int>, bp: Lut, small: bool) returns (compass: Compass)
    ensures Directs(img, bp, small, compass)
  {
    compass := seq(img.Length0, i requires 0 <= i reads img => seq(img.Length1, j requires 0 <= j reads img =>
      if Scanned(img, Border(small), i, j) then DirectionAt(img, bp, small, i, j) else Direction(Vertical, false)));
  }

  predicate Marked(r: array2<int>, small: bool, compass: Compass, i: int, j: int)
    requires Shaped(r, compass)
    reads r
  {
    Scanned(r, Border(small), i, j) && r[i, j] > 0 && Ridge(r, small, compass[i][j].axis, i, j)
  }

  function Mark(r: array2<int>, small: bool, compass: Compass, i: int, j: int): int
    requires Shaped(r, compass)
    reads r
  {
    if !Marked(r, small, compass, i, j) then 100 else if compass[i][j].symmetric then 2 else 1
  }

  /** Suppression works: of the consecutive pixels across an edge that agree on the direction, two with
      the small mask and three with the large one, at most one is marked. */
  lemma MarksAreThin(r: array2<int>, small: bool, compass: Compass, p: Pix, q: Pix, k: int)
    requires Shaped(r, compass) && Marked(r, small, compass, p.i, p.j) && Marked(r, small, compass, q.i, q.j)
    requires compass[p.i][p.j].axis == compass[q.i][q.j].axis && 1 <= k <= (if small then 1 else 2)
    ensures var (a, b) := Across(compass[p.i][p.j].axis); q != Pix(p.i + k * a, p.j + k * b)
  {
  }

  /** `r` holds the responses of the mask. */
  ghost predicate HoldsResponse(r: array2<int>, img: array2<int>, bp: Lut, maxNo: int, small: bool)
    requires r.Length0 == img.Length0 && r.Length1 == img.Length1
    reads r, img
  {
    if small then HoldsBlockResponse(r, img, bp) else HoldsAreaResponse(r, img, bp, maxNo, 3)
  }

  function ResponseAt(img: array2<int>, bp: Lut, maxNo: int, small: bool, i: int, j: int): int
    reads img
  {
    if small then (if Scanned(img, 1, i, j) then BlockResponse(img, bp, i, j) else 0)
    else if Scanned(img, 3, i, j) then AreaResponse(img, bp, maxNo, i, j) else 0
  }

  /** What a mark tells. It stands exactly on the ridges across the direction of their pixel, since a ridge
      of responses is positive; it is 1 where the gravity gave the direction and 2 where the symmetry did. */
  lemma MarkTells(r: array2<int>, img: array2<int>, bp: Lut, maxNo: int, small: bool, compass: Compass, i: int, j: int)
    requires r.Length0 == img.Length0 && r.Length1 == img.Length1 && Scanned(r, Border(small), i, j)
    requires HoldsResponse(r, img, bp, maxNo, small) && Directs(img, bp, small, compass)
    ensures var d, mark := DirectionAt(img, bp, small, i, j), Mark(r, small, compass, i, j);
      && (mark < 8 <==> forall t :: 1 <= t <= Reach(small) ==> Dominates(r, small, d.axis, i, j, t))
      && (mark < 8 ==> mark == if d.symmetric then 2 else 1)
  {
    var d := DirectionAt(img, bp, small, i, j);
    assert compass[i][j] == d;
    RidgeMeans(r, small, d.axis, i, j);
    ResponsesNonNegative(r, img, bp, maxNo, small);
  }

  /** `resp` lists the responses, row by row. */
  ghost predicate Responds(img: array2<int>, bp: Lut, maxNo: int, small: bool, resp: seq<seq<int>>)
    reads img
  {
    |resp| == img.Length0 && (forall a :: 0 <= a < |resp| ==> |resp[a]| == img.Length1) &&
    forall i, j {:trigger ResponseAt(img, bp, maxNo, small, i, j)} ::
      0 <= i < img.Length0 && 0 <= j < img.Length1 ==> resp[i][j] == ResponseAt(img, bp, maxNo, small, i, j)
  }

  lemma ListResponses(r: array2<int>, img: array2<int>, bp: Lut, maxNo: int, small: bool) returns (resp: seq<seq<int>>)
    requires r.Length0 == img.Length0 && r.Length1 == img.Length1 && HoldsResponse(r, img, bp, maxNo, small)
    ensures Responds(img, bp, maxNo, small, resp)
    ensures forall i, j :: 0 <= i < r.Length0 && 0 <= j < r.Length1 ==> r[i, j] == resp[i][j]
  {
    resp := seq(r.Length0, i requires 0 <= i < r.Length0 reads r =>
      seq(r.Length1, j requires 0 <= i < r.Length0 && 0 <= j < r.Length1 reads r => r[i, j]));
  }

  /** Where the response is positive, the limit minus the response is the area. */
  lemma AreaRecovered(r: array2<int>, img: array2<int>, bp: Lut, maxNo: int, small: bool, i: int, j: int)
    requires r.Length0 == img.Length0 && r.Length1 == img.Length1 && HoldsResponse(r, img, bp, maxNo, small)
    requires Scanned(r, Border(small), i, j) && r[i, j] > 0
    ensures small ==> SMALL_MAX - r[i, j] == BlockMoments(Block(img, bp, i, j)).n
    ensures !small ==> maxNo - r[i, j] == Disc(Window(img, bp, i, j)).n
  {
  }

  method Look(img: array2<int>, r: array2<int>, bp: Lut, maxNo: int, small: bool, i: int, j: int,
              ghost compass: Compass)
    returns (d: Direction)
    requires r.Length0 == img.Length0 && r.Length1 == img.Length1 && Bytes(img) && BrightnessLut(bp)
    requires HoldsResponse(r, img, bp, maxNo, small) && Directs(img, bp, small, compass)
    requires Scanned(r, Border(small), i, j) && r[i, j] > 0
    ensures d == compass[i][j]
  {
    AreaRecovered(r, img, bp, maxNo, small, i, j);
    if small {
      BlockLevels(img, bp, i, j);
      d := FindBlockDirection(img, bp, i, j, SMALL_MAX - r[i, j], Block(img, bp, i, j));
    } else {
      d := FindDirection(img, bp, i, j, maxNo - r[i, j]);
    }
    assert d == DirectionAt(img, bp, small, i, j);
  }

  /** What the marking loop writes at one pixel; 100 stands for nothing. */
  method MarkPixel(img: array2<int>, r: array2<int>, bp: Lut, maxNo: int, small: bool, i: int, j: int,
                   ghost compass: Compass)
    returns (mark: int)
    requires r.Length0 == img.Length0 && r.Length1 == img.Length1 && Bytes(img) && BrightnessLut(bp)
    requires HoldsResponse(r, img, bp, maxNo, small) && Directs(img, bp, small, compass)
    requires Scanned(r, Border(small), i, j)
    ensures mark == Mark(r, small, compass, i, j)
  {
    mark := 100;
    if r[i, j] > 0 {
      var d := Look(img, r, bp, maxNo, small, i, j, compass);
      if Ridge(r, small, d.axis, i, j) {
        mark := if d.symmetric then 2 else 1;
      }
    }
  }

  /** `mid` holds the marks of the pixels before raster position (i,j), and 100 elsewhere. */
  ghost predicate MarkedSoFar(r: array2<int>, mid: array2<int>, small: bool, compass: Compass, i: int, j: int)
    requires Shaped(r, compass) && r.Length0 == mid.Length0 && r.Length1 == mid.Length1
    reads r, mid
  {
    forall a, b :: 0 <= a < mid.Length0 && 0 <= b < mid.Length1 ==>
      mid[a, b] == if a < i || (a == i && b < j) then Mark(r, small, compass, a, b) else 100
  }

  method PutMark(mid: array2<int>, r: array2<int>, small: bool, i: int, j: int, mark: int, ghost compass: Compass)
    requires r != mid && Shaped(r, compass) && r.Length0 == mid.Length0 && r.Length1 == mid.Length1
    requires 0 <= i < mid.Length0 && 0 <= j < mid.Length1 && mark == Mark(r, small, compass, i, j)
    requires MarkedSoFar(r, mid, small, compass, i, j)
    modifies mid
    ensures MarkedSoFar(r, mid, small, compass, i, j + 1)
  {
    if mark != 100 { mid[i, j] := mark; }
  }

  /** Nothing is marked outside the scanned area. */
  lemma RowDone(r: array2<int>, mid: array2<int>, small: bool, compass: Compass, i: int, j: int)
    requires Shaped(r, compass) && r.Length0 == mid.Length0 && r.Length1 == mid.Length1
    requires j >= r.Length1 - Border(small) && MarkedSoFar(r, mid, small, compass, i, j)
    ensures MarkedSoFar(r, mid, small, compass, i + 1, Border(small))
  {
  }

  /** The marking loop. The map arrives filled with 100. */
  method MarkEdges(img: array2<int>, r: array2<int>, mid: array2<int>, bp: Lut, maxNo: int, small: bool,
                   ghost compass: Compass)
    requires img != mid && r != mid && Bytes(img) && BrightnessLut(bp)
    requires r.Length0 == img.Length0 == mid.Length0 && r.Length1 == img.Length1 == mid.Length1
    requires HoldsResponse(r, img, bp, maxNo, small) && Directs(img, bp, small, compass)
    requires forall i, j :: 0 <= i < mid.Length0 && 0 <= j < mid.Length1 ==> mid[i, j] == 100
    modifies mid
    ensures forall i, j :: 0 <= i < mid.Length0 && 0 <= j < mid.Length1 ==> mid[i, j] == Mark(r, small, compass, i, j)
  {
    var margin := Border(small);
    var i := margin;
    while i < r.Length0 - margin
      invariant margin <= i && MarkedSoFar(r, mid, small, compass, i, margin)
    {
      var j := margin;
      while j < r.Length1 - margin
        invariant margin <= j && MarkedSoFar(r, mid, small, compass, i, j)
      {
        var mark := MarkPixel(img, r, bp, maxNo, small, i, j, compass);
        PutMark(mid, r, small, i, j, mark, compass);
        j := j + 1;
      }
      RowDone(r, mid, small, compass, i, j);
      i := i + 1;
    }
  }

  /** The marks are a map the thinning may start from, clear of the border. */
  lemma MarksAreSeeds(r: array2<int>, mid: array2<int>, small: bool, compass: Compass)
    requires r.Length0 == mid.Length0 && r.Length1 == mid.Length1 && Shaped(r, compass)
    requires forall i, j :: 0 <= i < r.Length0 && 0 <= j < r.Length1 ==> r[i, j] >= 0
    requires forall i, j :: 0 <= i < mid.Length0 && 0 <= j < mid.Length1 ==> mid[i, j] == Mark(r, small, compass, i, j)
    ensures Seeded(Scan(mid.Length0, mid.Length1, View(r)), View(mid))
    ensures Inset(mid.Length0, mid.Length1, Edges(View(mid)), Border(small))
  {
  }

  lemma ResponsesNonNegative(r: array2<int>, img: array2<int>, bp: Lut, maxNo: int, small: bool)
    requires r.Length0 == img.Length0 && r.Length1 == img.Length1 && HoldsResponse(r, img, bp, maxNo, small)
    ensures forall i, j :: 0 <= i < r.Length0 && 0 <= j < r.Length1 ==> r[i, j] >= 0
  {
  }

  method Fill(mid: array2<int>)
    modifies mid
    ensures forall i, j :: 0 <= i < mid.Length0 && 0 <= j < mid.Length1 ==> mid[i, j] == 100
  {
    forall i, j | 0 <= i < mid.Length0 && 0 <= j < mid.Length1 {
      mid[i, j] := 100;
    }
  }

  /** Responses and marks. */
  method DetectEdges(img: array2<int>, r: array2<int>, mid: array2<int>, bp: Lut, maxNo: int, small: bool,
                     ghost compass: Compass)
    requires img != r && img != mid && r != mid && Bytes(img) && BrightnessLut(bp)
    requires r.Length0 == img.Length0 == mid.Length0 && r.Length1 == img.Length1 == mid.Length1
    requires Directs(img, bp, small, compass)
    modifies r, mid
    ensures HoldsResponse(r, img, bp, maxNo, small)
    ensures forall i, j :: 0 <= i < mid.Length0 && 0 <= j < mid.Length1 ==> mid[i, j] == Mark(r, small, compass, i, j)
    ensures Seeded(Scan(mid.Length0, mid.Length1, View(r)), View(mid))
    ensures Inset(mid.Length0, mid.Length1, Edges(View(mid)), Border(small))
  {
    Fill(mid);
    if small {
      SmallPrinciple(img, r, bp);
    } else {
      Principle(img, r, bp, maxNo);
    }
    MarkEdges(img, r, mid, bp, maxNo, small, compass);
    ResponsesNonNegative(r, img, bp, maxNo, small);
    MarksAreSeeds(r, mid, small, compass);
  }

  /** The image after drawing the edge pixels E over `was`. */
  ghost function Drawn(E: set<Pix>, drawingMode: int, p: Pix, was: int): int {
    if p in E then 0 else if drawingMode == 0 && Neighbours(E, p) != {} then 255 else was
  }

  /** Thin if asked to, then draw. */
  method FinishEdges(img: array2<int>, r: array2<int>, mid: array2<int>, thin: bool, budget: nat, drawingMode: int)
    returns (finished: bool, ghost ts: seq<State>)
    requires img != r && img != mid && r != mid
    requires r.Length0 == img.Length0 == mid.Length0 && r.Length1 == img.Length1 == mid.Length1
    requires Seeded(Scan(mid.Length0, mid.Length1, View(r)), View(mid))
    requires Inset(mid.Length0, mid.Length1, Edges(View(mid)), 1)
    modifies img, mid
    ensures if thin then IsRun(Scan(mid.Length0, mid.Length1, View(r)), old(View(mid)), ts) &&
      View(mid) == Final(ts).mid
            else finished && View(mid) == old(View(mid))
    ensures finished ==> forall i, j :: 0 <= i < img.Length0 && 0 <= j < img.Length1 ==>
      img[i, j] == Drawn(Edges(View(mid)), drawingMode, Pix(i, j), old(img[i, j]))
  {
    if thin {
      finished, ts := Draw.ThinAndDraw(img, mid, r, budget, drawingMode);
    } else {
      Draw.InsetIsInside(mid, 1);
      Draw.EdgeDraw(img, mid, drawingMode);
      finished, ts := true, [];
    }
  }

  /** The whole mode, with either mask. The image ends up black exactly at the edge pixels of the final
      map, which is the map of marks, or what a run of the thinning makes of it. */
  method DrawEdges(img: array2<int>, r: array2<int>, mid: array2<int>, bp: Lut, maxNo: int, small: bool,
                   thin: bool, budget: nat, drawingMode: int)
    returns (finished: bool, ghost resp: seq<seq<int>>, ghost compass: Compass, ghost marks: Grid, ghost ts: seq<State>)
    requires img != r && img != mid && r != mid && Bytes(img) && BrightnessLut(bp)
    requires r.Length0 == img.Length0 == mid.Length0 && r.Length1 == img.Length1 == mid.Length1
    modifies img, r, mid
    ensures old(Responds(img, bp, maxNo, small, resp))
    ensures forall i, j :: 0 <= i < r.Length0 && 0 <= j < r.Length1 ==> r[i, j] == resp[i][j]
    ensures old(Directs(img, bp, small, compass)) && Shaped(r, compass)
    ensures forall i, j :: 0 <= i < mid.Length0 && 0 <= j < mid.Length1 ==>
      SusanThin.At(marks, i, j) == Mark(r, small, compass, i, j)
    ensures Seeded(Scan(mid.Length0, mid.Length1, View(r)), marks)
    ensures if thin then IsRun(Scan(mid.Length0, mid.Length1, View(r)), marks, ts) && View(mid) == Final(ts).mid
            else finished && View(mid) == marks
    ensures finished ==> forall i, j :: 0 <= i < img.Length0 && 0 <= j < img.Length1 ==>
      img[i, j] == Drawn(Edges(View(mid)), drawingMode, Pix(i, j), old(img[i, j]))
  {
    compass := ListDirections(img, bp, small);
    DetectEdges(img, r, mid, bp, maxNo, small, compass);
    resp := ListResponses(r, img, bp, maxNo, small);
    marks := View(mid);
    assert forall i, j :: 0 <= i < mid.Length0 && 0 <= j < mid.Length1 ==> SusanThin.At(marks, i, j) == mid[i, j];
    finished, ts := FinishEdges(img, r, mid, thin, budget, drawingMode);
  }
}
