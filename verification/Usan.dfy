/** The corner response: the area of the USAN disc, its plain and its early-exit computation. */
module Usan {

  /** The brightness table, as a function of a brightness difference. */
  type Lut = int -> int

  /** What filling the table guarantees: an even function of the difference, 100 at 0, never above. */
  ghost predicate BrightnessLut(bp: Lut) {
    bp(0) == 100 && (forall k :: -256 <= k <= 256 ==> 0 <= bp(k) <= 100 && bp(-k) == bp(k))
  }

  ghost predicate Bytes(img: array2<int>)
    reads img
  {
    forall i, j :: 0 <= i < img.Length0 && 0 <= j < img.Length1 ==> 0 <= img[i, j] <= 255
  }

  predicate DiscInside(img: array2<int>, i: int, j: int) {
    3 <= i < img.Length0 - 3 && 3 <= j < img.Length1 - 3
  }

  // ---------------------------------------------------------------- the 7x7 window

  /** Index of the window pixel dy rows below and dx columns right of the nucleus. */
  function At(dy: int, dx: int): (k: int)
    requires -3 <= dy <= 3 && -3 <= dx <= 3
    ensures 0 <= k < 49
  {
    7 * dy + dx + 24
  }

  /** How similar window pixel k is to the nucleus. */
  function Similar(img: array2<int>, bp: Lut, i: int, j: int, k: int): int
    requires DiscInside(img, i, j) && 0 <= k < 49
    reads img
  {
    bp(img[i, j] - img[i + k / 7 - 3, j + k % 7 - 3])
  }

  function Window(img: array2<int>, bp: Lut, i: int, j: int): (s: seq<int>)
    requires DiscInside(img, i, j)
    reads img
    ensures |s| == 49
  {
    seq(49, k requires 0 <= k < 49 && DiscInside(img, i, j) reads img => Similar(img, bp, i, j, k))
  }

  ghost predicate IsWindow(img: array2<int>, bp: Lut, i: int, j: int, s: seq<int>)
    requires DiscInside(img, i, j)
    reads img
  {
    |s| == 49 && forall k {:trigger Similar(img, bp, i, j, k)} :: 0 <= k < 49 ==> s[k] == Similar(img, bp, i, j, k)
  }

  /** Similarities lie in 0..100, and the nucleus is fully similar to itself. */
  ghost predicate Levels(s: seq<int>) {
    |s| == 49 && s[24] == 100 && forall k :: 0 <= k < 49 ==> 0 <= s[k] <= 100
  }

  lemma WindowLevels(img: array2<int>, bp: Lut, i: int, j: int)
    requires DiscInside(img, i, j) && Bytes(img) && BrightnessLut(bp)
    ensures IsWindow(img, bp, i, j, Window(img, bp, i, j)) && Levels(Window(img, bp, i, j))
  {
    var s := Window(img, bp, i, j);
    forall k | 0 <= k < 49
      ensures 0 <= s[k] <= 100
    {
      assert s[k] == Similar(img, bp, i, j, k);
    }
    assert s[24] == Similar(img, bp, i, j, 24);
  }

  // ---------------------------------------------------------------- the disc, by definition

  /** Half the width of the 37-pixel disc at row offset dy. */
  function Half(dy: int): (k: int)
    ensures 1 <= k <= 3
  {
    if dy == -3 || dy == 3 then 1 else if dy == -2 || dy == 2 then 2 else 3
  }

  /** Total similarity of columns from..end-1 of row dy, and its first moment along the row. */
  datatype Sums = Sums(n: int, x: int)

  function Span(s: seq<int>, dy: int, from: int, end: int): Sums
    requires |s| == 49 && -3 <= dy <= 3 && -3 <= from && end <= 4
    decreases |s|, end - from
  {
    if from >= end then Sums(0, 0)
    else
      var t := Span(s, dy, from, end - 1);
      Sums(t.n + s[At(dy, end - 1)], t.x + (end - 1) * s[At(dy, end - 1)])
  }

  /** Area and first moments. */
  datatype Moments = Moments(n: int, x: int, y: int)

  /** The first n rows of the disc, each weighted by 1, by its column offsets and by its row offset. */
  function Rows(s: seq<int>, n: nat): Moments
    requires |s| == 49 && n <= 7
    decreases |s|, n
  {
    if n == 0 then Moments(0, 0, 0)
    else
      var dy := n - 4;
      var m := Rows(s, n - 1);
      var t := Span(s, dy, -Half(dy), Half(dy) + 1);
      Moments(m.n + t.n, m.x + t.x, m.y + dy * t.n)
  }

  /** Sums over the whole disc, nucleus included: all rows of the window. */
  function Disc(s: seq<int>): Moments
    requires |s| == 49
  {
    Rows(s, |s| / 7)
  }

  // ------------------------------------------------ what the definition unfolds to

  lemma Span7(s: seq<int>, dy: int)
    requires |s| == 49 && -1 <= dy <= 1
    ensures Span(s, dy, -3, 4) ==
      Sums(s[At(dy, -3)] + s[At(dy, -2)] + s[At(dy, -1)] + s[At(dy, 0)] + s[At(dy, 1)] + s[At(dy, 2)] + s[At(dy, 3)],
           3 * s[At(dy, 3)] + 2 * s[At(dy, 2)] + s[At(dy, 1)] - s[At(dy, -1)] - 2 * s[At(dy, -2)] - 3 * s[At(dy, -3)])
  {
    assert Span(s, dy, -3, -2) == Sums(s[At(dy, -3)], -3 * s[At(dy, -3)]);
    assert Span(s, dy, -3, 0) == Sums(s[At(dy, -3)] + s[At(dy, -2)] + s[At(dy, -1)],
                                      -3 * s[At(dy, -3)] - 2 * s[At(dy, -2)] - s[At(dy, -1)]);
    assert Span(s, dy, -3, 2).x == Span(s, dy, -3, 0).x + s[At(dy, 1)];
  }

  /** The rows above the nucleus and its own, n = 4. */
  lemma UpperRows(s: seq<int>, n: nat)
    requires |s| == 49 && n == 4
    ensures var a, b, c, d := Span(s, -3, -1, 2), Span(s, -2, -2, 3), Span(s, -1, -3, 4), Span(s, 0, -3, 4);
      Rows(s, n) == Moments(a.n + b.n + c.n + d.n, a.x + b.x + c.x + d.x, -3 * a.n - 2 * b.n - c.n)
  {
    RowsStep(s, n - 3);
    RowsStep(s, n - 2);
    RowsStep(s, n - 1);
    RowsStep(s, n);
  }

  lemma DiscRows(s: seq<int>)
    requires |s| == 49
    ensures var a, b, c, d := Span(s, -3, -1, 2), Span(s, -2, -2, 3), Span(s, -1, -3, 4), Span(s, 0, -3, 4);
      var e, f, g := Span(s, 1, -3, 4), Span(s, 2, -2, 3), Span(s, 3, -1, 2);
      Disc(s) == Moments(a.n + b.n + c.n + d.n + e.n + f.n + g.n, a.x + b.x + c.x + d.x + e.x + f.x + g.x,
                         -3 * a.n - 2 * b.n - c.n + e.n + 2 * f.n + 3 * g.n)
  {
    var k := |s| / 7;
    UpperRows(s, k - 3);
    RowsStep(s, k - 2);
    RowsStep(s, k - 1);
    RowsStep(s, k);
  }

  lemma RowsStep(s: seq<int>, n: nat)
    requires |s| == 49 && 1 <= n <= 7
    ensures var m, t := Rows(s, n - 1), Span(s, n - 4, -Half(n - 4), Half(n - 4) + 1);
      Rows(s, n) == Moments(m.n + t.n, m.x + t.x, m.y + (n - 4) * t.n) && (n == 1 ==> m == Moments(0, 0, 0))
  {
  }

  // ------------------------------------------------------------- the plain computation

  /** One read through the table: `*(cp-*p)` with p on the pixel at offset (dy,dx). */
  method Read(img: array2<int>, bp: Lut, i: int, j: int, dy: int, dx: int, ghost s: seq<int>) returns (c: int)
    requires DiscInside(img, i, j) && -3 <= dy <= 3 && -3 <= dx <= 3 && IsWindow(img, bp, i, j, s)
    ensures c == s[At(dy, dx)]
  {
    var k := At(dy, dx);
    assert k / 7 - 3 == dy && k % 7 - 3 == dx;
    c := Similar(img, bp, i, j, k);
  }

  /** A run of unconditional reads along row dy. */
  method ReadRow(img: array2<int>, bp: Lut, i: int, j: int, dy: int, from: int, end: int, ghost s: seq<int>)
    returns (n: int)
    requires DiscInside(img, i, j) && IsWindow(img, bp, i, j, s) && -3 <= dy <= 3 && -3 <= from <= end <= 4
    ensures n == Span(s, dy, from, end).n
  {
    n := 0;
    var dx := from;
    while dx < end
      invariant from <= dx <= end && n == Span(s, dy, from, dx).n
    {
      var c := Read(img, bp, i, j, dy, dx, s);
      n := n + c;
      dx := dx + 1;
    }
  }

  /** The area at one pixel: 100 for the nucleus plus the 36 reads of the mask. */
  method PlainArea(img: array2<int>, bp: Lut, i: int, j: int, ghost s: seq<int>) returns (n: int)
    requires DiscInside(img, i, j) && IsWindow(img, bp, i, j, s) && Levels(s)
    ensures n == Disc(s).n
  {
    var n1 := ReadRow(img, bp, i, j, -3, -1, 2, s);
    var n2 := ReadRow(img, bp, i, j, -2, -2, 3, s);
    var n3 := ReadRow(img, bp, i, j, -1, -3, 4, s);
    var n4 := ReadRow(img, bp, i, j, 0, -3, 0, s);
    var n5 := ReadRow(img, bp, i, j, 0, 1, 4, s);
    var n6 := ReadRow(img, bp, i, j, 1, -3, 4, s);
    var n7 := ReadRow(img, bp, i, j, 2, -2, 3, s);
    var n8 := ReadRow(img, bp, i, j, 3, -1, 2, s);
    n := 100 + n1 + n2 + n3 + n4 + n5 + n6 + n7 + n8;
    DiscRows(s);
    MiddleRow(s);
  }

  /** The middle row is read in two runs; the nucleus between them is the initial 100. */
  lemma MiddleRow(s: seq<int>)
    requires Levels(s)
    ensures Span(s, 0, -3, 4).n == Span(s, 0, -3, 0).n + 100 + Span(s, 0, 1, 4).n
  {
    Span7(s, 0);
    assert Span(s, 0, 1, 2).n == s[At(0, 1)];
    assert Span(s, 0, -3, -2).n == s[At(0, -3)];
    assert At(0, 0) == 24;
  }

  // ------------------------------------------------------------------ the early exit

  lemma {:induction false} SpanMonotone(s: seq<int>, dy: int, from: int, mid: int, end: int)
    requires Levels(s) && -3 <= dy <= 3 && -3 <= from <= mid <= end <= 4
    ensures 0 <= Span(s, dy, from, mid).n <= Span(s, dy, from, end).n
    decreases end - from, end - mid
  {
    if mid < end {
      SpanMonotone(s, dy, from, mid, end - 1);
    } else if from < end {
      SpanMonotone(s, dy, from, mid - 1, end - 1);
    }
  }

  /** A run of reads each followed by the test against the limit, which ends the run when it fails. */
  method ReadOn(img: array2<int>, bp: Lut, i: int, j: int, dy: int, from: int, end: int, maxNo: int, n0: int,
                ghost s: seq<int>)
    returns (n: int, stop: bool)
    requires DiscInside(img, i, j) && IsWindow(img, bp, i, j, s) && Levels(s)
    requires -3 <= dy <= 3 && -3 <= from <= end <= 4 && n0 < maxNo
    ensures stop <==> n0 + Span(s, dy, from, end).n >= maxNo
    ensures !stop ==> n == n0 + Span(s, dy, from, end).n
  {
    n, stop := n0, false;
    var dx := from;
    while dx < end
      invariant from <= dx <= end && n == n0 + Span(s, dy, from, dx).n < maxNo
    {
      var c := Read(img, bp, i, j, dy, dx, s);
      n := n + c;
      dx := dx + 1;
      if n >= maxNo {
        SpanMonotone(s, dy, from, dx, end);
        return n, true;
      }
    }
  }

  /** After the first half of the mask, the rest of the area comes in four non-negative runs. */
  lemma DiscInRuns(s: seq<int>)
    requires Levels(s)
    ensures var half := 100 + Span(s, -3, -1, 2).n + Span(s, -2, -2, 3).n + Span(s, -1, -3, 4).n + Span(s, 0, -3, 0).n;
      var a, b, c, d := Span(s, 0, 1, 4).n, Span(s, 1, -3, 4).n, Span(s, 2, -2, 3).n, Span(s, 3, -1, 2).n;
      Disc(s).n == half + a + b + c + d && 0 <= a && 0 <= b && 0 <= c && 0 <= d
  {
    DiscRows(s);
    MiddleRow(s);
    SpanMonotone(s, 0, 1, 1, 4);
    SpanMonotone(s, 1, -3, -3, 4);
    SpanMonotone(s, 2, -2, -2, 3);
    SpanMonotone(s, 3, -1, -1, 2);
  }

  /** The area with the tests the corner finders make: after the first half of the mask, then after
      every single read. `stop` says that a test failed, and then the area is at least `maxNo`. */
  method EarlyArea(img: array2<int>, bp: Lut, i: int, j: int, maxNo: int, ghost s: seq<int>)
    returns (n: int, stop: bool)
    requires DiscInside(img, i, j) && IsWindow(img, bp, i, j, s) && Levels(s)
    ensures stop <==> Disc(s).n >= maxNo
    ensures !stop ==> n == Disc(s).n
  {
    DiscInRuns(s);
    var n1 := ReadRow(img, bp, i, j, -3, -1, 2, s);
    var n2 := ReadRow(img, bp, i, j, -2, -2, 3, s);
    var n3 := ReadRow(img, bp, i, j, -1, -3, 4, s);
    var n4 := ReadRow(img, bp, i, j, 0, -3, 0, s);
    n := 100 + n1 + n2 + n3 + n4;
    stop := n >= maxNo;
    if !stop { n, stop := ReadOn(img, bp, i, j, 0, 1, 4, maxNo, n, s); }
    if !stop { n, stop := ReadOn(img, bp, i, j, 1, -3, 4, maxNo, n, s); }
    if !stop { n, stop := ReadOn(img, bp, i, j, 2, -2, 3, maxNo, n, s); }
    if !stop { n, stop := ReadOn(img, bp, i, j, 3, -1, 2, maxNo, n, s); }
  }

  /** The response both computations agree on. */
  function AreaResponse(img: array2<int>, bp: Lut, maxNo: int, i: int, j: int): int
    requires DiscInside(img, i, j)
    reads img
  {
    var n := Disc(Window(img, bp, i, j)).n;
    if n < maxNo then maxNo - n else 0
  }

  predicate Scanned(r: array2<int>, margin: int, i: int, j: int) {
    margin <= i < r.Length0 - margin && margin <= j < r.Length1 - margin
  }

  /** `r` holds `AreaResponse` at distance `margin` or more from the border, and 0 elsewhere. */
  ghost predicate HoldsAreaResponse(r: array2<int>, img: array2<int>, bp: Lut, maxNo: int, margin: int)
    requires margin >= 3 && r.Length0 == img.Length0 && r.Length1 == img.Length1
    reads r, img
  {
    forall i, j :: 0 <= i < r.Length0 && 0 <= j < r.Length1 ==>
      r[i, j] == if Scanned(r, margin, i, j) then AreaResponse(img, bp, maxNo, i, j) else 0
  }

  method Clear(r: array2<int>)
    modifies r
    ensures forall i, j :: 0 <= i < r.Length0 && 0 <= j < r.Length1 ==> r[i, j] == 0
  {
    forall i, j | 0 <= i < r.Length0 && 0 <= j < r.Length1 {
      r[i, j] := 0;
    }
  }

  /** One pixel of the plain principle: every mask read, then the test n <= max_no. */
  method PlainResponse(img: array2<int>, bp: Lut, maxNo: int, i: int, j: int) returns (v: int)
    requires DiscInside(img, i, j) && Bytes(img) && BrightnessLut(bp)
    ensures v == AreaResponse(img, bp, maxNo, i, j)
  {
    WindowLevels(img, bp, i, j);
    var n := PlainArea(img, bp, i, j, Window(img, bp, i, j));
    v := 0;
    if n <= maxNo { v := maxNo - n; }
  }

  /** One pixel of the quick corner finder: early exit, then the test n < max_no. */
  method EarlyResponse(img: array2<int>, bp: Lut, maxNo: int, i: int, j: int) returns (v: int)
    requires DiscInside(img, i, j) && Bytes(img) && BrightnessLut(bp)
    ensures v == AreaResponse(img, bp, maxNo, i, j)
  {
    WindowLevels(img, bp, i, j);
    var n, stop := EarlyArea(img, bp, i, j, maxNo, Window(img, bp, i, j));
    v := 0;
    if !stop { v := maxNo - n; }
  }

  /** The inner loop of the principle, for row i. */
  method PrincipleRow(img: array2<int>, r: array2<int>, bp: Lut, maxNo: int, i: int)
    requires img != r && r.Length0 == img.Length0 && r.Length1 == img.Length1 && Bytes(img) && BrightnessLut(bp)
    requires 3 <= i < r.Length0 - 3
    modifies r
    ensures forall a, b :: 0 <= a < r.Length0 && 0 <= b < r.Length1 ==>
      r[a, b] == if a == i && Scanned(r, 3, a, b) then AreaResponse(img, bp, maxNo, a, b) else old(r[a, b])
  {
    ghost var want := seq(img.Length1, b requires 0 <= b reads img =>
      if Scanned(img, 3, i, b) then AreaResponse(img, bp, maxNo, i, b) else 0);
    var j := 3;
    while j < r.Length1 - 3
      invariant 3 <= j && (j == 3 || j <= r.Length1 - 3)
      invariant forall a, b :: 0 <= a < r.Length0 && 0 <= b < r.Length1 ==>
        r[a, b] == if a == i && 3 <= b < j then want[b] else old(r[a, b])
    {
      var v := PlainResponse(img, bp, maxNo, i, j);
      r[i, j] := v;
      j := j + 1;
    }
  }

  /** The principle over the whole image, three pixels inside. */
  method Principle(img: array2<int>, r: array2<int>, bp: Lut, maxNo: int)
    requires img != r && r.Length0 == img.Length0 && r.Length1 == img.Length1 && Bytes(img) && BrightnessLut(bp)
    modifies r
    ensures HoldsAreaResponse(r, img, bp, maxNo, 3)
  {
    Clear(r);
    var i := 3;
    while i < r.Length0 - 3
      invariant 3 <= i
      invariant forall a, b :: 0 <= a < r.Length0 && 0 <= b < r.Length1 ==>
        r[a, b] == if a < i && Scanned(r, 3, a, b) then AreaResponse(img, bp, maxNo, a, b) else 0
    {
      PrincipleRow(img, r, bp, maxNo, i);
      i := i + 1;
    }
  }

  /** The inner loop of the quick finder's first pass, for row i. */
  method QuickRow(img: array2<int>, r: array2<int>, bp: Lut, maxNo: int, i: int)
    requires img != r && r.Length0 == img.Length0 && r.Length1 == img.Length1 && Bytes(img) && BrightnessLut(bp)
    requires 7 <= i < r.Length0 - 7
    modifies r
    ensures forall a, b :: 0 <= a < r.Length0 && 0 <= b < r.Length1 ==>
      r[a, b] == if a == i && Scanned(r, 7, a, b) then AreaResponse(img, bp, maxNo, a, b) else old(r[a, b])
  {
    ghost var want := seq(img.Length1, b requires 0 <= b reads img =>
      if Scanned(img, 7, i, b) then AreaResponse(img, bp, maxNo, i, b) else 0);
    var j := 7;
    while j < r.Length1 - 7
      invariant 7 <= j && (j == 7 || j <= r.Length1 - 7)
      invariant forall a, b :: 0 <= a < r.Length0 && 0 <= b < r.Length1 ==>
        r[a, b] == if a == i && 7 <= b < j then want[b] else old(r[a, b])
    {
      var v := EarlyResponse(img, bp, maxNo, i, j);
      r[i, j] := v;
      j := j + 1;
    }
  }

  /** The quick finder's first pass leaves the very responses of the principle, seven pixels inside. */
  method QuickPass(img: array2<int>, r: array2<int>, bp: Lut, maxNo: int)
    requires img != r && r.Length0 == img.Length0 && r.Length1 == img.Length1 && Bytes(img) && BrightnessLut(bp)
    modifies r
    ensures HoldsAreaResponse(r, img, bp, maxNo, 7)
  {
    Clear(r);
    var i := 7;
    while i < r.Length0 - 7
      invariant 7 <= i
      invariant forall a, b :: 0 <= a < r.Length0 && 0 <= b < r.Length1 ==>
        r[a, b] == if a < i && Scanned(r, 7, a, b) then AreaResponse(img, bp, maxNo, a, b) else 0
    {
      QuickRow(img, r, bp, maxNo, i);
      i := i + 1;
    }
  }

  /** Early exit changes nothing: wherever both passes look, they leave the same response. */
  lemma EarlyExitAgrees(img: array2<int>, bp: Lut, maxNo: int, plain: array2<int>, quick: array2<int>, i: int, j: int)
    requires plain.Length0 == img.Length0 == quick.Length0 && plain.Length1 == img.Length1 == quick.Length1
    requires HoldsAreaResponse(plain, img, bp, maxNo, 3) && HoldsAreaResponse(quick, img, bp, maxNo, 7)
    ensures Scanned(img, 7, i, j) ==> quick[i, j] == plain[i, j]
    ensures 0 <= i < img.Length0 && 0 <= j < img.Length1 && !Scanned(img, 7, i, j) ==> quick[i, j] == 0
  {
  }

  // ------------------------------------------------------------------ the pointer walk

  /** What is added to the pixel pointer between one mask read and the next; w is the row length. */
  function PointerSteps(w: int): (s: seq<int>)
    ensures |s| == 35
  {
    [1, 1, w - 3] + [1, 1, 1, 1, w - 5] + [1, 1, 1, 1, 1, 1, w - 6] + [1, 1, 2, 1, 1, w - 6]
    + [1, 1, 1, 1, 1, 1, w - 5] + [1, 1, 1, 1, w - 3] + [1, 1]
  }

  /** The pointer after k steps, starting at row i - 3, column j - 1. */
  function Pointer(w: int, i: int, j: int, k: nat): int
    requires k <= 35
  {
    if k == 0 then (i - 3) * w + j - 1 else Pointer(w, i, j, k - 1) + PointerSteps(w)[k - 1]
  }

  /** The mask in reading order: the disc row by row, the nucleus left out. */
  function MaskAt(k: nat): (p: (int, int))
    requires k < 36
    ensures -3 <= p.0 <= 3 && -3 <= p.1 <= 3
  {
    if k < 3 then (-3, k - 1)
    else if k < 8 then (-2, k - 5)
    else if k < 15 then (-1, k - 11)
    else if k < 18 then (0, k - 18)
    else if k < 21 then (0, k - 17)
    else if k < 28 then (1, k - 24)
    else if k < 33 then (2, k - 30)
    else (3, k - 34)
  }

  /** The increments of the pointer visit the mask pixels in order, whatever the image width. */
  lemma {:induction false} PointerVisitsMask(w: int, i: int, j: int, k: nat)
    requires k < 36
    ensures Pointer(w, i, j, k) == (i + MaskAt(k).0) * w + j + MaskAt(k).1
  {
    if k > 0 {
      PointerVisitsMask(w, i, j, k - 1);
      var dy := MaskAt(k - 1).0;
      assert (i + dy + 1) * w == (i + dy) * w + w;
    }
  }

  /** The mask is the disc without its nucleus, each pixel once. */
  lemma MaskIsDisc(dy: int, dx: int)
    ensures (exists k: nat :: k < 36 && MaskAt(k) == (dy, dx)) <==>
      -3 <= dy <= 3 && -Half(dy) <= dx <= Half(dy) && (dy, dx) != (0, 0)
    ensures forall k: nat, l: nat :: k < l < 36 ==> MaskAt(k) != MaskAt(l)
  {
    if -3 <= dy <= 3 && -Half(dy) <= dx <= Half(dy) && (dy, dx) != (0, 0) {
      var k := if dy == -3 then dx + 1 else if dy == -2 then dx + 5 else if dy == -1 then dx + 11
               else if dy == 0 then (if dx < 0 then dx + 18 else dx + 17)
               else if dy == 1 then dx + 24 else if dy == 2 then dx + 30 else dx + 34;
      assert 0 <= k < 36 && MaskAt(k) == (dy, dx);
    }
  }
}
