/** The sums over the disc as sums over the 36 pixels that the pointer addresses, in its order. */
module MaskMoments {
  import opened Usan
  import opened CornerResponse
  import opened Gradient

  /** The window holds, at each offset, the similarity of the pixel at that offset. */
  lemma WindowAt(img: array2<int>, bp: Lut, i: int, j: int, dy: int, dx: int)
    requires DiscInside(img, i, j) && -3 <= dy <= 3 && -3 <= dx <= 3
    ensures Window(img, bp, i, j)[At(dy, dx)] == bp(img[i, j] - img[i + dy, j + dx])
  {
    var k := At(dy, dx);
    assert k / 7 - 3 == dy && k % 7 - 3 == dx;
    assert Window(img, bp, i, j)[k] == Similar(img, bp, i, j, k);
  }

  /** Area and first moments of the first k pixels of the mask. */
  function MaskSum(s: seq<int>, k: nat): Moments
    requires |s| == 49 && k <= 36
    decreases |s|, k
  {
    if k == 0 then Moments(0, 0, 0)
    else
      var m, (dy, dx) := MaskSum(s, k - 1), MaskAt(k - 1);
      var c := s[At(dy, dx)];
      Moments(m.n + c, m.x + dx * c, m.y + dy * c)
  }

  /** Their second moments. */
  function MaskSquares(s: seq<int>, k: nat): Spread
    requires |s| == 49 && k <= 36
    decreases |s|, k
  {
    if k == 0 then Spread(0, 0, 0)
    else
      var m, (dy, dx) := MaskSquares(s, k - 1), MaskAt(k - 1);
      var c := s[At(dy, dx)];
      Spread(m.x + dx * dx * c, m.y + dy * dy * c, m.w + dx * dy * c)
  }

  /** A stretch of the mask that runs along row dy. */
  predicate RunsAlong(k: nat, dy: int, from: int, len: nat) {
    k + len <= 36 && -3 <= dy <= 3 && -3 <= from && from + len <= 4 &&
    forall t {:trigger MaskAt(t)} :: k <= t < k + len ==> MaskAt(t) == (dy, from + t - k)
  }

  lemma Distribute(a: int, b: int, c: int)
    ensures a * (b + c) == a * b + a * c
  {
  }

  lemma {:induction false} RunSum(s: seq<int>, k: nat, dy: int, from: int, len: nat)
    requires |s| == 49 && RunsAlong(k, dy, from, len)
    ensures var m, t := MaskSum(s, k), Span(s, dy, from, from + len);
      MaskSum(s, k + len) == Moments(m.n + t.n, m.x + t.x, m.y + dy * t.n)
    decreases len
  {
    if len > 0 {
      RunSum(s, k, dy, from, len - 1);
      assert MaskAt(k + len - 1) == (dy, from + len - 1);
      Distribute(dy, Span(s, dy, from, from + len - 1).n, s[At(dy, from + len - 1)]);
    }
  }

  lemma {:induction false} RunSquares(s: seq<int>, k: nat, dy: int, from: int, len: nat)
    requires |s| == 49 && RunsAlong(k, dy, from, len)
    ensures var m, t := MaskSquares(s, k), Span(s, dy, from, from + len);
      MaskSquares(s, k + len) == Spread(m.x + RowSpread(s, dy, from, from + len), m.y + dy * dy * t.n, m.w + dy * t.x)
    decreases len
  {
    if len > 0 {
      RunSquares(s, k, dy, from, len - 1);
      assert MaskAt(k + len - 1) == (dy, from + len - 1);
      var t := Span(s, dy, from, from + len - 1);
      SpreadStep(dy, from + len - 1, s[At(dy, from + len - 1)], t.n, t.x);
    }
  }

  /** The eight stretches of the mask. */
  lemma Stretches()
    ensures RunsAlong(0, -3, -1, 3) && RunsAlong(3, -2, -2, 5) && RunsAlong(8, -1, -3, 7) && RunsAlong(15, 0, -3, 3)
    ensures RunsAlong(18, 0, 1, 3) && RunsAlong(21, 1, -3, 7) && RunsAlong(28, 2, -2, 5) && RunsAlong(33, 3, -1, 3)
  {
  }

  /** The reads before the nucleus. */
  lemma FirstHalf(s: seq<int>)
    requires |s| == 49
    ensures var a, b, c, d := Span(s, -3, -1, 2), Span(s, -2, -2, 3), Span(s, -1, -3, 4), Span(s, 0, -3, 0);
      MaskSum(s, 18) == Moments(a.n + b.n + c.n + d.n, a.x + b.x + c.x + d.x, -3 * a.n - 2 * b.n - c.n)
  {
    Stretches();
    RunSum(s, 0, -3, -1, 3);
    RunSum(s, 3, -2, -2, 5);
    RunSum(s, 8, -1, -3, 7);
    RunSum(s, 15, 0, -3, 3);
  }

  /** And those behind it. */
  lemma SecondHalf(s: seq<int>)
    requires |s| == 49
    ensures var a, b, c, d := Span(s, 0, 1, 4), Span(s, 1, -3, 4), Span(s, 2, -2, 3), Span(s, 3, -1, 2);
      var m := MaskSum(s, 18);
      MaskSum(s, 36) == Moments(m.n + a.n + b.n + c.n + d.n, m.x + a.x + b.x + c.x + d.x,
                                m.y + b.n + 2 * c.n + 3 * d.n)
  {
    Stretches();
    RunSum(s, 18, 0, 1, 3);
    RunSum(s, 21, 1, -3, 7);
    RunSum(s, 28, 2, -2, 5);
    RunSum(s, 33, 3, -1, 3);
  }

  /** The sums over the disc are the sums over the mask, and 100 for the nucleus. */
  lemma DiscIsMask(s: seq<int>)
    requires Levels(s)
    ensures var m := MaskSum(s, 36); Disc(s) == Moments(100 + m.n, m.x, m.y)
  {
    FirstHalf(s);
    SecondHalf(s);
    DiscRows(s);
    MiddleRow(s);
    MiddleMoment(s);
  }

  lemma SpreadsStep(s: seq<int>, n: nat)
    requires |s| == 49 && 1 <= n <= 7
    ensures var dy := n - 4;
      var m, t := Spreads(s, n - 1), Span(s, dy, -Half(dy), Half(dy) + 1);
      Spreads(s, n) == Spread(m.x + RowSpread(s, dy, -Half(dy), Half(dy) + 1), m.y + dy * dy * t.n, m.w + dy * t.x)
      && (n == 1 ==> m == Spread(0, 0, 0))
  {
  }

  /** The rows above the nucleus, n = 3. */
  lemma UpperSpreads(s: seq<int>, n: nat)
    requires |s| == 49 && n == 3
    ensures var a, b, c := Span(s, -3, -1, 2), Span(s, -2, -2, 3), Span(s, -1, -3, 4);
      Spreads(s, n) == Spread(RowSpread(s, -3, -1, 2) + RowSpread(s, -2, -2, 3) + RowSpread(s, -1, -3, 4),
                              9 * a.n + 4 * b.n + c.n, -3 * a.x - 2 * b.x - c.x)
  {
    SpreadsStep(s, n - 2);
    SpreadsStep(s, n - 1);
    SpreadsStep(s, n);
  }

  lemma DiscSpreadRows(s: seq<int>)
    requires |s| == 49
    ensures var a, b, c := Span(s, -3, -1, 2), Span(s, -2, -2, 3), Span(s, -1, -3, 4);
      var e, f, g := Span(s, 1, -3, 4), Span(s, 2, -2, 3), Span(s, 3, -1, 2);
      DiscSpread(s) == Spread(
        RowSpread(s, -3, -1, 2) + RowSpread(s, -2, -2, 3) + RowSpread(s, -1, -3, 4) + RowSpread(s, 0, -3, 4) +
        RowSpread(s, 1, -3, 4) + RowSpread(s, 2, -2, 3) + RowSpread(s, 3, -1, 2),
        9 * a.n + 4 * b.n + c.n + e.n + 4 * f.n + 9 * g.n, -3 * a.x - 2 * b.x - c.x + e.x + 2 * f.x + 3 * g.x)
  {
    var k := |s| / 7;
    UpperSpreads(s, k - 4);
    SpreadsStep(s, k - 3);
    SpreadsStep(s, k - 2);
    SpreadsStep(s, k - 1);
    SpreadsStep(s, k);
  }

  lemma MiddleSpread(s: seq<int>)
    requires |s| == 49
    ensures RowSpread(s, 0, -3, 4) == RowSpread(s, 0, -3, 0) + RowSpread(s, 0, 1, 4)
  {
    assert RowSpread(s, 0, -3, 1) == RowSpread(s, 0, -3, 0);
    assert RowSpread(s, 0, 1, 2) == s[At(0, 1)] && RowSpread(s, 0, -3, 2) == RowSpread(s, 0, -3, 1) + s[At(0, 1)];
    assert RowSpread(s, 0, 1, 3) == RowSpread(s, 0, 1, 2) + 4 * s[At(0, 2)];
    assert RowSpread(s, 0, -3, 3) == RowSpread(s, 0, -3, 2) + 4 * s[At(0, 2)];
  }

  /** The second moments of the disc are those of the mask; the nucleus has none. */
  lemma DiscSpreadIsMask(s: seq<int>)
    requires |s| == 49
    ensures DiscSpread(s) == MaskSquares(s, 36)
  {
    Stretches();
    RunSquares(s, 0, -3, -1, 3);
    RunSquares(s, 3, -2, -2, 5);
    RunSquares(s, 8, -1, -3, 7);
    RunSquares(s, 15, 0, -3, 3);
    RunSquares(s, 18, 0, 1, 3);
    RunSquares(s, 21, 1, -3, 7);
    RunSquares(s, 28, 2, -2, 5);
    RunSquares(s, 33, 3, -1, 3);
    DiscSpreadRows(s);
    MiddleSpread(s);
  }

  // ----------------------------------------------------------------------- the pointer

  lemma Address(row: int, col: int, w: int)
    requires 0 <= col < w
    ensures (row * w + col) / w == row && (row * w + col) % w == col
  {
    var p := row * w + col;
    var q, r := p / w, p % w;
    assert p == q * w + r && (q - row) * w == col - r;
    assert q - row >= 1 ==> (q - row) * w >= w;
    assert q - row <= -1 ==> (q - row) * w <= -w;
  }

  /** The pixel at a flat address. */
  function PixelAt(img: array2<int>, p: int): int
    requires img.Length1 > 0 && 0 <= p / img.Length1 < img.Length0
    reads img
  {
    img[p / img.Length1, p % img.Length1]
  }

  /** The k-th read of the mask goes to the pixel the pointer addresses. */
  lemma PointerReads(img: array2<int>, i: int, j: int, k: nat)
    requires DiscInside(img, i, j) && k < 36
    ensures var (dy, dx) := MaskAt(k);
      var p := Pointer(img.Length1, i, j, k);
      0 <= p / img.Length1 < img.Length0 && PixelAt(img, p) == img[i + dy, j + dx]
  {
    var (dy, dx) := MaskAt(k);
    PointerVisitsMask(img.Length1, i, j, k);
    Address(i + dy, j + dx, img.Length1);
  }

  /** The area as the pointer walk sums it up. */
  function PointerSum(img: array2<int>, bp: Lut, i: int, j: int, k: nat): int
    requires DiscInside(img, i, j) && k <= 36
    reads img
    decreases k
  {
    if k == 0 then 0
    else
      PointerReads(img, i, j, k - 1);
      PointerSum(img, bp, i, j, k - 1) + bp(img[i, j] - PixelAt(img, Pointer(img.Length1, i, j, k - 1)))
  }

  lemma {:induction false} PointerSumIsMask(img: array2<int>, bp: Lut, i: int, j: int, s: seq<int>, k: nat)
    requires DiscInside(img, i, j) && k <= 36 && s == Window(img, bp, i, j)
    ensures PointerSum(img, bp, i, j, k) == MaskSum(s, k).n
    decreases k
  {
    if k > 0 {
      PointerSumIsMask(img, bp, i, j, s, k - 1);
      PointerReads(img, i, j, k - 1);
      WindowAt(img, bp, i, j, MaskAt(k - 1).0, MaskAt(k - 1).1);
    }
  }

  /** The area is 100 plus the sum over the reads of the pointer walk, and the response is what is missing
      to the limit, or 0. */
  lemma AreaByPointer(img: array2<int>, bp: Lut, maxNo: int, i: int, j: int)
    requires DiscInside(img, i, j) && Bytes(img) && BrightnessLut(bp)
    ensures var n := 100 + PointerSum(img, bp, i, j, 36);
      Disc(Window(img, bp, i, j)).n == n && AreaResponse(img, bp, maxNo, i, j) == if maxNo > n then maxNo - n else 0
  {
    WindowLevels(img, bp, i, j);
    var s := Window(img, bp, i, j);
    DiscIsMask(s);
    PointerSumIsMask(img, bp, i, j, s, 36);
  }
}
