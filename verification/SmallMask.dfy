/** The 3x3 form of the response and of the direction across an edge. */
module SmallMask {
  import opened Usan
  import opened Gradient

  const SMALL_MAX := 730

  predicate RingInside(img: array2<int>, i: int, j: int) {
    1 <= i < img.Length0 - 1 && 1 <= j < img.Length1 - 1
  }

  /** How similar place k of the 3x3 block is to its middle. */
  function Alike(img: array2<int>, bp: Lut, i: int, j: int, k: int): int
    requires RingInside(img, i, j) && 0 <= k < 9
    reads img
  {
    bp(img[i, j] - img[i + k / 3 - 1, j + k % 3 - 1])
  }

  function Block(img: array2<int>, bp: Lut, i: int, j: int): (s: seq<int>)
    requires RingInside(img, i, j)
    reads img
    ensures |s| == 9
  {
    seq(9, k requires 0 <= k < 9 && RingInside(img, i, j) reads img => Alike(img, bp, i, j, k))
  }

  ghost predicate IsBlock(img: array2<int>, bp: Lut, i: int, j: int, s: seq<int>)
    requires RingInside(img, i, j)
    reads img
  {
    |s| == 9 && forall k {:trigger Alike(img, bp, i, j, k)} :: 0 <= k < 9 ==> s[k] == Alike(img, bp, i, j, k)
  }

  lemma BlockLevels(img: array2<int>, bp: Lut, i: int, j: int)
    requires RingInside(img, i, j) && Bytes(img) && BrightnessLut(bp)
    ensures var s := Block(img, bp, i, j);
      IsBlock(img, bp, i, j, s) && s[4] == 100 && forall k :: 0 <= k < 9 ==> 0 <= s[k] <= 100
  {
    var s := Block(img, bp, i, j);
    forall k | 0 <= k < 9
      ensures 0 <= s[k] <= 100
    {
      assert s[k] == Alike(img, bp, i, j, k);
    }
    assert s[4] == Alike(img, bp, i, j, 4);
  }

  // -------------------------------------------------------------------------- moments

  /** Area and first moments of the first n places: place k is k/3 - 1 rows and k%3 - 1 columns away. */
  function Sums(s: seq<int>, n: nat): Moments
    requires |s| == 9 && n <= 9
    decreases |s|, n
  {
    if n == 0 then Moments(0, 0, 0)
    else
      var m, k := Sums(s, n - 1), n - 1;
      Moments(m.n + s[k], m.x + (k % 3 - 1) * s[k], m.y + (k / 3 - 1) * s[k])
  }

  function Squares(s: seq<int>, n: nat): Spread
    requires |s| == 9 && n <= 9
    decreases |s|, n
  {
    if n == 0 then Spread(0, 0, 0)
    else
      var m, k := Squares(s, n - 1), n - 1;
      var dy, dx := k / 3 - 1, k % 3 - 1;
      Spread(m.x + dx * dx * s[k], m.y + dy * dy * s[k], m.w + dx * dy * s[k])
  }

  function BlockMoments(s: seq<int>): Moments
    requires |s| == 9
  {
    Sums(s, |s|)
  }

  function BlockDirection(s: seq<int>): Direction
    requires |s| == 9
  {
    Direct(BlockMoments(s), Squares(s, |s|), 250, 4)
  }

  /** One read through the table. */
  method ReadBlock(img: array2<int>, bp: Lut, i: int, j: int, k: int, ghost s: seq<int>) returns (c: int)
    requires RingInside(img, i, j) && IsBlock(img, bp, i, j, s) && 0 <= k < 9
    ensures c == s[k]
  {
    c := Alike(img, bp, i, j, k);
  }

  /** The area: 100 for the nucleus, which is not read, plus the eight reads. */
  method BlockArea(img: array2<int>, bp: Lut, i: int, j: int, ghost s: seq<int>) returns (n: int)
    requires RingInside(img, i, j) && IsBlock(img, bp, i, j, s) && s[4] == 100
    ensures n == BlockMoments(s).n
  {
    n := 100;
    var k := 0;
    while k < 9
      invariant 0 <= k <= 9 && n == Sums(s, k).n + (if k <= 4 then 100 else 0)
    {
      if k != 4 {
        var c := ReadBlock(img, bp, i, j, k, s);
        n := n + c;
      }
      k := k + 1;
    }
  }

  method BlockGravity(img: array2<int>, bp: Lut, i: int, j: int, ghost s: seq<int>) returns (x: int, y: int)
    requires RingInside(img, i, j) && IsBlock(img, bp, i, j, s)
    ensures x == BlockMoments(s).x && y == BlockMoments(s).y
  {
    x, y := 0, 0;
    var k := 0;
    while k < 9
      invariant 0 <= k <= 9 && x == Sums(s, k).x && y == Sums(s, k).y
    {
      if k != 4 {
        var c := ReadBlock(img, bp, i, j, k, s);
        x, y := x + (k % 3 - 1) * c, y + (k / 3 - 1) * c;
      }
      k := k + 1;
    }
  }

  method BlockSymmetry(img: array2<int>, bp: Lut, i: int, j: int, ghost s: seq<int>) returns (m: Spread)
    requires RingInside(img, i, j) && IsBlock(img, bp, i, j, s)
    ensures m == Squares(s, |s|)
  {
    var x, y, w := 0, 0, 0;
    var k := 0;
    while k < 9
      invariant 0 <= k <= 9 && Spread(x, y, w) == Squares(s, k)
    {
      if k != 4 {
        var c := ReadBlock(img, bp, i, j, k, s);
        var dy, dx := k / 3 - 1, k % 3 - 1;
        x, y, w := x + dx * dx * c, y + dy * dy * c, w + dx * dy * c;
      }
      k := k + 1;
    }
    m := Spread(x, y, w);
  }

  /** The direction at one pixel, for n its area. */
  method FindBlockDirection(img: array2<int>, bp: Lut, i: int, j: int, n: int, ghost s: seq<int>) returns (d: Direction)
    requires RingInside(img, i, j) && IsBlock(img, bp, i, j, s) && n == BlockMoments(s).n
    ensures d == BlockDirection(s)
  {
    if n > 250 {
      var x, y := BlockGravity(img, bp, i, j, s);
      if 100 * (x * x + y * y) > 16 * (n * n) {
        return Direction(GravityAxis(x, y), false);
      }
    }
    var m := BlockSymmetry(img, bp, i, j, s);
    d := Direction(SymmetryAxis(m), true);
  }

  // -------------------------------------------------------------------------- responses

  function BlockResponse(img: array2<int>, bp: Lut, i: int, j: int): int
    requires RingInside(img, i, j)
    reads img
  {
    var n := BlockMoments(Block(img, bp, i, j)).n;
    if n < SMALL_MAX then SMALL_MAX - n else 0
  }

  /** `r` holds the small response one pixel inside, and 0 on the border. */
  ghost predicate HoldsBlockResponse(r: array2<int>, img: array2<int>, bp: Lut)
    requires r.Length0 == img.Length0 && r.Length1 == img.Length1
    reads r, img
  {
    forall i, j :: 0 <= i < r.Length0 && 0 <= j < r.Length1 ==>
      r[i, j] == if Scanned(r, 1, i, j) then BlockResponse(img, bp, i, j) else 0
  }

  method RespondBlock(img: array2<int>, bp: Lut, i: int, j: int) returns (v: int)
    requires RingInside(img, i, j) && Bytes(img) && BrightnessLut(bp)
    ensures v == BlockResponse(img, bp, i, j)
  {
    BlockLevels(img, bp, i, j);
    var n := BlockArea(img, bp, i, j, Block(img, bp, i, j));
    v := 0;
    if n <= SMALL_MAX { v := SMALL_MAX - n; }
  }

  method BlockRow(img: array2<int>, r: array2<int>, bp: Lut, i: int)
    requires img != r && r.Length0 == img.Length0 && r.Length1 == img.Length1 && Bytes(img) && BrightnessLut(bp)
    requires 1 <= i < r.Length0 - 1
    modifies r
    ensures forall a, b :: 0 <= a < r.Length0 && 0 <= b < r.Length1 ==>
      r[a, b] == if a == i && Scanned(r, 1, a, b) then BlockResponse(img, bp, a, b) else old(r[a, b])
  {
    ghost var want := seq(img.Length1, b requires 0 <= b reads img =>
      if Scanned(img, 1, i, b) then BlockResponse(img, bp, i, b) else 0);
    var j := 1;
    while j < r.Length1 - 1
      invariant 1 <= j && (j == 1 || j <= r.Length1 - 1)
      invariant forall a, b :: 0 <= a < r.Length0 && 0 <= b < r.Length1 ==>
        r[a, b] == if a == i && 1 <= b < j then want[b] else old(r[a, b])
    {
      var v := RespondBlock(img, bp, i, j);
      r[i, j] := v;
      j := j + 1;
    }
  }

  /** The small principle over the whole image, one pixel inside. */
  method SmallPrinciple(img: array2<int>, r: array2<int>, bp: Lut)
    requires img != r && r.Length0 == img.Length0 && r.Length1 == img.Length1 && Bytes(img) && BrightnessLut(bp)
    modifies r
    ensures HoldsBlockResponse(r, img, bp)
  {
    Clear(r);
    var i := 1;
    while i < r.Length0 - 1
      invariant 1 <= i
      invariant forall a, b :: 0 <= a < r.Length0 && 0 <= b < r.Length1 ==>
        r[a, b] == if a < i && Scanned(r, 1, a, b) then BlockResponse(img, bp, a, b) else 0
    {
      BlockRow(img, r, bp, i);
      i := i + 1;
    }
  }

  // --------------------------------------------------------------- what the sums stand for

  /** The block holds, at each offset, the similarity of the pixel at that offset. */
  lemma BlockAt(img: array2<int>, bp: Lut, i: int, j: int, dy: int, dx: int)
    requires RingInside(img, i, j) && -1 <= dy <= 1 && -1 <= dx <= 1
    ensures Block(img, bp, i, j)[3 * (dy + 1) + dx + 1] == bp(img[i, j] - img[i + dy, j + dx])
  {
    var k := 3 * (dy + 1) + dx + 1;
    assert k / 3 - 1 == dy && k % 3 - 1 == dx;
    assert Block(img, bp, i, j)[k] == Alike(img, bp, i, j, k);
  }

  lemma SumsStep(s: seq<int>, n: nat, dy: int, dx: int)
    requires |s| == 9 && 1 <= n <= 9 && -1 <= dx <= 1 && n - 1 == 3 * (dy + 1) + dx + 1
    ensures var m, c := Sums(s, n - 1), s[n - 1]; Sums(s, n) == Moments(m.n + c, m.x + dx * c, m.y + dy * c)
    ensures var m, c := Squares(s, n - 1), s[n - 1];
      Squares(s, n) == Spread(m.x + dx * dx * c, m.y + dy * dy * c, m.w + dx * dy * c)
  {
    assert (n - 1) / 3 - 1 == dy && (n - 1) % 3 - 1 == dx;
  }

  /** The first row of the block, n = 3, the second, n = 6, and the third, n = 9. */
  lemma TopSums(s: seq<int>, n: nat)
    requires |s| == 9 && n == 3
    ensures Sums(s, n) == Moments(s[0] + s[1] + s[2], s[2] - s[0], -s[0] - s[1] - s[2])
    ensures Squares(s, n) == Spread(s[0] + s[2], s[0] + s[1] + s[2], s[0] - s[2])
  {
    SumsStep(s, n - 2, -1, -1);
    SumsStep(s, n - 1, -1, 0);
    SumsStep(s, n, -1, 1);
    assert Sums(s, n - 3) == Moments(0, 0, 0) && Squares(s, n - 3) == Spread(0, 0, 0);
  }

  lemma MiddleSums(s: seq<int>, n: nat)
    requires |s| == 9 && n == 6
    ensures var m := Sums(s, n - 3); Sums(s, n) == Moments(m.n + s[3] + s[4] + s[5], m.x - s[3] + s[5], m.y)
    ensures var m := Squares(s, n - 3); Squares(s, n) == Spread(m.x + s[3] + s[5], m.y, m.w)
  {
    SumsStep(s, n - 2, 0, -1);
    SumsStep(s, n - 1, 0, 0);
    SumsStep(s, n, 0, 1);
  }

  lemma BottomSums(s: seq<int>, n: nat)
    requires |s| == 9 && n == 9
    ensures var m := Sums(s, n - 3);
      Sums(s, n) == Moments(m.n + s[6] + s[7] + s[8], m.x - s[6] + s[8], m.y + s[6] + s[7] + s[8])
    ensures var m := Squares(s, n - 3);
      Squares(s, n) == Spread(m.x + s[6] + s[8], m.y + s[6] + s[7] + s[8], m.w - s[6] + s[8])
  {
    SumsStep(s, n - 2, 1, -1);
    SumsStep(s, n - 1, 1, 0);
    SumsStep(s, n, 1, 1);
  }

  /** The moments of the block, written out. */
  lemma BlockSums(s: seq<int>)
    requires |s| == 9
    ensures BlockMoments(s) == Moments(s[0] + s[1] + s[2] + s[3] + s[4] + s[5] + s[6] + s[7] + s[8],
                                       s[2] + s[5] + s[8] - s[0] - s[3] - s[6], s[6] + s[7] + s[8] - s[0] - s[1] - s[2])
    ensures Squares(s, |s|) == Spread(s[0] + s[2] + s[3] + s[5] + s[6] + s[8],
                                      s[0] + s[1] + s[2] + s[6] + s[7] + s[8], s[0] - s[2] - s[6] + s[8])
  {
    var n := |s|;
    TopSums(s, n - 6);
    MiddleSums(s, n - 3);
    BottomSums(s, n);
  }

  /** The eight entries around the nucleus. */
  lemma BlockEntries(img: array2<int>, bp: Lut, i: int, j: int, s: seq<int>)
    requires RingInside(img, i, j) && s == Block(img, bp, i, j)
    ensures var c := img[i, j];
      && s[0] == bp(c - img[i - 1, j - 1]) && s[1] == bp(c - img[i - 1, j]) && s[2] == bp(c - img[i - 1, j + 1])
      && s[3] == bp(c - img[i, j - 1]) && s[5] == bp(c - img[i, j + 1])
      && s[6] == bp(c - img[i + 1, j - 1]) && s[7] == bp(c - img[i + 1, j]) && s[8] == bp(c - img[i + 1, j + 1])
  {
    BlockAt(img, bp, i, j, -1, -1);
    BlockAt(img, bp, i, j, -1, 0);
    BlockAt(img, bp, i, j, -1, 1);
    BlockAt(img, bp, i, j, 0, -1);
    BlockAt(img, bp, i, j, 0, 1);
    BlockAt(img, bp, i, j, 1, -1);
    BlockAt(img, bp, i, j, 1, 0);
    BlockAt(img, bp, i, j, 1, 1);
  }

  /** The area, pixel by pixel. */
  function RingArea(img: array2<int>, bp: Lut, i: int, j: int): int
    requires RingInside(img, i, j)
    reads img
  {
    var c := img[i, j];
    100 + bp(c - img[i - 1, j - 1]) + bp(c - img[i - 1, j]) + bp(c - img[i - 1, j + 1]) +
    bp(c - img[i, j - 1]) + bp(c - img[i, j + 1]) +
    bp(c - img[i + 1, j - 1]) + bp(c - img[i + 1, j]) + bp(c - img[i + 1, j + 1])
  }

  /** The area is 100 and the similarities of the eight neighbours. */
  lemma RingAreaIsArea(img: array2<int>, bp: Lut, i: int, j: int, s: seq<int>)
    requires RingInside(img, i, j) && s == Block(img, bp, i, j) && s[4] == 100
    ensures RingArea(img, bp, i, j) == BlockMoments(s).n
  {
    BlockEntries(img, bp, i, j, s);
    BlockSums(s);
  }

  lemma ResponseOf(img: array2<int>, bp: Lut, i: int, j: int, s: seq<int>, n: int)
    requires RingInside(img, i, j) && s == Block(img, bp, i, j) && n == BlockMoments(s).n
    ensures BlockResponse(img, bp, i, j) == if 730 > n then 730 - n else 0
  {
  }

  /** The response is what the area leaves missing to the limit, or 0. */
  lemma BlockResponseMeans(img: array2<int>, bp: Lut, i: int, j: int)
    requires RingInside(img, i, j) && Bytes(img) && BrightnessLut(bp)
    ensures var n := RingArea(img, bp, i, j); BlockResponse(img, bp, i, j) == if 730 > n then 730 - n else 0
  {
    var s := Block(img, bp, i, j);
    BlockLevels(img, bp, i, j);
    RingAreaIsArea(img, bp, i, j, s);
    ResponseOf(img, bp, i, j, s, RingArea(img, bp, i, j));
  }

  /** When the gravity decides: an area above 250 with its centre of gravity more than 0.4 of it away. */
  lemma BlockGravityDecides(s: seq<int>, m: Moments, z: real)
    requires |s| == 9 && m == BlockMoments(s) && m.n >= 0 && z >= 0.0 && z * z == (m.x * m.x + m.y * m.y) as real
    ensures var d := BlockDirection(s);
      && (!d.symmetric <==> m.n > 250 && z > 0.4 * m.n as real)
      && d.axis == if d.symmetric then SymmetryAxis(Squares(s, |s|)) else GravityAxis(m.x, m.y)
  {
    FarByDistance(m.x, m.y, m.n, 4, z);
  }
}
