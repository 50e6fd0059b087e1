/** Smoothing a whole image: size check, mirror padding, one new value per pixel. */
module SmoothImage {
  import opened Usan
  import opened Enlarge
  import opened Median
  import opened Smoothing

  /** px lists the mask, wt its combined weights, and v is what smoothing makes of them. */
  ghost predicate SmoothedBy(img: array2<int>, dp: seq<int>, bp: Lut, m: int, i: int, j: int, v: int, px: seq<int>,
                             wt: seq<int>)
    requires MaskInside(img, m, i, j)
    reads img
  {
    IsMask(img, m, i, j, px) && |px| == |wt| == |dp| && wt == Combined(px, dp, bp, CentreOf(m))
    && Smoothed(px, wt, CentreOf(m), NeighbourList(img, i, j), v)
  }

  /** v is what smoothing makes of pixel (i,j) of the padded image. */
  ghost predicate SmoothedAt(img: array2<int>, dp: seq<int>, bp: Lut, m: int, i: int, j: int, v: int)
    requires MaskInside(img, m, i, j)
    reads img
  {
    exists px, wt :: SmoothedBy(img, dp, bp, m, i, j, v, px, wt)
  }

  /** The mask as a list. */
  lemma ListMask(img: array2<int>, m: int, i: int, j: int) returns (px: seq<int>)
    requires MaskInside(img, m, i, j)
    ensures IsMask(img, m, i, j, px)
  {
    CentrePlace(m);
    px := seq(Side(m) * Side(m), k requires 0 <= k < Side(m) * Side(m) && MaskInside(img, m, i, j) reads img =>
      MaskPixel(img, m, i, j, k));
  }

  lemma MaskUnique(img: array2<int>, m: int, i: int, j: int, px: seq<int>, qx: seq<int>)
    requires MaskInside(img, m, i, j) && IsMask(img, m, i, j, px) && IsMask(img, m, i, j, qx)
    ensures px == qx
  {
    forall k | 0 <= k < |px|
      ensures px[k] == qx[k]
    {
      assert px[k] == MaskPixel(img, m, i, j, k);
    }
  }

  /** The mask around (i,j) lies between the bounds. */
  ghost predicate MaskWithin(img: array2<int>, m: int, i: int, j: int, lo: int, hi: int)
    requires MaskInside(img, m, i, j)
    reads img
  {
    forall a, b :: i - m <= a <= i + m && j - m <= b <= j + m ==> lo <= img[a, b] <= hi
  }

  lemma MaskListWithin(img: array2<int>, m: int, i: int, j: int, px: seq<int>, lo: int, hi: int)
    requires MaskInside(img, m, i, j) && MaskWithin(img, m, i, j, lo, hi) && IsMask(img, m, i, j, px)
    ensures forall k :: 0 <= k < |px| ==> lo <= px[k] <= hi
    ensures forall k :: 0 <= k < 8 ==> lo <= NeighbourList(img, i, j)[k] <= hi
  {
    forall k | 0 <= k < |px|
      ensures lo <= px[k] <= hi
    {
      MaskPlace(m, k);
      assert px[k] == MaskPixel(img, m, i, j, k);
    }
  }

  /** Maximum principle: a smoothed pixel lies between the extremes of its mask neighbourhood. */
  lemma SmoothedAtWithin(img: array2<int>, dp: seq<int>, bp: Lut, m: int, peak: int, i: int, j: int, v: int,
                         lo: int, hi: int)
    requires MaskInside(img, m, i, j) && Weights(dp, m, peak) && SmoothedAt(img, dp, bp, m, i, j, v)
    requires BrightnessLut(bp) && MaskWithin(img, m, i, j, 0, 255) && MaskWithin(img, m, i, j, lo, hi)
    ensures lo <= v <= hi
  {
    var px, wt :| SmoothedBy(img, dp, bp, m, i, j, v, px, wt);
    MaskListWithin(img, m, i, j, px, 0, 255);
    MaskListWithin(img, m, i, j, px, lo, hi);
    CombinedWeights(px, dp, bp, m, peak);
    SmoothedWithin(px, wt, CentreOf(m), NeighbourList(img, i, j), v, lo, hi);
  }

  lemma TotalStep(w: int, x: int, d: int)
    requires 0 <= w <= 100 * d && 0 <= x <= 255
    ensures 0 <= w * x <= 25500 * d
  {
    Weighted(w, x, 0, 255);
  }

  /** The sum accumulated for one pixel is bounded by the distance weights alone, so it fits a 32-bit
      int whenever they add up to at most 84215. */
  lemma {:induction false} TotalBounded(px: seq<int>, wt: seq<int>, dp: seq<int>, n: nat)
    requires n <= |px| == |wt| == |dp|
    requires forall k :: 0 <= k < |px| ==> 0 <= px[k] <= 255 && 0 <= wt[k] <= 100 * dp[k]
    ensures 0 <= Sum(px, wt, n).total <= 25500 * Sum(px, dp, n).area
    ensures Sum(px, dp, n).area <= 84215 ==> Sum(px, wt, n).total < 0x8000_0000
  {
    if n > 0 {
      TotalBounded(px, wt, dp, n - 1);
      TotalStep(wt[n - 1], px[n - 1], dp[n - 1]);
    }
  }

  /** The distance weights of a mode: the Gaussian table, or ones for the flat mask. */
  ghost function DistanceWeights(three: bool, dp: array<int>): seq<int>
    reads dp
  {
    if three then [1, 1, 1, 1, 1, 1, 1, 1, 1] else dp[..]
  }

  // ------------------------------------------------------------------ rows and images

  /** A value that smoothing makes of output pixel (a,b); at most one v per pixel. */
  datatype Cell = Cell(a: int, b: int, v: int)

  ghost predicate IsSmoothed(tmp: array2<int>, dw: seq<int>, bp: Lut, m: int, c: Cell)
    requires m >= 1
    reads tmp
  {
    MaskInside(tmp, m, c.a + m, c.b + m) && SmoothedAt(tmp, dw, bp, m, c.a + m, c.b + m, c.v)
  }

  ghost function SmoothedCells(tmp: array2<int>, dw: seq<int>, bp: Lut, m: int): iset<Cell>
    requires m >= 1
    reads tmp
  {
    iset c: Cell | IsSmoothed(tmp, dw, bp, m, c)
  }

  lemma SmoothedUnique(px: seq<int>, wt: seq<int>, c: int, ns: seq<int>, v: int, w: int)
    requires |px| == |wt| && Smoothed(px, wt, c, ns, v) && Smoothed(px, wt, c, ns, w)
    ensures v == w
  {
    if Rest(px, wt, c, |px|).area == 0 { MedianUnique(ns, v, w); }
  }

  lemma OneValuePerCell(tmp: array2<int>, dw: seq<int>, bp: Lut, m: int, c: Cell, d: Cell)
    requires m >= 1
    requires IsSmoothed(tmp, dw, bp, m, c) && IsSmoothed(tmp, dw, bp, m, d) && c.a == d.a && c.b == d.b
    ensures c == d
  {
    var i, j := c.a + m, c.b + m;
    var px, wt :| SmoothedBy(tmp, dw, bp, m, i, j, c.v, px, wt);
    var qx, ut :| SmoothedBy(tmp, dw, bp, m, i, j, d.v, qx, ut);
    MaskUnique(tmp, m, i, j, px, qx);
    SmoothedUnique(px, wt, CentreOf(m), NeighbourList(tmp, i, j), c.v, d.v);
  }

  /** `good` is the set of smoothed cells, fixed once the padded image is. */
  ghost predicate Fixed(tmp: array2<int>, dw: seq<int>, bp: Lut, m: int, good: iset<Cell>)
    requires m >= 1
    reads tmp
  {
    forall c: Cell {:trigger IsSmoothed(tmp, dw, bp, m, c)} :: IsSmoothed(tmp, dw, bp, m, c) <==> c in good
  }

  lemma BytesToMask(tmp: array2<int>, m: int, i: int, j: int)
    requires MaskInside(tmp, m, i, j) && Bytes(tmp)
    ensures MaskWithin(tmp, m, i, j, 0, 255)
  {
  }

  /** One new value under the flat mask. */
  method NewValue3(tmp: array2<int>, bp: Lut, a: int, b: int, ghost dw: seq<int>, ghost good: iset<Cell>)
    returns (v: int)
    requires MaskInside(tmp, 1, a + 1, b + 1) && Bytes(tmp) && BrightnessLut(bp)
    requires dw == [1, 1, 1, 1, 1, 1, 1, 1, 1] && Fixed(tmp, dw, bp, 1, good)
    ensures Cell(a, b, v) in good
  {
    ghost var px := ListMask(tmp, 1, a + 1, b + 1);
    ghost var wt := Combined(px, dw, bp, CentreOf(1));
    MaskReady(tmp, dw, bp, 1, 1, a + 1, b + 1, px, wt);
    v := SmoothPixel3(tmp, bp, a + 1, b + 1, px, wt);
    ItIsSmoothed(tmp, dw, bp, 1, a, b, v, px, wt);
  }

  /** One new value under the large mask. */
  method NewValueLarge(tmp: array2<int>, dp: array<int>, bp: Lut, m: int, a: int, b: int, ghost dw: seq<int>,
                       ghost good: iset<Cell>)
    returns (v: int)
    requires MaskInside(tmp, m, a + m, b + m) && Bytes(tmp) && BrightnessLut(bp)
    requires dw == dp[..] && Weights(dw, m, 100) && Fixed(tmp, dw, bp, m, good)
    ensures Cell(a, b, v) in good
  {
    ghost var i, j := a + m, b + m;
    ghost var px := ListMask(tmp, m, i, j);
    ghost var wt := Combined(px, dw, bp, CentreOf(m));
    MaskReady(tmp, dw, bp, m, 100, i, j, px, wt);
    v := SmoothPixel(tmp, dp, bp, m, a + m, b + m, px, wt);
    ItIsSmoothed(tmp, dw, bp, m, a, b, v, px, wt);
  }

  lemma MaskReady(tmp: array2<int>, dw: seq<int>, bp: Lut, m: int, peak: int, i: int, j: int, px: seq<int>,
                  wt: seq<int>)
    requires MaskInside(tmp, m, i, j) && Bytes(tmp) && BrightnessLut(bp) && IsMask(tmp, m, i, j, px)
    requires Weights(dw, m, peak) && |dw| == |px| && wt == Combined(px, dw, bp, CentreOf(m))
    ensures wt[CentreOf(m)] == 100 * peak && (forall k :: 0 <= k < |px| ==> px[k] >= 0 && wt[k] >= 0)
  {
    BytesToMask(tmp, m, i, j);
    MaskListWithin(tmp, m, i, j, px, 0, 255);
    CombinedWeights(px, dw, bp, m, peak);
  }

  lemma ItIsSmoothed(tmp: array2<int>, dw: seq<int>, bp: Lut, m: int, a: int, b: int, v: int, px: seq<int>,
                     wt: seq<int>)
    requires MaskInside(tmp, m, a + m, b + m) && SmoothedBy(tmp, dw, bp, m, a + m, b + m, v, px, wt)
    ensures IsSmoothed(tmp, dw, bp, m, Cell(a, b, v))
  {
  }

  method NewCell(tmp: array2<int>, three: bool, dp: array<int>, bp: Lut, m: int, a: int, b: int,
                 ghost dw: seq<int>, ghost good: iset<Cell>)
    returns (v: int)
    requires MaskInside(tmp, m, a + m, b + m) && Bytes(tmp) && BrightnessLut(bp) && (three ==> m == 1)
    requires dw == DistanceWeights(three, dp) && Weights(dw, m, if three then 1 else 100) && Fixed(tmp, dw, bp, m, good)
    ensures Cell(a, b, v) in good
  {
    if three {
      v := NewValue3(tmp, bp, a, b, dw, good);
    } else {
      v := NewValueLarge(tmp, dp, bp, m, a, b, dw, good);
    }
  }

  /** Output row a: the padded row a + m smoothed into the original buffer. */
  method SmoothRow(img: array2<int>, tmp: array2<int>, three: bool, dp: array<int>, bp: Lut, m: int, a: int,
                   ghost dw: seq<int>, ghost good: iset<Cell>)
    requires m >= 1 && Larger(tmp, img, m) && 0 <= a < img.Length0 && (three ==> m == 1)
    requires Bytes(tmp) && BrightnessLut(bp) && dw == DistanceWeights(three, dp) &&
      Weights(dw, m, if three then 1 else 100)
    requires Fixed(tmp, dw, bp, m, good)
    modifies img
    ensures forall c, b :: 0 <= c < img.Length0 && 0 <= b < img.Length1 && c != a ==> img[c, b] == old(img[c, b])
    ensures forall b :: 0 <= b < img.Length1 ==> Cell(a, b, img[a, b]) in good
  {
    var j := m;
    while j < tmp.Length1 - m
      invariant m <= j <= tmp.Length1 - m || img.Length1 == 0
      invariant forall c, b :: 0 <= c < img.Length0 && 0 <= b < img.Length1 && c != a ==> img[c, b] == old(img[c, b])
      invariant forall b :: 0 <= b < j - m && b < img.Length1 ==> Cell(a, b, img[a, b]) in good
    {
      img[a, j - m] := NewCell(tmp, three, dp, bp, m, a, j - m, dw, good);
      j := j + 1;
    }
  }

  /** The scan over the padded image, each new value going out to the original buffer. */
  method SmoothScan(img: array2<int>, tmp: array2<int>, three: bool, dp: array<int>, bp: Lut, m: int,
                    ghost dw: seq<int>, ghost good: iset<Cell>)
    requires m >= 1 && Larger(tmp, img, m) && (three ==> m == 1)
    requires Bytes(tmp) && BrightnessLut(bp) && dw == DistanceWeights(three, dp) &&
      Weights(dw, m, if three then 1 else 100)
    requires Fixed(tmp, dw, bp, m, good)
    modifies img
    ensures forall a, b :: 0 <= a < img.Length0 && 0 <= b < img.Length1 ==> Cell(a, b, img[a, b]) in good
  {
    var i := m;
    while i < tmp.Length0 - m
      invariant m <= i <= tmp.Length0 - m || img.Length0 == 0
      invariant forall a, b :: 0 <= a < i - m && a < img.Length0 && 0 <= b < img.Length1 ==>
        Cell(a, b, img[a, b]) in good
    {
      SmoothRow(img, tmp, three, dp, bp, m, i - m, dw, good);
      i := i + 1;
    }
  }

  ghost predicate AllWithin(img: array2<int>, lo: int, hi: int)
    reads img
  {
    forall i, j :: 0 <= i < img.Length0 && 0 <= j < img.Length1 ==> lo <= img[i, j] <= hi
  }

  lemma AllToMask(tmp: array2<int>, m: int, i: int, j: int, lo: int, hi: int)
    requires MaskInside(tmp, m, i, j) && AllWithin(tmp, lo, hi)
    ensures MaskWithin(tmp, m, i, j, lo, hi)
  {
  }

  lemma CellWithin(tmp: array2<int>, dw: seq<int>, bp: Lut, m: int, peak: int, lo: int, hi: int, c: Cell)
    requires m >= 1 && Weights(dw, m, peak) && BrightnessLut(bp) && IsSmoothed(tmp, dw, bp, m, c)
    requires AllWithin(tmp, 0, 255) && AllWithin(tmp, lo, hi)
    ensures lo <= c.v <= hi
  {
    AllToMask(tmp, m, c.a + m, c.b + m, 0, 255);
    AllToMask(tmp, m, c.a + m, c.b + m, lo, hi);
    SmoothedAtWithin(tmp, dw, bp, m, peak, c.a + m, c.b + m, c.v, lo, hi);
  }

  lemma CellsWithin(tmp: array2<int>, dw: seq<int>, bp: Lut, m: int, peak: int, lo: int, hi: int, good: iset<Cell>)
    requires m >= 1 && Weights(dw, m, peak) && BrightnessLut(bp) && good == SmoothedCells(tmp, dw, bp, m)
    requires AllWithin(tmp, 0, 255) && AllWithin(tmp, lo, hi)
    ensures forall c :: c in good ==> lo <= c.v <= hi
  {
    forall c | c in good
      ensures lo <= c.v <= hi
    {
      CellWithin(tmp, dw, bp, m, peak, lo, hi, c);
    }
  }

  /** Half the width of the mask: from the distance threshold, rounded down, or 1 for the flat mask. */
  function MaskSize(three: bool, dt: real): (m: int)
    requires three || dt >= 0.0
    ensures m >= 1 && (three ==> m == 1)
    ensures !three ==> (m - 1) as real <= 1.5 * dt < m as real
  {
    if three then 1 else (1.5 * dt).Floor + 1
  }

  /** Smoothing in place. A threshold too large for integer arithmetic is refused, and so is an image too
      small for the mask; the image is then left alone. Otherwise every pixel becomes the smoothed value of
      its mask in the mirror-padded original. No pixel leaves the range the original had: a constant image,
      in particular, stays as it is. */
  method Smooth(img: array2<int>, three: bool, dt: real, dp: array<int>, bp: Lut) returns (ok: bool, tmp: array2<int>)
    requires (three || dt >= 0.0) && Bytes(img) && BrightnessLut(bp)
    requires Weights(DistanceWeights(three, dp), MaskSize(three, dt), if three then 1 else 100)
    modifies img
    ensures var m := MaskSize(three, dt);
      && ok == (dt <= 15.0 && Side(m) <= img.Length0 && Side(m) <= img.Length1)
      && (!ok ==> forall a, b :: 0 <= a < img.Length0 && 0 <= b < img.Length1 ==> img[a, b] == old(img[a, b]))
      && (ok ==> Larger(tmp, img, m))
      && (ok ==> forall a, b :: 0 <= a < tmp.Length0 && 0 <= b < tmp.Length1 ==>
            tmp[a, b] == old(img[Mirror(a - m, img.Length0), Mirror(b - m, img.Length1)]))
      && (ok ==> forall a, b :: 0 <= a < img.Length0 && 0 <= b < img.Length1 ==>
            Cell(a, b, img[a, b]) in SmoothedCells(tmp, DistanceWeights(three, dp), bp, m))
    ensures forall lo, hi :: old(AllWithin(img, lo, hi)) ==> AllWithin(img, lo, hi)
  {
    var m := MaskSize(three, dt);
    if dt > 15.0 || 2 * m + 1 > img.Length1 || 2 * m + 1 > img.Length0 {
      return false, img;
    }
    ok := true;
    tmp := SmoothWith(img, three, m, dp, bp);
  }

  /** Smoothing with a mask that fits. */
  method SmoothWith(img: array2<int>, three: bool, m: int, dp: array<int>, bp: Lut) returns (tmp: array2<int>)
    requires m >= 1 && (three ==> m == 1) && Side(m) <= img.Length0 && Side(m) <= img.Length1
    requires Bytes(img) && BrightnessLut(bp) && Weights(DistanceWeights(three, dp), m, if three then 1 else 100)
    modifies img
    ensures Larger(tmp, img, m)
    ensures forall a, b :: 0 <= a < tmp.Length0 && 0 <= b < tmp.Length1 ==>
      tmp[a, b] == old(img[Mirror(a - m, img.Length0), Mirror(b - m, img.Length1)])
    ensures forall a, b :: 0 <= a < img.Length0 && 0 <= b < img.Length1 ==>
      Cell(a, b, img[a, b]) in SmoothedCells(tmp, DistanceWeights(three, dp), bp, m)
    ensures forall lo, hi :: old(AllWithin(img, lo, hi)) ==> AllWithin(img, lo, hi)
  {
    ghost var dw := DistanceWeights(three, dp);
    tmp := new int[img.Length0 + 2 * m, img.Length1 + 2 * m];
    EnlargeImage(img, tmp, m);
    ghost var good := SmoothedCells(tmp, dw, bp, m);
    SmoothScan(img, tmp, three, dp, bp, m, dw, good);
    forall lo, hi | old(AllWithin(img, lo, hi))
      ensures AllWithin(img, lo, hi)
    {
      CellsWithin(tmp, dw, bp, m, if three then 1 else 100, lo, hi, good);
      forall a, b | 0 <= a < img.Length0 && 0 <= b < img.Length1
        ensures lo <= img[a, b] <= hi
      {
        assert lo <= Cell(a, b, img[a, b]).v <= hi;
      }
    }
  }
}
