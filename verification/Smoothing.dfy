/** Structure-preserving smoothing: a weighted mean without the nucleus, or a median when it stands alone. */
module Smoothing {
  import opened Usan
  import opened Median

  // ------------------------------------------------------- weighted mean over a list of pixels

  /** Sum of the first n weights and of the first n weighted brightnesses. */
  datatype Mass = Mass(area: int, total: int)

  function Sum(px: seq<int>, wt: seq<int>, n: nat): Mass
    requires n <= |px| == |wt|
  {
    if n == 0 then Mass(0, 0)
    else
      var m := Sum(px, wt, n - 1);
      Mass(m.area + wt[n - 1], m.total + wt[n - 1] * px[n - 1])
  }

  /** The same sums with place c left out. */
  function Rest(px: seq<int>, wt: seq<int>, c: int, n: nat): Mass
    requires n <= |px| == |wt|
  {
    if n == 0 then Mass(0, 0)
    else
      var m := Rest(px, wt, c, n - 1);
      if n - 1 == c then m else Mass(m.area + wt[n - 1], m.total + wt[n - 1] * px[n - 1])
  }

  /** Subtracting the nucleus afterwards is the same as never adding it. */
  lemma {:induction false} NucleusSubtracted(px: seq<int>, wt: seq<int>, c: int, n: nat)
    requires n <= |px| == |wt| && 0 <= c < |px|
    ensures Rest(px, wt, c, n) ==
      if c < n then Mass(Sum(px, wt, n).area - wt[c], Sum(px, wt, n).total - wt[c] * px[c]) else Sum(px, wt, n)
  {
    if n > 0 { NucleusSubtracted(px, wt, c, n - 1); }
  }

  lemma {:induction false} RestBounds(px: seq<int>, wt: seq<int>, c: int, n: nat, lo: int, hi: int)
    requires n <= |px| == |wt|
    requires forall k :: 0 <= k < |px| && k != c ==> wt[k] >= 0 && lo <= px[k] <= hi
    ensures var m := Rest(px, wt, c, n); m.area >= 0 && lo * m.area <= m.total <= hi * m.area
  {
    if n > 0 {
      RestBounds(px, wt, c, n - 1, lo, hi);
      var m := Rest(px, wt, c, n - 1);
      if n - 1 != c {
        MassStep(m.area, m.total, wt[n - 1], px[n - 1], lo, hi);
      }
    }
  }

  lemma MassStep(area: int, total: int, w: int, x: int, lo: int, hi: int)
    requires lo * area <= total <= hi * area && w >= 0 && lo <= x <= hi
    ensures lo * (area + w) <= total + w * x <= hi * (area + w)
  {
    Weighted(w, x, lo, hi);
    assert lo * (area + w) == lo * area + lo * w;
    assert hi * (area + w) == hi * area + hi * w;
  }

  lemma Weighted(w: int, x: int, lo: int, hi: int)
    requires w >= 0 && lo <= x <= hi
    ensures lo * w <= w * x <= hi * w
  {
    assert (x - lo) * w >= 0 && (hi - x) * w >= 0;
    assert (x - lo) * w == x * w - lo * w && (hi - x) * w == hi * w - x * w;
  }

  lemma MeanWithin(area: int, total: int, lo: int, hi: int)
    requires area > 0 && lo * area <= total <= hi * area
    ensures lo <= total / area <= hi
  {
    var q := total / area;
    assert total == q * area + total % area;
    assert q < lo ==> (q + 1) * area <= lo * area;
    assert q > hi ==> q * area >= (hi + 1) * area;
    assert (q + 1) * area == q * area + area && (hi + 1) * area == hi * area + area;
  }

  /** What smoothing makes of one pixel: px the mask, wt its weights, c the nucleus, ns its 8 neighbours. */
  ghost predicate Smoothed(px: seq<int>, wt: seq<int>, c: int, ns: seq<int>, v: int)
    requires |px| == |wt|
  {
    var m := Rest(px, wt, c, |px|);
    if m.area == 0 then IsMedian(ns, v) else v == m.total / m.area
  }

  /** Maximum principle: the new value lies between any bounds of the other pixels of the mask. */
  lemma SmoothedWithin(px: seq<int>, wt: seq<int>, c: int, ns: seq<int>, v: int, lo: int, hi: int)
    requires |px| == |wt| && Smoothed(px, wt, c, ns, v)
    requires forall k :: 0 <= k < |px| && k != c ==> wt[k] >= 0 && lo <= px[k] <= hi
    requires forall k :: 0 <= k < |ns| ==> lo <= ns[k] <= hi
    ensures lo <= v <= hi
  {
    RestBounds(px, wt, c, |px|, lo, hi);
    var m := Rest(px, wt, c, |px|);
    if m.area == 0 {
      MedianWithin(ns, v, lo, hi);
    } else {
      MeanWithin(m.area, m.total, lo, hi);
    }
  }

  lemma {:induction false} WeightedBounds(px: seq<int>, wt: seq<int>, c: int, n: nat, lo: int, hi: int)
    requires n <= |px| == |wt|
    requires forall k :: 0 <= k < |px| && k != c ==> wt[k] >= 0 && (wt[k] > 0 ==> lo <= px[k] <= hi)
    ensures var m := Rest(px, wt, c, n); m.area >= 0 && lo * m.area <= m.total <= hi * m.area
  {
    if n > 0 {
      WeightedBounds(px, wt, c, n - 1, lo, hi);
      var m := Rest(px, wt, c, n - 1);
      if n - 1 != c && wt[n - 1] > 0 { MassStep(m.area, m.total, wt[n - 1], px[n - 1], lo, hi); }
    }
  }

  /** The structure is preserved: a mean lies between the bounds of those pixels alone that have a positive
      weight, that is, that are near enough and similar enough to the nucleus. */
  lemma OnlySimilarCount(px: seq<int>, wt: seq<int>, c: int, ns: seq<int>, v: int, lo: int, hi: int)
    requires |px| == |wt| && Smoothed(px, wt, c, ns, v) && Rest(px, wt, c, |px|).area != 0
    requires forall k :: 0 <= k < |px| && k != c ==> wt[k] >= 0 && (wt[k] > 0 ==> lo <= px[k] <= hi)
    ensures lo <= v <= hi
  {
    WeightedBounds(px, wt, c, |px|, lo, hi);
    MeanWithin(Rest(px, wt, c, |px|).area, Rest(px, wt, c, |px|).total, lo, hi);
  }

  /** With one other pixel that counts, the mean is that pixel, whatever its weight. */
  lemma OneCounts(px: seq<int>, wt: seq<int>, c: int, ns: seq<int>, v: int, k: int)
    requires |px| == |wt| && 0 <= k < |px| && k != c && wt[k] > 0 && Smoothed(px, wt, c, ns, v)
    requires forall l :: 0 <= l < |px| && l != c && l != k ==> wt[l] == 0
    ensures v == px[k]
  {
    AreaPositive(px, wt, c, |px|, k);
    OnlySimilarCount(px, wt, c, ns, v, px[k], px[k]);
  }

  lemma {:induction false} RestOfTwo(px: seq<int>, wt: seq<int>, c: int, n: nat, k: int, l: int)
    requires n <= |px| == |wt| && 0 <= k < l < |px| && k != c && l != c
    requires forall x :: 0 <= x < |px| && x != c && x != k && x != l ==> wt[x] == 0
    ensures Rest(px, wt, c, n) ==
      if n <= k then Mass(0, 0) else if n <= l then Mass(wt[k], wt[k] * px[k])
      else Mass(wt[k] + wt[l], wt[k] * px[k] + wt[l] * px[l])
  {
    if n > 0 { RestOfTwo(px, wt, c, n - 1, k, l); }
  }

  /** With two other pixels that count, the mean weighs them by their weights. */
  lemma TwoCount(px: seq<int>, wt: seq<int>, c: int, ns: seq<int>, v: int, k: int, l: int)
    requires |px| == |wt| && 0 <= k < l < |px| && k != c && l != c && Smoothed(px, wt, c, ns, v)
    requires forall x :: 0 <= x < |px| && x != c && x != k && x != l ==> wt[x] == 0
    ensures wt[k] + wt[l] != 0 ==> v == (wt[k] * px[k] + wt[l] * px[l]) / (wt[k] + wt[l])
  {
    RestOfTwo(px, wt, c, |px|, k, l);
  }

  lemma {:induction false} AreaPositive(px: seq<int>, wt: seq<int>, c: int, n: nat, k: int)
    requires n <= |px| == |wt| && 0 <= k < |px| && k != c && wt[k] > 0
    requires forall l :: 0 <= l < |px| && l != c ==> wt[l] >= 0
    ensures Rest(px, wt, c, n).area >= if k < n then wt[k] else 0
  {
    if n > 0 { AreaPositive(px, wt, c, n - 1, k); }
  }

  // ------------------------------------------------------------------------ the mask

  /** Place k of the mask of half-width m around (i,j), row by row. */
  ghost predicate MaskInside(img: array2<int>, m: int, i: int, j: int) {
    m >= 1 && m <= i < img.Length0 - m && m <= j < img.Length1 - m
  }

  function Side(m: int): int { 2 * m + 1 }

  lemma PositiveFactor(a: int, n: int)
    requires n > 0 && a * n > 0
    ensures a > 0
  {
  }

  lemma DivisionBound(k: int, n: int)
    requires n > 0 && 0 <= k < n * n
    ensures 0 <= k / n < n && 0 <= k % n < n
  {
    var q := k / n;
    assert k == q * n + k % n;
    assert (n - q) * n == n * n - q * n;
    PositiveFactor(n - q, n);
  }

  lemma MaskPlace(m: int, k: int)
    requires m >= 1 && 0 <= k < Side(m) * Side(m)
    ensures 0 <= k / Side(m) < Side(m) && 0 <= k % Side(m) < Side(m)
  {
    DivisionBound(k, Side(m));
  }

  function MaskPixel(img: array2<int>, m: int, i: int, j: int, k: int): int
    requires MaskInside(img, m, i, j) && 0 <= k < Side(m) * Side(m)
    reads img
  {
    MaskPlace(m, k);
    img[i - m + k / Side(m), j - m + k % Side(m)]
  }

  /** `px` lists the mask around (i,j). */
  ghost predicate IsMask(img: array2<int>, m: int, i: int, j: int, px: seq<int>)
    requires MaskInside(img, m, i, j)
    reads img
  {
    |px| == Side(m) * Side(m) &&
    forall k {:trigger MaskPixel(img, m, i, j, k)} :: 0 <= k < |px| ==> px[k] == MaskPixel(img, m, i, j, k)
  }

  /** The nucleus is the middle place. */
  function Centre(m: int): int { (Side(m) * Side(m) - 1) / 2 }

  lemma CentrePlace(m: int)
    requires m >= 1
    ensures 0 <= Centre(m) < Side(m) * Side(m) && Centre(m) == m * Side(m) + m
  {
    assert Side(m) * Side(m) == 4 * (m * m) + 4 * m + 1;
    assert m * Side(m) == 2 * (m * m) + m;
  }

  /** Distance weights: 0..100, 100 at the nucleus. A flat 3x3 mask has weight 1 everywhere. */
  ghost predicate Weights(dp: seq<int>, m: int, peak: int) {
    |dp| == Side(m) * Side(m) && m >= 1 && dp[CentreOf(m)] == peak && forall k :: 0 <= k < |dp| ==> 0 <= dp[k] <= 100
  }

  function CentreOf(m: int): (c: int)
    requires m >= 1
    ensures c == Centre(m) && 0 <= c < Side(m) * Side(m)
  {
    CentrePlace(m);
    Centre(m)
  }

  /** Combined weight of place k: distance weight times similarity to the nucleus. */
  ghost function Combined(px: seq<int>, dp: seq<int>, bp: Lut, c: int): (wt: seq<int>)
    requires |px| == |dp| && 0 <= c < |px|
    ensures |wt| == |px| && forall k :: 0 <= k < |px| ==> wt[k] == dp[k] * bp(px[c] - px[k])
  {
    seq(|px|, k requires 0 <= k < |px| => dp[k] * bp(px[c] - px[k]))
  }

  lemma CombinedWeights(px: seq<int>, dp: seq<int>, bp: Lut, m: int, peak: int)
    requires Weights(dp, m, peak) && |px| == |dp| && BrightnessLut(bp)
    requires forall k :: 0 <= k < |px| ==> 0 <= px[k] <= 255
    ensures var wt := Combined(px, dp, bp, CentreOf(m));
      wt[CentreOf(m)] == peak * 100 && forall k :: 0 <= k < |px| ==> 0 <= wt[k] <= 10000
  {
    var c := CentreOf(m);
    forall k | 0 <= k < |px|
      ensures 0 <= dp[k] * bp(px[c] - px[k]) <= 10000
    {
      Weighted(dp[k], bp(px[c] - px[k]), 0, 100);
    }
  }

  /** One read of the mask and its table entry. */
  method ReadPlace(img: array2<int>, m: int, i: int, j: int, y: int, x: int, k: int, ghost px: seq<int>)
    returns (brightness: int)
    requires MaskInside(img, m, i, j) && IsMask(img, m, i, j, px)
    requires -m <= y <= m && -m <= x <= m && k == (y + m) * Side(m) + (x + m)
    ensures 0 <= k < |px| && brightness == px[k]
  {
    PlaceIndex(m, y, x);
    assert px[k] == MaskPixel(img, m, i, j, k);
    brightness := img[i + y, j + x];
  }

  lemma PlaceIndex(m: int, y: int, x: int)
    requires m >= 1 && -m <= y <= m && -m <= x <= m
    ensures var k := (y + m) * Side(m) + (x + m);
      0 <= k < Side(m) * Side(m) && k / Side(m) == y + m && k % Side(m) == x + m
  {
    var n, a, b := Side(m), y + m, x + m;
    assert 0 <= a < n && 0 <= b < n;
    assert a * n <= (n - 1) * n;
    DivisionUnique(a, b, n);
  }

  lemma DivisionUnique(a: int, b: int, n: int)
    requires n > 0 && 0 <= b < n
    ensures (a * n + b) / n == a && (a * n + b) % n == b
  {
    var k := a * n + b;
    var q, r := k / n, k % n;
    assert k == q * n + r && (q - a) * n == b - r;
    assert q - a >= 1 ==> (q - a) * n >= n;
    assert q - a <= -1 ==> (q - a) * n <= -n;
  }

  /** The weights the code multiplies together are the combined weights. */
  ghost predicate IsCombined(px: seq<int>, wt: seq<int>, dp: array<int>, bp: Lut, c: int)
    reads dp
  {
    dp.Length == |px| == |wt| && 0 <= c < |px| && forall k :: 0 <= k < |px| ==> wt[k] == dp[k] * bp(px[c] - px[k])
  }

  /** One step of the accumulation: brightness and combined weight of place k. */
  method WeighPlace(img: array2<int>, dp: array<int>, bp: Lut, m: int, i: int, j: int, y: int, x: int, k: int,
                    centre: int,
                    ghost px: seq<int>, ghost wt: seq<int>) returns (brightness: int, tmp: int)
    requires MaskInside(img, m, i, j) && IsMask(img, m, i, j, px) && IsCombined(px, wt, dp, bp, CentreOf(m))
    requires centre == px[CentreOf(m)] && -m <= y <= m && -m <= x <= m && k == (y + m) * Side(m) + (x + m)
    ensures 0 <= k < |px| && brightness == px[k] && tmp == wt[k]
  {
    brightness := ReadPlace(img, m, i, j, y, x, k, px);
    tmp := dp[k] * bp(centre - brightness);
  }

  /** Row y of the mask. `k` stands for the distance-table pointer. */
  method MaskRow(img: array2<int>, dp: array<int>, bp: Lut, m: int, i: int, j: int, y: int, centre: int,
                 k0: int, area0: int, total0: int, ghost px: seq<int>, ghost wt: seq<int>)
    returns (k: int, area: int, total: int)
    requires MaskInside(img, m, i, j) && IsMask(img, m, i, j, px) && IsCombined(px, wt, dp, bp, CentreOf(m))
    requires centre == px[CentreOf(m)] && -m <= y <= m && k0 == (y + m) * Side(m) && 0 <= k0 <= |px|
    requires Mass(area0, total0) == Sum(px, wt, k0)
    ensures k == (y + 1 + m) * Side(m) && 0 <= k <= |px| && Mass(area, total) == Sum(px, wt, k)
  {
    k, area, total := k0, area0, total0;
    var x := -m;
    while x <= m
      invariant -m <= x <= m + 1 && k == k0 + (x + m) && 0 <= k <= |px|
      invariant Mass(area, total) == Sum(px, wt, k)
    {
      var brightness, tmp := WeighPlace(img, dp, bp, m, i, j, y, x, k, centre, px, wt);
      area := area + tmp;
      total := total + tmp * brightness;
      k := k + 1;
      x := x + 1;
    }
    assert (y + 1 + m) * Side(m) == (y + m) * Side(m) + Side(m);
  }

  /** The two accumulating loops over the mask. */
  method MaskSums(img: array2<int>, dp: array<int>, bp: Lut, m: int, i: int, j: int, ghost px: seq<int>,
                  ghost wt: seq<int>)
    returns (area: int, total: int)
    requires MaskInside(img, m, i, j) && IsMask(img, m, i, j, px) && IsCombined(px, wt, dp, bp, CentreOf(m))
    ensures Mass(area, total) == Sum(px, wt, |px|)
  {
    area, total := 0, 0;
    var k := 0;
    CentrePlace(m);
    var centre := ReadPlace(img, m, i, j, 0, 0, CentreOf(m), px);
    var y := -m;
    while y <= m
      invariant -m <= y <= m + 1 && k == (y + m) * Side(m) && 0 <= k <= |px|
      invariant Mass(area, total) == Sum(px, wt, k)
    {
      k, area, total := MaskRow(img, dp, bp, m, i, j, y, centre, k, area, total, px, wt);
      y := y + 1;
    }
  }

  // ------------------------------------------------------------------ one smoothed pixel

  /** The eight neighbours in the order the median collects them. */
  function NeighbourList(img: array2<int>, i: int, j: int): seq<int>
    requires 1 <= i < img.Length0 - 1 && 1 <= j < img.Length1 - 1
    reads img
  {
    [img[i - 1, j - 1], img[i - 1, j], img[i - 1, j + 1], img[i, j - 1],
     img[i, j + 1], img[i + 1, j - 1], img[i + 1, j], img[i + 1, j + 1]]
  }

  /** They are the 3x3 block around the pixel, row by row, without its middle. */
  lemma NeighboursAreBlock(img: array2<int>, i: int, j: int, k: nat)
    requires MaskInside(img, 1, i, j) && k < 8
    ensures NeighbourList(img, i, j)[k] == MaskPixel(img, 1, i, j, if k < 4 then k else k + 1)
  {
  }

  /** Place (y,x) of the mask is the pixel y rows below and x columns right of the nucleus. */
  lemma MaskPixelAt(img: array2<int>, m: int, i: int, j: int, y: int, x: int)
    requires MaskInside(img, m, i, j) && -m <= y <= m && -m <= x <= m
    ensures var k := (y + m) * Side(m) + (x + m);
      0 <= k < Side(m) * Side(m) && MaskPixel(img, m, i, j, k) == img[i + y, j + x]
  {
    PlaceIndex(m, y, x);
  }

  lemma MeanIsSmoothed(px: seq<int>, wt: seq<int>, c: int, ns: seq<int>, area: int, total: int, v: int)
    requires |px| == |wt| && 0 <= c < |px| && Mass(area, total) == Sum(px, wt, |px|) && area != wt[c]
    requires v == (total - wt[c] * px[c]) / (area - wt[c])
    ensures Smoothed(px, wt, c, ns, v)
  {
    NucleusSubtracted(px, wt, c, |px|);
  }

  lemma MedianIsSmoothed(px: seq<int>, wt: seq<int>, c: int, ns: seq<int>, area: int, total: int, v: int)
    requires |px| == |wt| && 0 <= c < |px| && Mass(area, total) == Sum(px, wt, |px|) && area == wt[c]
    requires IsMedian(ns, v)
    ensures Smoothed(px, wt, c, ns, v)
  {
    NucleusSubtracted(px, wt, c, |px|);
  }

  /** Divide by what is left after taking the nucleus out, or take the median if nothing is left. */
  method Finish(img: array2<int>, i: int, j: int, area: int, total: int, nucleus: int, centre: int,
                ghost px: seq<int>, ghost wt: seq<int>, ghost c: int) returns (v: int)
    requires 1 <= i < img.Length0 - 1 && 1 <= j < img.Length1 - 1
    requires |px| == |wt| && 0 <= c < |px| && Mass(area, total) == Sum(px, wt, |px|)
    requires wt[c] == nucleus && px[c] == centre
    ensures Smoothed(px, wt, c, NeighbourList(img, i, j), v)
  {
    var ns := NeighbourList(img, i, j);
    var tmp := area - nucleus;
    if tmp == 0 {
      v := MedianOf8(ns);
      MedianIsSmoothed(px, wt, c, ns, area, total, v);
    } else {
      v := (total - centre * nucleus) / tmp;
      assert centre * nucleus == wt[c] * px[c];
      MeanIsSmoothed(px, wt, c, ns, area, total, v);
    }
  }

  /** Numerator and denominator are non-negative, so truncating division and floor division agree. */
  lemma {:induction false} RestNonNegative(px: seq<int>, wt: seq<int>, c: int, n: nat)
    requires n <= |px| == |wt| && (forall k :: 0 <= k < |px| ==> px[k] >= 0 && wt[k] >= 0)
    ensures Rest(px, wt, c, n).area >= 0 && Rest(px, wt, c, n).total >= 0
  {
    if n > 0 {
      RestNonNegative(px, wt, c, n - 1);
      assert wt[n - 1] * px[n - 1] >= 0;
    }
  }

  /** The large mask: distance weights times similarity, the nucleus counting exactly 10000. */
  method SmoothPixel(img: array2<int>, dp: array<int>, bp: Lut, m: int, i: int, j: int, ghost px: seq<int>,
                     ghost wt: seq<int>)
    returns (v: int)
    requires MaskInside(img, m, i, j) && IsMask(img, m, i, j, px) && IsCombined(px, wt, dp, bp, CentreOf(m))
    requires wt[CentreOf(m)] == 10000 && (forall k :: 0 <= k < |px| ==> px[k] >= 0 && wt[k] >= 0)
    ensures Smoothed(px, wt, CentreOf(m), NeighbourList(img, i, j), v)
  {
    CentrePlace(m);
    var centre := ReadPlace(img, m, i, j, 0, 0, CentreOf(m), px);
    var area, total := MaskSums(img, dp, bp, m, i, j, px, wt);
    v := Finish(img, i, j, area, total, 10000, centre, px, wt, CentreOf(m));
  }

  /** The flat 3x3 mask: similarity only, the nucleus counting exactly 100. */
  method SmoothPixel3(img: array2<int>, bp: Lut, i: int, j: int, ghost px: seq<int>, ghost wt: seq<int>)
    returns (v: int)
    requires MaskInside(img, 1, i, j) && IsMask(img, 1, i, j, px) && |wt| == 9
    requires forall k :: 0 <= k < 9 ==> wt[k] == bp(px[4] - px[k]) && px[k] >= 0 && wt[k] >= 0
    requires wt[4] == 100
    ensures Smoothed(px, wt, 4, NeighbourList(img, i, j), v)
  {
    var centre := ReadPlace(img, 1, i, j, 0, 0, 4, px);
    var area, total := 0, 0;
    var k, y := 0, -1;
    while y <= 1
      invariant -1 <= y <= 2 && k == (y + 1) * 3 && Mass(area, total) == Sum(px, wt, k)
    {
      var b0 := ReadPlace(img, 1, i, j, y, -1, k, px);
      var t0 := bp(centre - b0);
      area, total := area + t0, total + t0 * b0;
      assert Mass(area, total) == Sum(px, wt, k + 1);
      var b1 := ReadPlace(img, 1, i, j, y, 0, k + 1, px);
      var t1 := bp(centre - b1);
      area, total := area + t1, total + t1 * b1;
      assert Mass(area, total) == Sum(px, wt, k + 2);
      var b2 := ReadPlace(img, 1, i, j, y, 1, k + 2, px);
      var t2 := bp(centre - b2);
      area, total := area + t2, total + t2 * b2;
      k, y := k + 3, y + 1;
    }
    v := Finish(img, i, j, area, total, 100, centre, px, wt, 4);
  }

  /** A pixel counts exactly when its distance weight and its similarity to the nucleus are both positive. */
  lemma CombinedPositive(px: seq<int>, dp: seq<int>, bp: Lut, c: int, k: int)
    requires |px| == |dp| && 0 <= c < |px| && 0 <= k < |px| && dp[k] >= 0 && bp(px[c] - px[k]) >= 0
    ensures Combined(px, dp, bp, c)[k] > 0 <==> dp[k] > 0 && bp(px[c] - px[k]) > 0
  {
    var d, b := dp[k], bp(px[c] - px[k]);
    assert d > 0 && b > 0 ==> d * b > 0;
    assert d == 0 || b == 0 ==> d * b == 0;
  }
}
