/** The attributes the quick corner finder records: mean brightness and gradient of a 5x5 block. */
module CornerAttributes {
  import opened CornerResponse

  predicate FiveInside(img: array2<int>, i: int, j: int) {
    2 <= i < img.Length0 - 2 && 2 <= j < img.Length1 - 2
  }

  /** Five pixels of column c around row i. */
  function ColumnSum(img: array2<int>, i: int, c: int): int
    requires 2 <= i < img.Length0 - 2 && 0 <= c < img.Length1
    reads img
  {
    img[i - 2, c] + img[i - 1, c] + img[i, c] + img[i + 1, c] + img[i + 2, c]
  }

  /** Five pixels of row a around column j. */
  function RowSum(img: array2<int>, a: int, j: int): int
    requires 0 <= a < img.Length0 && 2 <= j < img.Length1 - 2
    reads img
  {
    img[a, j - 2] + img[a, j - 1] + img[a, j] + img[a, j + 1] + img[a, j + 2]
  }

  function QuickMean(img: array2<int>, i: int, j: int): int
    requires FiveInside(img, i, j)
    reads img
  {
    TruncDiv(RowSum(img, i - 2, j) + RowSum(img, i - 1, j) + RowSum(img, i, j) + RowSum(img, i + 1, j) +
             RowSum(img, i + 2, j), 25)
  }

  /** x = outer columns' difference, then x += x + inner columns' difference. */
  function QuickX(img: array2<int>, i: int, j: int): int
    requires FiveInside(img, i, j)
    reads img
  {
    var x := ColumnSum(img, i, j + 2) - ColumnSum(img, i, j - 2);
    TruncDiv(x + x + ColumnSum(img, i, j + 1) - ColumnSum(img, i, j - 1), 15)
  }

  function QuickY(img: array2<int>, i: int, j: int): int
    requires FiveInside(img, i, j)
    reads img
  {
    var y := RowSum(img, i + 2, j) - RowSum(img, i - 2, j);
    TruncDiv(y + y + RowSum(img, i + 1, j) - RowSum(img, i - 1, j), 15)
  }

  lemma TruncDivWithin(p: int, q: int, lo: int, hi: int)
    requires q > 0 && q * lo <= p <= q * hi
    ensures lo <= TruncDiv(p, q) <= hi
  {
    if p >= 0 { QuotientWithin(p, q, lo, hi); } else { QuotientWithin(-p, q, -hi, -lo); }
  }

  lemma QuotientWithin(p: int, q: int, lo: int, hi: int)
    requires q > 0 && q * lo <= p <= q * hi
    ensures lo <= p / q <= hi
  {
    var d := p / q;
    assert p == q * d + p % q;
    assert d < lo ==> q * (d + 1) <= q * lo;
    assert d > hi ==> q * d >= q * (hi + 1);
    assert q * (d + 1) == q * d + q && q * (hi + 1) == q * hi + q;
  }

  /** The block around (i,j) lies between the bounds. */
  ghost predicate FiveWithin(img: array2<int>, i: int, j: int, lo: int, hi: int)
    requires FiveInside(img, i, j)
    reads img
  {
    forall a, b :: i - 2 <= a <= i + 2 && j - 2 <= b <= j + 2 ==> lo <= img[a, b] <= hi
  }

  lemma SumsWithin(img: array2<int>, i: int, j: int, k: int, lo: int, hi: int)
    requires FiveInside(img, i, j) && FiveWithin(img, i, j, lo, hi) && -2 <= k <= 2
    ensures 5 * lo <= RowSum(img, i + k, j) <= 5 * hi && 5 * lo <= ColumnSum(img, i, j + k) <= 5 * hi
  {
  }

  lemma GradientWithin(a: int, b: int, c: int, d: int, lo: int, hi: int)
    requires 5 * lo <= a <= 5 * hi && 5 * lo <= b <= 5 * hi && 5 * lo <= c <= 5 * hi && 5 * lo <= d <= 5 * hi
    ensures Abs(TruncDiv((a - b) + (a - b) + c - d, 15)) <= hi - lo
  {
    TruncDivWithin((a - b) + (a - b) + c - d, 15, lo - hi, hi - lo);
  }

  lemma MeanWithin(a: int, b: int, c: int, d: int, e: int, lo: int, hi: int)
    requires 5 * lo <= a <= 5 * hi && 5 * lo <= b <= 5 * hi && 5 * lo <= c <= 5 * hi
    requires 5 * lo <= d <= 5 * hi && 5 * lo <= e <= 5 * hi
    ensures lo <= TruncDiv(a + b + c + d + e, 25) <= hi
  {
    TruncDivWithin(a + b + c + d + e, 25, lo, hi);
  }

  /** The mean lies between any bounds of the block. */
  lemma QuickMeanBounds(img: array2<int>, i: int, j: int, lo: int, hi: int)
    requires FiveInside(img, i, j) && FiveWithin(img, i, j, lo, hi)
    ensures lo <= QuickMean(img, i, j) <= hi
  {
    SumsWithin(img, i, j, -2, lo, hi);
    SumsWithin(img, i, j, -1, lo, hi);
    SumsWithin(img, i, j, 0, lo, hi);
    SumsWithin(img, i, j, 1, lo, hi);
    SumsWithin(img, i, j, 2, lo, hi);
    MeanWithin(RowSum(img, i - 2, j), RowSum(img, i - 1, j), RowSum(img, i, j), RowSum(img, i + 1, j),
               RowSum(img, i + 2, j), lo, hi);
  }

  /** No gradient exceeds the difference of the bounds. */
  lemma QuickGradientBounds(img: array2<int>, i: int, j: int, lo: int, hi: int)
    requires FiveInside(img, i, j) && FiveWithin(img, i, j, lo, hi)
    ensures Abs(QuickX(img, i, j)) <= hi - lo && Abs(QuickY(img, i, j)) <= hi - lo
  {
    SumsWithin(img, i, j, -2, lo, hi);
    SumsWithin(img, i, j, -1, lo, hi);
    SumsWithin(img, i, j, 1, lo, hi);
    SumsWithin(img, i, j, 2, lo, hi);
    GradientWithin(ColumnSum(img, i, j + 2), ColumnSum(img, i, j - 2), ColumnSum(img, i, j + 1),
                   ColumnSum(img, i, j - 1), lo, hi);
    GradientWithin(RowSum(img, i + 2, j), RowSum(img, i - 2, j), RowSum(img, i + 1, j), RowSum(img, i - 1, j), lo, hi);
  }

  /** On a plane of brightness the gradients are its two slopes, times 50 over 15. */
  lemma QuickSlopes(img: array2<int>, i: int, j: int, p: int, q: int)
    requires FiveInside(img, i, j)
    requires forall a, b :: i - 2 <= a <= i + 2 && j - 2 <= b <= j + 2 ==>
      img[a, b] == img[i, j] + p * (b - j) + q * (a - i)
    ensures QuickX(img, i, j) == TruncDiv(50 * p, 15) && QuickY(img, i, j) == TruncDiv(50 * q, 15)
  {
    PlaneSums(img, i, j, p, q, -2);
    PlaneSums(img, i, j, p, q, -1);
    PlaneSums(img, i, j, p, q, 1);
    PlaneSums(img, i, j, p, q, 2);
  }

  lemma PlaneSums(img: array2<int>, i: int, j: int, p: int, q: int, k: int)
    requires FiveInside(img, i, j) && -2 <= k <= 2
    requires forall a, b :: i - 2 <= a <= i + 2 && j - 2 <= b <= j + 2 ==>
      img[a, b] == img[i, j] + p * (b - j) + q * (a - i)
    ensures ColumnSum(img, i, j + k) == 5 * img[i, j] + 5 * (p * k)
    ensures RowSum(img, i + k, j) == 5 * img[i, j] + 5 * (q * k)
  {
  }

  // ------------------------------------------------------------------ sums over the block

  /** Sum of the first k of the five pixels of a row, and the same weighted by column offset. */
  function RowTotal(img: array2<int>, a: int, j: int, k: nat): (int, int)
    requires 0 <= a < img.Length0 && 2 <= j < img.Length1 - 2 && k <= 5
    reads img
  {
    if k == 0 then (0, 0)
    else
      var (n, x), p := RowTotal(img, a, j, k - 1), img[a, j + k - 3];
      (n + p, x + (k - 3) * p)
  }

  /** Sum of the first k rows of the block, and the same weighted by column and by row offset. */
  datatype Total = Total(n: int, x: int, y: int)

  function BlockTotal(img: array2<int>, i: int, j: int, k: nat): Total
    requires FiveInside(img, i, j) && k <= 5
    reads img
  {
    if k == 0 then Total(0, 0, 0)
    else
      var t, (n, x) := BlockTotal(img, i, j, k - 1), RowTotal(img, i + k - 3, j, 5);
      Total(t.n + n, t.x + x, t.y + (k - 3) * n)
  }

  lemma RowTotalStep(img: array2<int>, a: int, j: int, k: nat, dx: int)
    requires 0 <= a < img.Length0 && 2 <= j < img.Length1 - 2 && 1 <= k <= 5 && dx == k - 3
    ensures var t := RowTotal(img, a, j, k - 1);
      RowTotal(img, a, j, k) == (t.0 + img[a, j + dx], t.1 + dx * img[a, j + dx]) && (k == 1 ==> t == (0, 0))
  {
  }

  lemma RowTotalIs(img: array2<int>, a: int, j: int, k: nat)
    requires 0 <= a < img.Length0 && 2 <= j < img.Length1 - 2 && k == 5
    ensures RowTotal(img, a, j, k) ==
      (RowSum(img, a, j), 2 * img[a, j + 2] + img[a, j + 1] - img[a, j - 1] - 2 * img[a, j - 2])
  {
    RowTotalStep(img, a, j, k - 4, -2);
    RowTotalStep(img, a, j, k - 3, -1);
    RowTotalStep(img, a, j, k - 2, 0);
    RowTotalStep(img, a, j, k - 1, 1);
    RowTotalStep(img, a, j, k, 2);
  }

  lemma BlockTotalStep(img: array2<int>, i: int, j: int, k: nat, dy: int)
    requires FiveInside(img, i, j) && 1 <= k <= 5 && dy == k - 3
    ensures var t, a := BlockTotal(img, i, j, k - 1), i + dy;
      BlockTotal(img, i, j, k) ==
        Total(t.n + RowSum(img, a, j),
              t.x + 2 * img[a, j + 2] + img[a, j + 1] - img[a, j - 1] - 2 * img[a, j - 2],
              t.y + dy * RowSum(img, a, j))
      && (k == 1 ==> t == Total(0, 0, 0))
  {
    RowTotalIs(img, i + dy, j, 5);
  }

  lemma BlockTotalRows(img: array2<int>, i: int, j: int, k: nat)
    requires FiveInside(img, i, j) && k == 5
    ensures var t := BlockTotal(img, i, j, k);
      && t.n == RowSum(img, i - 2, j) + RowSum(img, i - 1, j) + RowSum(img, i, j) + RowSum(img, i + 1, j) +
           RowSum(img, i + 2, j)
      && t.y == -2 * RowSum(img, i - 2, j) - RowSum(img, i - 1, j) + RowSum(img, i + 1, j) + 2 * RowSum(img, i + 2, j)
  {
    BlockTotalStep(img, i, j, k - 4, -2);
    BlockTotalStep(img, i, j, k - 3, -1);
    BlockTotalStep(img, i, j, k - 2, 0);
    BlockTotalStep(img, i, j, k - 1, 1);
    BlockTotalStep(img, i, j, k, 2);
  }

  lemma BlockTotalColumns(img: array2<int>, i: int, j: int, k: nat)
    requires FiveInside(img, i, j) && k == 5
    ensures BlockTotal(img, i, j, k).x ==
      2 * ColumnSum(img, i, j + 2) + ColumnSum(img, i, j + 1) - ColumnSum(img, i, j - 1) - 2 * ColumnSum(img, i, j - 2)
  {
    BlockTotalStep(img, i, j, k - 4, -2);
    BlockTotalStep(img, i, j, k - 3, -1);
    BlockTotalStep(img, i, j, k - 2, 0);
    BlockTotalStep(img, i, j, k - 1, 1);
    BlockTotalStep(img, i, j, k, 2);
  }

  /** The recorded brightness is the mean of the block, and the gradients are its first moments over 15. */
  lemma QuickIsMoment(img: array2<int>, i: int, j: int, k: nat)
    requires FiveInside(img, i, j) && k == 5
    ensures var t := BlockTotal(img, i, j, k);
      QuickMean(img, i, j) == TruncDiv(t.n, 25) && QuickX(img, i, j) == TruncDiv(t.x, 15) &&
      QuickY(img, i, j) == TruncDiv(t.y, 15)
  {
    BlockTotalRows(img, i, j, k);
    BlockTotalColumns(img, i, j, k);
  }
}
