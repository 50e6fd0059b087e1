/** Mirror padding: the image copied into a larger buffer whose border repeats it backwards. */
module Enlarge {

  /** Reflection of an index about the ends of 0..n-1. */
  function Mirror(k: int, n: int): int {
    if k < 0 then -1 - k else if k >= n then 2 * n - 1 - k else k
  }

  ghost predicate Larger(tmp: array2<int>, img: array2<int>, border: int) {
    tmp != img && tmp.Length0 == img.Length0 + 2 * border && tmp.Length1 == img.Length1 + 2 * border
  }

  /** memcpy of one image row into the middle of row `dest` of the larger buffer. */
  method CopyRow(img: array2<int>, row: int, tmp: array2<int>, dest: int, border: int)
    requires border >= 0 && Larger(tmp, img, border) && 0 <= row < img.Length0 && 0 <= dest < tmp.Length0
    modifies tmp
    ensures forall a, b :: 0 <= a < tmp.Length0 && 0 <= b < tmp.Length1 ==>
      tmp[a, b] == if a == dest && border <= b < border + img.Length1 then img[row, b - border] else old(tmp[a, b])
  {
    forall b | 0 <= b < img.Length1 {
      tmp[dest, border + b] := img[row, b];
    }
  }

  /** The middle columns of rows lo..hi-1 hold the mirrored rows of the image. */
  ghost predicate MiddleFilled(img: array2<int>, tmp: array2<int>, border: int, lo: int, hi: int)
    requires 0 <= border <= img.Length0 && Larger(tmp, img, border) && 0 <= lo && hi <= tmp.Length0
    reads img, tmp
  {
    forall a, b :: lo <= a < hi && border <= b < border + img.Length1 ==>
      tmp[a, b] == img[Mirror(a - border, img.Length0), b - border]
  }

  /** Phase 1: every image row to its place. */
  method CopyImage(img: array2<int>, tmp: array2<int>, border: int)
    requires 0 <= border <= img.Length0 && Larger(tmp, img, border)
    modifies tmp
    ensures MiddleFilled(img, tmp, border, border, border + img.Length0)
  {
    var i := 0;
    while i < img.Length0
      invariant 0 <= i <= img.Length0
      invariant MiddleFilled(img, tmp, border, border, border + i)
    {
      CopyRow(img, i, tmp, i + border, border);
      i := i + 1;
    }
  }

  /** Phase 2: rows above and below, nearest first. */
  method CopyTopAndBottom(img: array2<int>, tmp: array2<int>, border: int)
    requires 0 <= border <= img.Length0 && Larger(tmp, img, border)
    requires MiddleFilled(img, tmp, border, border, border + img.Length0)
    modifies tmp
    ensures MiddleFilled(img, tmp, border, 0, tmp.Length0)
  {
    var i := 0;
    while i < border
      invariant 0 <= i <= border
      invariant MiddleFilled(img, tmp, border, border - i, border + img.Length0 + i)
    {
      CopyRow(img, i, tmp, border - 1 - i, border);
      CopyRow(img, img.Length0 - i - 1, tmp, img.Length0 + border + i, border);
      i := i + 1;
    }
  }

  /** All rows, columns lo..hi-1, hold the mirrored image. */
  ghost predicate Filled(img: array2<int>, tmp: array2<int>, border: int, lo: int, hi: int)
    requires 0 <= border <= img.Length0 && border <= img.Length1 && Larger(tmp, img, border) && 0 <= lo &&
      hi <= tmp.Length1
    reads img, tmp
  {
    forall a, b :: 0 <= a < tmp.Length0 && lo <= b < hi ==>
      tmp[a, b] == img[Mirror(a - border, img.Length0), Mirror(b - border, img.Length1)]
  }

  /** One column to the left and one to the right, copied inside the buffer itself. */
  method CopyColumns(tmp: array2<int>, left: int, fromLeft: int, right: int, fromRight: int)
    requires 0 <= left < fromLeft < tmp.Length1 && 0 <= fromRight < right < tmp.Length1 && left < fromRight &&
      fromLeft < right
    modifies tmp
    ensures forall a, b :: 0 <= a < tmp.Length0 && 0 <= b < tmp.Length1 ==>
      tmp[a, b] == if b == left then old(tmp[a, fromLeft]) else if b == right then old(tmp[a, fromRight])
        else old(tmp[a, b])
  {
    var j := 0;
    while j < tmp.Length0
      invariant 0 <= j <= tmp.Length0
      invariant forall a, b :: 0 <= a < tmp.Length0 && 0 <= b < tmp.Length1 ==>
        tmp[a, b] == if a < j && b == left then old(tmp[a, fromLeft])
                     else if a < j && b == right then old(tmp[a, fromRight]) else old(tmp[a, b])
    {
      tmp[j, left] := tmp[j, fromLeft];
      tmp[j, right] := tmp[j, fromRight];
      j := j + 1;
    }
  }

  /** Phase 3: left and right columns, nearest first, reading what the earlier phases wrote. */
  method CopySides(img: array2<int>, tmp: array2<int>, border: int)
    requires 0 <= border <= img.Length0 && border <= img.Length1 && Larger(tmp, img, border)
    requires MiddleFilled(img, tmp, border, 0, tmp.Length0)
    modifies tmp
    ensures Filled(img, tmp, border, 0, tmp.Length1)
  {
    var i := 0;
    var w := img.Length1;
    while i < border
      invariant 0 <= i <= border
      invariant Filled(img, tmp, border, border - i, border + w + i)
    {
      CopyColumns(tmp, border - 1 - i, border + i, w + border + i, w + border - 1 - i);
      i := i + 1;
    }
  }

  /** Enlarging: every pixel of the buffer is assigned, and holds the image pixel at the reflected place. */
  method EnlargeImage(img: array2<int>, tmp: array2<int>, border: int)
    requires 0 <= border <= img.Length0 && border <= img.Length1 && Larger(tmp, img, border)
    modifies tmp
    ensures forall a, b :: 0 <= a < tmp.Length0 && 0 <= b < tmp.Length1 ==>
      tmp[a, b] == img[Mirror(a - border, img.Length0), Mirror(b - border, img.Length1)]
  {
    CopyImage(img, tmp, border);
    CopyTopAndBottom(img, tmp, border);
    CopySides(img, tmp, border);
  }

  /** Reflection undoes itself at both ends, and lands in range. */
  lemma MirrorReflects(k: int, n: int)
    requires 0 <= k < n
    ensures Mirror(-1 - k, n) == k && Mirror(2 * n - 1 - k, n) == k && Mirror(k, n) == k
  {
  }
}
