/** Corner positions: 7x7 non-maximum suppression, how far apart it leaves corners, and how many there can be. */
module Corners {
  import opened EdgeGraph
  import opened Usan

  const MAX_CORNERS := 15000

  // -------------------------------------------------------------------- suppression

  predicate Near(p: Pix, q: Pix, d: int) {
    -d <= p.i - q.i <= d && -d <= p.j - q.j <= d
  }

  /** (i,j) has a positive response, strictly above the earlier pixels of its 7x7 neighbourhood and
      not below the later ones. */
  ghost predicate Peak(r: array2<int>, p: Pix)
    requires Scanned(r, 3, p.i, p.j)
    reads r
  {
    && r[p.i, p.j] > 0
    && (forall a, b :: p.i - 3 <= a <= p.i + 3 && p.j - 3 <= b <= p.j + 3 && (a, b) != (p.i, p.j) ==>
          if Before(Pix(a, b), p) then r[p.i, p.j] > r[a, b] else r[p.i, p.j] >= r[a, b])
  }

  ghost function Peaks(r: array2<int>, margin: int): set<Pix>
    requires margin >= 3
    reads r
  {
    set i, j | 0 <= i < r.Length0 && 0 <= j < r.Length1 && Scanned(r, margin, i, j) && Peak(r, Pix(i, j)) :: Pix(i, j)
  }

  predicate Above(r: array2<int>, x: int, a: int, j: int)
    requires 0 <= a < r.Length0 && 3 <= j < r.Length1 - 3
    reads r
  {
    x > r[a, j - 3] && x > r[a, j - 2] && x > r[a, j - 1] && x > r[a, j] && x > r[a, j + 1] && x > r[a, j + 2] &&
      x > r[a, j + 3]
  }

  predicate NotBelow(r: array2<int>, x: int, a: int, j: int)
    requires 0 <= a < r.Length0 && 3 <= j < r.Length1 - 3
    reads r
  {
    x >= r[a, j - 3] && x >= r[a, j - 2] && x >= r[a, j - 1] && x >= r[a, j] && x >= r[a, j + 1] &&
      x >= r[a, j + 2] && x >= r[a, j + 3]
  }

  /** The 48 comparisons of the code, row by row. */
  predicate Suppression(r: array2<int>, i: int, j: int)
    requires Scanned(r, 3, i, j)
    reads r
  {
    var x := r[i, j];
    && Above(r, x, i - 3, j) && Above(r, x, i - 2, j) && Above(r, x, i - 1, j)
    && x > r[i, j - 3] && x > r[i, j - 2] && x > r[i, j - 1]
    && x >= r[i, j + 1] && x >= r[i, j + 2] && x >= r[i, j + 3]
    && NotBelow(r, x, i + 1, j) && NotBelow(r, x, i + 2, j) && NotBelow(r, x, i + 3, j)
  }

  lemma RowAbove(r: array2<int>, x: int, a: int, j: int)
    requires 0 <= a < r.Length0 && 3 <= j < r.Length1 - 3
    ensures Above(r, x, a, j) <==> forall b :: j - 3 <= b <= j + 3 ==> x > r[a, b]
    ensures NotBelow(r, x, a, j) <==> forall b :: j - 3 <= b <= j + 3 ==> x >= r[a, b]
  {
  }

  lemma SuppressionSuffices(r: array2<int>, i: int, j: int)
    requires Scanned(r, 3, i, j) && r[i, j] > 0 && Suppression(r, i, j)
    ensures Peak(r, Pix(i, j))
  {
    var x := r[i, j];
    forall a, b | i - 3 <= a <= i + 3 && j - 3 <= b <= j + 3 && (a, b) != (i, j)
      ensures if Before(Pix(a, b), Pix(i, j)) then x > r[a, b] else x >= r[a, b]
    {
      assert a in {i - 3, i - 2, i - 1, i, i + 1, i + 2, i + 3};
      if a != i {
        RowAbove(r, x, a, j);
      } else {
        assert b in {j - 3, j - 2, j - 1, j + 1, j + 2, j + 3};
      }
    }
  }

  /** The 48 comparisons single out exactly the peaks. */
  lemma SuppressionIsPeak(r: array2<int>, i: int, j: int)
    requires Scanned(r, 3, i, j) && r[i, j] > 0
    ensures Suppression(r, i, j) <==> Peak(r, Pix(i, j))
  {
    if Suppression(r, i, j) { SuppressionSuffices(r, i, j); }
  }

  // ------------------------------------------------------------------ spacing and packing

  /** Two different corners are never within three pixels of each other in both directions. */
  lemma PeaksApart(r: array2<int>, margin: int, p: Pix, q: Pix)
    requires margin >= 3 && p in Peaks(r, margin) && q in Peaks(r, margin) && p != q
    ensures !Near(p, q, 3)
  {
  }

  function Blocks(n: int, margin: int): nat {
    if n <= 2 * margin then 0 else (n - 2 * margin + 3) / 4
  }

  lemma {:induction false} RectSize(a: nat, b: nat)
    ensures |Rect(a, b)| == a * b
  {
    if a == 0 || b == 0 {
      assert Rect(a, b) == {};
    } else {
      RectSize(a - 1, b);
      var last := GridRow(a - 1, b);
      assert Rect(a, b) == Rect(a - 1, b) + last && Rect(a - 1, b) !! last;
      assert a * b == (a - 1) * b + b;
    }
  }

  lemma {:induction false} GridRow(i: int, b: nat) returns (s: set<Pix>)
    ensures |s| == b && forall p :: p in s <==> p.i == i && 0 <= p.j < b
  {
    if b == 0 {
      s := {};
    } else {
      var t := GridRow(i, b - 1);
      s := t + {Pix(i, b - 1)};
    }
  }

  function BlockOf(margin: int, p: Pix): Pix {
    Pix((p.i - margin) / 4, (p.j - margin) / 4)
  }

  lemma BlockInside(r: array2<int>, margin: int, p: Pix)
    requires margin >= 3 && p in Peaks(r, margin)
    ensures BlockOf(margin, p) in Rect(Blocks(r.Length0, margin), Blocks(r.Length1, margin))
  {
  }

  lemma SameBlockNear(margin: int, p: Pix, q: Pix)
    requires BlockOf(margin, p) == BlockOf(margin, q)
    ensures Near(p, q, 3)
  {
  }

  /** One corner at most in each 4x4 block of the scanned area. */
  lemma PeaksPacked(r: array2<int>, margin: int)
    requires margin >= 3
    ensures |Peaks(r, margin)| <= Blocks(r.Length0, margin) * Blocks(r.Length1, margin)
  {
    var S := Rect(Blocks(r.Length0, margin), Blocks(r.Length1, margin));
    var block := map p | p in Peaks(r, margin) :: BlockOf(margin, p);
    forall p | p in Peaks(r, margin)
      ensures block[p] in S
    {
      BlockInside(r, margin, p);
    }
    forall p, q | p in Peaks(r, margin) && q in Peaks(r, margin) && block[p] == block[q]
      ensures p == q
    {
      SameBlockNear(margin, p, q);
      if p != q { PeaksApart(r, margin, p, q); }
    }
    SurjectionBound(S, Peaks(r, margin), block);
    RectSize(Blocks(r.Length0, margin), Blocks(r.Length1, margin));
  }

  // ------------------------------------------------------- some corner is always found

  /** Responses are only written in the scanned area. */
  ghost predicate Confined(r: array2<int>, margin: int)
    reads r
  {
    forall i, j :: 0 <= i < r.Length0 && 0 <= j < r.Length1 && !Scanned(r, margin, i, j) ==> r[i, j] == 0
  }

  /** q beats p: a higher response, or the same response at an earlier place. */
  predicate Beats(r: array2<int>, q: Pix, p: Pix)
    requires 0 <= p.i < r.Length0 && 0 <= p.j < r.Length1 && 0 <= q.i < r.Length0 && 0 <= q.j < r.Length1
    reads r
  {
    r[q.i, q.j] > r[p.i, p.j] || (r[q.i, q.j] == r[p.i, p.j] && Before(q, p))
  }

  ghost function Better(r: array2<int>, p: Pix): set<Pix>
    requires 0 <= p.i < r.Length0 && 0 <= p.j < r.Length1
    reads r
  {
    set i, j | 0 <= i < r.Length0 && 0 <= j < r.Length1 && Beats(r, Pix(i, j), p) :: Pix(i, j)
  }

  lemma NotPeakBeaten(r: array2<int>, p: Pix) returns (q: Pix)
    requires Scanned(r, 3, p.i, p.j) && r[p.i, p.j] > 0 && !Peak(r, p)
    ensures 0 <= q.i < r.Length0 && 0 <= q.j < r.Length1 && Beats(r, q, p)
  {
    var a, b :| p.i - 3 <= a <= p.i + 3 && p.j - 3 <= b <= p.j + 3 && (a, b) != (p.i, p.j) &&
      !(if Before(Pix(a, b), p) then r[p.i, p.j] > r[a, b] else r[p.i, p.j] >= r[a, b]);
    q := Pix(a, b);
  }

  /** Climbing from any positive response reaches a corner. */
  lemma {:induction false} ClimbToPeak(r: array2<int>, margin: int, p: Pix)
    requires margin >= 3 && Confined(r, margin) && Scanned(r, margin, p.i, p.j) && r[p.i, p.j] > 0
    ensures Peaks(r, margin) != {}
    decreases Better(r, p)
  {
    if Peak(r, p) {
      assert p in Peaks(r, margin);
    } else {
      var q := NotPeakBeaten(r, p);
      assert q in Better(r, p) && q !in Better(r, q);
      assert Better(r, q) <= Better(r, p);
      ClimbToPeak(r, margin, q);
    }
  }

  /** A corner is reported exactly when some response is positive. */
  lemma PeaksExist(r: array2<int>, margin: int)
    requires margin >= 3 && Confined(r, margin)
    ensures Peaks(r, margin) != {} <==> exists i, j :: 0 <= i < r.Length0 && 0 <= j < r.Length1 && r[i, j] > 0
  {
    if i, j :| 0 <= i < r.Length0 && 0 <= j < r.Length1 && r[i, j] > 0 {
      ClimbToPeak(r, margin, Pix(i, j));
    }
    if Peaks(r, margin) != {} {
      var p :| p in Peaks(r, margin);
      assert r[p.i, p.j] > 0;
    }
  }
}
