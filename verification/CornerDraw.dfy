/** Drawing the corner list, and when the order of the list does not matter. */
module CornerDraw {
  import opened EdgeGraph
  import opened Corners
  import opened CornerList

  /** The value the first n blocks leave at pixel p: the last block that covers p decides. */
  function Drawn(cs: seq<Corner>, n: nat, p: Pix, was: int): int
    requires n <= |cs|
  {
    if n == 0 then was
    else if p == Place(cs[n - 1]) then 0
    else if Adjacent(p, Place(cs[n - 1])) then 255
    else Drawn(cs, n - 1, p, was)
  }

  /** The same for single black points. */
  function Dotted(cs: seq<Corner>, n: nat, p: Pix, was: int): int
    requires n <= |cs|
  {
    if n == 0 then was else if p == Place(cs[n - 1]) then 0 else Dotted(cs, n - 1, p, was)
  }

  /** The list ends at n and its places lie at least `margin` inside the image. */
  ghost predicate Drawable(list: array<Corner>, n: nat, img: array2<int>, margin: int)
    reads list
  {
    && n < list.Length && list[n].info == 7
    && (forall k :: 0 <= k < n ==> list[k].info != 7)
    && (forall k :: 0 <= k < n ==>
          margin <= list[k].y < img.Length0 - margin && margin <= list[k].x < img.Length1 - margin)
  }

  /** One 3x3 block: white, with a black centre. */
  method Block(img: array2<int>, y: int, x: int)
    requires 1 <= y < img.Length0 - 1 && 1 <= x < img.Length1 - 1
    modifies img
    ensures forall i, j :: 0 <= i < img.Length0 && 0 <= j < img.Length1 ==>
      img[i, j] == if Pix(i, j) == Pix(y, x) then 0 else if Adjacent(Pix(i, j), Pix(y, x)) then 255 else old(img[i, j])
  {
    img[y - 1, x - 1], img[y - 1, x], img[y - 1, x + 1] := 255, 255, 255;
    img[y, x - 1], img[y, x], img[y, x + 1] := 255, 0, 255;
    img[y + 1, x - 1], img[y + 1, x], img[y + 1, x + 1] := 255, 255, 255;
  }

  /** The drawing loop: it stops at the end mark and so visits exactly the n entries before it. */
  method DrawCorners(img: array2<int>, list: array<Corner>, drawingMode: int, ghost n: nat)
    requires Drawable(list, n, img, if drawingMode == 0 then 1 else 0)
    modifies img
    ensures forall i, j :: 0 <= i < img.Length0 && 0 <= j < img.Length1 ==>
      img[i, j] == if drawingMode == 0 then Drawn(list[..n], n, Pix(i, j), old(img[i, j]))
                   else Dotted(list[..n], n, Pix(i, j), old(img[i, j]))
  {
    var k := 0;
    while list[k].info != 7
      invariant 0 <= k <= n
      invariant forall i, j :: 0 <= i < img.Length0 && 0 <= j < img.Length1 ==>
        img[i, j] == if drawingMode == 0 then Drawn(list[..n], k, Pix(i, j), old(img[i, j]))
                     else Dotted(list[..n], k, Pix(i, j), old(img[i, j]))
      decreases n - k
    {
      assert list[..n][k] == list[k];
      if drawingMode == 0 {
        Block(img, list[k].y, list[k].x);
      } else {
        img[list[k].y, list[k].x] := 0;
      }
      k := k + 1;
    }
  }

  /** No two corners are neighbours. */
  ghost predicate Apart(S: set<Pix>) {
    forall p, q :: p in S && q in S ==> !Adjacent(p, q)
  }

  /** The image a reader expects: black corners, white around them, the rest untouched. */
  ghost function Expected(S: set<Pix>, p: Pix, was: int): int {
    if p in S then 0 else if Neighbours(S, p) != {} then 255 else was
  }

  lemma {:induction false} DrawnValue(cs: seq<Corner>, n: nat, p: Pix, was: int)
    requires n <= |cs|
    ensures (forall k :: 0 <= k < n ==> p != Place(cs[k]) && !Adjacent(p, Place(cs[k]))) ==> Drawn(cs, n, p, was) == was
    ensures (exists k :: 0 <= k < n && p == Place(cs[k])) && (forall k :: 0 <= k < n ==> !Adjacent(p, Place(cs[k]))) ==>
      Drawn(cs, n, p, was) == 0
    ensures (exists k :: 0 <= k < n && Adjacent(p, Place(cs[k]))) && (forall k :: 0 <= k < n ==> p != Place(cs[k])) ==>
      Drawn(cs, n, p, was) == 255
  {
    if n > 0 { DrawnValue(cs, n - 1, p, was); }
  }

  /** When no two corners are neighbours, the order of the list does not matter and every pixel is as expected. */
  lemma DrawnAsExpected(cs: seq<Corner>, S: set<Pix>, p: Pix, was: int)
    requires Records(cs, S) && Apart(S)
    ensures Drawn(cs, |cs|, p, was) == Expected(S, p, was)
  {
    DrawnValue(cs, |cs|, p, was);
    if p in S {
      var k :| 0 <= k < |cs| && Place(cs[k]) == p;
    } else if Neighbours(S, p) != {} {
      var q :| q in Neighbours(S, p);
      var k :| 0 <= k < |cs| && Place(cs[k]) == q;
    } else {
      forall k | 0 <= k < |cs|
        ensures p != Place(cs[k]) && !Adjacent(p, Place(cs[k]))
      {
        assert Place(cs[k]) in S;
        assert Place(cs[k]) !in Neighbours(S, p);
      }
    }
  }

  lemma {:induction false} LastWriterWins(cs: seq<Corner>, n: nat, k: nat, l: nat, was: int)
    requires k < l < n <= |cs| && Adjacent(Place(cs[k]), Place(cs[l]))
    requires forall a, b :: 0 <= a < b < |cs| ==> Before(Place(cs[a]), Place(cs[b]))
    ensures Drawn(cs, n, Place(cs[k]), was) == 255
  {
    if n - 1 != l { LastWriterWins(cs, n - 1, k, l, was); }
  }

  lemma PaintedOver(cs: seq<Corner>, S: set<Pix>, p: Pix, q: Pix, was: int)
    requires Records(cs, S) && p in S && q in S && Adjacent(p, q)
    ensures exists x :: x in S && Drawn(cs, |cs|, x, was) == 255
  {
    var k :| 0 <= k < |cs| && Place(cs[k]) == p;
    var l :| 0 <= l < |cs| && Place(cs[l]) == q;
    if k < l { LastWriterWins(cs, |cs|, k, l, was); } else { LastWriterWins(cs, |cs|, l, k, was); }
  }

  /** And only then: a corner next to a later one is painted over. */
  lemma BlackExactlyWhenApart(cs: seq<Corner>, S: set<Pix>, was: int)
    requires Records(cs, S)
    ensures (forall p :: p in S ==> Drawn(cs, |cs|, p, was) == 0) <==> Apart(S)
  {
    if Apart(S) {
      forall p | p in S
        ensures Drawn(cs, |cs|, p, was) == 0
      {
        DrawnAsExpected(cs, S, p, was);
      }
    } else {
      var p, q :| p in S && q in S && Adjacent(p, q);
      PaintedOver(cs, S, p, q, was);
    }
  }

  lemma {:induction false} DottedValue(cs: seq<Corner>, n: nat, p: Pix, was: int)
    requires n <= |cs|
    ensures Dotted(cs, n, p, was) == if exists k :: 0 <= k < n && p == Place(cs[k]) then 0 else was
  {
    if n > 0 { DottedValue(cs, n - 1, p, was); }
  }

  /** The suppression's spacing is far more than drawing needs. */
  lemma PeaksAreApart(r: array2<int>, margin: int)
    requires margin >= 3
    ensures Apart(Peaks(r, margin))
  {
    forall p, q | p in Peaks(r, margin) && q in Peaks(r, margin)
      ensures !Adjacent(p, q)
    {
      if p != q { PeaksApart(r, margin, p, q); }
    }
  }

  /** Drawing a list of corners no two of which are neighbours: the image is as expected in either mode. */
  method DrawPeaks(img: array2<int>, list: array<Corner>, n: nat, drawingMode: int, ghost S: set<Pix>)
    requires n < list.Length && list[n].info == 7 && Records(list[..n], S) && Apart(S)
    requires forall p :: p in S ==> 1 <= p.i < img.Length0 - 1 && 1 <= p.j < img.Length1 - 1
    modifies img
    ensures forall i, j :: 0 <= i < img.Length0 && 0 <= j < img.Length1 ==>
      img[i, j] == if drawingMode == 0 then Expected(S, Pix(i, j), old(img[i, j]))
                   else if Pix(i, j) in S then 0 else old(img[i, j])
  {
    ghost var cs := list[..n];
    forall k | 0 <= k < n
      ensures list[k].info != 7 && 1 <= list[k].y < img.Length0 - 1 && 1 <= list[k].x < img.Length1 - 1
    {
      assert cs[k] == list[k] && Place(cs[k]) in S;
    }
    DrawCorners(img, list, drawingMode, n);
    forall i, j | 0 <= i < img.Length0 && 0 <= j < img.Length1
      ensures img[i, j] == if drawingMode == 0 then Expected(S, Pix(i, j), old(img[i, j]))
                           else if Pix(i, j) in S then 0 else old(img[i, j])
    {
      DrawnAsExpected(cs, S, Pix(i, j), old(img[i, j]));
      DottedValue(cs, n, Pix(i, j), old(img[i, j]));
      assert Pix(i, j) in S <==> exists k :: 0 <= k < n && Pix(i, j) == Place(cs[k]);
    }
  }

  /** Without the spacing a corner is lost: of two neighbours in the list the first is painted white. */
  lemma NeighbourPaintsOver()
    ensures var c, d := Corner(4, 4, 0, 0, 0, 0), Corner(5, 4, 0, 0, 0, 0);
      Records([c, d], {Place(c), Place(d)}) && Drawn([c, d], 2, Place(c), 0) == 255
  {
    var c, d := Corner(4, 4, 0, 0, 0, 0), Corner(5, 4, 0, 0, 0, 0);
    assert [c, d][0] == c && [c, d][1] == d;
  }
}
