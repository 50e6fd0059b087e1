/** Drawing the edge map into the image: white blocks around edge pixels, then black centres. */
module EdgeDraw {
  import opened EdgeGraph
  import opened SusanThin
  import opened ThinGraph
  import opened ThinRun

  /** Every edge pixel has its eight neighbours inside the image. */
  ghost predicate Inside(mid: array2<int>, margin: int)
    reads mid
  {
    forall i, j :: 0 <= i < mid.Length0 && 0 <= j < mid.Length1 && mid[i, j] < 8 ==>
      margin <= i < mid.Length0 - margin && margin <= j < mid.Length1 - margin
  }

  /** Pixel (i,j) is an edge pixel that comes before raster position (a,b). */
  ghost predicate Done(mid: array2<int>, a: int, b: int, i: int, j: int)
    reads mid
  {
    0 <= i < mid.Length0 && 0 <= j < mid.Length1 && mid[i, j] < 8 && (i < a || (i == a && j < b))
  }

  /** Some 8-neighbour of (i,j) has been visited and is an edge pixel. */
  ghost predicate Touched(mid: array2<int>, a: int, b: int, i: int, j: int)
    reads mid
  {
    || Done(mid, a, b, i - 1, j - 1) || Done(mid, a, b, i - 1, j) || Done(mid, a, b, i - 1, j + 1)
    || Done(mid, a, b, i, j - 1) || Done(mid, a, b, i, j + 1)
    || Done(mid, a, b, i + 1, j - 1) || Done(mid, a, b, i + 1, j) || Done(mid, a, b, i + 1, j + 1)
  }

  /** Eight white pixels around (a,b), written row by row; the centre is stepped over. */
  method WhiteRing(img: array2<int>, a: int, b: int)
    requires 1 <= a < img.Length0 - 1 && 1 <= b < img.Length1 - 1
    modifies img
    ensures forall i, j :: 0 <= i < img.Length0 && 0 <= j < img.Length1 ==>
      img[i, j] == if Adjacent(Pix(i, j), Pix(a, b)) then 255 else old(img[i, j])
  {
    img[a - 1, b - 1], img[a - 1, b], img[a - 1, b + 1] := 255, 255, 255;
    img[a, b - 1], img[a, b + 1] := 255, 255;
    img[a + 1, b - 1], img[a + 1, b], img[a + 1, b + 1] := 255, 255, 255;
  }

  /** The inner loop of the first pass, for row a. */
  method WhiteRow(img: array2<int>, mid: array2<int>, a: int)
    requires img != mid && img.Length0 == mid.Length0 && img.Length1 == mid.Length1 && Inside(mid, 1)
    requires 0 <= a < mid.Length0
    modifies img
    ensures forall i, j :: 0 <= i < img.Length0 && 0 <= j < img.Length1 ==>
      img[i, j] == if RowTouched(mid, a, mid.Length1, i, j) then 255 else old(img[i, j])
  {
    var b := 0;
    while b < mid.Length1
      invariant 0 <= b <= mid.Length1
      invariant forall i, j :: 0 <= i < img.Length0 && 0 <= j < img.Length1 ==>
        img[i, j] == if RowTouched(mid, a, b, i, j) then 255 else old(img[i, j])
    {
      if mid[a, b] < 8 {
        WhiteRing(img, a, b);
      }
      b := b + 1;
    }
  }

  /** An edge pixel among the first n of row a is beside (i,j). */
  ghost predicate RowTouched(mid: array2<int>, a: int, n: int, i: int, j: int)
    requires 0 <= a < mid.Length0 && n <= mid.Length1
    reads mid
  {
    exists b :: 0 <= b < n && mid[a, b] < 8 && Adjacent(Pix(i, j), Pix(a, b))
  }

  /** First pass: whatever the overlaps, a pixel turns white exactly when an edge pixel is beside it. */
  method WhitePass(img: array2<int>, mid: array2<int>)
    requires img != mid && img.Length0 == mid.Length0 && img.Length1 == mid.Length1 && Inside(mid, 1)
    modifies img
    ensures forall i, j :: 0 <= i < img.Length0 && 0 <= j < img.Length1 ==>
      img[i, j] == if Touched(mid, mid.Length0, 0, i, j) then 255 else old(img[i, j])
  {
    var a := 0;
    while a < mid.Length0
      invariant 0 <= a <= mid.Length0
      invariant forall i, j :: 0 <= i < img.Length0 && 0 <= j < img.Length1 ==>
        img[i, j] == if Touched(mid, a, 0, i, j) then 255 else old(img[i, j])
    {
      forall i, j | 0 <= i < img.Length0 && 0 <= j < img.Length1
        ensures Touched(mid, a + 1, 0, i, j) <==> Touched(mid, a, 0, i, j) || RowTouched(mid, a, mid.Length1, i, j)
      {
        TouchedNext(mid, a, i, j);
      }
      WhiteRow(img, mid, a);
      a := a + 1;
    }
  }

  lemma TouchedNext(mid: array2<int>, a: int, i: int, j: int)
    requires 0 <= a < mid.Length0
    ensures Touched(mid, a + 1, 0, i, j) <==> Touched(mid, a, 0, i, j) || RowTouched(mid, a, mid.Length1, i, j)
  {
    if Touched(mid, a + 1, 0, i, j) && !Touched(mid, a, 0, i, j) {
      var b := if Done(mid, a + 1, 0, a, j - 1) then j - 1
               else if i != a && Done(mid, a + 1, 0, a, j) then j else j + 1;
      assert mid[a, b] < 8 && Adjacent(Pix(i, j), Pix(a, b));
    }
  }

  /** Second pass: one black pixel at each edge pixel. */
  method BlackPass(img: array2<int>, mid: array2<int>)
    requires img != mid && img.Length0 == mid.Length0 && img.Length1 == mid.Length1
    modifies img
    ensures forall i, j :: 0 <= i < img.Length0 && 0 <= j < img.Length1 ==>
      img[i, j] == if mid[i, j] < 8 then 0 else old(img[i, j])
  {
    var a := 0;
    while a < mid.Length0
      invariant 0 <= a <= mid.Length0
      invariant forall i, j :: 0 <= i < img.Length0 && 0 <= j < img.Length1 ==>
        img[i, j] == if i < a && mid[i, j] < 8 then 0 else old(img[i, j])
    {
      var b := 0;
      while b < mid.Length1
        invariant 0 <= b <= mid.Length1
        invariant forall i, j :: 0 <= i < img.Length0 && 0 <= j < img.Length1 ==>
          img[i, j] == if (i < a || (i == a && j < b)) && mid[i, j] < 8 then 0 else old(img[i, j])
      {
        if mid[a, b] < 8 { img[a, b] := 0; }
        b := b + 1;
      }
      a := a + 1;
    }
  }

  lemma TouchedIsNeighbour(mid: array2<int>, i: int, j: int)
    ensures Touched(mid, mid.Length0, 0, i, j) <==> Neighbours(Edges(View(mid)), Pix(i, j)) != {}
  {
    RingUnfolded(View(mid), i, j);
    EdgeHasNeighbour(View(mid), i, j);
    assert forall k, l :: Done(mid, mid.Length0, 0, k, l) <==> On(View(mid), k, l);
  }

  /** The drawn image in closed form: black exactly at edge pixels; in block mode white at the other
      pixels that have an edge neighbour; the old value everywhere else. */
  method EdgeDraw(img: array2<int>, mid: array2<int>, drawingMode: int)
    requires img != mid && img.Length0 == mid.Length0 && img.Length1 == mid.Length1
    requires drawingMode == 0 ==> Inside(mid, 1)
    modifies img
    ensures forall i, j :: 0 <= i < img.Length0 && 0 <= j < img.Length1 ==>
      img[i, j] == if Pix(i, j) in Edges(View(mid)) then 0
                   else if drawingMode == 0 && Neighbours(Edges(View(mid)), Pix(i, j)) != {} then 255
                   else old(img[i, j])
  {
    if drawingMode == 0 {
      WhitePass(img, mid);
    }
    BlackPass(img, mid);
    forall i, j | 0 <= i < img.Length0 && 0 <= j < img.Length1
      ensures Touched(mid, mid.Length0, 0, i, j) <==> Neighbours(Edges(View(mid)), Pix(i, j)) != {}
    {
      TouchedIsNeighbour(mid, i, j);
    }
  }

  /** The post-processing of the edge mode: thin the map, then draw it. In block mode the marks must not
      touch the border; thinning then keeps them off it, so the white blocks never leave the image. */
  method ThinAndDraw(img: array2<int>, mid: array2<int>, r: array2<int>, budget: nat, drawingMode: int)
    returns (finished: bool, ghost ts: seq<State>)
    requires mid != r && img != mid && img != r
    requires img.Length0 == mid.Length0 == r.Length0 && img.Length1 == mid.Length1 == r.Length1
    requires Seeded(Scan(mid.Length0, mid.Length1, View(r)), View(mid))
    requires drawingMode == 0 ==> Inset(mid.Length0, mid.Length1, Edges(View(mid)), 1)
    modifies mid, img
    ensures IsRun(Scan(mid.Length0, mid.Length1, View(r)), old(View(mid)), ts) && View(mid) == Final(ts).mid
    ensures finished ==> forall i, j :: 0 <= i < img.Length0 && 0 <= j < img.Length1 ==>
      img[i, j] == if Pix(i, j) in Edges(Final(ts).mid) then 0
                   else if drawingMode == 0 && Neighbours(Edges(Final(ts).mid), Pix(i, j)) != {} then 255
                   else old(img[i, j])
  {
    ghost var s, m0 := Scan(mid.Length0, mid.Length1, View(r)), View(mid);
    finished, ts := ThinScan(mid, r, budget);
    if finished {
      if drawingMode == 0 {
        RunKeepsInset(s, m0, ts, 1, |ts| - 1);
        InsetIsInside(mid, 1);
      }
      EdgeDraw(img, mid, drawingMode);
    }
  }

  lemma InsetIsInside(mid: array2<int>, margin: int)
    requires Inset(mid.Length0, mid.Length1, Edges(View(mid)), margin)
    ensures Inside(mid, margin)
  {
    forall i, j | 0 <= i < mid.Length0 && 0 <= j < mid.Length1 && mid[i, j] < 8
      ensures margin <= i < mid.Length0 - margin && margin <= j < mid.Length1 - margin
    {
      assert Pix(i, j) in Edges(View(mid));
    }
  }
}
