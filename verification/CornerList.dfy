/** The corner list: what is recorded for each corner, and when the list overflows. */
module CornerList {
  import opened EdgeGraph
  import opened Usan
  import opened CornerAttributes
  import opened Corners

  /** One entry of the list; info is 0 for a corner and 7 for the end mark. */
  datatype Corner = Corner(x: int, y: int, info: int, dx: int, dy: int, I: int)

  function Place(c: Corner): Pix { Pix(c.y, c.x) }

  /** `cs` holds each pixel of S once, in raster order, and nothing else. */
  ghost predicate Records(cs: seq<Corner>, S: set<Pix>) {
    && (forall k :: 0 <= k < |cs| ==> cs[k].info == 0 && Place(cs[k]) in S)
    && (forall p :: p in S ==> exists k :: 0 <= k < |cs| && Place(cs[k]) == p)
    && (forall k, l :: 0 <= k < l < |cs| ==> Before(Place(cs[k]), Place(cs[l])))
  }

  lemma RecordsNext(cs: seq<Corner>, S: set<Pix>, c: Corner)
    requires Records(cs, S) && c.info == 0 && (forall p :: p in S ==> Before(p, Place(c)))
    ensures Records(cs + [c], S + {Place(c)})
  {
    var ds := cs + [c];
    forall p | p in S + {Place(c)}
      ensures exists k :: 0 <= k < |ds| && Place(ds[k]) == p
    {
      if p in S {
        var k :| 0 <= k < |cs| && Place(cs[k]) == p;
        assert Place(ds[k]) == p;
      } else {
        assert Place(ds[|cs|]) == p;
      }
    }
  }

  /** The entry written for a corner at (i,j): by the careful finder from its buffers, by the quick one
      from the 5x5 block around the corner. */
  function EntryAt(img: array2<int>, cgx: array2<int>, cgy: array2<int>, quick: bool, i: int, j: int): Corner
    requires FiveInside(img, i, j)
    requires cgx.Length0 == cgy.Length0 == img.Length0 && cgx.Length1 == cgy.Length1 == img.Length1
    reads img, cgx, cgy
  {
    if quick then Corner(j, i, 0, QuickX(img, i, j), QuickY(img, i, j), QuickMean(img, i, j))
    else Corner(j, i, 0, cgx[i, j], cgy[i, j], img[i, j])
  }

  lemma SubsetSize<A>(S: set<A>, U: set<A>)
    requires S <= U
    ensures |S| <= |U|
  {
    assert U == S + (U - S);
  }

  /** Every entry carries the attributes of its own pixel. */
  ghost predicate Attributed(cs: seq<Corner>, img: array2<int>, cgx: array2<int>, cgy: array2<int>, quick: bool)
    requires cgx.Length0 == cgy.Length0 == img.Length0 && cgx.Length1 == cgy.Length1 == img.Length1
    reads img, cgx, cgy
  {
    forall k :: 0 <= k < |cs| ==>
      FiveInside(img, cs[k].y, cs[k].x) && cs[k] == EntryAt(img, cgx, cgy, quick, cs[k].y, cs[k].x)
  }

  lemma AttributedNext(cs: seq<Corner>, img: array2<int>, cgx: array2<int>, cgy: array2<int>, quick: bool, c: Corner)
    requires cgx.Length0 == cgy.Length0 == img.Length0 && cgx.Length1 == cgy.Length1 == img.Length1
    requires Attributed(cs, img, cgx, cgy, quick) && FiveInside(img, c.y, c.x)
    requires c == EntryAt(img, cgx, cgy, quick, c.y, c.x)
    ensures Attributed(cs + [c], img, cgx, cgy, quick)
  {
  }

  method TestPixel(r: array2<int>, margin: int, i: int, j: int) returns (peak: bool)
    requires margin >= 3 && Scanned(r, margin, i, j)
    ensures peak <==> Pix(i, j) in Peaks(r, margin)
  {
    peak := false;
    if r[i, j] > 0 {
      SuppressionIsPeak(r, i, j);
      peak := Suppression(r, i, j);
    }
  }

  method Append(list: array<Corner>, n: nat, c: Corner)
    requires n < list.Length
    modifies list
    ensures list[..n + 1] == old(list[..n]) + [c]
  {
    list[n] := c;
  }

  /** Bookkeeping of the scan: the peaks before (i,j) are the ones recorded. */
  ghost predicate Scan(cs: seq<Corner>, S: set<Pix>, found: set<Pix>, i: int, j: int) {
    && Records(cs, found) && |found| == |cs|
    && (forall p :: p in found <==> p in S && Before(p, Pix(i, j)))
  }

  lemma ScanHit(cs: seq<Corner>, S: set<Pix>, found: set<Pix>, i: int, j: int, c: Corner)
    requires Scan(cs, S, found, i, j) && Pix(i, j) in S && Place(c) == Pix(i, j) && c.info == 0
    ensures Scan(cs + [c], S, found + {Pix(i, j)}, i, j + 1)
  {
    RecordsNext(cs, found, c);
  }

  lemma ScanMiss(cs: seq<Corner>, S: set<Pix>, found: set<Pix>, i: int, j: int)
    requires Scan(cs, S, found, i, j) && Pix(i, j) !in S
    ensures Scan(cs, S, found, i, j + 1)
  {
  }

  lemma ScanRowEnd(cs: seq<Corner>, S: set<Pix>, found: set<Pix>, i: int, j: int, j0: int)
    requires Scan(cs, S, found, i, j)
    requires forall p :: p in S && p.i == i ==> p.j < j
    requires forall p :: p in S ==> p.j >= j0
    ensures Scan(cs, S, found, i + 1, j0)
  {
  }

  method MakeEntry(img: array2<int>, cgx: array2<int>, cgy: array2<int>, quick: bool, i: int, j: int)
    returns (c: Corner)
    requires FiveInside(img, i, j)
    requires cgx.Length0 == cgy.Length0 == img.Length0 && cgx.Length1 == cgy.Length1 == img.Length1
    ensures Place(c) == Pix(i, j) && c.info == 0 && c == EntryAt(img, cgx, cgy, quick, c.y, c.x)
  {
    if quick {
      c := Corner(j, i, 0, QuickX(img, i, j), QuickY(img, i, j), QuickMean(img, i, j));
    } else {
      c := Corner(j, i, 0, cgx[i, j], cgy[i, j], img[i, j]);
    }
  }

  /** Record a peak. */
  method Record(img: array2<int>, cgx: array2<int>, cgy: array2<int>, list: array<Corner>, quick: bool,
                i: int, j: int, n: nat, ghost S: set<Pix>, ghost found: set<Pix>)
    requires FiveInside(img, i, j) && n < list.Length && Pix(i, j) in S
    requires cgx.Length0 == cgy.Length0 == img.Length0 && cgx.Length1 == cgy.Length1 == img.Length1
    requires Scan(list[..n], S, found, i, j) && Attributed(list[..n], img, cgx, cgy, quick)
    modifies list
    ensures Scan(list[..n + 1], S, found + {Pix(i, j)}, i, j + 1)
    ensures Attributed(list[..n + 1], img, cgx, cgy, quick)
  {
    ghost var before := list[..n];
    var c := MakeEntry(img, cgx, cgy, quick, i, j);
    ScanHit(before, S, found, i, j, c);
    AttributedNext(before, img, cgx, cgy, quick, c);
    Append(list, n, c);
    assert list[..n + 1] == before + [c];
  }

  /** The inner loop's body: record the pixel if it is a peak. `S` is the set of peaks. */
  method Visit(img: array2<int>, r: array2<int>, cgx: array2<int>, cgy: array2<int>, list: array<Corner>,
               quick: bool, margin: int, i: int, j: int, n0: nat, ghost S: set<Pix>, ghost found0: set<Pix>)
    returns (n: nat, ghost found: set<Pix>)
    requires margin >= 3 && Scanned(r, margin, i, j) && n0 < list.Length && S == Peaks(r, margin)
    requires r.Length0 == cgx.Length0 == cgy.Length0 == img.Length0
    requires r.Length1 == cgx.Length1 == cgy.Length1 == img.Length1
    requires Scan(list[..n0], S, found0, i, j) && Attributed(list[..n0], img, cgx, cgy, quick)
    modifies list
    ensures n0 <= n <= n0 + 1 && n <= list.Length
    ensures Scan(list[..n], S, found, i, j + 1) && Attributed(list[..n], img, cgx, cgy, quick)
  {
    n, found := n0, found0;
    var peak := TestPixel(r, margin, i, j);
    if peak {
      Record(img, cgx, cgy, list, quick, i, j, n, S, found);
      n := n + 1;
      found := found + {Pix(i, j)};
    } else {
      ScanMiss(list[..n], S, found, i, j);
    }
  }

  lemma ScanOverflow(cs: seq<Corner>, S: set<Pix>, found: set<Pix>, i: int, j: int)
    requires Scan(cs, S, found, i, j)
    ensures |S| >= |cs|
  {
    SubsetSize(found, S);
  }

  lemma ScanComplete(cs: seq<Corner>, S: set<Pix>, found: set<Pix>, i: int, j: int)
    requires Scan(cs, S, found, i, j) && (forall p :: p in S ==> Before(p, Pix(i, j)))
    ensures |S| == |cs| && Records(cs, S)
  {
    assert found == S;
  }

  /** The scan of row i from column `margin` on; it stops when the list is full. */
  method FindRow(img: array2<int>, r: array2<int>, cgx: array2<int>, cgy: array2<int>, list: array<Corner>,
                 quick: bool, margin: int, i: int, n0: nat, ghost S: set<Pix>, ghost found0: set<Pix>)
    returns (n: nat, ghost found: set<Pix>)
    requires margin >= 3 && margin <= i < r.Length0 - margin && n0 < list.Length && S == Peaks(r, margin)
    requires r.Length0 == cgx.Length0 == cgy.Length0 == img.Length0
    requires r.Length1 == cgx.Length1 == cgy.Length1 == img.Length1
    requires Scan(list[..n0], S, found0, i, margin) && Attributed(list[..n0], img, cgx, cgy, quick)
    modifies list
    ensures n <= list.Length && (n == list.Length ==> |S| >= n)
    ensures n < list.Length ==> Scan(list[..n], S, found, i + 1, margin) && Attributed(list[..n], img, cgx, cgy, quick)
  {
    n, found := n0, found0;
    var j := margin;
    while j < r.Length1 - margin
      invariant margin <= j && n < list.Length && S == Peaks(r, margin)
      invariant Scan(list[..n], S, found, i, j) && Attributed(list[..n], img, cgx, cgy, quick)
    {
      n, found := Visit(img, r, cgx, cgy, list, quick, margin, i, j, n, S, found);
      if n == list.Length {
        ScanOverflow(list[..n], S, found, i, j + 1);
        return;
      }
      j := j + 1;
    }
    PeaksInside(r, margin);
    ScanRowEnd(list[..n], S, found, i, j, margin);
  }

  lemma PeaksInside(r: array2<int>, margin: int)
    requires margin >= 3
    ensures forall p :: p in Peaks(r, margin) ==> Scanned(r, margin, p.i, p.j)
  {
  }

  method EndMark(list: array<Corner>, n: nat)
    requires n < list.Length
    modifies list
    ensures list[n].info == 7 && list[..n] == old(list[..n])
  {
    list[n] := list[n].(info := 7);
  }

  /** The second pass of the corner finders: scan for peaks, append them, put the end mark. The run is
      given up exactly when there are `MAX_CORNERS` peaks or more. */
  method FindCorners(img: array2<int>, r: array2<int>, cgx: array2<int>, cgy: array2<int>,
                     list: array<Corner>, quick: bool, margin: int)
    returns (n: nat, tooMany: bool)
    requires margin >= 3 && list.Length == MAX_CORNERS
    requires r.Length0 == cgx.Length0 == cgy.Length0 == img.Length0
    requires r.Length1 == cgx.Length1 == cgy.Length1 == img.Length1
    modifies list
    ensures tooMany <==> |Peaks(r, margin)| >= MAX_CORNERS
    ensures !tooMany ==> n == |Peaks(r, margin)| < MAX_CORNERS && list[n].info == 7
    ensures !tooMany ==> Records(list[..n], Peaks(r, margin)) && Attributed(list[..n], img, cgx, cgy, quick)
  {
    ghost var S, found: set<Pix> := Peaks(r, margin), {};
    n, tooMany := 0, false;
    var i := margin;
    while i < r.Length0 - margin
      invariant margin <= i && n < MAX_CORNERS && S == Peaks(r, margin)
      invariant Scan(list[..n], S, found, i, margin) && Attributed(list[..n], img, cgx, cgy, quick)
    {
      n, found := FindRow(img, r, cgx, cgy, list, quick, margin, i, n, S, found);
      if n == MAX_CORNERS {
        return n, true;
      }
      i := i + 1;
    }
    PeaksInside(r, margin);
    ScanComplete(list[..n], S, found, i, margin);
    EndMark(list, n);
  }
}
