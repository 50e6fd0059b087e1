/** The corner mode from image to marked image: responses, attributes, suppression, list, drawing. */
module CornerMode {
  import opened EdgeGraph
  import opened Usan
  import opened CornerResponse
  import opened Corners
  import opened CornerAttributes
  import opened CornerList
  import opened CornerDraw

  /** What one pixel yields: a response and, if it is positive, the scaled centre of gravity. */
  datatype Found = Found(v: int, dx: int, dy: int)

  function FoundAt(img: array2<int>, bp: Lut, maxNo: int, i: int, j: int): Found
    reads img
  {
    if Scanned(img, 5, i, j) && Disc(Window(img, bp, i, j)).n > 0 then
      var m := Disc(Window(img, bp, i, j));
      Found(Refined(Window(img, bp, i, j), maxNo), TruncDiv(51 * m.x, m.n), TruncDiv(51 * m.y, m.n))
    else Found(0, 0, 0)
  }

  ghost predicate SameSize(a: array2<int>, b: array2<int>) {
    a.Length0 == b.Length0 && a.Length1 == b.Length1
  }

  /** `want` lists what the pixels of row i yield. */
  ghost predicate Wanted(img: array2<int>, bp: Lut, maxNo: int, i: int, want: seq<Found>)
    reads img
  {
    |want| == img.Length1 &&
    forall b {:trigger FoundAt(img, bp, maxNo, i, b)} :: 0 <= b < |want| ==> want[b] == FoundAt(img, bp, maxNo, i, b)
  }

  /** `want` lists what all pixels yield, row by row. */
  ghost predicate WantedAll(img: array2<int>, bp: Lut, maxNo: int, want: seq<seq<Found>>)
    reads img
  {
    Shaped(img, want) &&
    forall a {:trigger Wanted(img, bp, maxNo, a, want[a])} :: 0 <= a < |want| ==> Wanted(img, bp, maxNo, a, want[a])
  }

  ghost predicate Shaped(img: array2<int>, want: seq<seq<Found>>) {
    |want| == img.Length0 && forall a :: 0 <= a < |want| ==> |want[a]| == img.Length1
  }

  /** What the first pass leaves in its three buffers, for the rows above `rows`. */
  ghost predicate Responded(want: seq<seq<Found>>, r: array2<int>, cgx: array2<int>, cgy: array2<int>, rows: int)
    requires Shaped(r, want) && SameSize(cgx, r) && SameSize(cgy, r)
    reads r, cgx, cgy
  {
    && (forall i, j :: 0 <= i < r.Length0 && 0 <= j < r.Length1 ==> r[i, j] == if i < rows then want[i][j].v else 0)
    && (forall i, j :: 0 <= i < r.Length0 && 0 <= j < r.Length1 && r[i, j] > 0 ==>
        Found(r[i, j], cgx[i, j], cgy[i, j]) == want[i][j])
  }

  /** Pixels near the border yield nothing. */
  lemma BorderYieldsNothing(img: array2<int>, bp: Lut, maxNo: int, want: seq<seq<Found>>, a: int, b: int)
    requires WantedAll(img, bp, maxNo, want) && 0 <= a < img.Length0 && 0 <= b < img.Length1 && !Scanned(img, 5, a, b)
    ensures want[a][b].v == 0
  {
    assert Wanted(img, bp, maxNo, a, want[a]);
    assert want[a][b] == FoundAt(img, bp, maxNo, a, b);
  }

  lemma FoundSmall(img: array2<int>, bp: Lut, maxNo: int, i: int, j: int)
    requires Bytes(img) && BrightnessLut(bp)
    ensures var f := FoundAt(img, bp, maxNo, i, j); f.v >= 0 && Abs(f.dx) < 153 && Abs(f.dy) < 153
  {
    if Scanned(img, 5, i, j) {
      var s := Window(img, bp, i, j);
      WindowLevels(img, bp, i, j);
      MomentsBounded(s);
      AttributeBound(s, Disc(s).x);
      AttributeBound(s, Disc(s).y);
    }
  }

  /** q is p / n, truncated. */
  ghost predicate Truncates(q: int, p: int, n: int) {
    Abs(q) * n <= Abs(p) < (Abs(q) + 1) * n && (p >= 0 ==> q >= 0) && (p <= 0 ==> q <= 0)
  }

  /** What the careful finder finds: the true corners of small area five pixels inside, the missing area
      as their response, and as attributes their centre of gravity times 51, the columns' first. */
  lemma FoundMeans(img: array2<int>, bp: Lut, maxNo: int, i: int, j: int)
    requires Bytes(img) && BrightnessLut(bp)
    ensures var f := FoundAt(img, bp, maxNo, i, j);
      f.v > 0 <==> Scanned(img, 5, i, j) && Disc(Window(img, bp, i, j)).n < maxNo && TrueCorner(Window(img, bp, i, j))
    ensures Scanned(img, 5, i, j) ==>
      var f, m := FoundAt(img, bp, maxNo, i, j), Disc(Window(img, bp, i, j));
      (f.v > 0 ==> f.v == maxNo - m.n) && Truncates(f.dx, 51 * m.x, m.n) && Truncates(f.dy, 51 * m.y, m.n)
  {
    if Scanned(img, 5, i, j) {
      var s := Window(img, bp, i, j);
      WindowLevels(img, bp, i, j);
      MomentsBounded(s);
      RefinedMeans(s, maxNo);
      TruncDivExact(51 * Disc(s).x, Disc(s).n);
      TruncDivExact(51 * Disc(s).y, Disc(s).n);
    }
  }

  method RespondPixel(img: array2<int>, bp: Lut, maxNo: int, i: int, j: int, ghost want: seq<Found>)
    returns (v: int, dx: int, dy: int)
    requires Scanned(img, 5, i, j) && Bytes(img) && BrightnessLut(bp) && Wanted(img, bp, maxNo, i, want)
    ensures v == want[j].v >= 0 && (v > 0 ==> Found(v, dx, dy) == want[j])
  {
    WindowLevels(img, bp, i, j);
    MomentsBounded(Window(img, bp, i, j));
    v, dx, dy := RespondAt(img, bp, maxNo, i, j);
    assert want[j] == FoundAt(img, bp, maxNo, i, j);
  }

  method Store(r: array2<int>, cgx: array2<int>, cgy: array2<int>, i: int, j: int, v: int, dx: int, dy: int)
    requires SameSize(r, cgx) && SameSize(r, cgy) && r != cgx && r != cgy && cgx != cgy
    requires 0 <= i < r.Length0 && 0 <= j < r.Length1
    modifies r, cgx, cgy
    ensures forall a, b :: 0 <= a < r.Length0 && 0 <= b < r.Length1 ==>
      r[a, b] == (if (a, b) == (i, j) then v else old(r[a, b]))
      && cgx[a, b] == (if (a, b) == (i, j) then dx else old(cgx[a, b]))
      && cgy[a, b] == (if (a, b) == (i, j) then dy else old(cgy[a, b]))
  {
    r[i, j], cgx[i, j], cgy[i, j] := v, dx, dy;
  }

  /** The first pass for row i. */
  method RespondRow(img: array2<int>, r: array2<int>, cgx: array2<int>, cgy: array2<int>, bp: Lut, maxNo: int,
                    i: int, ghost want: seq<Found>)
    requires SameSize(r, img) && SameSize(cgx, img) && SameSize(cgy, img) && Bytes(img) && BrightnessLut(bp)
    requires img != r && img != cgx && img != cgy && r != cgx && r != cgy && cgx != cgy
    requires 5 <= i < img.Length0 - 5 && Wanted(img, bp, maxNo, i, want)
    requires forall b :: 0 <= b < r.Length1 ==> r[i, b] == 0
    modifies r, cgx, cgy
    ensures forall b :: 5 <= b < r.Length1 - 5 ==> r[i, b] == want[b].v
    ensures forall b :: 5 <= b < r.Length1 - 5 && r[i, b] > 0 ==> Found(r[i, b], cgx[i, b], cgy[i, b]) == want[b]
    ensures forall b :: 0 <= b < r.Length1 && !(5 <= b < r.Length1 - 5) ==> r[i, b] == 0
    ensures forall a, b :: 0 <= a < r.Length0 && 0 <= b < r.Length1 && a != i ==>
      r[a, b] == old(r[a, b]) && cgx[a, b] == old(cgx[a, b]) && cgy[a, b] == old(cgy[a, b])
  {
    var j := 5;
    while j < img.Length1 - 5
      invariant 5 <= j && (j == 5 || j <= img.Length1 - 5) && Wanted(img, bp, maxNo, i, want)
      invariant forall a, b :: 0 <= a < r.Length0 && 0 <= b < r.Length1 && a != i ==>
        r[a, b] == old(r[a, b]) && cgx[a, b] == old(cgx[a, b]) && cgy[a, b] == old(cgy[a, b])
      invariant forall b :: 5 <= b < j ==> r[i, b] == want[b].v
      invariant forall b :: 0 <= b < r.Length1 && !(5 <= b < j) ==> r[i, b] == 0
      invariant forall b :: 5 <= b < j && r[i, b] > 0 ==> Found(r[i, b], cgx[i, b], cgy[i, b]) == want[b]
    {
      var v, dx, dy := RespondPixel(img, bp, maxNo, i, j, want);
      if v > 0 {
        Store(r, cgx, cgy, i, j, v, dx, dy);
      }
      j := j + 1;
    }
  }

  lemma RowResponded(want: seq<seq<Found>>, r: array2<int>, cgx: array2<int>, cgy: array2<int>, i: int)
    requires Shaped(r, want) && SameSize(cgx, r) && SameSize(cgy, r) && 0 <= i < r.Length0
    requires forall a, b :: 0 <= a < r.Length0 && 0 <= b < r.Length1 && a != i ==>
      r[a, b] == if a < i then want[a][b].v else 0
    requires forall a, b :: 0 <= a < r.Length0 && 0 <= b < r.Length1 && a != i && r[a, b] > 0 ==>
      Found(r[a, b], cgx[a, b], cgy[a, b]) == want[a][b]
    requires forall b :: 0 <= b < r.Length1 ==> r[i, b] == want[i][b].v
    requires forall b :: 0 <= b < r.Length1 && r[i, b] > 0 ==> Found(r[i, b], cgx[i, b], cgy[i, b]) == want[i][b]
    ensures Responded(want, r, cgx, cgy, i + 1)
  {
  }

  /** The first pass of the careful corner finder. */
  method RespondAll(img: array2<int>, r: array2<int>, cgx: array2<int>, cgy: array2<int>, bp: Lut, maxNo: int,
                    ghost want: seq<seq<Found>>)
    requires SameSize(r, img) && SameSize(cgx, img) && SameSize(cgy, img) && Bytes(img) && BrightnessLut(bp)
    requires img != r && img != cgx && img != cgy && r != cgx && r != cgy && cgx != cgy
    requires WantedAll(img, bp, maxNo, want)
    modifies r, cgx, cgy
    ensures Responded(want, r, cgx, cgy, img.Length0) && Confined(r, 5)
  {
    Clear(r);
    forall a, b | 0 <= a < img.Length0 && 0 <= b < img.Length1 && !Scanned(img, 5, a, b)
      ensures want[a][b].v == 0
    {
      BorderYieldsNothing(img, bp, maxNo, want, a, b);
    }
    var i := 5;
    while i < img.Length0 - 5
      invariant 5 <= i && (i == 5 || i <= img.Length0 - 5) && WantedAll(img, bp, maxNo, want)
      invariant Responded(want, r, cgx, cgy, i)
    {
      assert Wanted(img, bp, maxNo, i, want[i]);
      RespondRow(img, r, cgx, cgy, bp, maxNo, i, want[i]);
      RowResponded(want, r, cgx, cgy, i);
      i := i + 1;
    }
  }

  lemma ListFound(img: array2<int>, bp: Lut, maxNo: int) returns (want: seq<seq<Found>>)
    ensures WantedAll(img, bp, maxNo, want)
  {
    want := seq(img.Length0, a requires 0 <= a reads img =>
      seq(img.Length1, b requires 0 <= b reads img => FoundAt(img, bp, maxNo, a, b)));
    forall a | 0 <= a < |want|
      ensures Wanted(img, bp, maxNo, a, want[a])
    {
    }
  }

  /** How far inside the image corners are looked for. */
  function Border(quick: bool): int { if quick then 7 else 5 }

  function ResponseAt(img: array2<int>, bp: Lut, maxNo: int, quick: bool, i: int, j: int): int
    reads img
  {
    if !quick then FoundAt(img, bp, maxNo, i, j).v
    else if Scanned(img, 7, i, j) then AreaResponse(img, bp, maxNo, i, j) else 0
  }

  /** `resp` lists the responses of the chosen finder, row by row. */
  ghost predicate Responds(img: array2<int>, bp: Lut, maxNo: int, quick: bool, resp: seq<seq<int>>)
    reads img
  {
    |resp| == img.Length0 && (forall a :: 0 <= a < |resp| ==> |resp[a]| == img.Length1) &&
    forall i, j {:trigger ResponseAt(img, bp, maxNo, quick, i, j)} ::
      0 <= i < img.Length0 && 0 <= j < img.Length1 ==> resp[i][j] == ResponseAt(img, bp, maxNo, quick, i, j)
  }

  /** `r` holds the responses of the chosen finder. */
  ghost predicate Holds(r: array2<int>, img: array2<int>, bp: Lut, maxNo: int, quick: bool, want: seq<seq<Found>>)
    requires SameSize(r, img) && Shaped(img, want)
    reads r, img
  {
    if quick then HoldsAreaResponse(r, img, bp, maxNo, 7)
    else forall i, j :: 0 <= i < r.Length0 && 0 <= j < r.Length1 ==> r[i, j] == want[i][j].v
  }

  lemma ListResponses(r: array2<int>, img: array2<int>, bp: Lut, maxNo: int, quick: bool, want: seq<seq<Found>>)
    returns (resp: seq<seq<int>>)
    requires SameSize(r, img) && WantedAll(img, bp, maxNo, want) && Holds(r, img, bp, maxNo, quick, want)
    ensures Responds(img, bp, maxNo, quick, resp)
    ensures forall i, j :: 0 <= i < r.Length0 && 0 <= j < r.Length1 ==> r[i, j] == resp[i][j]
  {
    resp := seq(r.Length0, i requires 0 <= i < r.Length0 reads r =>
      seq(r.Length1, j requires 0 <= i < r.Length0 && 0 <= j < r.Length1 reads r => r[i, j]));
    forall i, j | 0 <= i < img.Length0 && 0 <= j < img.Length1
      ensures resp[i][j] == ResponseAt(img, bp, maxNo, quick, i, j)
    {
      ResponseHeld(r, img, bp, maxNo, quick, want, i, j);
    }
  }

  lemma ResponseHeld(r: array2<int>, img: array2<int>, bp: Lut, maxNo: int, quick: bool, want: seq<seq<Found>>,
                     i: int, j: int)
    requires SameSize(r, img) && WantedAll(img, bp, maxNo, want) && Holds(r, img, bp, maxNo, quick, want)
    requires 0 <= i < img.Length0 && 0 <= j < img.Length1
    ensures r[i, j] == ResponseAt(img, bp, maxNo, quick, i, j)
  {
    if !quick {
      assert Wanted(img, bp, maxNo, i, want[i]);
      assert want[i][j] == FoundAt(img, bp, maxNo, i, j);
    }
  }

  /** The first pass of either finder. */
  method Respond(img: array2<int>, r: array2<int>, cgx: array2<int>, cgy: array2<int>, bp: Lut, maxNo: int,
                 quick: bool, ghost want: seq<seq<Found>>)
    requires SameSize(r, img) && SameSize(cgx, img) && SameSize(cgy, img) && Bytes(img) && BrightnessLut(bp)
    requires img != r && img != cgx && img != cgy && r != cgx && r != cgy && cgx != cgy
    requires WantedAll(img, bp, maxNo, want)
    modifies r, cgx, cgy
    ensures Holds(r, img, bp, maxNo, quick, want) && Confined(r, Border(quick))
    ensures !quick ==> Responded(want, r, cgx, cgy, img.Length0)
  {
    if quick {
      QuickPass(img, r, bp, maxNo);
    } else {
      RespondAll(img, r, cgx, cgy, bp, maxNo, want);
    }
  }

  /** Every entry describes its own pixel: the careful finder's centre of gravity and brightness, or the
      quick finder's gradient and mean. */
  ghost predicate Describes(img: array2<int>, quick: bool, want: seq<seq<Found>>, cs: seq<Corner>)
    requires Shaped(img, want)
    reads img
  {
    forall k :: 0 <= k < |cs| ==>
      var (x, y) := (cs[k].x, cs[k].y);
      FiveInside(img, y, x) &&
      cs[k] == if quick then Corner(x, y, 0, QuickX(img, y, x), QuickY(img, y, x), QuickMean(img, y, x))
               else Corner(x, y, 0, want[y][x].dx, want[y][x].dy, img[y, x])
  }

  lemma EntriesDescribe(img: array2<int>, r: array2<int>, cgx: array2<int>, cgy: array2<int>, quick: bool,
                        want: seq<seq<Found>>, cs: seq<Corner>, S: set<Pix>)
    requires SameSize(r, img) && SameSize(cgx, img) && SameSize(cgy, img) && Shaped(img, want)
    requires Attributed(cs, img, cgx, cgy, quick) && Records(cs, S)
    requires forall p :: p in S ==> 0 <= p.i < r.Length0 && 0 <= p.j < r.Length1 && r[p.i, p.j] > 0
    requires !quick ==> Responded(want, r, cgx, cgy, img.Length0)
    ensures Describes(img, quick, want, cs)
  {
    forall k | 0 <= k < |cs|
      ensures Place(cs[k]) in S && FiveInside(img, cs[k].y, cs[k].x)
      ensures cs[k] == EntryAt(img, cgx, cgy, quick, cs[k].y, cs[k].x)
    {
    }
  }

  /** What an entry tells about its pixel. The careful finder copies the pixel and what was found there;
      the quick one gives the mean of the block and its first moments over 15, the columns' first. */
  lemma EntryTells(img: array2<int>, quick: bool, want: seq<seq<Found>>, cs: seq<Corner>, e: Corner, k: nat)
    requires Shaped(img, want) && Describes(img, quick, want, cs) && e in cs && k == 5
    ensures FiveInside(img, e.y, e.x)
    ensures !quick ==> e.I == img[e.y, e.x] && e.dx == want[e.y][e.x].dx && e.dy == want[e.y][e.x].dy
    ensures quick ==>
      var t := BlockTotal(img, e.y, e.x, k);
      Truncates(e.I, t.n, 25) && Truncates(e.dx, t.x, 15) && Truncates(e.dy, t.y, 15)
  {
    var l :| 0 <= l < |cs| && cs[l] == e;
    QuickIsMoment(img, e.y, e.x, k);
    var t := BlockTotal(img, e.y, e.x, k);
    TruncDivExact(t.n, 25);
    TruncDivExact(t.x, 15);
    TruncDivExact(t.y, 15);
  }

  lemma PeaksPositive(r: array2<int>, margin: int)
    requires margin >= 3
    ensures forall p :: p in Peaks(r, margin) ==> Scanned(r, margin, p.i, p.j) && r[p.i, p.j] > 0
  {
  }

  /** The first pass, and what it found. */
  method Measure(img: array2<int>, r: array2<int>, cgx: array2<int>, cgy: array2<int>, bp: Lut, maxNo: int, quick: bool)
    returns (ghost want: seq<seq<Found>>, ghost resp: seq<seq<int>>)
    requires SameSize(r, img) && SameSize(cgx, img) && SameSize(cgy, img) && Bytes(img) && BrightnessLut(bp)
    requires img != r && img != cgx && img != cgy && r != cgx && r != cgy && cgx != cgy
    modifies r, cgx, cgy
    ensures WantedAll(img, bp, maxNo, want) && Responds(img, bp, maxNo, quick, resp)
    ensures forall i, j :: 0 <= i < r.Length0 && 0 <= j < r.Length1 ==> r[i, j] == resp[i][j]
    ensures Confined(r, Border(quick)) && (!quick ==> Responded(want, r, cgx, cgy, img.Length0))
  {
    want := ListFound(img, bp, maxNo);
    Respond(img, r, cgx, cgy, bp, maxNo, quick, want);
    resp := ListResponses(r, img, bp, maxNo, quick, want);
  }

  /** The second pass. `S` is the set of corners. */
  method ListCorners(img: array2<int>, r: array2<int>, cgx: array2<int>, cgy: array2<int>, list: array<Corner>,
                     quick: bool, ghost want: seq<seq<Found>>, ghost S: set<Pix>)
    returns (tooMany: bool, n: nat)
    requires SameSize(r, img) && SameSize(cgx, img) && SameSize(cgy, img) && Shaped(img, want)
    requires list.Length == MAX_CORNERS && S == Peaks(r, Border(quick))
    requires !quick ==> Responded(want, r, cgx, cgy, img.Length0)
    modifies list
    ensures tooMany <==> |S| >= MAX_CORNERS
    ensures !tooMany ==> n < list.Length && list[n].info == 7 && Records(list[..n], S)
    ensures !tooMany ==> Describes(img, quick, want, list[..n])
  {
    n, tooMany := FindCorners(img, r, cgx, cgy, list, quick, Border(quick));
    if !tooMany {
      PeaksPositive(r, Border(quick));
      EntriesDescribe(img, r, cgx, cgy, quick, want, list[..n], S);
    }
  }

  /** The second pass, and the drawing. */
  method ListAndDraw(img: array2<int>, r: array2<int>, cgx: array2<int>, cgy: array2<int>, list: array<Corner>,
                     quick: bool, drawingMode: int, ghost want: seq<seq<Found>>, ghost S: set<Pix>)
    returns (tooMany: bool, n: nat)
    requires SameSize(r, img) && SameSize(cgx, img) && SameSize(cgy, img) && Shaped(img, want)
    requires img != r && img != cgx && img != cgy && list.Length == MAX_CORNERS && S == Peaks(r, Border(quick))
    requires !quick ==> Responded(want, r, cgx, cgy, img.Length0)
    requires Apart(S) && forall p :: p in S ==> Scanned(img, 1, p.i, p.j)
    modifies img, list
    ensures tooMany <==> |S| >= MAX_CORNERS
    ensures !tooMany ==> n < list.Length && list[n].info == 7 && Records(list[..n], S)
    ensures !tooMany ==> var cs := list[..n]; old(Describes(img, quick, want, cs))
    ensures !tooMany ==> forall i, j :: 0 <= i < img.Length0 && 0 <= j < img.Length1 ==>
      img[i, j] == if drawingMode == 0 then Expected(S, Pix(i, j), old(img[i, j]))
                   else if Pix(i, j) in S then 0 else old(img[i, j])
  {
    tooMany, n := ListCorners(img, r, cgx, cgy, list, quick, want, S);
    if !tooMany {
      DrawPeaks(img, list, n, drawingMode, S);
    }
  }

  /** The corner mode with either finder. Corners exist if and only if some response is positive; they are
      all listed and drawn, unless there is no room for them. */
  method MarkCorners(img: array2<int>, r: array2<int>, cgx: array2<int>, cgy: array2<int>, list: array<Corner>,
                     bp: Lut, maxNo: int, quick: bool, drawingMode: int)
    returns (tooMany: bool, n: nat, ghost want: seq<seq<Found>>, ghost resp: seq<seq<int>>)
    requires SameSize(r, img) && SameSize(cgx, img) && SameSize(cgy, img) && Bytes(img) && BrightnessLut(bp)
    requires img != r && img != cgx && img != cgy && r != cgx && r != cgy && cgx != cgy
    requires list.Length == MAX_CORNERS
    modifies img, r, cgx, cgy, list
    ensures old(WantedAll(img, bp, maxNo, want)) && old(Responds(img, bp, maxNo, quick, resp))
    ensures forall i, j :: 0 <= i < r.Length0 && 0 <= j < r.Length1 ==> r[i, j] == resp[i][j]
    ensures Peaks(r, Border(quick)) != {} <==>
      exists i, j :: 0 <= i < r.Length0 && 0 <= j < r.Length1 && r[i, j] > 0
    ensures tooMany <==> |Peaks(r, Border(quick))| >= MAX_CORNERS
    ensures Blocks(img.Length0, Border(quick)) * Blocks(img.Length1, Border(quick)) < MAX_CORNERS ==> !tooMany
    ensures !tooMany ==> n < list.Length && list[n].info == 7 && Records(list[..n], Peaks(r, Border(quick)))
    ensures !tooMany ==> var cs := list[..n]; old(Describes(img, quick, want, cs))
    ensures !tooMany ==> forall i, j :: 0 <= i < img.Length0 && 0 <= j < img.Length1 ==>
      img[i, j] == if drawingMode == 0 then Expected(Peaks(r, Border(quick)), Pix(i, j), old(img[i, j]))
                   else if Pix(i, j) in Peaks(r, Border(quick)) then 0 else old(img[i, j])
  {
    want, resp := Measure(img, r, cgx, cgy, bp, maxNo, quick);
    ghost var S := Peaks(r, Border(quick));
    PeaksExist(r, Border(quick));
    PeaksPacked(r, Border(quick));
    PeaksAreApart(r, Border(quick));
    PeaksPositive(r, Border(quick));
    tooMany, n := ListAndDraw(img, r, cgx, cgy, list, quick, drawingMode, want, S);
  }
}
