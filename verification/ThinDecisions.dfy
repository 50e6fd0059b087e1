/** What the thinning body decides, said of the picture: which neighbours a pixel has and how they lie. */
module ThinDecisions {
  import opened EdgeGraph
  import opened RingTest
  import opened SusanThin
  import opened ThinGraph

  function Gap(a: int, b: int): (d: nat) {
    if a < b then b - a else a - b
  }

  /** Steps along rows and columns. */
  function Walk(p: Pix, q: Pix): nat {
    Gap(p.i, q.i) + Gap(p.j, q.j)
  }

  /** q is one of the four side neighbours of p. */
  predicate Straight(p: Pix, q: Pix) { Walk(p, q) == 1 }

  /** q is one of the four corner neighbours of p. */
  predicate Diagonal(p: Pix, q: Pix) { Adjacent(p, q) && Walk(p, q) == 2 }

  /** q lies on the 5x5 ring around p. */
  predicate TwoAway(p: Pix, q: Pix) {
    (Gap(p.i, q.i) == 2 && Gap(p.j, q.j) <= 2) || (Gap(p.j, q.j) == 2 && Gap(p.i, q.i) <= 2)
  }

  // ------------------------------------------------------------------- counting neighbours

  lemma RemoveOne(N: set<Pix>, p: Pix)
    ensures |N| == |N - {p}| + B(p in N)
  {
    if p in N { assert N == (N - {p}) + {p}; } else { assert N - {p} == N; }
  }

  lemma RemoveTwo(N: set<Pix>, p: Pix, q: Pix) returns (M: set<Pix>)
    requires p != q
    ensures |N| == |M| + B(p in N) + B(q in N)
    ensures forall x :: x in M <==> x in N && x != p && x != q
  {
    RemoveOne(N, p);
    RemoveOne(N - {p}, q);
    M := N - {p} - {q};
  }

  lemma RingSize(N: set<Pix>, i: int, j: int)
    requires forall q :: q in N ==> Adjacent(Pix(i, j), q)
    ensures |N| == B(Pix(i - 1, j - 1) in N) + B(Pix(i - 1, j) in N) + B(Pix(i - 1, j + 1) in N) +
      B(Pix(i, j - 1) in N) + B(Pix(i, j + 1) in N) +
      B(Pix(i + 1, j - 1) in N) + B(Pix(i + 1, j) in N) + B(Pix(i + 1, j + 1) in N)
  {
    var M1 := RemoveTwo(N, Pix(i - 1, j - 1), Pix(i - 1, j));
    var M2 := RemoveTwo(M1, Pix(i - 1, j + 1), Pix(i, j - 1));
    var M3 := RemoveTwo(M2, Pix(i, j + 1), Pix(i + 1, j - 1));
    var M4 := RemoveTwo(M3, Pix(i + 1, j), Pix(i + 1, j + 1));
    assert M4 == {};
  }

  /** The count the code makes is the number of edge neighbours. */
  lemma CountIsSize(m: Grid, i: int, j: int)
    ensures NeighbourCount(m, i, j) == |Neighbours(Edges(m), Pix(i, j))|
  {
    RingUnfolded(m, i, j);
    RingSize(Neighbours(Edges(m), Pix(i, j)), i, j);
  }

  // ------------------------------------------------------------------------ the decisions

  /** A pixel is dropped exactly when it is an edge pixel without an edge neighbour. */
  lemma DropExactly(m: Grid, r: Grid, i: int, j: int)
    ensures Decide(m, r, i, j) == Drop <==> Pix(i, j) in Edges(m) && Neighbours(Edges(m), Pix(i, j)) == {}
  {
    OnIsEdge(m, i, j);
    EdgeHasNeighbour(m, i, j);
  }

  /** c has two neighbours, sides that touch each other, one of which goes on diagonally. */
  ghost predicate OddAngle(E: set<Pix>, c: Pix, a: Pix, b: Pix) {
    && Neighbours(E, c) == {a, b} && Straight(c, a) && Straight(c, b) && Diagonal(a, b)
    && exists x :: x in E && TwoAway(c, x) && (Diagonal(a, x) || Diagonal(b, x))
  }

  lemma SquareIsOdd(m: Grid, r: Grid, i: int, j: int) returns (a: Pix, b: Pix)
    requires Decide(m, r, i, j) == Square
    ensures OddAngle(Edges(m), Pix(i, j), a, b)
  {
    var E, c := Edges(m), Pix(i, j);
    RingUnfolded(m, i, j);
    a := if On(m, i - 1, j) then Pix(i - 1, j) else Pix(i + 1, j);
    b := if On(m, i, j - 1) then Pix(i, j - 1) else Pix(i, j + 1);
    forall q ensures q in Neighbours(E, c) <==> q == a || q == b {
      if Adjacent(c, q) { assert InGroup(c, GroupOf(c, q), q); }
    }
    var x := if On(m, a.i + a.i - i, j - 1) then Pix(a.i + a.i - i, j - 1)
             else if On(m, a.i + a.i - i, j + 1) then Pix(a.i + a.i - i, j + 1)
             else if On(m, i - 1, b.j + b.j - j) then Pix(i - 1, b.j + b.j - j) else Pix(i + 1, b.j + b.j - j);
    OnIsEdge(m, x.i, x.j);
    assert x in E && TwoAway(c, x) && (Diagonal(a, x) || Diagonal(b, x));
  }

  /** The pixels diagonal to a vertical neighbour a and two away from c. */
  lemma FarAbove(c: Pix, a: Pix, x: Pix)
    requires Straight(c, a) && a.j == c.j && TwoAway(c, x) && Diagonal(a, x)
    ensures x.i == a.i + a.i - c.i && (x.j == c.j - 1 || x.j == c.j + 1)
  {
  }

  lemma FarBeside(c: Pix, b: Pix, x: Pix)
    requires Straight(c, b) && b.i == c.i && TwoAway(c, x) && Diagonal(b, x)
    ensures x.j == b.j + b.j - c.j && (x.i == c.i - 1 || x.i == c.i + 1)
  {
  }

  /** Exactly two sides are set: a above or below, b beside. */
  ghost predicate TwoSides(m: Grid, i: int, j: int, a: Pix, b: Pix) {
    && Straight(Pix(i, j), a) && a.j == j && Straight(Pix(i, j), b) && b.i == i
    && (On(m, i - 1, j) <==> a.i == i - 1) && (On(m, i + 1, j) <==> a.i == i + 1)
    && (On(m, i, j - 1) <==> b.j == j - 1) && (On(m, i, j + 1) <==> b.j == j + 1)
    && !On(m, i - 1, j - 1) && !On(m, i - 1, j + 1) && !On(m, i + 1, j - 1) && !On(m, i + 1, j + 1)
  }

  lemma PairIsTwoSides(m: Grid, i: int, j: int, a: Pix, b: Pix)
    requires Neighbours(Edges(m), Pix(i, j)) == {a, b} && a.j == j && b.i == i
    requires Straight(Pix(i, j), a) && Straight(Pix(i, j), b)
    ensures TwoSides(m, i, j, a, b)
  {
    RingUnfolded(m, i, j);
  }

  lemma TwoSidesFar(m: Grid, r: Grid, i: int, j: int, a: Pix, b: Pix)
    requires On(m, i, j) && TwoSides(m, i, j, a, b)
    requires On(m, a.i + a.i - i, j - 1) || On(m, a.i + a.i - i, j + 1) ||
      On(m, i - 1, b.j + b.j - j) || On(m, i + 1, b.j + b.j - j)
    ensures Decide(m, r, i, j) == Square
  {
    assert a.i == i - 1 || a.i == i + 1;
    assert b.j == j - 1 || b.j == j + 1;
    assert RightAngle(m, i, j);
    assert NeighbourCount(m, i, j) == 2 && !TwoCorners(m, i, j);
  }

  lemma {:induction false} OddIsSquare(m: Grid, r: Grid, i: int, j: int, a: Pix, b: Pix)
    requires On(m, i, j) && OddAngle(Edges(m), Pix(i, j), a, b)
    ensures Decide(m, r, i, j) == Square
    decreases Gap(a.j, j)
  {
    var E, c := Edges(m), Pix(i, j);
    if a.j != j {
      assert OddAngle(E, c, b, a);
      OddIsSquare(m, r, i, j, b, a);
    } else {
      PairIsTwoSides(m, i, j, a, b);
      var x :| x in E && TwoAway(c, x) && (Diagonal(a, x) || Diagonal(b, x));
      OnIsEdge(m, x.i, x.j);
      if Diagonal(a, x) { FarAbove(c, a, x); } else { FarBeside(c, b, x); }
      TwoSidesFar(m, r, i, j, a, b);
    }
  }

  /** An odd right angle is cleared in every orientation, and nothing else is cleared by that rule. */
  lemma SquareExactly(m: Grid, r: Grid, i: int, j: int)
    ensures Decide(m, r, i, j) == Square <==>
      Pix(i, j) in Edges(m) && exists a, b :: OddAngle(Edges(m), Pix(i, j), a, b)
  {
    OnIsEdge(m, i, j);
    if Decide(m, r, i, j) == Square {
      var a, b := SquareIsOdd(m, r, i, j);
    }
    if On(m, i, j) && exists a, b :: OddAngle(Edges(m), Pix(i, j), a, b) {
      var a, b :| OddAngle(Edges(m), Pix(i, j), a, b);
      OddIsSquare(m, r, i, j, a, b);
    }
  }

  // ----------------------------------------------------------------- straightening a notch

  /** c has two neighbours, the corners beside its side d; d responds more than 0.7 times as strongly; and
      beyond d, two away from c, there is no edge pixel next to it. */
  ghost predicate Notched(E: set<Pix>, r: Grid, c: Pix, a: Pix, b: Pix, d: Pix) {
    && Neighbours(E, c) == {a, b} && a != b && Diagonal(c, a) && Diagonal(c, b)
    && Straight(c, d) && Straight(a, d) && Straight(b, d)
    && 10 * At(r, d.i, d.j) > 7 * At(r, c.i, c.j)
    && forall x :: x in E && TwoAway(c, x) ==> !Adjacent(d, x)
  }

  /** The two corners on the side of d. */
  function SideCorner(c: Pix, d: Pix, first: bool): Pix {
    var k := if first then -1 else 1;
    if d.j == c.j then Pix(d.i, c.j + k) else Pix(c.i + k, d.j)
  }

  lemma SideCorners(c: Pix, d: Pix, a: Pix)
    requires Straight(c, d) && Diagonal(c, a) && Straight(a, d)
    ensures a == SideCorner(c, d, true) || a == SideCorner(c, d, false)
  {
  }

  /** The three pixels beyond d. */
  lemma Beyond(c: Pix, d: Pix, x: Pix)
    requires Straight(c, d) && TwoAway(c, x) && Adjacent(d, x)
    ensures d.j == c.j ==> x.i == d.i + d.i - c.i && x.j in {c.j - 1, c.j, c.j + 1}
    ensures d.i == c.i ==> x.j == d.j + d.j - c.j && x.i in {c.i - 1, c.i, c.i + 1}
  {
  }

  /** The corners beside d, and no other neighbour, are set. */
  ghost predicate CornersOf(m: Grid, c: Pix, d: Pix) {
    && Straight(c, d)
    && (forall q :: Adjacent(c, q) ==>
          (On(m, q.i, q.j) <==> q == SideCorner(c, d, true) || q == SideCorner(c, d, false)))
  }

  lemma CornerSet(m: Grid, i: int, j: int, d: Pix, y: int, x: int)
    requires CornersOf(m, Pix(i, j), d) && -1 <= y <= 1 && -1 <= x <= 1 && (y != 0 || x != 0)
    ensures On(m, i + y, j + x) <==> if d.j == j then y == d.i - i && x != 0 else x == d.j - j && y != 0
  {
    assert Adjacent(Pix(i, j), Pix(i + y, j + x));
  }

  lemma CornersDecide(m: Grid, i: int, j: int, d: Pix)
    requires CornersOf(m, Pix(i, j), d)
    ensures NeighbourCount(m, i, j) == 2 && TwoCorners(m, i, j) && Towards(m, i, j) == (d.i - i, d.j - j)
  {
    CornerSet(m, i, j, d, -1, -1);
    CornerSet(m, i, j, d, -1, 0);
    CornerSet(m, i, j, d, -1, 1);
    CornerSet(m, i, j, d, 0, -1);
    CornerSet(m, i, j, d, 0, 1);
    CornerSet(m, i, j, d, 1, -1);
    CornerSet(m, i, j, d, 1, 0);
    CornerSet(m, i, j, d, 1, 1);
  }

  lemma NotchCorners(m: Grid, r: Grid, i: int, j: int, a: Pix, b: Pix, d: Pix)
    requires Notched(Edges(m), r, Pix(i, j), a, b, d)
    ensures CornersOf(m, Pix(i, j), d)
  {
    var E, c := Edges(m), Pix(i, j);
    SideCorners(c, d, a);
    SideCorners(c, d, b);
    forall q | Adjacent(c, q)
      ensures On(m, q.i, q.j) <==> q == SideCorner(c, d, true) || q == SideCorner(c, d, false)
    {
      OnIsEdge(m, q.i, q.j);
      assert q in E <==> q in Neighbours(E, c);
    }
  }

  lemma ClearExactly(m: Grid, i: int, j: int, d: Pix)
    requires Straight(Pix(i, j), d)
    ensures ClearBeyond(m, i, j, d.i - i, d.j - j) <==>
      forall x :: x in Edges(m) && TwoAway(Pix(i, j), x) ==> !Adjacent(d, x)
  {
    var c := Pix(i, j);
    if ClearBeyond(m, i, j, d.i - i, d.j - j) {
      forall x | x in Edges(m) && TwoAway(c, x)
        ensures !Adjacent(d, x)
      {
        OnIsEdge(m, x.i, x.j);
        if Adjacent(d, x) { Beyond(c, d, x); }
      }
    } else {
      var v, h := d.i + d.i - i, d.j + d.j - j;
      var x := if d.j == j then
                 if On(m, v, j) then Pix(v, j) else if On(m, v, j - 1) then Pix(v, j - 1) else Pix(v, j + 1)
               else if On(m, i, h) then Pix(i, h) else if On(m, i + 1, h) then Pix(i + 1, h) else Pix(i - 1, h);
      OnIsEdge(m, x.i, x.j);
      assert x in Edges(m) && TwoAway(c, x) && Adjacent(d, x);
    }
  }

  lemma NotchShifts(m: Grid, r: Grid, i: int, j: int, a: Pix, b: Pix, d: Pix)
    requires On(m, i, j) && Notched(Edges(m), r, Pix(i, j), a, b, d)
    ensures Decide(m, r, i, j) == Shift(d)
  {
    NotchCorners(m, r, i, j, a, b, d);
    CornersDecide(m, i, j, d);
    ClearExactly(m, i, j, d);
  }

  lemma ShiftCorners(m: Grid, r: Grid, i: int, j: int, d: Pix)
    requires Decide(m, r, i, j) == Shift(d)
    ensures CornersOf(m, Pix(i, j), d)
  {
    var c := Pix(i, j);
    forall q | Adjacent(c, q)
      ensures On(m, q.i, q.j) <==> q == SideCorner(c, d, true) || q == SideCorner(c, d, false)
    {
      assert InGroup(c, GroupOf(c, q), q);
    }
  }

  lemma ShiftNotched(m: Grid, r: Grid, i: int, j: int, d: Pix)
    requires Decide(m, r, i, j) == Shift(d)
    ensures Notched(Edges(m), r, Pix(i, j), SideCorner(Pix(i, j), d, true), SideCorner(Pix(i, j), d, false), d)
  {
    var E, c := Edges(m), Pix(i, j);
    ShiftCorners(m, r, i, j, d);
    CornersDecide(m, i, j, d);
    ClearExactly(m, i, j, d);
    var a, b := SideCorner(c, d, true), SideCorner(c, d, false);
    forall q ensures q in Neighbours(E, c) <==> q == a || q == b {
      OnIsEdge(m, q.i, q.j);
    }
  }

  /** A pixel moves exactly out of a notch, in any of the four orientations, and to the side between its
      two neighbours. */
  lemma ShiftExactly(m: Grid, r: Grid, i: int, j: int, d: Pix)
    ensures Decide(m, r, i, j) == Shift(d) <==>
      Pix(i, j) in Edges(m) && exists a, b :: Notched(Edges(m), r, Pix(i, j), a, b, d)
  {
    OnIsEdge(m, i, j);
    if Decide(m, r, i, j) == Shift(d) {
      ShiftNotched(m, r, i, j, d);
    }
    if On(m, i, j) && exists a, b :: Notched(Edges(m), r, Pix(i, j), a, b, d) {
      var a, b :| Notched(Edges(m), r, Pix(i, j), a, b, d);
      NotchShifts(m, r, i, j, a, b, d);
    }
  }

  // -------------------------------------------------------------------- extending a line

  /** How strongly an end c with its one neighbour a is drawn to x: 4 straight on, otherwise the distance
      from a; nothing for c, for a and for what lies beside a. */
  function Pull(c: Pix, a: Pix, x: Pix): int {
    if x == c || Walk(a, x) <= 1 then 0
    else if x == Pix(c.i + c.i - a.i, c.j + c.j - a.j) then 4
    else Walk(a, x)
  }

  function Score(r: Grid, c: Pix, a: Pix, x: Pix): int {
    Pull(c, a, x) * At(r, x.i, x.j)
  }

  /** Of the neighbours of c, x is the first with the highest score, and that is positive. */
  ghost predicate BestExtension(r: Grid, c: Pix, a: Pix, x: Pix) {
    && Adjacent(c, x) && Score(r, c, a, x) > 0
    && forall y :: Adjacent(c, y) && y != x ==>
         Score(r, c, a, y) < Score(r, c, a, x) || (Score(r, c, a, y) == Score(r, c, a, x) && Before(x, y))
  }

  /** The place of a pixel in the 3x3 block around c. */
  function Place(c: Pix, x: Pix): (q: int)
    requires x == c || Adjacent(c, x)
    ensures 0 <= q < 9 && Cell(c.i, c.j, q) == x
  {
    3 * (x.i - c.i + 1) + x.j - c.j + 1
  }

  lemma CellsInOrder(i: int, j: int, p: int, q: int)
    requires 0 <= p < 9 && 0 <= q < 9
    ensures p < q <==> Before(Cell(i, j, p), Cell(i, j, q))
    ensures Cell(i, j, p) == Cell(i, j, q) <==> p == q
    ensures Cell(i, j, p) == Pix(i, j) || Adjacent(Pix(i, j), Cell(i, j, p))
  {
  }

  lemma FirstIsOnly(m: Grid, i: int, j: int, a: Pix)
    requires Neighbours(Edges(m), Pix(i, j)) == {a}
    ensures Adjacent(Pix(i, j), a) && FirstNeighbour(m, i, j) == Place(Pix(i, j), a)
  {
    RingUnfolded(m, i, j);
    assert a in Neighbours(Edges(m), Pix(i, j));
    assert InGroup(Pix(i, j), GroupOf(Pix(i, j), a), a);
  }

  lemma DistanceIsWalk(i: int, j: int, q: int, k: int)
    requires 0 <= q < 9 && 0 <= k < 9
    ensures Distance(q, k) == Walk(Cell(i, j, k), Cell(i, j, q))
  {
  }

  lemma Opposite(i: int, j: int, k: int, a: Pix)
    requires 0 <= k < 9 && a == Cell(i, j, k)
    ensures Cell(i, j, 8 - k) == Pix(i + i - a.i, j + j - a.j)
  {
  }

  lemma WeightIsPull(i: int, j: int, k: int, q: int)
    requires 0 <= k < 9 && k != 4 && 0 <= q < 9
    ensures Weights(k)[q] == Pull(Pix(i, j), Cell(i, j, k), Cell(i, j, q))
  {
    WeightsFavourStraight(k, q);
    DistanceIsWalk(i, j, q, k);
    Opposite(i, j, k, Cell(i, j, k));
    CellsInOrder(i, j, q, 8 - k);
    CellsInOrder(i, j, q, 4);
  }

  lemma ScoreAt(r: Grid, i: int, j: int, a: Pix, q: int)
    requires Adjacent(Pix(i, j), a) && 0 <= q < 9
    ensures Scores(r, i, j, Place(Pix(i, j), a))[q] == Score(r, Pix(i, j), a, Cell(i, j, q))
  {
    WeightIsPull(i, j, Place(Pix(i, j), a), q);
  }

  lemma TopIsBest(r: Grid, i: int, j: int, a: Pix, l: seq<int>)
    requires Adjacent(Pix(i, j), a) && l == Scores(r, i, j, Place(Pix(i, j), a)) && Top(l).m > 0
    ensures BestExtension(r, Pix(i, j), a, Cell(i, j, Top(l).q))
  {
    var c, b := Pix(i, j), Top(l);
    BestIsFirstHighest(l, |l|);
    var x := Cell(i, j, b.q);
    ScoreAt(r, i, j, a, b.q);
    CellsInOrder(i, j, b.q, 4);
    forall y | Adjacent(c, y) && y != x
      ensures Score(r, c, a, y) < Score(r, c, a, x) || (Score(r, c, a, y) == Score(r, c, a, x) && Before(x, y))
    {
      ScoreAt(r, i, j, a, Place(c, y));
      CellsInOrder(i, j, b.q, Place(c, y));
    }
  }

  lemma BestIsTop(r: Grid, i: int, j: int, a: Pix, l: seq<int>, x: Pix)
    requires Adjacent(Pix(i, j), a) && l == Scores(r, i, j, Place(Pix(i, j), a))
    requires BestExtension(r, Pix(i, j), a, x)
    ensures Top(l).m > 0 && Cell(i, j, Top(l).q) == x
  {
    var c := Pix(i, j);
    BestIsFirstHighest(l, |l|);
    ScoreAt(r, i, j, a, Place(c, x));
    assert l[Place(c, x)] <= Top(l).m;
    TopIsBest(r, i, j, a, l);
    var y := Cell(i, j, Top(l).q);
    assert Adjacent(c, y);
  }

  lemma OneNeighbour(m: Grid, i: int, j: int)
    ensures NeighbourCount(m, i, j) == 1 <==> exists a :: Neighbours(Edges(m), Pix(i, j)) == {a}
  {
    var N := Neighbours(Edges(m), Pix(i, j));
    CountIsSize(m, i, j);
    if |N| == 1 {
      var a :| a in N;
      assert |N - {a}| == 0;
      assert N == {a};
    }
  }

  /** A line is extended exactly at an end that is not exhausted, to the best of the neighbouring pixels,
      and the new pixel is one level nearer exhaustion, level 4 at first. */
  lemma GrowExactly(m: Grid, r: Grid, i: int, j: int, to: Pix, level: int)
    ensures Decide(m, r, i, j) == Grow(to, level) <==>
      && Pix(i, j) in Edges(m) && At(m, i, j) < 6 && level == (if At(m, i, j) < 4 then 4 else At(m, i, j) + 1)
      && exists a :: Neighbours(Edges(m), Pix(i, j)) == {a} && BestExtension(r, Pix(i, j), a, to)
  {
    OnIsEdge(m, i, j);
    OneNeighbour(m, i, j);
    if a :| Neighbours(Edges(m), Pix(i, j)) == {a} {
      ExtensionExactly(m, r, i, j, a, to);
    }
  }

  lemma ExtensionExactly(m: Grid, r: Grid, i: int, j: int, a: Pix, to: Pix)
    requires Neighbours(Edges(m), Pix(i, j)) == {a}
    ensures (Extension(m, r, i, j).Grow? && Extension(m, r, i, j).to == to) <==>
      At(m, i, j) < 6 && BestExtension(r, Pix(i, j), a, to)
  {
    FirstIsOnly(m, i, j, a);
    var l := Scores(r, i, j, FirstNeighbour(m, i, j));
    if Top(l).m > 0 { TopIsBest(r, i, j, a, l); }
    if BestExtension(r, Pix(i, j), a, to) { BestIsTop(r, i, j, a, l, to); }
    if Top(l).m > 0 { BestIsTop(r, i, j, a, l, Cell(i, j, Top(l).q)); }
  }

  // ---------------------------------------------------------------------- thinning a line

  /** The side neighbours of c. */
  ghost function Sides(E: set<Pix>, c: Pix): set<Pix> {
    set q | q in Neighbours(E, c) && Straight(c, q)
  }

  lemma SidesCounted(m: Grid, i: int, j: int)
    ensures SideCount(m, i, j) == |Sides(Edges(m), Pix(i, j))|
  {
    RingUnfolded(m, i, j);
    RingSize(Sides(Edges(m), Pix(i, j)), i, j);
  }

  /** A pixel is thinned away exactly when it has more than two neighbours, at least two of them at its
      sides, and they hang together without it. */
  lemma ThinExactlyThick(m: Grid, r: Grid, i: int, j: int)
    ensures var E, c := Edges(m), Pix(i, j);
      Decide(m, r, i, j) == Thin <==>
        c in E && |Neighbours(E, c)| > 2 && |Sides(E, c)| > 1 && RingConnected(E, c)
  {
    OnIsEdge(m, i, j);
    CountIsSize(m, i, j);
    SidesCounted(m, i, j);
    OnePieceIsRingConnected(m, i, j);
  }

  /** The levels after a step. A pixel that stops being an edge gets level 100. One that becomes an edge
      gets 3 if the pixel that moved to it is no longer one, and else a level from 4 to 6, one more than that
      of the line end it extends. All others keep their level. */
  lemma LevelsAfter(m: Grid, r: Grid, i: int, j: int, p: Pix)
    requires p in m && Pix(i, j) in m && forall q :: q in r ==> r[q] >= 0
    ensures var act := Decide(m, r, i, j);
      var E, M := Edges(m), Apply(m, i, j, act);
      var F := Edges(M);
      p in M && M[p] ==
        if p in E && p !in F then 100
        else if p in F && p !in E && Pix(i, j) !in F then 3
        else if p in F && p !in E then AtLeast(m[Pix(i, j)] + 1, 4)
        else m[p]
  {
    var act := Decide(m, r, i, j);
    OnIsEdge(m, i, j);
    if act.Grow? {
      GrowTarget(m, r, i, j);
    } else if act.Shift? {
      ShiftTarget(m, r, i, j);
    }
    EdgesAfter(m, i, j, act);
  }

  // --------------------------------------------------------------------- going back

  function AtLeast(k: int, low: int): int { if k < low then low else k }

  /** Where the scan goes on. After an extension to a pixel it has passed already it goes back to that
      pixel; after a removal, to the first pixel of the 3x3 block; otherwise on from where it is. The row is
      never less than 4; nor is the column less than 5 after going back, since the loop still adds one. */
  lemma JumpExactly(i: int, j: int, act: Act)
    requires act.Grow? ==> Adjacent(Pix(i, j), act.to)
    ensures var (ni, nj) := Jump(i, j, act);
      (ni, nj + 1) ==
        if act.Grow? && Before(act.to, Pix(i, j)) then (AtLeast(act.to.i, 4), AtLeast(act.to.j, 5))
        else if act.Square? || act.Thin? then (AtLeast(i - 1, 4), AtLeast(j - 1, 5))
        else (i, j + 1)
  {
  }
}
