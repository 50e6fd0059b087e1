/** What each decision of the thinning body does to the connected components of the edge map. */
module ThinGraph {
  import opened EdgeGraph
  import opened EdgeMerge
  import opened RingTest
  import opened SusanThin

  lemma OnIsEdge(m: Grid, i: int, j: int)
    ensures On(m, i, j) <==> Pix(i, j) in Edges(m)
  {
  }

  lemma RingIsEdges(m: Grid, i: int, j: int)
    ensures var E, c := Edges(m), Pix(i, j);
      && (forall g :: 0 <= g < 4 ==> (Corner(c, g) in Neighbours(E, c) <==> On(m, Corner(c, g).i, Corner(c, g).j)))
      && (forall g :: 0 <= g < 4 ==> (Side(c, g) in Neighbours(E, c) <==> On(m, Side(c, g).i, Side(c, g).j)))
  {
  }

  lemma RingUnfolded(m: Grid, i: int, j: int)
    ensures var N := Neighbours(Edges(m), Pix(i, j));
      && (Pix(i - 1, j - 1) in N <==> On(m, i - 1, j - 1)) && (Pix(i - 1, j) in N <==> On(m, i - 1, j))
      && (Pix(i - 1, j + 1) in N <==> On(m, i - 1, j + 1)) && (Pix(i, j - 1) in N <==> On(m, i, j - 1))
      && (Pix(i, j + 1) in N <==> On(m, i, j + 1)) && (Pix(i + 1, j - 1) in N <==> On(m, i + 1, j - 1))
      && (Pix(i + 1, j) in N <==> On(m, i + 1, j)) && (Pix(i + 1, j + 1) in N <==> On(m, i + 1, j + 1))
  {
  }

  /** The code's bit arithmetic is the piece count of the ring. */
  lemma OnePieceIsRingConnected(m: Grid, i: int, j: int)
    ensures OnePiece(m, i, j) <==> RingConnected(Edges(m), Pix(i, j))
  {
    var N, c := Neighbours(Edges(m), Pix(i, j)), Pix(i, j);
    RingIsEdges(m, i, j);
    assert forall g :: 0 <= g < 4 ==>
      Present(N, c, g) == (On(m, Corner(c, g).i, Corner(c, g).j) || On(m, Side(c, g).i, Side(c, g).j));
    assert OnePiece(m, i, j) <==> PiecesMinusLinks(N, c) < 2;
    PiecesTestExact(N, c);
  }

  /** A pixel with more than two neighbours is deleted exactly when it has two or more side
      neighbours and its neighbours hang together without it. */
  lemma ThinExactly(m: Grid, r: Grid, i: int, j: int)
    requires On(m, i, j) && NeighbourCount(m, i, j) > 2
    ensures Decide(m, r, i, j) == Thin <==> SideCount(m, i, j) > 1 && RingConnected(Edges(m), Pix(i, j))
  {
    OnePieceIsRingConnected(m, i, j);
  }

  lemma EdgeHasNeighbour(m: Grid, i: int, j: int)
    ensures NeighbourCount(m, i, j) > 0 <==> Neighbours(Edges(m), Pix(i, j)) != {}
  {
    var N, c := Neighbours(Edges(m), Pix(i, j)), Pix(i, j);
    RingUnfolded(m, i, j);
    if N != {} {
      var q :| q in N;
      assert InGroup(c, GroupOf(c, q), q);
    }
  }

  /** The odd right angle has exactly two neighbours, and they touch each other. */
  lemma SquareRing(m: Grid, r: Grid, i: int, j: int)
    requires Decide(m, r, i, j) == Square
    ensures RingConnected(Edges(m), Pix(i, j)) && Neighbours(Edges(m), Pix(i, j)) != {}
  {
    EdgeHasNeighbour(m, i, j);
    assert !On(m, i - 1, j - 1) && !On(m, i - 1, j + 1) && !On(m, i + 1, j - 1) && !On(m, i + 1, j + 1);
    assert OnePiece(m, i, j);
    OnePieceIsRingConnected(m, i, j);
  }

  lemma ThinRing(m: Grid, r: Grid, i: int, j: int)
    requires Decide(m, r, i, j) == Thin
    ensures RingConnected(Edges(m), Pix(i, j)) && Neighbours(Edges(m), Pix(i, j)) != {}
  {
    EdgeHasNeighbour(m, i, j);
    OnePieceIsRingConnected(m, i, j);
  }

  /** An extension lands on a neighbouring pixel with positive response that is not yet an edge. */
  lemma GrowTarget(m: Grid, r: Grid, i: int, j: int)
    requires Decide(m, r, i, j).Grow? && (forall p :: p in r ==> r[p] >= 0)
    ensures var act := Decide(m, r, i, j);
      && On(m, i, j) && !On(m, act.to.i, act.to.j) && Adjacent(Pix(i, j), act.to)
      && At(r, act.to.i, act.to.j) > 0 && 4 <= act.level <= 6
  {
    var k := FirstNeighbour(m, i, j);
    var l := Scores(r, i, j, k);
    BestIsFirstHighest(l, |l|);
    var b := Top(l);
    var to := Cell(i, j, b.q);
    assert l[b.q] == Weights(k)[b.q] * At(r, to.i, to.j) > 0;
    PositiveScore(Weights(k)[b.q], At(r, to.i, to.j));
    assert b.q != 4 && b.q != k;
    assert forall q :: 0 <= q < 9 && q != 4 && q != k ==> !On(m, Cell(i, j, q).i, Cell(i, j, q).j);
  }

  lemma PositiveScore(x: int, y: int)
    requires 0 <= x && 0 <= y && x * y > 0
    ensures x > 0 && y > 0
  {
  }

  /** A straightening move lands between its two corner neighbours, on a pixel that touches nothing else. */
  lemma ShiftTarget(m: Grid, r: Grid, i: int, j: int)
    requires Decide(m, r, i, j).Shift?
    ensures var E, c, d := Edges(m), Pix(i, j), Decide(m, r, i, j).to;
      c in E && d !in E && Adjacent(c, d) && Neighbours(E, c) == Neighbours(E - {c} + {d}, d) && Neighbours(E, c) != {}
  {
    var E, c, d := Edges(m), Pix(i, j), Decide(m, r, i, j).to;
    EdgeHasNeighbour(m, i, j);
    var (y, x) := Towards(m, i, j);
    assert d == Pix(i + y, j + x) && (y == 0 || x == 0);
    forall q
      ensures q in Neighbours(E, c) <==> q in Neighbours(E - {c} + {d}, d)
    {
      OnIsEdge(m, q.i, q.j);
      if Adjacent(c, q) { assert InGroup(c, GroupOf(c, q), q); }
      if Adjacent(d, q) { assert InGroup(d, GroupOf(d, q), q); }
    }
  }

  lemma EdgesAfter(m: Grid, i: int, j: int, act: Act)
    requires Pix(i, j) in m && (act.Grow? ==> act.level < 8)
    ensures Edges(Apply(m, i, j, act)) ==
      match act
      case Keep => Edges(m)
      case Grow(to, _) => Edges(m) + {to}
      case Shift(to) => Edges(m) - {Pix(i, j)} + {to}
      case _ => Edges(m) - {Pix(i, j)}
  {
  }

  /** How many components an act joins to the one it works on: only an extension joins any. */
  ghost function Joins(E: set<Pix>, act: Act): nat {
    if act.Grow? then Merged(E, act.to) else 0
  }

  /** What one body step does to connectivity: pixels that survive it stay joined, others are joined
      only by merging, and the count falls by one for a removed isolated pixel and by the merges. */
  ghost predicate KeepsEdges(E: set<Pix>, F: set<Pix>, act: Act) {
    && (forall p, q :: p in E && q in E && p in F && q in F && Connected(E, p, q) ==> Connected(F, p, q))
    && (Joins(E, act) == 0 <==> SamePartition(E, F, E * F))
    && ComponentCount(F) + (if act.Drop? then 1 else 0) + Joins(E, act) == ComponentCount(E)
  }

  lemma GrowKeepsEdges(E: set<Pix>, c: Pix, act: Act)
    requires act.Grow? && c in E && act.to !in E && Adjacent(c, act.to)
    ensures KeepsEdges(E, E + {act.to}, act)
  {
    GrowPreserves(E, c, act.to);
    assert E * (E + {act.to}) == E;
  }

  lemma DeleteKeepsEdges(E: set<Pix>, c: Pix, act: Act)
    requires act.Square? || act.Thin?
    requires c in E && RingConnected(E, c) && Neighbours(E, c) != {}
    ensures KeepsEdges(E, E - {c}, act)
  {
    DeletePreserves(E, c);
    assert E * (E - {c}) == E - {c};
  }

  lemma DropKeepsEdges(E: set<Pix>, c: Pix)
    requires c in E && Neighbours(E, c) == {}
    ensures KeepsEdges(E, E - {c}, Drop)
  {
    DropPreserves(E, c);
    assert E * (E - {c}) == E - {c};
  }

  lemma MoveKeepsEdges(E: set<Pix>, c: Pix, d: Pix)
    requires c in E && d !in E && Neighbours(E, c) == Neighbours(E - {c} + {d}, d)
    ensures KeepsEdges(E, E - {c} + {d}, Shift(d))
  {
    MovePreserves(E, c, d);
    assert E * (E - {c} + {d}) == E - {c};
  }

  /** One body step never splits an edge: what was joined before and survives is joined after. It joins
      edges only by an extension, and exactly when the new pixel has a neighbour that was not joined to
      the line it extends. */
  lemma StepConnectivity(m: Grid, r: Grid, i: int, j: int)
    requires Pix(i, j) in m && (forall p :: p in r ==> r[p] >= 0)
    ensures var act := Decide(m, r, i, j); KeepsEdges(Edges(m), Edges(Apply(m, i, j, act)), act)
  {
    var act := Decide(m, r, i, j);
    var E, c := Edges(m), Pix(i, j);
    OnIsEdge(m, i, j);
    if act.Grow? {
      GrowTarget(m, r, i, j);
      EdgesAfter(m, i, j, act);
      OnIsEdge(m, act.to.i, act.to.j);
      GrowKeepsEdges(E, c, act);
    } else {
      EdgesAfter(m, i, j, act);
      match act
      case Keep =>
      case Drop =>
        EdgeHasNeighbour(m, i, j);
        DropKeepsEdges(E, c);
      case Shift(d) =>
        ShiftTarget(m, r, i, j);
        MoveKeepsEdges(E, c, d);
      case Square =>
        SquareRing(m, r, i, j);
        DeleteKeepsEdges(E, c, act);
      case Thin =>
        ThinRing(m, r, i, j);
        DeleteKeepsEdges(E, c, act);
    }
  }

  /** An extension merges nothing exactly when every neighbour of the new pixel is joined to the pixel
      it extends. */
  lemma ExtensionMerges(m: Grid, r: Grid, i: int, j: int)
    requires Pix(i, j) in m && (forall p :: p in r ==> r[p] >= 0) && Decide(m, r, i, j).Grow?
    ensures var E, act := Edges(m), Decide(m, r, i, j);
      Joins(E, act) == 0 <==> forall q :: q in Neighbours(E, act.to) ==> Connected(E, Pix(i, j), q)
  {
    GrowTarget(m, r, i, j);
    OnIsEdge(m, i, j);
    var to := Decide(m, r, i, j).to;
    OnIsEdge(m, to.i, to.j);
    GrowPreserves(Edges(m), Pix(i, j), to);
  }

  // ----------------------------------------------------------- edges never vanish

  /** Every edge pixel has an edge neighbour. */
  ghost predicate NoneIsolated(E: set<Pix>) {
    forall p :: p in E ==> Neighbours(E, p) != {}
  }

  lemma DeleteLeavesNoneIsolated(E: set<Pix>, c: Pix, a: Pix, b: Pix)
    requires NoneIsolated(E) && c in E && RingConnected(E, c)
    requires a in Neighbours(E, c) && b in Neighbours(E, c) && a != b
    ensures NoneIsolated(E - {c})
  {
    forall p | p in E - {c}
      ensures Neighbours(E - {c}, p) != {}
    {
      if Adjacent(c, p) {
        var N := Neighbours(E, c);
        var other := if p == a then b else a;
        assert Connected(N, p, other);
        var path :| PathBetween(N, path, p, other);
        assert Adjacent(path[0], path[1]);
        assert path[1] in Neighbours(E - {c}, p);
      } else {
        var q :| q in Neighbours(E, p);
        assert q in Neighbours(E - {c}, p);
      }
    }
  }

  lemma TwoNeighbours(m: Grid, i: int, j: int) returns (a: Pix, b: Pix)
    requires NeighbourCount(m, i, j) >= 2
    ensures a in Neighbours(Edges(m), Pix(i, j)) && b in Neighbours(Edges(m), Pix(i, j)) && a != b
  {
    var N := Neighbours(Edges(m), Pix(i, j));
    RingUnfolded(m, i, j);
    a := if On(m, i - 1, j - 1) then Pix(i - 1, j - 1) else if On(m, i - 1, j) then Pix(i - 1, j)
         else if On(m, i - 1, j + 1) then Pix(i - 1, j + 1) else if On(m, i, j - 1) then Pix(i, j - 1)
         else if On(m, i, j + 1) then Pix(i, j + 1) else if On(m, i + 1, j - 1) then Pix(i + 1, j - 1)
         else Pix(i + 1, j);
    b := if On(m, i + 1, j + 1) then Pix(i + 1, j + 1) else if On(m, i + 1, j) then Pix(i + 1, j)
         else if On(m, i + 1, j - 1) then Pix(i + 1, j - 1) else if On(m, i, j + 1) then Pix(i, j + 1)
         else if On(m, i, j - 1) then Pix(i, j - 1) else if On(m, i - 1, j + 1) then Pix(i - 1, j + 1)
         else Pix(i - 1, j);
  }

  /** If no edge pixel is isolated, none ever becomes isolated, and the isolated-pixel rule stays silent. */
  lemma StepNoneIsolated(m: Grid, r: Grid, i: int, j: int)
    requires Pix(i, j) in m && (forall p :: p in r ==> r[p] >= 0) && NoneIsolated(Edges(m))
    ensures Decide(m, r, i, j) != Drop
    ensures NoneIsolated(Edges(Apply(m, i, j, Decide(m, r, i, j))))
  {
    var act := Decide(m, r, i, j);
    var E, c := Edges(m), Pix(i, j);
    OnIsEdge(m, i, j);
    EdgeHasNeighbour(m, i, j);
    if act.Grow? {
      GrowTarget(m, r, i, j);
      EdgesAfter(m, i, j, act);
      forall p | p in E + {act.to}
        ensures Neighbours(E + {act.to}, p) != {}
      {
        if p == act.to {
          assert c in Neighbours(E + {act.to}, p);
        } else {
          var q :| q in Neighbours(E, p);
          assert q in Neighbours(E + {act.to}, p);
        }
      }
    } else {
      EdgesAfter(m, i, j, act);
      match act
      case Keep =>
      case Drop =>
      case Shift(d) =>
        ShiftTarget(m, r, i, j);
        ShiftLeavesNoneIsolated(E, c, d);
      case _ =>
        if act == Square { SquareRing(m, r, i, j); } else { ThinRing(m, r, i, j); }
        var a, b := TwoNeighbours(m, i, j);
        DeleteLeavesNoneIsolated(E, c, a, b);
    }
  }

  lemma ShiftLeavesNoneIsolated(E: set<Pix>, c: Pix, d: Pix)
    requires NoneIsolated(E) && c in E && d !in E
    requires Neighbours(E, c) == Neighbours(E - {c} + {d}, d)
    ensures NoneIsolated(E - {c} + {d})
  {
    var F := E - {c} + {d};
    forall p | p in F
      ensures Neighbours(F, p) != {}
    {
      if p != d {
        var q :| q in Neighbours(E, p);
        if q == c {
          assert p in Neighbours(F, d);
          assert d in Neighbours(F, p);
        } else {
          assert q in Neighbours(F, p);
        }
      }
    }
  }
}
