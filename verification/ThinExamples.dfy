/** Small maps that show what thinning may do: lose an edge, merge two, and leave work for a second scan. */
module ThinExamples {
  import opened EdgeGraph
  import opened EdgeMerge
  import opened SusanThin
  import opened ThinGraph
  import opened ThinRun
  import opened ThinRescan

  /** The map whose edge pixels are E, all freshly marked. */
  ghost function Picture(h: int, w: int, E: set<Pix>): (m: Grid)
    ensures m.Keys == Rect(h, w)
  {
    map p | p in Rect(h, w) :: if p in E then 1 else 100
  }

  /** The same response everywhere. */
  ghost function Flat(h: int, w: int): (r: Grid)
    ensures r.Keys == Rect(h, w)
  {
    map p | p in Rect(h, w) :: 10
  }

  lemma OnPicture(h: int, w: int, E: set<Pix>, i: int, j: int)
    requires E <= Rect(h, w)
    ensures On(Picture(h, w, E), i, j) <==> Pix(i, j) in E
  {
  }

  lemma PictureEdges(h: int, w: int, E: set<Pix>)
    requires E <= Rect(h, w)
    ensures Edges(Picture(h, w, E)) == E
    ensures Seeded(Scan(h, w, Flat(h, w)), Picture(h, w, E))
  {
  }

  lemma PictureWithout(h: int, w: int, E: set<Pix>, c: Pix)
    requires c in E && E <= Rect(h, w)
    ensures Picture(h, w, E)[c := 100] == Picture(h, w, E - {c})
  {
  }

  // ------------------------------------------------------------------- an edge is lost

  /** A single pixel is an edge of its own, and the body removes it. */
  lemma LoneEdgeIsLost(h: int, w: int) returns (m: Grid, r: Grid)
    requires h >= 9 && w >= 9
    ensures Seeded(Scan(h, w, r), m) && Decide(m, r, 4, 4) == Drop
    ensures ComponentCount(Edges(m)) == 1 && ComponentCount(Edges(Apply(m, 4, 4, Drop))) == 0
  {
    var c := Pix(4, 4);
    m, r := Picture(h, w, {c}), Flat(h, w);
    PictureEdges(h, w, {c});
    PictureWithout(h, w, {c}, c);
    PictureEdges(h, w, {c} - {c});
    forall i, j ensures On(m, i, j) <==> Pix(i, j) == c { OnPicture(h, w, {c}, i, j); }
    DropPreserves({c}, c);
    assert {c} - {c} == {};
    assert Components({}) == {};
  }

  // --------------------------------------------------------------- two edges are merged

  /** A horizontal line that ends one pixel before another line. */
  ghost function Gap(): set<Pix> {
    {Pix(4, 3), Pix(4, 4), Pix(4, 6), Pix(4, 7)}
  }

  lemma GapGrows(h: int, w: int, m: Grid, r: Grid)
    requires h >= 9 && w >= 9 && m == Picture(h, w, Gap()) && r == Flat(h, w)
    ensures Decide(m, r, 4, 4) == Grow(Pix(4, 5), 4)
  {
    forall i, j ensures On(m, i, j) <==> Pix(i, j) in Gap() { OnPicture(h, w, Gap(), i, j); }
    assert NeighbourCount(m, 4, 4) == 1 && FirstNeighbour(m, 4, 4) == 3;
    var l := Scores(r, 4, 4, 3);
    assert l == [0, 20, 30, 0, 0, 40, 0, 20, 30];
    BestIsFirstHighest(l, 9);
    assert l[5] <= Best(l, 9).m;
    assert Top(l) == Peak(40, 5);
  }

  lemma GapSeparates()
    ensures var E := Gap();
      NoneIsolated(E) && Pix(4, 6) in Neighbours(E, Pix(4, 5)) && !Connected(E, Pix(4, 4), Pix(4, 6))
  {
    var E, c, q := Gap(), Pix(4, 4), Pix(4, 6);
    if Connected(E, c, q) {
      var path :| PathBetween(E, path, c, q);
      ClosedSetTraps(E, {Pix(4, 3), c}, path);
    }
    assert Pix(4, 4) in Neighbours(E, Pix(4, 3)) && Pix(4, 3) in Neighbours(E, Pix(4, 4));
    assert Pix(4, 7) in Neighbours(E, Pix(4, 6)) && Pix(4, 6) in Neighbours(E, Pix(4, 7));
  }

  lemma GapMerges(E: set<Pix>)
    requires E == Gap()
    ensures ComponentCount(E + {Pix(4, 5)}) < ComponentCount(E)
  {
    GapSeparates();
    GrowPreserves(E, Pix(4, 4), Pix(4, 5));
  }

  /** Extending the first line by one pixel merges it with the second. */
  lemma ExtensionMayMerge(h: int, w: int) returns (m: Grid, r: Grid)
    requires h >= 9 && w >= 9
    ensures Seeded(Scan(h, w, r), m) && NoneIsolated(Edges(m)) && Decide(m, r, 4, 4).Grow?
    ensures ComponentCount(Edges(Apply(m, 4, 4, Decide(m, r, 4, 4)))) < ComponentCount(Edges(m))
  {
    m, r := Picture(h, w, Gap()), Flat(h, w);
    PictureEdges(h, w, Gap());
    GapGrows(h, w, m, r);
    EdgesAfter(m, 4, 4, Grow(Pix(4, 5), 4));
    GapSeparates();
    GapMerges(Gap());
  }

  // ------------------------------------------------------- a second scan has work to do

  /** A notch whose straightening is blocked by a right angle that is removed two rows further down. */
  ghost function Notch(): set<Pix> {
    {Pix(4, 4), Pix(5, 3), Pix(5, 5), Pix(6, 5), Pix(6, 6)}
  }

  ghost function OpenNotch(): set<Pix> {
    {Pix(4, 4), Pix(5, 3), Pix(5, 5), Pix(6, 6)}
  }

  lemma NotchActs(h: int, w: int, m: Grid, r: Grid)
    requires h == 11 && w == 10 && m == Picture(h, w, Notch()) && r == Flat(h, w)
    ensures Decide(m, r, 4, 4) == Keep && Decide(m, r, 5, 5) == Keep && Decide(m, r, 6, 5) == Square
    ensures Decide(m, r, 4, 5) == Keep && Decide(m, r, 5, 4) == Keep && Decide(m, r, 6, 4) == Keep
  {
    forall i, j ensures On(m, i, j) <==> Pix(i, j) in Notch() { OnPicture(h, w, Notch(), i, j); }
    assert TwoCorners(m, 4, 4) && Towards(m, 4, 4) == (1, 0) && !ClearBeyond(m, 4, 4, 1, 0);
    assert NeighbourCount(m, 5, 5) == 3 && SideCount(m, 5, 5) == 1;
    assert NeighbourCount(m, 6, 5) == 2 && !TwoCorners(m, 6, 5) && RightAngle(m, 6, 5);
  }

  lemma OpenNotchActs(h: int, w: int, m: Grid, r: Grid)
    requires h == 11 && w == 10 && m == Picture(h, w, OpenNotch()) && r == Flat(h, w)
    ensures Decide(m, r, 4, 4) == Shift(Pix(5, 4)) && Decide(m, r, 5, 5) == Keep
    ensures Decide(m, r, 6, 4) == Keep && Decide(m, r, 6, 5) == Keep
  {
    forall i, j ensures On(m, i, j) <==> Pix(i, j) in OpenNotch() { OnPicture(h, w, OpenNotch(), i, j); }
    assert TwoCorners(m, 4, 4) && Towards(m, 4, 4) == (1, 0) && ClearBeyond(m, 4, 4, 1, 0);
    assert NeighbourCount(m, 5, 5) == 2 && !TwoCorners(m, 5, 5) && !RightAngle(m, 5, 5);
  }

  /** No iteration of the run extends a line. */
  ghost predicate NeverGrows(s: Scan, ts: seq<State>) {
    forall k {:trigger ActOf(s, ts[k])} :: 0 <= k < |ts| - 1 ==> !ActOf(s, ts[k]).Grow?
  }

  lemma Prolong(s: Scan, mid: Grid, ts: seq<State>, u: State)
    requires IsRun(s, mid, ts) && Active(s, Final(ts)) && u == Visit(s, Final(ts))
    requires NeverGrows(s, ts) && !ActOf(s, Final(ts)).Grow?
    ensures IsRun(s, mid, ts + [u]) && Final(ts + [u]) == u && NeverGrows(s, ts + [u])
  {
    Extend(s, mid, ts, u);
    forall k | 0 <= k < |ts|
      ensures !ActOf(s, (ts + [u])[k]).Grow?
    {
      assert (ts + [u])[k] == ts[k];
    }
  }

  lemma KeepOn(s: Scan, mid: Grid, ts: seq<State>, i: int, j: int) returns (us: seq<State>)
    requires IsRun(s, mid, ts) && Active(s, Final(ts)) && ActOf(s, Final(ts)) == Keep && NeverGrows(s, ts)
    requires (i, j) == Advance(s.w, Final(ts).i, Final(ts).j)
    ensures IsRun(s, mid, us) && Final(us) == State(Final(ts).mid, i, j) && NeverGrows(s, us)
  {
    KeepAdvances(s, Final(ts));
    us := ts + [Visit(s, Final(ts))];
    Prolong(s, mid, ts, Visit(s, Final(ts)));
  }

  lemma SquareBack(s: Scan, mid: Grid, ts: seq<State>) returns (us: seq<State>)
    requires IsRun(s, mid, ts) && Active(s, Final(ts)) && ActOf(s, Final(ts)) == Square && NeverGrows(s, ts)
    requires Final(ts).i == 6 && Final(ts).j == 5 && s.w == 10
    ensures IsRun(s, mid, us) && Final(us) == State(Final(ts).mid[Pix(6, 5) := 100], 5, 5) && NeverGrows(s, us)
  {
    us := ts + [Visit(s, Final(ts))];
    Prolong(s, mid, ts, Visit(s, Final(ts)));
  }

  /** The scan of the notch down to the right angle. */
  lemma NotchFirstHalf(s: Scan, m: Grid) returns (ts: seq<State>)
    requires s.h == 11 && s.w == 10 && s.r == Flat(s.h, s.w) && m == Picture(s.h, s.w, Notch())
    ensures IsRun(s, m, ts) && Final(ts) == State(m, 6, 5) && NeverGrows(s, ts)
  {
    NotchActs(s.h, s.w, m, s.r);
    ts := [Start(m)];
    ts := KeepOn(s, m, ts, 4, 5);
    ts := KeepOn(s, m, ts, 5, 4);
    ts := KeepOn(s, m, ts, 5, 5);
    ts := KeepOn(s, m, ts, 6, 4);
    ts := KeepOn(s, m, ts, 6, 5);
  }

  /** After the removal the scan goes back one row only, and runs to its end. */
  lemma NotchSecondHalf(s: Scan, mid: Grid, ts0: seq<State>, m: Grid) returns (ts: seq<State>)
    requires s.h == 11 && s.w == 10 && s.r == Flat(s.h, s.w) && m == Picture(s.h, s.w, OpenNotch())
    requires IsRun(s, mid, ts0) && Final(ts0) == State(m, 5, 5) && NeverGrows(s, ts0)
    ensures IsRun(s, mid, ts) && Final(ts) == State(m, 7, 4) && NeverGrows(s, ts)
  {
    OpenNotchActs(s.h, s.w, m, s.r);
    ts := KeepOn(s, mid, ts0, 6, 4);
    ts := KeepOn(s, mid, ts, 6, 5);
    ts := KeepOn(s, mid, ts, 7, 4);
  }

  /** One scan is not always enough: even without an extension, it may end with a map that scanning again
      would change. */
  lemma SecondScanChanges() returns (s: Scan, m: Grid, ts: seq<State>)
    ensures Seeded(s, m) && IsRun(s, m, ts) && NeverGrows(s, ts)
    ensures !Active(s, Final(ts)) && !Idle(s, Final(ts).mid)
  {
    var h, w := 11, 10;
    s, m := Scan(h, w, Flat(h, w)), Picture(h, w, Notch());
    PictureEdges(h, w, Notch());
    NotchActs(h, w, m, s.r);
    ts := NotchFirstHalf(s, m);
    ts := SquareBack(s, m, ts);
    PictureWithout(h, w, Notch(), Pix(6, 5));
    assert Notch() - {Pix(6, 5)} == OpenNotch();
    var open := Picture(h, w, OpenNotch());
    ts := NotchSecondHalf(s, m, ts, open);
    OpenNotchUnsettled(s, open);
  }

  lemma OpenNotchUnsettled(s: Scan, m: Grid)
    requires s.h == 11 && s.w == 10 && s.r == Flat(s.h, s.w) && m == Picture(s.h, s.w, OpenNotch())
    ensures !Idle(s, m)
  {
    PictureEdges(s.h, s.w, OpenNotch());
    OpenNotchActs(s.h, s.w, m, s.r);
    RescanExactly(s, m);
    assert ActOf(s, State(m, 4, 4)) == Shift(Pix(5, 4));
  }
}
