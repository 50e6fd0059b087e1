/** The 3x3 ring around a pixel: four corner-and-side groups, and the test that counts its pieces. */
module RingTest {
  import opened EdgeGraph

  function B(b: bool): int { if b then 1 else 0 }

  /** Group g is one corner of the ring and the side that follows it clockwise: NW N, NE E, SE S, SW W. */
  function Corner(c: Pix, g: int): Pix
    requires 0 <= g < 4
  {
    if g == 0 then Pix(c.i - 1, c.j - 1)
    else if g == 1 then Pix(c.i - 1, c.j + 1)
    else if g == 2 then Pix(c.i + 1, c.j + 1)
    else Pix(c.i + 1, c.j - 1)
  }

  function Side(c: Pix, g: int): Pix
    requires 0 <= g < 4
  {
    if g == 0 then Pix(c.i - 1, c.j)
    else if g == 1 then Pix(c.i, c.j + 1)
    else if g == 2 then Pix(c.i + 1, c.j)
    else Pix(c.i, c.j - 1)
  }

  function Next(g: int): (n: int)
    requires 0 <= g < 4
    ensures 0 <= n < 4
  {
    if g == 3 then 0 else g + 1
  }

  predicate InGroup(c: Pix, g: int, p: Pix)
    requires 0 <= g < 4
  {
    p == Corner(c, g) || p == Side(c, g)
  }

  function GroupOf(c: Pix, p: Pix): (g: int)
    requires Adjacent(c, p)
    ensures 0 <= g < 4 && InGroup(c, g, p)
  {
    if p == Corner(c, 0) || p == Side(c, 0) then 0
    else if p == Corner(c, 1) || p == Side(c, 1) then 1
    else if p == Corner(c, 2) || p == Side(c, 2) then 2
    else 3
  }

  ghost predicate Present(N: set<Pix>, c: Pix, g: int)
    requires 0 <= g < 4
  {
    Corner(c, g) in N || Side(c, g) in N
  }

  ghost predicate Linked(N: set<Pix>, c: Pix, g: int)
    requires 0 <= g < 4
  {
    Side(c, g) in N && Present(N, c, Next(g))
  }

  /** A piece that does not run on into the following group. */
  ghost predicate Broken(N: set<Pix>, c: Pix, g: int)
    requires 0 <= g < 4
  {
    Present(N, c, g) && !Linked(N, c, g)
  }

  /** p1+p2+p3+p4 minus the four link terms, as the thinning test computes it. */
  ghost function PiecesMinusLinks(N: set<Pix>, c: Pix): int {
    (B(Present(N, c, 0)) + B(Present(N, c, 1)) + B(Present(N, c, 2)) + B(Present(N, c, 3)))
    - (B(Linked(N, c, 0)) + B(Linked(N, c, 1)) + B(Linked(N, c, 2)) + B(Linked(N, c, 3)))
  }

  lemma SameGroupConnected(N: set<Pix>, c: Pix, g: int, x: Pix, y: Pix)
    requires 0 <= g < 4 && x in N && y in N && InGroup(c, g, x) && InGroup(c, g, y)
    ensures Connected(N, x, y)
  {
    if x == y { ConnectedSelf(N, x); } else { ConnectedStep(N, x, y); }
  }

  lemma NextGroupConnected(N: set<Pix>, c: Pix, g: int, x: Pix, y: Pix)
    requires 0 <= g < 4 && x in N && y in N && InGroup(c, g, x) && InGroup(c, Next(g), y)
    requires Side(c, g) in N
    ensures Connected(N, x, y)
  {
    SameGroupConnected(N, c, g, x, Side(c, g));
    ConnectedStep(N, Side(c, g), y);
    ConnectedTrans(N, x, Side(c, g), y);
  }

  function Steps(g: int, k: nat): (r: int)
    requires 0 <= g < 4
    ensures 0 <= r < 4
  {
    if k == 0 then g else Next(Steps(g, k - 1))
  }

  /** Walking k groups clockwise from `x` either stays connected or meets a broken piece. */
  lemma {:induction false} WalkOrBreak(N: set<Pix>, c: Pix, g: int, k: nat, x: Pix, y: Pix) returns (t: nat)
    requires 0 <= g < 4 && x in N && InGroup(c, g, x) && y in N && InGroup(c, Steps(g, k), y)
    ensures Connected(N, x, y) || (t < k && Broken(N, c, Steps(g, t)))
  {
    t := 0;
    if k == 0 {
      SameGroupConnected(N, c, g, x, y);
    } else {
      var before := Steps(g, k - 1);
      if Present(N, c, before) {
        var z := if Side(c, before) in N then Side(c, before) else Corner(c, before);
        t := WalkOrBreak(N, c, g, k - 1, x, z);
        if Connected(N, x, z) {
          if Side(c, before) in N {
            NextGroupConnected(N, c, before, z, y);
            ConnectedTrans(N, x, z, y);
          } else {
            t := k - 1;
          }
        }
      } else {
        t := LastBreak(N, c, g, k - 1, x);
      }
    }
  }

  /** If the group k steps on is empty, the walk broke before it. */
  lemma {:induction false} LastBreak(N: set<Pix>, c: Pix, g: int, k: nat, x: Pix) returns (t: nat)
    requires 0 <= g < 4 && x in N && InGroup(c, g, x) && !Present(N, c, Steps(g, k))
    ensures t < k && Broken(N, c, Steps(g, t))
  {
    if Present(N, c, Steps(g, k - 1)) {
      t := k - 1;
    } else {
      t := LastBreak(N, c, g, k - 1, x);
    }
  }

  /** Sides join their own group and the next one; there is no other adjacency in the ring. */
  lemma RingAdjacency(c: Pix, g: int, h: int, x: Pix, y: Pix)
    requires 0 <= g < 4 && 0 <= h < 4 && g != h && InGroup(c, g, x) && InGroup(c, h, y) && Adjacent(x, y)
    ensures (h == Next(g) && x == Side(c, g)) || (g == Next(h) && y == Side(c, h))
  {
  }

  /** The groups met clockwise after `a`, up to and including `b`. */
  predicate Between(a: int, b: int, g: int) {
    if a < b then a < g <= b else a < g || g <= b
  }

  lemma TwoBreaksSplit(N: set<Pix>, c: Pix, a: int, b: int)
    requires 0 <= a < 4 && 0 <= b < 4 && a != b && Broken(N, c, a) && Broken(N, c, b)
    requires forall p :: p in N ==> Adjacent(c, p)
    ensures !AllConnected(N)
  {
    var arc := set p | p in N && Between(a, b, GroupOf(c, p));
    forall p, q | p in arc && q in N && Adjacent(p, q)
      ensures q in arc
    {
      if GroupOf(c, p) != GroupOf(c, q) {
        RingAdjacency(c, GroupOf(c, p), GroupOf(c, q), p, q);
      }
    }
    var x := if Side(c, b) in N then Side(c, b) else Corner(c, b);
    var y := if Side(c, a) in N then Side(c, a) else Corner(c, a);
    if Connected(N, x, y) {
      var path :| PathBetween(N, path, x, y);
      ClosedSetTraps(N, arc, path);
    }
  }

  lemma CountBreaks(N: set<Pix>, c: Pix)
    ensures PiecesMinusLinks(N, c) ==
      B(Broken(N, c, 0)) + B(Broken(N, c, 1)) + B(Broken(N, c, 2)) + B(Broken(N, c, 3))
  {
  }

  /** The arithmetic test of the thinning step decides connectivity of the neighbours, both ways. */
  lemma PiecesTestExact(N: set<Pix>, c: Pix)
    requires forall p :: p in N ==> Adjacent(c, p)
    ensures PiecesMinusLinks(N, c) < 2 <==> AllConnected(N)
  {
    CountBreaks(N, c);
    if PiecesMinusLinks(N, c) < 2 {
      forall x, y | x in N && y in N
        ensures Connected(N, x, y)
      {
        FewBreaksConnect(N, c, x, y);
      }
    } else {
      assert exists a, b :: 0 <= a < b < 4 && Broken(N, c, a) && Broken(N, c, b);
      var a, b :| 0 <= a < b < 4 && Broken(N, c, a) && Broken(N, c, b);
      TwoBreaksSplit(N, c, a, b);
    }
  }

  lemma FewBreaksConnect(N: set<Pix>, c: Pix, x: Pix, y: Pix)
    requires x in N && y in N && Adjacent(c, x) && Adjacent(c, y)
    requires PiecesMinusLinks(N, c) < 2
    ensures Connected(N, x, y)
  {
    CountBreaks(N, c);
    var g, h := GroupOf(c, x), GroupOf(c, y);
    var k: nat := if g <= h then h - g else h - g + 4;
    var l: nat := if h <= g then g - h else g - h + 4;
    assert Steps(g, 0) == g && Steps(g, 1) == Next(g) && Steps(g, 2) == Next(Next(g)) &&
      Steps(g, 3) == Next(Next(Next(g)));
    assert Steps(h, 0) == h && Steps(h, 1) == Next(h) && Steps(h, 2) == Next(Next(h)) &&
      Steps(h, 3) == Next(Next(Next(h)));
    var t := WalkOrBreak(N, c, g, k, x, y);
    var u := WalkOrBreak(N, c, h, l, y, x);
    if Connected(N, y, x) {
      ConnectedSym(N, y, x);
    }
  }
}
