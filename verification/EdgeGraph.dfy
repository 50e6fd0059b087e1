/** Pixels, 8-adjacency, and the connected components of a set of edge pixels. */
module EdgeGraph {

  datatype Pix = Pix(i: int, j: int)

  /** Raster order. */
  predicate Before(p: Pix, q: Pix) {
    p.i < q.i || (p.i == q.i && p.j < q.j)
  }

  /** The pixels of an image. */
  ghost function Rect(h: int, w: int): (s: set<Pix>)
    ensures forall p :: p in s <==> 0 <= p.i < h && 0 <= p.j < w
  {
    set i, j | 0 <= i < h && 0 <= j < w :: Pix(i, j)
  }

  predicate Adjacent(p: Pix, q: Pix) {
    p != q && -1 <= p.i - q.i <= 1 && -1 <= p.j - q.j <= 1
  }

  /** A non-empty walk inside `E` whose consecutive pixels are 8-neighbours. */
  ghost predicate IsPath(E: set<Pix>, path: seq<Pix>) {
    && |path| > 0
    && (forall k :: 0 <= k < |path| ==> path[k] in E)
    && (forall k :: 0 <= k < |path| - 1 ==> Adjacent(path[k], path[k + 1]))
  }

  ghost predicate PathBetween(E: set<Pix>, path: seq<Pix>, p: Pix, q: Pix) {
    IsPath(E, path) && path[0] == p && path[|path| - 1] == q
  }

  ghost predicate Connected(E: set<Pix>, p: Pix, q: Pix) {
    exists path :: PathBetween(E, path, p, q)
  }

  ghost predicate AllConnected(E: set<Pix>) {
    forall p, q :: p in E && q in E ==> Connected(E, p, q)
  }

  ghost function Neighbours(E: set<Pix>, c: Pix): set<Pix> {
    set q | q in E && Adjacent(c, q)
  }

  // ---------------------------------------------------------------- basic laws

  lemma ConnectedInside(E: set<Pix>, p: Pix, q: Pix)
    requires Connected(E, p, q)
    ensures p in E && q in E
  {
  }

  lemma ConnectedSelf(E: set<Pix>, p: Pix)
    requires p in E
    ensures Connected(E, p, p)
  {
    assert PathBetween(E, [p], p, p);
  }

  lemma ConnectedStep(E: set<Pix>, p: Pix, q: Pix)
    requires p in E && q in E && Adjacent(p, q)
    ensures Connected(E, p, q)
  {
    assert PathBetween(E, [p, q], p, q);
  }

  lemma ConnectedTrans(E: set<Pix>, p: Pix, q: Pix, s: Pix)
    requires Connected(E, p, q) && Connected(E, q, s)
    ensures Connected(E, p, s)
  {
    var a :| PathBetween(E, a, p, q);
    var b :| PathBetween(E, b, q, s);
    var c := a + b[1..];
    forall k | 0 <= k < |c| - 1
      ensures Adjacent(c[k], c[k + 1])
    {
      if k >= |a| - 1 {
        assert c[k] == b[k - (|a| - 1)] && c[k + 1] == b[k + 1 - (|a| - 1)];
      }
    }
    assert PathBetween(E, c, p, s);
  }

  lemma ConnectedSym(E: set<Pix>, p: Pix, q: Pix)
    requires Connected(E, p, q)
    ensures Connected(E, q, p)
  {
    var a :| PathBetween(E, a, p, q);
    var b := seq(|a|, k requires 0 <= k < |a| => a[|a| - 1 - k]);
    forall k | 0 <= k < |b| - 1
      ensures Adjacent(b[k], b[k + 1])
    {
      assert Adjacent(a[|a| - 2 - k], a[|a| - 2 - k + 1]);
    }
    assert PathBetween(E, b, q, p);
  }

  lemma ConnectedMono(E: set<Pix>, F: set<Pix>, p: Pix, q: Pix)
    requires E <= F && Connected(E, p, q)
    ensures Connected(F, p, q)
  {
    var a :| PathBetween(E, a, p, q);
    assert PathBetween(F, a, p, q);
  }

  /** A set closed under the adjacencies of `E` is never left by a path of `E`. */
  lemma {:induction false} ClosedSetTraps(E: set<Pix>, A: set<Pix>, path: seq<Pix>)
    requires IsPath(E, path) && path[0] in A
    requires forall p, q :: p in A && q in E && Adjacent(p, q) ==> q in A
    ensures path[|path| - 1] in A
  {
    if |path| > 1 {
      assert Adjacent(path[0], path[1]) && path[1] in E;
      forall k | 0 <= k < |path[1..]| - 1
        ensures Adjacent(path[1..][k], path[1..][k + 1])
      {
        assert Adjacent(path[k + 1], path[k + 1 + 1]);
      }
      ClosedSetTraps(E, A, path[1..]);
    }
  }

  // ------------------------------------------------- rerouting around one pixel

  /** Everything stays where it is except `c`, which is represented by `s`. */
  function Reroute(c: Pix, s: Pix, p: Pix): Pix {
    if p == c then s else p
  }

  /** Every single adjacency of `E` survives in `F` as a connection, once `c` is read as `s`. */
  ghost predicate Reroutes(E: set<Pix>, F: set<Pix>, c: Pix, s: Pix) {
    forall p, q :: p in E && q in E && Adjacent(p, q) ==> Connected(F, Reroute(c, s, p), Reroute(c, s, q))
  }

  /** Local rerouting lifts to arbitrary paths. */
  lemma {:induction false} ReroutePath(E: set<Pix>, F: set<Pix>, c: Pix, s: Pix, path: seq<Pix>)
    requires Reroutes(E, F, c, s) && IsPath(E, path)
    requires Reroute(c, s, path[0]) in F
    ensures Connected(F, Reroute(c, s, path[0]), Reroute(c, s, path[|path| - 1]))
  {
    if |path| == 1 {
      ConnectedSelf(F, Reroute(c, s, path[0]));
    } else {
      assert Adjacent(path[0], path[1]);
      ConnectedInside(F, Reroute(c, s, path[0]), Reroute(c, s, path[1]));
      forall k | 0 <= k < |path[1..]| - 1
        ensures Adjacent(path[1..][k], path[1..][k + 1])
      {
        assert Adjacent(path[k + 1], path[k + 1 + 1]);
      }
      ReroutePath(E, F, c, s, path[1..]);
      ConnectedTrans(F, Reroute(c, s, path[0]), Reroute(c, s, path[1]), Reroute(c, s, path[|path| - 1]));
    }
  }

  lemma RerouteConnected(E: set<Pix>, F: set<Pix>, c: Pix, s: Pix, p: Pix, q: Pix)
    requires Reroutes(E, F, c, s) && Connected(E, p, q) && Reroute(c, s, p) in F
    ensures Connected(F, Reroute(c, s, p), Reroute(c, s, q))
  {
    var path :| PathBetween(E, path, p, q);
    ReroutePath(E, F, c, s, path);
  }

  // ------------------------------------------------------------------ components

  ghost function Component(E: set<Pix>, p: Pix): set<Pix> {
    set q | q in E && Connected(E, p, q)
  }

  ghost function Components(E: set<Pix>): set<set<Pix>> {
    set p | p in E :: Component(E, p)
  }

  ghost function ComponentCount(E: set<Pix>): nat {
    |Components(E)|
  }

  lemma SameComponent(E: set<Pix>, p: Pix, q: Pix)
    requires Connected(E, p, q)
    ensures Component(E, p) == Component(E, q)
  {
    forall x | x in E
      ensures Connected(E, p, x) <==> Connected(E, q, x)
    {
      if Connected(E, p, x) {
        ConnectedSym(E, p, q);
        ConnectedTrans(E, q, p, x);
      }
      if Connected(E, q, x) {
        ConnectedTrans(E, p, q, x);
      }
    }
  }

  /** Two pixels of `E` lie in one component exactly when a path joins them. */
  lemma ComponentsSeparate(E: set<Pix>, p: Pix, q: Pix)
    requires p in E && q in E
    ensures Component(E, p) == Component(E, q) <==> Connected(E, p, q)
  {
    ConnectedSelf(E, q);
    if Component(E, p) == Component(E, q) {
      assert q in Component(E, q);
    } else if Connected(E, p, q) {
      SameComponent(E, p, q);
    }
  }

  /** A set that a choice of preimages in `S` covers is no larger than `S`. */
  lemma {:induction false} SurjectionBound<A, B>(S: set<A>, T: set<B>, pre: map<B, A>)
    requires forall t :: t in T ==> t in pre && pre[t] in S
    requires forall t, u :: t in T && u in T && pre[t] == pre[u] ==> t == u
    ensures |T| <= |S|
  {
    if T != {} {
      var t :| t in T;
      SurjectionBound(S - {pre[t]}, T - {t}, pre);
    }
  }

  ghost function Member(s: set<Pix>): Pix
    requires s != {}
    ensures Member(s) in s
  {
    var p :| p in s; p
  }

  /** Each pixel `q` of `F` is reached from the image of a pixel of `E`: `t` for `d`, else `q` itself. */
  ghost predicate Covers(E: set<Pix>, F: set<Pix>, c: Pix, s: Pix, d: Pix, t: Pix) {
    && (forall p {:trigger Reroute(c, s, p)} :: p in E ==> Reroute(c, s, p) in F)
    && (forall q {:trigger Reroute(d, t, q)} :: q in F ==>
        Reroute(d, t, q) in E && Connected(F, Reroute(c, s, Reroute(d, t, q)), q))
  }

  lemma RepresentedOnce(E: set<Pix>, F: set<Pix>, c: Pix, s: Pix, p: Pix, q: Pix)
    requires Reroutes(E, F, c, s) && Reroute(c, s, p) in F
    requires p in E && q in E && Component(E, p) == Component(E, q)
    ensures Component(F, Reroute(c, s, p)) == Component(F, Reroute(c, s, q))
  {
    ComponentsSeparate(E, p, q);
    RerouteConnected(E, F, c, s, p, q);
    SameComponent(F, Reroute(c, s, p), Reroute(c, s, q));
  }

  lemma ComponentsDiffer(E: set<Pix>, F: set<Pix>, c: Pix, s: Pix, d: Pix, t: Pix, p: Pix, q: Pix)
    requires Reroutes(E, F, c, s) && Covers(E, F, c, s, d, t) && p in F && q in F
    requires Component(E, Reroute(d, t, p)) == Component(E, Reroute(d, t, q))
    ensures Component(F, p) == Component(F, q)
  {
    RepresentedOnce(E, F, c, s, Reroute(d, t, p), Reroute(d, t, q));
    SameComponent(F, Reroute(c, s, Reroute(d, t, p)), p);
    SameComponent(F, Reroute(c, s, Reroute(d, t, q)), q);
  }

  /** Some pixel of the component `C`. */
  ghost function Witness(F: set<Pix>, C: set<Pix>): (q: Pix)
    requires C in Components(F)
    ensures q in F && C == Component(F, q)
  {
    var q :| q in F && C == Component(F, q); q
  }

  ghost function Source(E: set<Pix>, F: set<Pix>, d: Pix, t: Pix, C: set<Pix>): set<Pix>
    requires C in Components(F)
  {
    Component(E, Reroute(d, t, Witness(F, C)))
  }

  lemma SourceInside(E: set<Pix>, F: set<Pix>, c: Pix, s: Pix, d: Pix, t: Pix, C: set<Pix>)
    requires Covers(E, F, c, s, d, t) && C in Components(F)
    ensures Source(E, F, d, t, C) in Components(E)
  {
    assert Reroute(d, t, Witness(F, C)) in E;
  }

  lemma SourceInjective(E: set<Pix>, F: set<Pix>, c: Pix, s: Pix, d: Pix, t: Pix, C: set<Pix>, D: set<Pix>)
    requires Reroutes(E, F, c, s) && Covers(E, F, c, s, d, t)
    requires C in Components(F) && D in Components(F) && Source(E, F, d, t, C) == Source(E, F, d, t, D)
    ensures C == D
  {
    ComponentsDiffer(E, F, c, s, d, t, Witness(F, C), Witness(F, D));
  }

  /** A distinct component of `E` for each component of `F`. */
  lemma ComponentsNoMore(E: set<Pix>, F: set<Pix>, c: Pix, s: Pix, d: Pix, t: Pix)
    requires Reroutes(E, F, c, s) && Covers(E, F, c, s, d, t)
    ensures ComponentCount(F) <= ComponentCount(E)
  {
    var pre := map C | C in Components(F) :: Source(E, F, d, t, C);
    forall C | C in Components(F)
      ensures Source(E, F, d, t, C) in Components(E)
    {
      SourceInside(E, F, c, s, d, t, C);
    }
    forall C, D | C in Components(F) && D in Components(F) && Source(E, F, d, t, C) == Source(E, F, d, t, D)
      ensures C == D
    {
      SourceInjective(E, F, c, s, d, t, C, D);
    }
    SurjectionBound(Components(E), Components(F), pre);
  }

  // ------------------------------------- what one rewriting of a pixel does to the graph

  /** The pixels of `S` are joined by `E` exactly as they are by `F`. */
  ghost predicate SamePartition(E: set<Pix>, F: set<Pix>, S: set<Pix>) {
    forall p, q :: p in S && q in S ==> (Connected(E, p, q) <==> Connected(F, p, q))
  }

  /** The neighbours of `c` hang together without `c`. */
  ghost predicate RingConnected(E: set<Pix>, c: Pix) {
    AllConnected(Neighbours(E, c))
  }

  /** Deleting a pixel whose neighbours form one non-empty 8-connected ring. */
  lemma DeleteReroutes(E: set<Pix>, c: Pix, s: Pix)
    requires c in E && RingConnected(E, c) && s in Neighbours(E, c)
    ensures Reroutes(E, E - {c}, c, s)
  {
    var F := E - {c};
    forall p, q | p in E && q in E && Adjacent(p, q)
      ensures Connected(F, Reroute(c, s, p), Reroute(c, s, q))
    {
      var N := Neighbours(E, c);
      if p == c {
        assert Connected(N, s, q);
        ConnectedMono(N, F, s, q);
      } else if q == c {
        assert Connected(N, p, s);
        ConnectedMono(N, F, p, s);
      } else {
        ConnectedStep(F, p, q);
      }
    }
  }

  lemma DeleteSame(E: set<Pix>, c: Pix, p: Pix, q: Pix)
    requires c in E && RingConnected(E, c) && Neighbours(E, c) != {}
    requires p in E - {c} && q in E - {c}
    ensures Connected(E, p, q) <==> Connected(E - {c}, p, q)
  {
    var s := Member(Neighbours(E, c));
    if Connected(E, p, q) {
      DeleteReroutes(E, c, s);
      RerouteConnected(E, E - {c}, c, s, p, q);
    }
    if Connected(E - {c}, p, q) {
      ConnectedMono(E - {c}, E, p, q);
    }
  }

  lemma DeleteNoMore(E: set<Pix>, c: Pix, s: Pix)
    requires c in E && RingConnected(E, c) && s in Neighbours(E, c)
    ensures ComponentCount(E - {c}) <= ComponentCount(E)
  {
    var F := E - {c};
    DeleteReroutes(E, c, s);
    forall q | q in F
      ensures Connected(F, Reroute(c, s, Reroute(c, c, q)), q)
    {
      ConnectedSelf(F, q);
    }
    ComponentsNoMore(E, F, c, s, c, c);
  }

  lemma DeleteNoFewer(E: set<Pix>, c: Pix, s: Pix)
    requires c in E && s in Neighbours(E, c)
    ensures ComponentCount(E) <= ComponentCount(E - {c})
  {
    var F := E - {c};
    assert Reroutes(F, E, c, c) by {
      forall p, q | p in F && q in F && Adjacent(p, q)
        ensures Connected(E, Reroute(c, c, p), Reroute(c, c, q))
      {
        ConnectedStep(E, p, q);
      }
    }
    assert Covers(F, E, c, c, c, s) by {
      forall q | q in E
        ensures Connected(E, Reroute(c, c, Reroute(c, s, q)), q)
      {
        if q == c { ConnectedStep(E, s, c); } else { ConnectedSelf(E, q); }
      }
    }
    ComponentsNoMore(F, E, c, c, c, s);
  }

  /** Deleting such a pixel splits nothing, joins nothing and loses no component. */
  lemma DeletePreserves(E: set<Pix>, c: Pix)
    requires c in E && RingConnected(E, c) && Neighbours(E, c) != {}
    ensures SamePartition(E, E - {c}, E - {c})
    ensures ComponentCount(E - {c}) == ComponentCount(E)
  {
    forall p, q | p in E - {c} && q in E - {c}
      ensures Connected(E, p, q) <==> Connected(E - {c}, p, q)
    {
      DeleteSame(E, c, p, q);
    }
    var s := Member(Neighbours(E, c));
    DeleteNoMore(E, c, s);
    DeleteNoFewer(E, c, s);
  }

  /** Replacing `c` by `d` when both have exactly the same neighbours. */
  lemma SwapReroutes(E: set<Pix>, c: Pix, d: Pix)
    requires c in E && d !in E && Neighbours(E, c) <= Neighbours(E - {c} + {d}, d)
    ensures Reroutes(E, E - {c} + {d}, c, d)
  {
    var F := E - {c} + {d};
    forall p, q | p in E && q in E && Adjacent(p, q)
      ensures Connected(F, Reroute(c, d, p), Reroute(c, d, q))
    {
      if p == c {
        assert q in Neighbours(E, c);
        ConnectedStep(F, d, q);
      } else if q == c {
        assert p in Neighbours(E, c);
        ConnectedStep(F, p, d);
      } else {
        ConnectedStep(F, p, q);
      }
    }
  }

  lemma SwapCount(E: set<Pix>, c: Pix, d: Pix)
    requires c in E && d !in E && Neighbours(E, c) <= Neighbours(E - {c} + {d}, d)
    ensures ComponentCount(E - {c} + {d}) <= ComponentCount(E)
  {
    var F := E - {c} + {d};
    SwapReroutes(E, c, d);
    forall q | q in F
      ensures Connected(F, Reroute(c, d, Reroute(d, c, q)), q)
    {
      ConnectedSelf(F, q);
    }
    ComponentsNoMore(E, F, c, d, d, c);
  }

  lemma MovePreserves(E: set<Pix>, c: Pix, d: Pix)
    requires c in E && d !in E
    requires Neighbours(E, c) == Neighbours(E - {c} + {d}, d)
    ensures var F := E - {c} + {d};
      && SamePartition(E, F, E - {c})
      && ComponentCount(F) == ComponentCount(E)
  {
    var F := E - {c} + {d};
    assert F - {d} + {c} == E;
    SwapReroutes(E, c, d);
    SwapReroutes(F, d, c);
    forall p, q | p in E - {c} && q in E - {c}
      ensures Connected(E, p, q) <==> Connected(F, p, q)
    {
      if Connected(E, p, q) { RerouteConnected(E, F, c, d, p, q); }
      if Connected(F, p, q) { RerouteConnected(F, E, d, c, p, q); }
    }
    SwapCount(E, c, d);
    SwapCount(F, d, c);
  }

  /** A pixel without neighbours is connected to itself only. */
  lemma IsolatedAlone(E: set<Pix>, c: Pix, q: Pix)
    requires c in E && Neighbours(E, c) == {} && Connected(E, c, q)
    ensures q == c
  {
    var path :| PathBetween(E, path, c, q);
    forall x, y | x in {c} && y in E && Adjacent(x, y)
      ensures y in Neighbours(E, c)
    {
    }
    ClosedSetTraps(E, {c}, path);
  }

  lemma DropSame(E: set<Pix>, c: Pix, p: Pix, q: Pix)
    requires c in E && Neighbours(E, c) == {}
    requires p in E - {c} && q in E - {c}
    ensures Connected(E, p, q) <==> Connected(E - {c}, p, q)
  {
    var F := E - {c};
    forall x, y | x in E && y in E && Adjacent(x, y)
      ensures Connected(F, Reroute(c, c, x), Reroute(c, c, y))
    {
      assert y == c ==> x in Neighbours(E, c);
      assert x == c ==> y in Neighbours(E, c);
      ConnectedStep(F, x, y);
    }
    if Connected(E, p, q) { RerouteConnected(E, F, c, c, p, q); }
    if Connected(F, p, q) { ConnectedMono(F, E, p, q); }
  }

  /** Removing a pixel without neighbours removes exactly its own one-pixel component. */
  lemma DropPreserves(E: set<Pix>, c: Pix)
    requires c in E && Neighbours(E, c) == {}
    ensures SamePartition(E, E - {c}, E - {c})
    ensures ComponentCount(E - {c}) + 1 == ComponentCount(E)
  {
    var F := E - {c};
    forall p, q | p in F && q in F
      ensures Connected(E, p, q) <==> Connected(F, p, q)
    {
      DropSame(E, c, p, q);
    }
    ConnectedSelf(E, c);
    forall q | q in E
      ensures Connected(E, c, q) <==> q == c
    {
      if Connected(E, c, q) { IsolatedAlone(E, c, q); }
    }
    assert Component(E, c) == {c};
    forall p | p in F
      ensures Component(E, p) == Component(F, p)
    {
      if Connected(E, p, c) {
        ConnectedSym(E, p, c);
        IsolatedAlone(E, c, p);
      }
    }
    assert Components(E) == Components(F) + {{c}};
    assert {c} !in Components(F);
  }
}
