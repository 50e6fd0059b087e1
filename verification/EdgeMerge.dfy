/** What a new pixel does to the components: it joins exactly those it touches. */
module EdgeMerge {
  import opened EdgeGraph

  /** The components that `d` has a neighbour in. */
  ghost function Touched(E: set<Pix>, d: Pix): set<set<Pix>> {
    set q | q in Neighbours(E, d) :: Component(E, q)
  }

  ghost predicate Touches(E: set<Pix>, d: Pix, p: Pix) {
    Component(E, p) in Touched(E, d)
  }

  lemma NeighbourTouched(E: set<Pix>, d: Pix, q: Pix)
    requires q in Neighbours(E, d)
    ensures Touches(E, d, q)
  {
  }

  lemma TouchedWitness(E: set<Pix>, d: Pix, p: Pix) returns (q: Pix)
    requires p in E && Touches(E, d, p)
    ensures q in Neighbours(E, d) && Connected(E, p, q)
  {
    q :| q in Neighbours(E, d) && Component(E, q) == Component(E, p);
    ComponentsSeparate(E, p, q);
  }

  /** A pixel of a touched component is joined to the new pixel. */
  lemma TouchedJoins(E: set<Pix>, d: Pix, p: Pix)
    requires d !in E && p in E && Touches(E, d, p)
    ensures Connected(E + {d}, p, d)
  {
    var q := TouchedWitness(E, d, p);
    ConnectedMono(E, E + {d}, p, q);
    ConnectedStep(E + {d}, q, d);
    ConnectedTrans(E + {d}, p, q, d);
  }

  lemma SameComponentStep(E: set<Pix>, x: Pix, y: Pix)
    requires x in E && y in E && Adjacent(x, y)
    ensures Component(E, x) == Component(E, y)
  {
    ConnectedStep(E, x, y);
    SameComponent(E, x, y);
  }

  /** The pixels in touched components, and the new one: no path leaves them. */
  lemma TouchedClosed(E: set<Pix>, d: Pix, path: seq<Pix>)
    requires d !in E && IsPath(E + {d}, path) && path[0] in E && Touches(E, d, path[0])
    ensures var y := path[|path| - 1]; y == d || Touches(E, d, y)
  {
    var A := (set x | x in E && Touches(E, d, x)) + {d};
    forall x, y | x in A && y in E + {d} && Adjacent(x, y)
      ensures y in A
    {
      if x != d && y != d { SameComponentStep(E, x, y); }
      if x == d { NeighbourTouched(E, d, y); }
    }
    ClosedSetTraps(E + {d}, A, path);
  }

  /** An untouched component stays as it is. */
  lemma UntouchedClosed(E: set<Pix>, d: Pix, path: seq<Pix>)
    requires d !in E && IsPath(E + {d}, path) && path[0] in E && !Touches(E, d, path[0])
    ensures path[|path| - 1] in Component(E, path[0])
  {
    var p := path[0];
    var A := Component(E, p);
    ConnectedSelf(E, p);
    forall x, y | x in A && y in E + {d} && Adjacent(x, y)
      ensures y in A
    {
      SameComponent(E, p, x);
      if y == d {
        NeighbourTouched(E, d, x);
      } else {
        ConnectedStep(E, x, y);
        ConnectedTrans(E, p, x, y);
      }
    }
    ClosedSetTraps(E + {d}, A, path);
  }

  /** Two old pixels are joined after the addition exactly when they were before or both lie in
      touched components. */
  lemma JoinedExactly(E: set<Pix>, d: Pix, p: Pix, q: Pix)
    requires d !in E && p in E && q in E
    ensures Connected(E + {d}, p, q) <==> Connected(E, p, q) || (Touches(E, d, p) && Touches(E, d, q))
  {
    if Connected(E + {d}, p, q) {
      var path :| PathBetween(E + {d}, path, p, q);
      if Touches(E, d, p) { TouchedClosed(E, d, path); } else { UntouchedClosed(E, d, path); }
    }
    if Connected(E, p, q) { ConnectedMono(E, E + {d}, p, q); }
    if Touches(E, d, p) && Touches(E, d, q) {
      TouchedJoins(E, d, p);
      TouchedJoins(E, d, q);
      ConnectedSym(E + {d}, q, d);
      ConnectedTrans(E + {d}, p, d, q);
    }
  }

  lemma TouchedComponent(E: set<Pix>, d: Pix, p: Pix)
    requires d !in E && p in E && Touches(E, d, p)
    ensures Component(E + {d}, p) == Component(E + {d}, d)
  {
    TouchedJoins(E, d, p);
    SameComponent(E + {d}, p, d);
  }

  lemma UntouchedComponent(E: set<Pix>, d: Pix, p: Pix)
    requires d !in E && p in E && !Touches(E, d, p)
    ensures Component(E + {d}, p) == Component(E, p)
  {
    forall q | q in E + {d}
      ensures q in Component(E + {d}, p) <==> q in Component(E, p)
    {
      if q in E {
        JoinedExactly(E, d, p, q);
      } else if Connected(E + {d}, p, q) {
        var path :| PathBetween(E + {d}, path, p, q);
        UntouchedClosed(E, d, path);
      }
    }
  }

  lemma ComponentsAfter(E: set<Pix>, d: Pix)
    requires d !in E
    ensures Components(E + {d}) == Components(E) - Touched(E, d) + {Component(E + {d}, d)}
  {
    var F := E + {d};
    forall p | p in E
      ensures Component(F, p) == if Touches(E, d, p) then Component(F, d) else Component(E, p)
    {
      if Touches(E, d, p) { TouchedComponent(E, d, p); } else { UntouchedComponent(E, d, p); }
    }
    forall C | C in Components(E) - Touched(E, d)
      ensures C in Components(F)
    {
      var p :| p in E && C == Component(E, p);
      assert C == Component(F, p);
    }
  }

  /** The exact count: one component takes the place of those touched. */
  lemma CountAfter(E: set<Pix>, d: Pix)
    requires d !in E
    ensures ComponentCount(E + {d}) + |Touched(E, d)| == ComponentCount(E) + 1
  {
    ComponentsAfter(E, d);
    ConnectedSelf(E + {d}, d);
    assert d in Component(E + {d}, d);
    assert Component(E + {d}, d) !in Components(E);
    assert Touched(E, d) <= Components(E);
  }

  /** One component is touched exactly when all neighbours were joined already. */
  lemma TouchedOnce(E: set<Pix>, c: Pix, d: Pix)
    requires c in Neighbours(E, d)
    ensures |Touched(E, d)| >= 1
    ensures |Touched(E, d)| == 1 <==> forall q :: q in Neighbours(E, d) ==> Connected(E, c, q)
  {
    var T, C := Touched(E, d), Component(E, c);
    assert C in T;
    assert |T - {C}| == |T| - 1;
    if T == {C} {
      forall q | q in Neighbours(E, d)
        ensures Connected(E, c, q)
      {
        assert Component(E, q) in T;
        ComponentsSeparate(E, c, q);
      }
    }
    if forall q :: q in Neighbours(E, d) ==> Connected(E, c, q) {
      forall q | q in Neighbours(E, d)
        ensures Component(E, q) == C
      {
        SameComponent(E, c, q);
      }
      assert T == {C};
    }
  }

  /** How many components a new pixel beside an old one merges into its own. */
  ghost function Merged(E: set<Pix>, d: Pix): nat {
    if Touched(E, d) == {} then 0 else |Touched(E, d)| - 1
  }

  /** A new pixel beside `c` keeps every connection. It adds one, and lowers the number of components,
      exactly when it has a neighbour that was not joined to `c`. */
  lemma GrowPreserves(E: set<Pix>, c: Pix, d: Pix)
    requires c in E && d !in E && Adjacent(c, d)
    ensures forall p, q :: Connected(E, p, q) ==> Connected(E + {d}, p, q)
    ensures ComponentCount(E + {d}) + Merged(E, d) == ComponentCount(E)
    ensures Merged(E, d) == 0 <==> forall q :: q in Neighbours(E, d) ==> Connected(E, c, q)
    ensures Merged(E, d) == 0 <==> SamePartition(E, E + {d}, E)
  {
    assert c in Neighbours(E, d);
    forall p, q | Connected(E, p, q)
      ensures Connected(E + {d}, p, q)
    {
      ConnectedMono(E, E + {d}, p, q);
    }
    CountAfter(E, d);
    TouchedOnce(E, c, d);
    PartitionKept(E, c, d);
  }

  lemma PartitionKept(E: set<Pix>, c: Pix, d: Pix)
    requires d !in E && c in Neighbours(E, d)
    ensures SamePartition(E, E + {d}, E) <==> forall q :: q in Neighbours(E, d) ==> Connected(E, c, q)
  {
    if SamePartition(E, E + {d}, E) {
      forall q | q in Neighbours(E, d)
        ensures Connected(E, c, q)
      {
        NeighbourTouched(E, d, q);
        NeighbourTouched(E, d, c);
        JoinedExactly(E, d, c, q);
      }
    }
    if forall q :: q in Neighbours(E, d) ==> Connected(E, c, q) {
      forall p, q | p in E && q in E
        ensures Connected(E, p, q) <==> Connected(E + {d}, p, q)
      {
        JoinedExactly(E, d, p, q);
        if Touches(E, d, p) && Touches(E, d, q) { TouchedAlike(E, c, d, p, q); }
      }
    }
  }

  lemma TouchedAlike(E: set<Pix>, c: Pix, d: Pix, p: Pix, q: Pix)
    requires p in E && q in E && Touches(E, d, p) && Touches(E, d, q)
    requires forall x :: x in Neighbours(E, d) ==> Connected(E, c, x)
    ensures Connected(E, p, q)
  {
    var x := TouchedWitness(E, d, p);
    var y := TouchedWitness(E, d, q);
    ConnectedSym(E, c, x);
    ConnectedSym(E, q, y);
    ConnectedTrans(E, p, x, c);
    ConnectedTrans(E, p, c, y);
    ConnectedTrans(E, p, y, q);
  }
}
