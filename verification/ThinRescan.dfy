/** Whether one scan is enough: when scanning a map again changes nothing, and that a scan skips no pixel. */
module ThinRescan {
  import opened EdgeGraph
  import opened SusanThin
  import opened ThinRun

  /** The body keeps the map at every scanned pixel. */
  ghost predicate Settled(s: Scan, m: Grid) {
    forall t: State {:trigger ActOf(s, t)} :: t.mid == m && Active(s, t) ==> ActOf(s, t) == Keep
  }

  /** No run from the start of the scan leaves the map. */
  ghost predicate Idle(s: Scan, m: Grid) {
    forall ts :: IsRun(s, m, ts) ==> Final(ts).mid == m
  }

  /** Every act but Keep changes the map. */
  lemma ActChanges(s: Scan, t: State)
    requires Sound(s, t) && Active(s, t) && ActOf(s, t) != Keep
    ensures Visit(s, t).mid != t.mid
  {
    var act := ActOf(s, t);
    ActLands(s.h, s.w, s.r, t.mid, t.i, t.j);
    ActWrites(t.mid, t.i, t.j, act);
  }

  lemma ActWrites(m: Grid, i: int, j: int, act: Act)
    requires act != Keep && (act.Grow? ==> act.level < 8 && act.to in m && act.to !in Edges(m))
    requires !act.Grow? ==> Pix(i, j) in Edges(m)
    requires act.Shift? ==> act.to != Pix(i, j)
    ensures Apply(m, i, j, act) != m
  {
    var n := Apply(m, i, j, act);
    if act.Grow? {
      assert n[act.to] < 8;
    } else {
      assert n[Pix(i, j)] == 100;
    }
  }

  lemma VisitSettled(s: Scan, t: State)
    requires Settled(s, t.mid) && Active(s, t)
    ensures Visit(s, t).mid == t.mid
  {
    assert ActOf(s, t) == Keep;
  }

  lemma LinkSettled(s: Scan, ts: seq<State>, k: int)
    requires 0 <= k < |ts| - 1 && Link(s, ts, k) && Settled(s, ts[k].mid)
    ensures ts[k + 1].mid == ts[k].mid
  {
    VisitSettled(s, ts[k]);
  }

  lemma {:induction false} SettledStays(s: Scan, m: Grid, ts: seq<State>, k: nat)
    requires Settled(s, m) && IsRun(s, m, ts) && k < |ts|
    ensures ts[k].mid == m
  {
    if k > 0 {
      SettledStays(s, m, ts, k - 1);
      LinkSettled(s, ts, k - 1);
    }
  }

  /** An idle scan keeps the map at the end of any of its runs, and so goes on to the next pixel. */
  lemma IdleKeeps(s: Scan, m: Grid, ts: seq<State>)
    requires Idle(s, m) && IsRun(s, m, ts) && Sound(s, Final(ts)) && Active(s, Final(ts)) && Final(ts).mid == m
    ensures ActOf(s, Final(ts)) == Keep && IsRun(s, m, ts + [Visit(s, Final(ts))])
  {
    var t := Final(ts);
    Extend(s, m, ts, Visit(s, t));
    assert Final(ts + [Visit(s, t)]).mid == m;
    if ActOf(s, t) != Keep { ActChanges(s, t); }
  }

  lemma KeepAdvances(s: Scan, t: State)
    requires ActOf(s, t) == Keep
    ensures var (ni, nj) := Advance(s.w, t.i, t.j); Visit(s, t) == State(t.mid, ni, nj)
  {
  }

  /** An idle scan reaches every scanned pixel. */
  lemma {:induction false} IdleReaches(s: Scan, m: Grid, i: int, j: int) returns (ts: seq<State>)
    requires Idle(s, m) && SoundMap(s.h, s.w, s.r, m) && Active(s, State(m, i, j))
    ensures IsRun(s, m, ts) && Final(ts) == State(m, i, j)
    decreases i, j
  {
    if i == 4 && j == 4 {
      ts := [Start(m)];
    } else {
      var (pi, pj) := if j > 4 then (i, j - 1) else (i - 1, s.w - 5);
      var before := IdleReaches(s, m, pi, pj);
      IdleKeeps(s, m, before);
      KeepAdvances(s, State(m, pi, pj));
      ts := before + [Visit(s, State(m, pi, pj))];
    }
  }

  /** Scanning a map, again or for the first time, changes nothing exactly when the body keeps it at
      every scanned pixel. */
  lemma RescanExactly(s: Scan, m: Grid)
    requires SoundMap(s.h, s.w, s.r, m)
    ensures Idle(s, m) <==> Settled(s, m)
  {
    if Settled(s, m) {
      forall ts | IsRun(s, m, ts)
        ensures Final(ts).mid == m
      {
        SettledStays(s, m, ts, |ts| - 1);
      }
    }
    if Idle(s, m) {
      forall t: State | t.mid == m && Active(s, t)
        ensures ActOf(s, t) == Keep
      {
        var ts := IdleReaches(s, m, t.i, t.j);
        IdleKeeps(s, m, ts);
      }
    }
  }

  // ------------------------------------------------------------------ no pixel is skipped

  function Place(t: State): Pix { Pix(t.i, t.j) }

  /** A visit goes at most one pixel on: the jumps only lead back. */
  lemma VisitSkipsNone(s: Scan, t: State, p: Pix)
    requires Sound(s, t) && Active(s, t) && Active(s, State(t.mid, p.i, p.j)) && Before(Place(t), p)
    ensures !Before(p, Place(Visit(s, t)))
  {
    ActLands(s.h, s.w, s.r, t.mid, t.i, t.j);
    JumpsBack(t.i, t.j, ActOf(s, t));
  }

  lemma JumpsBack(i: int, j: int, act: Act)
    requires 4 <= i && 4 <= j && (act.Grow? ==> Adjacent(Pix(i, j), act.to))
    ensures var (ni, nj) := Jump(i, j, act); 4 <= ni <= i && 4 <= nj <= j
  {
  }

  /** A run that has got to p or beyond has been at p. */
  lemma {:induction false} RunPasses(s: Scan, m: Grid, ts: seq<State>, k: nat, p: Pix)
    requires Seeded(s, m) && IsRun(s, m, ts) && k < |ts|
    requires Active(s, State(m, p.i, p.j)) && !Before(Place(ts[k]), p)
    ensures exists l :: 0 <= l <= k && Place(ts[l]) == p
  {
    if k == 0 {
      assert Place(ts[0]) == p;
    } else if Before(Place(ts[k - 1]), p) {
      assert Link(s, ts, k - 1);
      RunSound(s, m, ts, k - 1);
      VisitSkipsNone(s, ts[k - 1], p);
      assert Place(ts[k]) == p;
    } else {
      RunPasses(s, m, ts, k - 1, p);
    }
  }

  /** However often it goes back, a scan that has ended has visited every scanned pixel. */
  lemma ScanCovers(s: Scan, m: Grid, ts: seq<State>, p: Pix)
    requires Seeded(s, m) && IsRun(s, m, ts) && !Active(s, Final(ts))
    requires Active(s, State(m, p.i, p.j))
    ensures exists l :: 0 <= l < |ts| && Place(ts[l]) == p
  {
    var k := |ts| - 1;
    RunSound(s, m, ts, k);
    if k > 0 {
      assert Link(s, ts, k - 1);
      assert ts[k] == Visit(s, ts[k - 1]);
    }
    RunPasses(s, m, ts, k, p);
  }
}
