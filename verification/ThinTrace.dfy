/** Runs seen from outside: the sequence of edge sets and of what each iteration did to them. */
module ThinTrace {
  import opened EdgeGraph
  import opened SusanThin
  import opened ThinGraph

  /** One iteration: the act, whether it moved the loop counters back, and how many edges it merged. */
  datatype Event = Event(act: Act, back: bool, joins: nat)

  datatype Snap = Snap(edges: set<Pix>, rank: int)

  /** What every iteration guarantees about the edge set and about the scan position. */
  ghost predicate StepKeeps(w: int, a: Snap, e: Event, b: Snap) {
    var E, F := a.edges, b.edges;
    && KeepsEdges(E, F, e.act) && e.joins == Joins(E, e.act)
    && |F| == |E| + (if e.act.Grow? then 1 else if e.act.Keep? || e.act.Shift? then 0 else -1)
    && (e.back ==> e.act.Grow? || e.act.Square? || e.act.Thin?)
    && b.rank <= a.rank + (if e.back then w - 7 else -1)
  }

  /** `snaps` are the states between the iterations `es`. */
  ghost predicate Trace(w: int, snaps: seq<Snap>, es: seq<Event>) {
    && |snaps| == |es| + 1
    && (forall k :: 0 <= k < |es| ==> StepKeeps(w, snaps[k], es[k], snaps[k + 1]))
  }

  function Grows(es: seq<Event>): nat {
    if es == [] then 0 else Grows(es[..|es| - 1]) + (if es[|es| - 1].act.Grow? then 1 else 0)
  }

  function Drops(es: seq<Event>): nat {
    if es == [] then 0 else Drops(es[..|es| - 1]) + (if es[|es| - 1].act.Drop? then 1 else 0)
  }

  function Merges(es: seq<Event>): nat {
    if es == [] then 0 else Merges(es[..|es| - 1]) + es[|es| - 1].joins
  }

  function Jumps(es: seq<Event>): nat {
    if es == [] then 0 else Jumps(es[..|es| - 1]) + (if es[|es| - 1].back then 1 else 0)
  }

  /** `p` is an edge pixel in every state of the run. */
  ghost predicate Survives(snaps: seq<Snap>, p: Pix) {
    forall k :: 0 <= k < |snaps| ==> p in snaps[k].edges
  }

  lemma Prefix(w: int, snaps: seq<Snap>, es: seq<Event>)
    requires Trace(w, snaps, es) && es != []
    ensures Trace(w, snaps[..|es|], es[..|es| - 1])
    ensures StepKeeps(w, snaps[|es| - 1], es[|es| - 1], snaps[|es|])
  {
  }

  lemma {:induction false} TraceNeverSplits(w: int, snaps: seq<Snap>, es: seq<Event>, p: Pix, q: Pix)
    requires Trace(w, snaps, es) && Survives(snaps, p) && Survives(snaps, q)
    ensures Connected(snaps[0].edges, p, q) ==> Connected(snaps[|es|].edges, p, q)
    ensures Merges(es) == 0 && Connected(snaps[|es|].edges, p, q) ==> Connected(snaps[0].edges, p, q)
  {
    if es != [] {
      Prefix(w, snaps, es);
      TraceNeverSplits(w, snaps[..|es|], es[..|es| - 1], p, q);
      assert p in snaps[|es| - 1].edges * snaps[|es|].edges && q in snaps[|es| - 1].edges * snaps[|es|].edges;
    }
  }

  lemma {:induction false} TraceComponentCount(w: int, snaps: seq<Snap>, es: seq<Event>)
    requires Trace(w, snaps, es)
    ensures ComponentCount(snaps[|es|].edges) + Drops(es) + Merges(es) == ComponentCount(snaps[0].edges)
  {
    if es != [] {
      Prefix(w, snaps, es);
      TraceComponentCount(w, snaps[..|es|], es[..|es| - 1]);
    }
  }

  /** Every backward jump is paid for by a removed pixel or by an extension. */
  lemma {:induction false} TraceJumps(w: int, snaps: seq<Snap>, es: seq<Event>)
    requires Trace(w, snaps, es)
    ensures Jumps(es) + |snaps[|es|].edges| <= |snaps[0].edges| + 2 * Grows(es)
  {
    if es != [] {
      Prefix(w, snaps, es);
      TraceJumps(w, snaps[..|es|], es[..|es| - 1]);
    }
  }

  lemma {:induction false} TraceVisits(w: int, snaps: seq<Snap>, es: seq<Event>)
    requires Trace(w, snaps, es) && w >= 8
    ensures |es| + snaps[|es|].rank <= snaps[0].rank + (w - 6) * Jumps(es)
  {
    if es != [] {
      Prefix(w, snaps, es);
      TraceVisits(w, snaps[..|es|], es[..|es| - 1]);
      assert (w - 6) * (Jumps(es[..|es| - 1]) + 1) == (w - 6) * Jumps(es[..|es| - 1]) + (w - 6);
    }
  }

  lemma {:induction false} TraceNoDrops(es: seq<Event>)
    requires forall k :: 0 <= k < |es| ==> !es[k].act.Drop?
    ensures Drops(es) == 0
  {
    if es != [] { TraceNoDrops(es[..|es| - 1]); }
  }
}
