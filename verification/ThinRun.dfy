/** Whole runs of the thinning scan: every prefix of every run, whatever the image. */
module ThinRun {
  import opened EdgeGraph
  import opened SusanThin
  import opened ThinGraph
  import opened ThinTrace

  /** What a run never changes: image size and the response map. */
  datatype Scan = Scan(h: int, w: int, r: Grid)

  /** What it changes: the edge map and the two loop counters. */
  datatype State = State(mid: Grid, i: int, j: int)

  predicate Active(s: Scan, t: State) {
    4 <= t.i < s.h - 4 && 4 <= t.j < s.w - 4
  }

  function ActOf(s: Scan, t: State): Act {
    Decide(t.mid, s.r, t.i, t.j)
  }

  /** The scan position once the column counter has been advanced. */
  function Advance(w: int, i: int, j: int): (int, int) {
    if j + 1 < w - 4 then (i, j + 1) else (i + 1, 4)
  }

  /** One iteration of the inner loop. */
  function Visit(s: Scan, t: State): State {
    var act := ActOf(s, t);
    var (i, j) := Jump(t.i, t.j, act);
    var (ni, nj) := Advance(s.w, i, j);
    State(Apply(t.mid, t.i, t.j, act), ni, nj)
  }

  function Start(mid: Grid): State { State(mid, 4, 4) }

  /** `u` is the visit of an active `t`; the trigger keeps the visit folded until a proof names it. */
  ghost predicate Steps(s: Scan, t: State, u: State) {
    Active(s, t) && forall v {:trigger Visit(v, t)} :: v == s ==> u == Visit(v, t)
  }

  ghost predicate Link(s: Scan, ts: seq<State>, k: int)
    requires 0 <= k < |ts| - 1
  {
    Steps(s, ts[k], ts[k + 1])
  }

  /** `ts` is a prefix of the scan of `mid`: the states before, between and after its iterations. */
  ghost predicate IsRun(s: Scan, mid: Grid, ts: seq<State>) {
    && |ts| > 0 && ts[0] == Start(mid)
    && (forall k :: 0 <= k < |ts| - 1 ==> Link(s, ts, k))
  }

  ghost function Final(ts: seq<State>): State
    requires |ts| > 0
  {
    ts[|ts| - 1]
  }

  // ------------------------------------------------------------------ invariants

  /** Levels are 1..6 or 100, and edge pixels have positive response. */
  ghost predicate SoundMap(h: int, w: int, r: Grid, mid: Grid) {
    && mid.Keys == r.Keys == Rect(h, w)
    && (forall p :: p in r ==> r[p] >= 0)
    && (forall p :: p in mid ==> 1 <= mid[p] <= 6 || mid[p] == 100)
    && (forall p :: p in Edges(mid) ==> r[p] > 0)
  }

  ghost predicate Sound(s: Scan, t: State) {
    SoundMap(s.h, s.w, s.r, t.mid) && 4 <= t.i && 4 <= t.j
  }

  /** What the edge detectors hand over: marks 1 and 2 at positive responses. */
  ghost predicate Seeded(s: Scan, mid: Grid) {
    && mid.Keys == s.r.Keys == Rect(s.h, s.w)
    && (forall p :: p in s.r ==> s.r[p] >= 0)
    && (forall p :: p in mid ==> mid[p] in {1, 2, 100})
    && (forall p :: p in mid && mid[p] < 8 ==> s.r[p] > 0)
  }

  /** The act writes where it may: on a neighbour with positive response that is not an edge pixel. */
  ghost predicate Lands(r: Grid, mid: Grid, c: Pix, act: Act) {
    match act
    case Grow(to, level) => to in r && r[to] > 0 && to !in Edges(mid) && Adjacent(c, to) && 4 <= level <= 6
    case Shift(to) => to in r && r[to] > 0 && to !in Edges(mid) && Adjacent(c, to)
    case _ => true
  }

  /** Extensions and moves always land on a non-edge pixel with positive response. */
  lemma ActLands(h: int, w: int, r: Grid, mid: Grid, i: int, j: int)
    requires SoundMap(h, w, r, mid) && 4 <= i < h - 4 && 4 <= j < w - 4
    ensures Lands(r, mid, Pix(i, j), Decide(mid, r, i, j))
  {
    var act := Decide(mid, r, i, j);
    if act.Grow? {
      GrowTarget(mid, r, i, j);
    } else if act.Shift? {
      ShiftTarget(mid, r, i, j);
      OnIsEdge(mid, i, j);
      assert r[Pix(i, j)] > 0;
      assert act.to in Rect(h, w);
    }
  }

  lemma SetSound(h: int, w: int, r: Grid, mid: Grid, p: Pix, v: int)
    requires SoundMap(h, w, r, mid) && p in mid
    requires v == 100 || (1 <= v <= 6 && r[p] > 0)
    ensures SoundMap(h, w, r, mid[p := v])
  {
    assert mid[p := v].Keys == mid.Keys;
  }

  lemma ApplySound(h: int, w: int, r: Grid, mid: Grid, i: int, j: int, act: Act)
    requires SoundMap(h, w, r, mid) && 4 <= i < h - 4 && 4 <= j < w - 4 && Lands(r, mid, Pix(i, j), act)
    ensures SoundMap(h, w, r, Apply(mid, i, j, act))
  {
    var c := Pix(i, j);
    assert c in Rect(h, w);
    match act {
      case Keep =>
      case Grow(to, level) =>
        SetSound(h, w, r, mid, to, level);
      case Shift(to) =>
        SetSound(h, w, r, mid, c, 100);
        SetSound(h, w, r, mid[c := 100], to, 3);
      case _ =>
        SetSound(h, w, r, mid, c, 100);
    }
  }

  lemma VisitSound(s: Scan, t: State)
    requires Sound(s, t) && Active(s, t)
    ensures Sound(s, Visit(s, t))
  {
    ActLands(s.h, s.w, s.r, t.mid, t.i, t.j);
    ApplySound(s.h, s.w, s.r, t.mid, t.i, t.j, ActOf(s, t));
  }

  lemma SeededIsSound(s: Scan, mid: Grid)
    requires Seeded(s, mid)
    ensures Sound(s, Start(mid))
  {
  }

  lemma LinkSound(s: Scan, ts: seq<State>, k: int)
    requires 0 <= k < |ts| - 1 && Link(s, ts, k) && Sound(s, ts[k])
    ensures Sound(s, ts[k + 1])
  {
    VisitSound(s, ts[k]);
  }

  /** In every reachable map the levels, responses and margins are as required; in particular the
      centre response of the ratio test is positive at every edge pixel. */
  lemma {:induction false} RunSound(s: Scan, mid: Grid, ts: seq<State>, k: nat)
    requires Seeded(s, mid) && IsRun(s, mid, ts) && k < |ts|
    ensures Sound(s, ts[k])
  {
    if k == 0 {
      SeededIsSound(s, mid);
    } else {
      RunSound(s, mid, ts, k - 1);
      LinkSound(s, ts, k - 1);
    }
  }

  // -------------------------------------------------------------------- the margin

  /** Every edge pixel is `margin` pixels inside. */
  ghost predicate Inset(h: int, w: int, E: set<Pix>, margin: int) {
    forall p :: p in E ==> margin <= p.i < h - margin && margin <= p.j < w - margin
  }

  lemma LinkKeepsInset(s: Scan, ts: seq<State>, k: int, margin: int)
    requires 0 <= k < |ts| - 1 && Link(s, ts, k) && Sound(s, ts[k])
    requires margin <= 3 && Inset(s.h, s.w, Edges(ts[k].mid), margin)
    ensures Inset(s.h, s.w, Edges(ts[k + 1].mid), margin)
  {
    var t := ts[k];
    assert Pix(t.i, t.j) in t.mid && ts[k + 1] == Visit(s, t);
    ActLands(s.h, s.w, s.r, t.mid, t.i, t.j);
    EdgesAfter(t.mid, t.i, t.j, ActOf(s, t));
  }

  /** Edge pixels that start m pixels inside stay min(m,3) pixels inside. */
  lemma {:induction false} RunKeepsInset(s: Scan, mid: Grid, ts: seq<State>, m: int, k: nat)
    requires Seeded(s, mid) && IsRun(s, mid, ts) && k < |ts| && Inset(s.h, s.w, Edges(mid), m)
    ensures Inset(s.h, s.w, Edges(ts[k].mid), if m < 3 then m else 3)
  {
    if k > 0 {
      RunKeepsInset(s, mid, ts, m, k - 1);
      RunSound(s, mid, ts, k - 1);
      LinkKeepsInset(s, ts, k - 1, if m < 3 then m else 3);
    }
  }

  // ---------------------------------------------------------------------- traces

  /** Iterations left if no further jump happened. */
  function Rank(s: Scan, t: State): int {
    (s.h - 4 - t.i) * (s.w - 8) + (4 - t.j)
  }

  ghost function SnapOf(s: Scan, t: State): Snap {
    Snap(Edges(t.mid), Rank(s, t))
  }

  /** What the iteration that starts in `t` does, whether it moves the loop counters back, and how
      many edges it merges. */
  ghost function EventOf(s: Scan, t: State): Event {
    Event(ActOf(s, t), Jump(t.i, t.j, ActOf(s, t)) != (t.i, t.j), Joins(Edges(t.mid), ActOf(s, t)))
  }

  ghost function Snaps(s: Scan, ts: seq<State>): seq<Snap> {
    seq(|ts|, k requires 0 <= k < |ts| => SnapOf(s, ts[k]))
  }

  ghost function Events(s: Scan, ts: seq<State>): seq<Event>
    requires |ts| > 0
  {
    seq(|ts| - 1, k requires 0 <= k < |ts| - 1 => EventOf(s, ts[k]))
  }

  lemma EdgeBudget(h: int, w: int, r: Grid, mid: Grid, i: int, j: int, act: Act)
    requires SoundMap(h, w, r, mid) && 4 <= i < h - 4 && 4 <= j < w - 4 && Lands(r, mid, Pix(i, j), act)
    requires act != Keep ==> On(mid, i, j)
    ensures |Edges(Apply(mid, i, j, act))| ==
      |Edges(mid)| + (if act.Grow? then 1 else if act.Keep? || act.Shift? then 0 else -1)
  {
    assert Pix(i, j) in mid;
    EdgesAfter(mid, i, j, act);
    OnIsEdge(mid, i, j);
    var E, c := Edges(mid), Pix(i, j);
    assert act.Shift? ==> |E - {c}| == |E| - 1;
  }

  /** A step without a jump brings the scan one iteration nearer its end; a jump undoes at most a row. */
  lemma RankStep(h: int, w: int, i: int, j: int, act: Act)
    requires 4 <= i < h - 4 && 4 <= j < w - 4 && Local(i, j, act)
    ensures var (bi, bj) := Jump(i, j, act); var (ni, nj) := Advance(w, bi, bj);
      && 4 <= ni && 4 <= nj < w - 4 && (ni < h - 4 || (ni == h - 4 && nj == 4))
      && (h - 4 - ni) * (w - 8) + (4 - nj)
           <= (h - 4 - i) * (w - 8) + (4 - j) + (if (bi, bj) != (i, j) then w - 7 else -1)
  {
    var (bi, bj) := Jump(i, j, act);
    var (ni, nj) := Advance(w, bi, bj);
    assert i - 1 <= bi <= i && j - 2 <= bj <= j;
    var d := i - ni;
    assert (h - 4 - ni) * (w - 8) == (h - 4 - i) * (w - 8) + d * (w - 8);
    assert d in {-1, 0, 1};
    assert d * (w - 8) == if d == 1 then w - 8 else if d == 0 then 0 else 8 - w;
  }

  lemma VisitRank(s: Scan, t: State)
    requires Active(s, t)
    ensures Rank(s, Visit(s, t)) <= Rank(s, t) + (if EventOf(s, t).back then s.w - 7 else -1)
  {
    DecideIsLocal(t.mid, s.r, t.i, t.j);
    RankStep(s.h, s.w, t.i, t.j, ActOf(s, t));
  }

  lemma VisitKeeps(s: Scan, t: State)
    requires Sound(s, t) && Active(s, t)
    ensures StepKeeps(s.w, SnapOf(s, t), EventOf(s, t), SnapOf(s, Visit(s, t)))
  {
    assert Pix(t.i, t.j) in t.mid;
    ActLands(s.h, s.w, s.r, t.mid, t.i, t.j);
    EdgeBudget(s.h, s.w, s.r, t.mid, t.i, t.j, ActOf(s, t));
    StepConnectivity(t.mid, s.r, t.i, t.j);
    VisitRank(s, t);
  }

  lemma LinkKeeps(s: Scan, ts: seq<State>, k: int)
    requires 0 <= k < |ts| - 1 && Link(s, ts, k) && Sound(s, ts[k])
    ensures StepKeeps(s.w, SnapOf(s, ts[k]), EventOf(s, ts[k]), SnapOf(s, ts[k + 1]))
  {
    VisitKeeps(s, ts[k]);
  }

  /** Every run is a trace: each of its iterations keeps the step guarantees. */
  lemma RunIsTrace(s: Scan, mid: Grid, ts: seq<State>)
    requires Seeded(s, mid) && IsRun(s, mid, ts)
    ensures Trace(s.w, Snaps(s, ts), Events(s, ts))
  {
    forall k | 0 <= k < |ts| - 1
      ensures StepKeeps(s.w, SnapOf(s, ts[k]), EventOf(s, ts[k]), SnapOf(s, ts[k + 1]))
    {
      RunSound(s, mid, ts, k);
      LinkKeeps(s, ts, k);
    }
  }

  lemma SnapEnds(s: Scan, ts: seq<State>)
    requires |ts| > 0
    ensures |Snaps(s, ts)| == |ts| && |Events(s, ts)| == |ts| - 1
    ensures Snaps(s, ts)[0] == SnapOf(s, ts[0]) && Snaps(s, ts)[|ts| - 1] == SnapOf(s, Final(ts))
  {
  }

  // -------------------------------------------------------------- the main results

  /** Thinning never splits an edge: pixels that stay edge pixels through the run and were joined at
      its start are joined at its end. If no extension merged two edges, nothing else was joined. */
  lemma RunNeverSplits(s: Scan, mid: Grid, ts: seq<State>, p: Pix, q: Pix)
    requires Seeded(s, mid) && IsRun(s, mid, ts) && Survives(Snaps(s, ts), p) && Survives(Snaps(s, ts), q)
    ensures Connected(Edges(mid), p, q) ==> Connected(Edges(Final(ts).mid), p, q)
    ensures Merges(Events(s, ts)) == 0 && Connected(Edges(Final(ts).mid), p, q) ==> Connected(Edges(mid), p, q)
  {
    RunIsTrace(s, mid, ts);
    SnapEnds(s, ts);
    TraceNeverSplits(s.w, Snaps(s, ts), Events(s, ts), p, q);
  }

  /** The number of edges, exactly: each removal of an isolated pixel takes one away, each extension as
      many as it merges, and nothing else changes it. */
  lemma RunComponentCount(s: Scan, mid: Grid, ts: seq<State>)
    requires Seeded(s, mid) && IsRun(s, mid, ts)
    ensures ComponentCount(Edges(Final(ts).mid)) + Drops(Events(s, ts)) + Merges(Events(s, ts)) ==
      ComponentCount(Edges(mid))
  {
    RunIsTrace(s, mid, ts);
    SnapEnds(s, ts);
    TraceComponentCount(s.w, Snaps(s, ts), Events(s, ts));
  }

  lemma LinkNoneIsolated(s: Scan, ts: seq<State>, k: int)
    requires 0 <= k < |ts| - 1 && Link(s, ts, k) && Sound(s, ts[k]) && NoneIsolated(Edges(ts[k].mid))
    ensures !EventOf(s, ts[k]).act.Drop? && NoneIsolated(Edges(ts[k + 1].mid))
  {
    var t := ts[k];
    assert Pix(t.i, t.j) in t.mid && ts[k + 1] == Visit(s, t);
    StepNoneIsolated(t.mid, s.r, t.i, t.j);
  }

  lemma LinkKeepsCompany(s: Scan, ts: seq<State>, k: int)
    requires 0 <= k < |ts| - 1 && Link(s, ts, k) && Sound(s, ts[k]) && NoneIsolated(Edges(ts[k].mid))
    ensures NoneIsolated(Edges(ts[k + 1].mid))
  {
    LinkNoneIsolated(s, ts, k);
  }

  /** If no edge starts as a single pixel, no pixel ever becomes isolated, so no edge is ever lost. */
  lemma {:induction false} RunLosesNoEdge(s: Scan, mid: Grid, ts: seq<State>, k: nat)
    requires Seeded(s, mid) && NoneIsolated(Edges(mid)) && IsRun(s, mid, ts) && k < |ts|
    ensures NoneIsolated(Edges(ts[k].mid))
  {
    if k > 0 {
      RunLosesNoEdge(s, mid, ts, k - 1);
      RunSound(s, mid, ts, k - 1);
      LinkKeepsCompany(s, ts, k - 1);
    }
  }

  /** Hence such a run conserves the number of edges exactly when none of its extensions merges two. */
  lemma RunConservesEdges(s: Scan, mid: Grid, ts: seq<State>)
    requires Seeded(s, mid) && NoneIsolated(Edges(mid)) && IsRun(s, mid, ts)
    ensures Drops(Events(s, ts)) == 0
    ensures ComponentCount(Edges(Final(ts).mid)) == ComponentCount(Edges(mid)) <==> Merges(Events(s, ts)) == 0
  {
    forall k | 0 <= k < |ts| - 1
      ensures !EventOf(s, ts[k]).act.Drop?
    {
      RunLosesNoEdge(s, mid, ts, k);
      RunSound(s, mid, ts, k);
      LinkNoneIsolated(s, ts, k);
    }
    TraceNoDrops(Events(s, ts));
    RunComponentCount(s, mid, ts);
  }

  /** Backward jumps are bounded by the pixels there were and twice the extensions made. */
  lemma RunJumpsBounded(s: Scan, mid: Grid, ts: seq<State>)
    requires Seeded(s, mid) && IsRun(s, mid, ts)
    ensures var es := Events(s, ts);
      Jumps(es) + |Edges(Final(ts).mid)| <= |Edges(mid)| + 2 * Grows(es)
  {
    RunIsTrace(s, mid, ts);
    TraceJumps(s.w, Snaps(s, ts), Events(s, ts));
  }

  lemma RunVisits(s: Scan, mid: Grid, ts: seq<State>)
    requires Seeded(s, mid) && IsRun(s, mid, ts) && s.w >= 8
    ensures |ts| - 1 + Rank(s, Final(ts)) <= Rank(s, Start(mid)) + (s.w - 6) * Jumps(Events(s, ts))
  {
    RunIsTrace(s, mid, ts);
    SnapEnds(s, ts);
    TraceVisits(s.w, Snaps(s, ts), Events(s, ts));
  }

  lemma VisitArithmetic(area: int, k: int, jumps: int, most: int, n: int, rank: int)
    requires k >= 0 && jumps <= most && n + rank <= area + k * jumps && rank >= 1
    ensures n < area + k * most
  {
    assert k * jumps <= k * most;
  }

  /** A scan that is still running after n iterations has made enough extensions to account for them;
      so a run with a bounded number of extensions ends, and one with none ends within the first summands. */
  lemma RunLengthBounded(s: Scan, mid: Grid, ts: seq<State>)
    requires Seeded(s, mid) && IsRun(s, mid, ts) && Active(s, Final(ts))
    ensures |ts| - 1 < (s.h - 8) * (s.w - 8) + (s.w - 6) * (|Edges(mid)| + 2 * Grows(Events(s, ts)))
  {
    var es := Events(s, ts);
    RunVisits(s, mid, ts);
    RunJumpsBounded(s, mid, ts);
    RankPositive(s, Final(ts));
    VisitArithmetic((s.h - 8) * (s.w - 8), s.w - 6, Jumps(es), |Edges(mid)| + 2 * Grows(es), |ts| - 1,
                    Rank(s, Final(ts)));
  }

  lemma RankPositive(s: Scan, u: State)
    requires Active(s, u)
    ensures Rank(s, u) >= 1
  {
    var a, b := s.h - 4 - u.i, s.w - 8;
    assert a * b == b + (a - 1) * b;
  }

  // ------------------------------------------------------------------ the scan loop

  method VisitPixel(mid: array2<int>, r: array2<int>, i: int, j: int) returns (ni: int, nj: int)
    requires mid != r && mid.Length0 == r.Length0 && mid.Length1 == r.Length1
    requires 4 <= i < mid.Length0 - 4 && 4 <= j < mid.Length1 - 4
    modifies mid
    ensures 4 <= ni <= i && 4 <= nj <= j
    ensures var (ai, aj) := Advance(mid.Length1, ni, nj);
      Steps(Scan(mid.Length0, mid.Length1, View(r)), State(old(View(mid)), i, j), State(View(mid), ai, aj))
  {
    DecideIsLocal(View(mid), View(r), i, j);
    if Bit(mid, i, j) == 1 {
      ni, nj := ThinPixel(mid, r, i, j);
    } else {
      ni, nj := i, j;
    }
  }

  lemma Extend(s: Scan, mid: Grid, ts: seq<State>, u: State)
    requires IsRun(s, mid, ts) && Steps(s, Final(ts), u)
    ensures IsRun(s, mid, ts + [u]) && Final(ts + [u]) == u
  {
    var us := ts + [u];
    forall k | 0 <= k < |us| - 1
      ensures Link(s, us, k)
    {
      if k < |ts| - 1 { assert Link(s, ts, k); }
    }
  }

  /** The scan as the code runs it, two nested loops whose counters the body moves back. It goes on
      until the scan ends or `budget` iterations are done; `ts` records the states it went through. */
  method ThinScan(mid: array2<int>, r: array2<int>, budget: nat) returns (finished: bool, ghost ts: seq<State>)
    requires mid != r && mid.Length0 == r.Length0 && mid.Length1 == r.Length1
    modifies mid
    ensures var s := Scan(mid.Length0, mid.Length1, View(r));
      IsRun(s, old(View(mid)), ts) && Final(ts).mid == View(mid) && finished == !Active(s, Final(ts))
    ensures !finished ==> |ts| - 1 == budget
  {
    var h, w := mid.Length0, mid.Length1;
    ghost var s, m0 := Scan(h, w, View(r)), View(mid);
    ts := [Start(m0)];
    if w <= 8 {
      return true, ts;
    }
    var used := 0;
    var i, j := 4, 4;
    while i < h - 4 && used < budget && j == 4
      invariant used == |ts| - 1 <= budget && 4 <= i && 4 <= j < w - 4 && (j == 4 || used == budget)
      invariant IsRun(s, m0, ts) && Final(ts) == State(View(mid), i, j)
      decreases budget - used
    {
      var before := used;
      while j < w - 4 && used < budget
        invariant before <= used == |ts| - 1 <= budget && 4 <= i < h - 4 && 4 <= j <= w - 4 && (j == 4 || used > before)
        invariant IsRun(s, m0, ts)
        invariant Final(ts) == if j < w - 4 then State(View(mid), i, j) else State(View(mid), i + 1, 4)
        decreases budget - used
      {
        i, j := VisitPixel(mid, r, i, j);
        ghost var u := if j + 1 < w - 4 then State(View(mid), i, j + 1) else State(View(mid), i + 1, 4);
        Extend(s, m0, ts, u);
        ts := ts + [u];
        j := j + 1;
        used := used + 1;
      }
      if j == w - 4 { i, j := i + 1, 4; }
    }
    finished := i >= h - 4;
  }
}
