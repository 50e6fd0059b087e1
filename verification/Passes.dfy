/** Who gets past the cut-off, and what a CPU left to itself does to its row. */
module Passes {
  import opened Interference

  // --------------------------------------------------------------------------- the cut-off

  /** A CPU that has returned drew one of the tickets beyond NUM_CPUS. */
  ghost predicate ReturnedInv(s: State) {
    forall c :: 0 <= c < |s.cpus| && s.cpus[c].pc.Returned? ==> s.cpus[c].ticket >= NUM_CPUS
  }

  lemma StepReturnedInv(s: State, e: Event)
    requires ReturnedInv(s)
    ensures ReturnedInv(Step(s, e))
  {
  }

  lemma {:induction false} RunReturnedInv(n: nat, es: seq<Event>)
    ensures ReturnedInv(Run(Init(n), es))
  {
    if es != [] {
      RunReturnedInv(n, es[..|es| - 1]);
      StepReturnedInv(Run(Init(n), es[..|es| - 1]), es[|es| - 1]);
    }
  }

  /** Past the cut-off: exactly the CPUs with the NUM_CPUS first tickets run the passes, and exactly the
      others return. */
  lemma {:induction false} CutOffExactly(n: nat, es: seq<Event>, c: nat)
    requires n < SIZE_MOD && c < n
    ensures |Run(Init(n), es).cpus| == n
    ensures var u := Run(Init(n), es).cpus[c];
      InLoop(u) || u.pc.Returned? ==> (InLoop(u) <==> u.ticket < NUM_CPUS)
  {
    RunInv(n, es);
    RunReturnedInv(n, es);
  }

  // ---------------------------------------------------------------------- the reservations

  /** A CPU that has just loaded the lock word and still holds its reservation has seen its value. */
  ghost predicate FreshInv(s: State) {
    forall c :: 0 <= c < |s.cpus| && c in s.reserved && s.cpus[c].pc.TestLoaded? ==> s.cpus[c].tmp == s.lock
  }

  lemma StepFreshInv(s: State, e: Event)
    requires FreshInv(s)
    ensures FreshInv(Step(s, e))
  {
  }

  /** No store to the lock word leaves a reservation taken before it. */
  lemma {:induction false} ReservationFresh(n: nat, es: seq<Event>)
    ensures FreshInv(Run(Init(n), es))
  {
    if es != [] {
      ReservationFresh(n, es[..|es| - 1]);
      StepFreshInv(Run(Init(n), es[..|es| - 1]), es[|es| - 1]);
    }
  }

  // ----------------------------------------------------------------- one CPU left to itself

  /** k instructions of CPU c and nothing else. */
  function Alone(s: State, c: nat, k: nat): State {
    if k == 0 then s else Step(Alone(s, c, k - 1), Exec(c))
  }

  lemma {:induction false} AloneReached(s: State, c: nat, k: nat)
    ensures Reaches(s, Alone(s, c, k))
  {
    if k == 0 {
      assert Run(s, []) == s;
    } else {
      AloneReached(s, c, k - 1);
      ReachesOne(Alone(s, c, k - 1), Exec(c));
      ReachesTrans(s, Alone(s, c, k - 1), Alone(s, c, k));
    }
  }

  /** The cells a pass visits: every STRIDE-th of the row. */
  const CELLS: nat := (RANGE + STRIDE - 1) / STRIDE

  predicate Visited(x: (int, int), row: int, k: nat) {
    x.0 == row && 0 <= x.1 < k * STRIDE && x.1 % STRIDE == 0
  }

  /** CPU c is at cell k of the pass. */
  predicate AtCell(s: State, c: nat, pc: Pc, row: int, k: nat) {
    c < |s.cpus| && s.cpus[c].pc == pc && s.cpus[c].ticket == row && s.cpus[c].i == k * STRIDE
  }

  lemma WriteStep(s: State, c: nat, row: int, k: nat)
    requires AtCell(s, c, WritePass, row, k) && k < CELLS
    ensures var t := Step(s, Exec(c));
      AtCell(t, c, WritePass, row, k + 1) && t.buf == s.buf[(row, k * STRIDE) := k * STRIDE]
  {
  }

  /** The write pass stores in each cell it visits the index of that cell, and changes no other. */
  lemma {:induction false} WritesRow(s: State, c: nat, row: int, k: nat)
    requires AtCell(s, c, WritePass, row, 0) && k <= CELLS
    ensures var t := Alone(s, c, k);
      && AtCell(t, c, WritePass, row, k)
      && (forall x :: Visited(x, row, k) ==> x in t.buf && t.buf[x] == x.1)
      && (forall x :: !Visited(x, row, k) ==> (x in t.buf <==> x in s.buf) && (x in s.buf ==> t.buf[x] == s.buf[x]))
  {
    if k > 0 {
      WritesRow(s, c, row, k - 1);
      WriteStep(Alone(s, c, k - 1), c, row, k - 1);
      forall x ensures Visited(x, row, k) <==> Visited(x, row, k - 1) || x == (row, (k - 1) * STRIDE) {
        NextVisited(x, row, k);
      }
    }
  }

  lemma NextVisited(x: (int, int), row: int, k: nat)
    requires k > 0
    ensures Visited(x, row, k) <==> Visited(x, row, k - 1) || x == (row, (k - 1) * STRIDE)
  {
  }

  lemma ReadStep(s: State, c: nat, row: int, k: nat)
    requires AtCell(s, c, ReadPass, row, k) && k < CELLS
    ensures var t := Step(s, Exec(c)); AtCell(t, c, ReadPass, row, k + 1) && t.buf == s.buf
  {
  }

  /** After the last cell of a pass the other pass begins. */
  lemma PassEnds(s: State, c: nat, row: int)
    ensures var t := Step(s, Exec(c));
      && (AtCell(s, c, WritePass, row, CELLS) ==> AtCell(t, c, ReadPass, row, 0) && t.buf == s.buf)
      && (AtCell(s, c, ReadPass, row, CELLS) ==> AtCell(t, c, WritePass, row, 0) && t.buf == s.buf)
  {
  }

  /** The read pass changes nothing. */
  lemma {:induction false} ReadsRow(s: State, c: nat, row: int, k: nat)
    requires AtCell(s, c, ReadPass, row, 0) && k <= CELLS
    ensures AtCell(Alone(s, c, k), c, ReadPass, row, k) && Alone(s, c, k).buf == s.buf
  {
    if k > 0 {
      ReadsRow(s, c, row, k - 1);
      ReadStep(Alone(s, c, k - 1), c, row, k - 1);
    }
  }

  /** One round: a write pass over the whole row, a read pass over the whole row, and back to the start. */
  lemma OneRound(s: State, c: nat, row: int, m: nat) returns (written: State, reading: State, read: State, back: State)
    requires AtCell(s, c, WritePass, row, 0) && m == CELLS
    ensures written == Alone(s, c, m) && AtCell(written, c, WritePass, row, m)
    ensures reading == Step(written, Exec(c)) && AtCell(reading, c, ReadPass, row, 0)
    ensures read == Alone(reading, c, m) && AtCell(read, c, ReadPass, row, m)
    ensures back == Step(read, Exec(c)) && AtCell(back, c, WritePass, row, 0)
    ensures written.buf == reading.buf == read.buf == back.buf
  {
    written := Alone(s, c, m);
    WritesRow(s, c, row, m);
    PassEnds(written, c, row);
    reading := Step(written, Exec(c));
    read := Alone(reading, c, m);
    ReadsRow(reading, c, row, m);
    PassEnds(read, c, row);
    back := Step(read, Exec(c));
  }

  // ------------------------------------------------------------------------- the whole row

  /** Instructions until the next write pass begins. */
  function ToStart(u: Cpu): nat {
    match u.pc
    case Unlock => 2
    case CutOff => 1
    case WritePass => if u.i <= 0 then 0 else if u.i < RANGE then 3 + 2 * RANGE - u.i else 3 + RANGE
    case ReadPass => if u.i < 0 then 0 else if u.i < RANGE then 2 + RANGE - u.i else 2
    case _ => 0
  }

  lemma StartStep(s: State, c: nat)
    requires c < |s.cpus| && ToStart(s.cpus[c]) > 0 && s.cpus[c].ticket < NUM_CPUS
    ensures var t := Step(s, Exec(c));
      |t.cpus| == |s.cpus| && ToStart(t.cpus[c]) < ToStart(s.cpus[c]) && t.cpus[c].ticket == s.cpus[c].ticket
      && Issued(t.cpus[c]) && !t.cpus[c].pc.Returned?
  {
  }

  lemma {:induction false} StartReached(s: State, c: nat) returns (t: State)
    requires Inv(s) && c < |s.cpus| && s.cpus[c].ticket < NUM_CPUS
    requires Issued(s.cpus[c]) && !s.cpus[c].pc.Returned?
    ensures Reaches(s, t) && Inv(t) && AtCell(t, c, WritePass, s.cpus[c].ticket, 0)
    decreases ToStart(s.cpus[c])
  {
    if ToStart(s.cpus[c]) == 0 {
      t := s;
      assert Run(s, []) == s;
    } else {
      var m := Step(s, Exec(c));
      StartStep(s, c);
      StepInv(s, Exec(c));
      ReachesOne(s, Exec(c));
      t := StartReached(m, c);
      ReachesTrans(s, m, t);
    }
  }

  /** Progress: in every reachable state, a CPU that has drawn one of the NUM_CPUS first tickets can be
      scheduled so that it stores in every STRIDE-th cell of its row. */
  lemma RowIsFilled(n: nat, es: seq<Event>, c: nat) returns (t: State)
    requires n < SIZE_MOD && c < n
    ensures |Run(Init(n), es).cpus| == n
    ensures var s := Run(Init(n), es);
      Issued(s.cpus[c]) && s.cpus[c].ticket < NUM_CPUS ==>
        Reaches(s, t) && forall x :: Visited(x, s.cpus[c].ticket, CELLS) ==> x in t.buf && t.buf[x] == x.1
  {
    var s := Run(Init(n), es);
    RunInv(n, es);
    RunReturnedInv(n, es);
    t := s;
    if Issued(s.cpus[c]) && s.cpus[c].ticket < NUM_CPUS {
      var m := StartReached(s, c);
      WritesRow(m, c, s.cpus[c].ticket, CELLS);
      AloneReached(m, c, CELLS);
      t := Alone(m, c, CELLS);
      ReachesTrans(s, m, t);
    }
  }

  /** The cells of a pass are all those of the row whose index is a multiple of STRIDE. */
  lemma PassCoversRow(x: (int, int), row: int)
    ensures Visited(x, row, CELLS) <==> x.0 == row && 0 <= x.1 < RANGE && x.1 % STRIDE == 0
  {
  }
}
