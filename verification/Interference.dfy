/** The interference guest: CPUs contending for an LL/SC spin lock, drawing tickets under it, and
    writing strided passes over the buffer row their ticket selects. One step is one memory access
    or branch of one CPU; any CPU may step at any time. */
module Interference {

  const NUM_CPUS := 3
  const INTERF_BUF_SIZE := 0x100000
  const CACHE_LINE := 64
  const WORD := 8
  const RANGE := INTERF_BUF_SIZE / NUM_CPUS / WORD
  const STRIDE := CACHE_LINE / WORD
  const SIZE_MOD := 0x1_0000_0000_0000_0000

  /** Where a CPU stands: the four instructions of spin_lock, the critical section, spin_unlock, the
      cut-off test, and the two passes. */
  datatype Pc =
    | LoadExclusive   // ldaxr tmp, [lock]
    | TestLoaded      // cbnz tmp, retry
    | StoreExclusive  // stxr tmp, 1, [lock]
    | TestStored      // cbnz tmp, retry
    | TakeTicket      // buf_index = buf_index_ticket
    | BumpRead        // buf_index_ticket += 1: the read ...
    | BumpWrite       // ... and the write
    | Unlock          // stlr wzr, [lock]
    | CutOff          // if (buf_index >= NUM_CPUS) return
    | WritePass       // interf_buf[bufid][i] = i
    | ReadPass        // (void) interf_buf[bufid][i]
    | Returned

  datatype Cpu = Cpu(pc: Pc, tmp: int, ticket: int, i: int)

  /** The shared state. `served` and `writer` are history: who drew which ticket, who wrote which cell. */
  datatype State = State(lock: int, counter: int, reserved: set<nat>, cpus: seq<Cpu>,
                         buf: map<(int, int), int>, served: seq<nat>, writer: map<(int, int), nat>)

  function Init(n: nat): State {
    State(0, 0, {}, seq(n, _ => Cpu(LoadExclusive, 0, 0, 0)), map[], [], map[])
  }

  function Put(s: State, c: nat, u: Cpu): State
    requires c < |s.cpus|
  {
    s.(cpus := s.cpus[c := u])
  }

  /** The lock instructions. A store-exclusive succeeds only with a reservation, and any store to the
      lock word takes all reservations away. */
  function LockStep(s: State, c: nat): State
    requires c < |s.cpus|
  {
    var u := s.cpus[c];
    match u.pc
    case LoadExclusive => Put(s.(reserved := s.reserved + {c}), c, u.(pc := TestLoaded, tmp := s.lock))
    case TestLoaded => Put(s, c, u.(pc := if u.tmp != 0 then LoadExclusive else StoreExclusive))
    case StoreExclusive =>
      if c in s.reserved then Put(s.(lock := 1, reserved := {}), c, u.(pc := TestStored, tmp := 0))
      else Put(s, c, u.(pc := TestStored, tmp := 1))
    case TestStored => Put(s, c, u.(pc := if u.tmp != 0 then LoadExclusive else TakeTicket))
    case Unlock => Put(s.(lock := 0, reserved := {}), c, u.(pc := CutOff))
    case _ => s
  }

  /** The instructions of main. */
  function MainStep(s: State, c: nat): State
    requires c < |s.cpus|
  {
    var u := s.cpus[c];
    match u.pc
    case TakeTicket => Put(s, c, u.(pc := BumpRead, ticket := s.counter))
    case BumpRead => Put(s, c, u.(pc := BumpWrite, tmp := s.counter))
    case BumpWrite => Put(s.(counter := (u.tmp + 1) % SIZE_MOD, served := s.served + [c]), c, u.(pc := Unlock))
    case CutOff => Put(s, c, if u.ticket >= NUM_CPUS then u.(pc := Returned) else u.(pc := WritePass, i := 0))
    case WritePass =>
      if u.i < RANGE then
        Put(s.(buf := s.buf[(u.ticket, u.i) := u.i], writer := s.writer[(u.ticket, u.i) := c]), c,
          u.(i := u.i + STRIDE))
      else Put(s, c, u.(pc := ReadPass, i := 0))
    case ReadPass => Put(s, c, if u.i < RANGE then u.(i := u.i + STRIDE) else u.(pc := WritePass, i := 0))
    case _ => s
  }

  predicate LockPc(p: Pc) {
    p.LoadExclusive? || p.TestLoaded? || p.StoreExclusive? || p.TestStored? || p.Unlock?
  }

  /** What the scheduler may do: let a CPU execute its next instruction, or take its reservation away. */
  datatype Event = Exec(c: nat) | Lose(c: nat)

  function Step(s: State, e: Event): State {
    match e
    case Lose(c) => s.(reserved := s.reserved - {c})
    case Exec(c) =>
      if c >= |s.cpus| then s
      else if LockPc(s.cpus[c].pc) then LockStep(s, c)
      else MainStep(s, c)
  }

  function Run(s: State, es: seq<Event>): State {
    if es == [] then s else Step(Run(s, es[..|es| - 1]), es[|es| - 1])
  }

  // ------------------------------------------------------------------ the invariant

  /** The CPU has stored 1 in the lock word and not yet stored 0: it is inside the critical section,
      or about to notice that it is. */
  predicate Holds(u: Cpu) {
    (u.pc.TestStored? && u.tmp == 0) || u.pc.TakeTicket? || u.pc.BumpRead? || u.pc.BumpWrite? || u.pc.Unlock?
  }

  /** Between spin_lock and spin_unlock. */
  predicate InCriticalSection(u: Cpu) {
    u.pc.TakeTicket? || u.pc.BumpRead? || u.pc.BumpWrite? || u.pc.Unlock?
  }

  /** The CPU has drawn its ticket and the counter has moved on. */
  predicate Issued(u: Cpu) {
    u.pc.Unlock? || u.pc.CutOff? || u.pc.WritePass? || u.pc.ReadPass? || u.pc.Returned?
  }

  predicate InLoop(u: Cpu) {
    u.pc.WritePass? || u.pc.ReadPass?
  }

  ghost predicate LockInv(s: State) {
    && s.lock in {0, 1}
    && (s.lock == 0 ==> forall c :: 0 <= c < |s.cpus| ==> !Holds(s.cpus[c]))
    && (s.lock == 1 ==> exists c :: 0 <= c < |s.cpus| && Holds(s.cpus[c]))
    && (forall c, d :: 0 <= c < |s.cpus| && 0 <= d < |s.cpus| && Holds(s.cpus[c]) && Holds(s.cpus[d]) ==> c == d)
    && (forall c :: 0 <= c < |s.cpus| && c in s.reserved && ReadFree(s.cpus[c]) ==> s.lock == 0)
  }

  /** The CPU's last load-exclusive returned 0. */
  predicate ReadFree(u: Cpu) {
    u.pc.StoreExclusive? || (u.pc.TestLoaded? && u.tmp == 0)
  }

  /** Tickets are the places in the order of service. */
  ghost predicate TicketInv(s: State) {
    && s.counter == |s.served| <= |s.cpus|
    && (forall k :: 0 <= k < |s.served| ==>
        s.served[k] < |s.cpus| && Issued(s.cpus[s.served[k]]) && s.cpus[s.served[k]].ticket == k)
    && (forall c :: 0 <= c < |s.cpus| && Issued(s.cpus[c]) ==>
        0 <= s.cpus[c].ticket < |s.served| && s.served[s.cpus[c].ticket] == c)
    && (forall c :: 0 <= c < |s.cpus| && (s.cpus[c].pc.BumpRead? || s.cpus[c].pc.BumpWrite?) ==>
        s.cpus[c].ticket == s.counter)
    && (forall c :: 0 <= c < |s.cpus| && s.cpus[c].pc.BumpWrite? ==> s.cpus[c].tmp == s.counter)
  }

  /** Every cell was written by the CPU that holds the ticket of its row, with its own index. */
  ghost predicate BufferInv(s: State) {
    && s.buf.Keys == s.writer.Keys
    && (forall c :: 0 <= c < |s.cpus| && InLoop(s.cpus[c]) ==>
          s.cpus[c].ticket < NUM_CPUS && 0 <= s.cpus[c].i && s.cpus[c].i % STRIDE == 0)
    && (forall x :: x in s.writer ==>
          0 <= x.0 < NUM_CPUS && 0 <= x.1 < RANGE && s.buf[x] == x.1
          && s.writer[x] < |s.cpus| && InLoop(s.cpus[s.writer[x]]) && s.cpus[s.writer[x]].ticket == x.0)
  }

  ghost predicate Inv(s: State) {
    |s.cpus| < SIZE_MOD && LockInv(s) && TicketInv(s) && BufferInv(s)
  }

  lemma InitInv(n: nat)
    requires n < SIZE_MOD
    ensures Inv(Init(n))
  {
  }

  lemma LockStepLockInv(s: State, c: nat)
    requires LockInv(s) && c < |s.cpus| && LockPc(s.cpus[c].pc)
    ensures LockInv(LockStep(s, c))
  {
    var t := LockStep(s, c);
    assert forall d :: 0 <= d < |s.cpus| && d != c ==> t.cpus[d] == s.cpus[d];
    if t.lock == 1 {
      if s.cpus[c].pc.StoreExclusive? && c in s.reserved {
        assert Holds(t.cpus[c]);
      } else {
        var d :| 0 <= d < |s.cpus| && Holds(s.cpus[d]);
        assert Holds(t.cpus[d]);
      }
    }
  }

  /** Distinct numbers below n are at most n. */
  lemma {:induction false} DistinctBelow(xs: seq<nat>, n: nat)
    requires forall k :: 0 <= k < |xs| ==> xs[k] < n
    requires forall k, l :: 0 <= k < l < |xs| ==> xs[k] != xs[l]
    ensures |xs| <= n
  {
    if |xs| > 0 {
      assert xs[0] < n;
      if k :| 0 <= k < |xs| && xs[k] == n - 1 {
        DistinctBelow(xs[..k] + xs[k + 1..], n - 1);
      } else {
        DistinctBelow(xs, n - 1);
      }
    }
  }

  /** One CPU changed, from u to v. */
  ghost predicate Only(s: State, t: State, c: nat, u: Cpu, v: Cpu) {
    c < |s.cpus| && u == s.cpus[c] && t.cpus == s.cpus[c := v]
  }

  /** A change of one CPU that issues no ticket. */
  ghost predicate Quiet(counter: int, u: Cpu, v: Cpu) {
    && Issued(u) == Issued(v) && (Issued(u) ==> v.ticket == u.ticket)
    && (v.pc.BumpRead? || v.pc.BumpWrite? ==> v.ticket == counter)
    && (v.pc.BumpWrite? ==> v.tmp == counter)
  }

  lemma QuietTicketInv(s: State, t: State, c: nat, u: Cpu, v: Cpu)
    requires TicketInv(s) && Only(s, t, c, u, v) && t.served == s.served && t.counter == s.counter &&
      Quiet(s.counter, u, v)
    ensures TicketInv(t)
  {
    forall k | 0 <= k < |s.served|
      ensures t.served[k] < |t.cpus| && Issued(t.cpus[t.served[k]]) && t.cpus[t.served[k]].ticket == k
    {
      assert s.served[k] == c || t.cpus[s.served[k]] == s.cpus[s.served[k]];
    }
  }

  lemma SilentLockInv(s: State, t: State, c: nat, u: Cpu, v: Cpu)
    requires LockInv(s) && Only(s, t, c, u, v) && t.lock == s.lock && t.reserved == s.reserved
    requires Holds(u) == Holds(v) && !ReadFree(v)
    ensures LockInv(t)
  {
    if s.lock == 1 {
      var d :| 0 <= d < |s.cpus| && Holds(s.cpus[d]);
      assert Holds(t.cpus[d]);
    }
  }

  lemma MainStepLockInv(s: State, c: nat)
    requires LockInv(s) && c < |s.cpus| && !LockPc(s.cpus[c].pc)
    ensures LockInv(MainStep(s, c))
  {
    var t := MainStep(s, c);
    MainStepSilent(s, c);
    SilentLockInv(s, t, c, s.cpus[c], t.cpus[c]);
  }

  lemma MainStepSilent(s: State, c: nat)
    requires c < |s.cpus| && !LockPc(s.cpus[c].pc)
    ensures var t := MainStep(s, c);
      Only(s, t, c, s.cpus[c], t.cpus[c]) && t.lock == s.lock && t.reserved == s.reserved
      && Holds(s.cpus[c]) == Holds(t.cpus[c]) && !ReadFree(t.cpus[c])
  {
  }

  lemma LockStepQuiet(s: State, c: nat)
    requires c < |s.cpus| && LockPc(s.cpus[c].pc)
    ensures var t := LockStep(s, c);
      Only(s, t, c, s.cpus[c], t.cpus[c]) && Quiet(s.counter, s.cpus[c], t.cpus[c]) && t.served == s.served &&
        t.counter == s.counter
  {
  }

  lemma MainStepQuiet(s: State, c: nat)
    requires c < |s.cpus| && !LockPc(s.cpus[c].pc) && !s.cpus[c].pc.BumpWrite?
    requires s.cpus[c].pc.BumpRead? ==> s.cpus[c].ticket == s.counter
    ensures var t := MainStep(s, c);
      Only(s, t, c, s.cpus[c], t.cpus[c]) && Quiet(s.counter, s.cpus[c], t.cpus[c]) && t.served == s.served &&
        t.counter == s.counter
  {
  }

  /** Writing the counter issues the next ticket; the lock keeps every other CPU out of the way. */
  lemma BumpTicketInv(s: State, c: nat)
    requires Inv(s) && c < |s.cpus| && s.cpus[c].pc.BumpWrite?
    ensures TicketInv(MainStep(s, c))
  {
    var t := MainStep(s, c);
    var k := |s.served|;
    assert Holds(s.cpus[c]) && !Issued(s.cpus[c]) && s.cpus[c].ticket == k && s.cpus[c].tmp == k;
    forall l | 0 <= l < k
      ensures t.served[l] == s.served[l] && s.served[l] != c && t.cpus[s.served[l]] == s.cpus[s.served[l]]
    {
    }
    assert t.served[k] == c && Issued(t.cpus[c]) && t.cpus[c].ticket == k;
    forall l | 0 <= l < |t.served|
      ensures t.served[l] < |t.cpus| && Issued(t.cpus[t.served[l]]) && t.cpus[t.served[l]].ticket == l
    {
    }
    DistinctBelow(t.served, |t.cpus|);
    assert t.counter == k + 1;
    forall d | 0 <= d < |t.cpus| && d != c
      ensures t.cpus[d] == s.cpus[d] && !t.cpus[d].pc.BumpRead? && !t.cpus[d].pc.BumpWrite?
    {
      assert Holds(s.cpus[d]) ==> d == c;
    }
  }

  /** A change of one CPU that neither leaves the loop nor breaks its bounds. */
  ghost predicate Looping(u: Cpu, v: Cpu) {
    && (InLoop(u) ==> InLoop(v) && v.ticket == u.ticket)
    && (InLoop(v) ==> v.ticket < NUM_CPUS && 0 <= v.i && v.i % STRIDE == 0)
  }

  lemma LoopBufferInv(s: State, t: State, c: nat, u: Cpu, v: Cpu)
    requires BufferInv(s) && Only(s, t, c, u, v) && Looping(u, v) && t.buf == s.buf && t.writer == s.writer
    ensures BufferInv(t)
  {
    forall x | x in s.writer
      ensures InLoop(t.cpus[s.writer[x]]) && t.cpus[s.writer[x]].ticket == x.0
    {
      assert s.writer[x] == c || t.cpus[s.writer[x]] == s.cpus[s.writer[x]];
    }
  }

  lemma LockStepLooping(s: State, c: nat)
    requires c < |s.cpus| && LockPc(s.cpus[c].pc)
    ensures Looping(s.cpus[c], LockStep(s, c).cpus[c]) && LockStep(s, c).buf == s.buf &&
      LockStep(s, c).writer == s.writer
  {
  }

  predicate Writes(u: Cpu) { u.pc.WritePass? && u.i < RANGE }

  lemma MainStepLooping(s: State, c: nat)
    requires c < |s.cpus| && !LockPc(s.cpus[c].pc)
    requires InLoop(s.cpus[c]) ==> s.cpus[c].ticket < NUM_CPUS && 0 <= s.cpus[c].i && s.cpus[c].i % STRIDE == 0
    ensures var t := MainStep(s, c);
      Looping(s.cpus[c], t.cpus[c]) && (!Writes(s.cpus[c]) ==> t.buf == s.buf && t.writer == s.writer)
  {
  }

  /** A write lands in the row of the writer's own ticket, at an index in range. */
  lemma WriteBufferInv(s: State, c: nat)
    requires BufferInv(s) && c < |s.cpus| && Writes(s.cpus[c]) && 0 <= s.cpus[c].ticket
    ensures BufferInv(MainStep(s, c))
  {
    var t, u := MainStep(s, c), s.cpus[c];
    var v := t.cpus[c];
    assert v == u.(i := u.i + STRIDE);
    LoopBufferInv(s, s.(cpus := t.cpus), c, u, v);
  }

  lemma ExecInv(s: State, c: nat)
    requires Inv(s) && c < |s.cpus|
    ensures Inv(Step(s, Exec(c))) && |Step(s, Exec(c)).cpus| == |s.cpus|
  {
    var u := s.cpus[c];
    if LockPc(u.pc) {
      var t := LockStep(s, c);
      LockStepLockInv(s, c);
      LockStepQuiet(s, c);
      QuietTicketInv(s, t, c, u, t.cpus[c]);
      LockStepLooping(s, c);
      LoopBufferInv(s, t, c, u, t.cpus[c]);
    } else {
      MainExecInv(s, c);
    }
  }

  lemma MainExecInv(s: State, c: nat)
    requires Inv(s) && c < |s.cpus| && !LockPc(s.cpus[c].pc)
    ensures Inv(MainStep(s, c)) && |MainStep(s, c).cpus| == |s.cpus|
  {
    var t, u := MainStep(s, c), s.cpus[c];
    MainStepLockInv(s, c);
    MainStepLooping(s, c);
    if u.pc.BumpWrite? {
      BumpTicketInv(s, c);
    } else {
      MainStepQuiet(s, c);
      QuietTicketInv(s, t, c, u, t.cpus[c]);
    }
    if Writes(u) {
      assert Issued(u);
      WriteBufferInv(s, c);
    } else {
      LoopBufferInv(s, t, c, u, t.cpus[c]);
    }
  }

  lemma LoseInv(s: State, c: nat)
    requires Inv(s)
    ensures Inv(Step(s, Lose(c))) && |Step(s, Lose(c)).cpus| == |s.cpus|
  {
  }

  lemma StepInv(s: State, e: Event)
    requires Inv(s)
    ensures Inv(Step(s, e)) && |Step(s, e).cpus| == |s.cpus|
  {
    match e
    case Lose(c) => LoseInv(s, c);
    case Exec(c) => if c < |s.cpus| { ExecInv(s, c); }
  }

  /** The invariant holds in every state any schedule can reach, for any number of CPUs. */
  lemma {:induction false} RunInv(n: nat, es: seq<Event>)
    requires n < SIZE_MOD
    ensures Inv(Run(Init(n), es)) && |Run(Init(n), es).cpus| == n
  {
    if es == [] {
      InitInv(n);
    } else {
      RunInv(n, es[..|es| - 1]);
      StepInv(Run(Init(n), es[..|es| - 1]), es[|es| - 1]);
    }
  }

  // ------------------------------------------------------------------ safety, over every run

  /** Mutual exclusion: at most one CPU is between spin_lock and spin_unlock; the lock word is 1 exactly
      while some CPU holds it; a CPU that read 0 and kept its reservation knows that it is still 0. */
  lemma MutualExclusion(n: nat, es: seq<Event>, c: nat, d: nat)
    requires n < SIZE_MOD && c < n && d < n
    ensures var s := Run(Init(n), es);
      && |s.cpus| == n
      && (InCriticalSection(s.cpus[c]) && InCriticalSection(s.cpus[d]) ==> c == d)
      && (InCriticalSection(s.cpus[c]) ==> s.lock == 1)
      && (s.lock == 1 <==> exists k: nat :: k < n && Holds(s.cpus[k]))
      && (c in s.reserved && ReadFree(s.cpus[c]) ==> s.lock == 0)
  {
    RunInv(n, es);
    var s := Run(Init(n), es);
    if s.lock == 1 {
      var k :| 0 <= k < |s.cpus| && Holds(s.cpus[k]);
      assert k < n && Holds(s.cpus[k]);
    }
  }

  /** Tickets: the CPUs served so far hold 0, 1, 2, ... in the order of service, each exactly one. */
  lemma TicketsPartition(n: nat, es: seq<Event>)
    requires n < SIZE_MOD
    ensures var s := Run(Init(n), es);
      && |s.cpus| == n && s.counter == |s.served| <= n
      && (forall c, d :: 0 <= c < n && 0 <= d < n && c != d && Issued(s.cpus[c]) && Issued(s.cpus[d]) ==>
          s.cpus[c].ticket != s.cpus[d].ticket)
      && (forall k :: 0 <= k < s.counter ==>
          s.served[k] < n && Issued(s.cpus[s.served[k]]) && s.cpus[s.served[k]].ticket == k)
      && (forall c :: 0 <= c < n && Issued(s.cpus[c]) ==> 0 <= s.cpus[c].ticket < s.counter)
  {
    RunInv(n, es);
  }

  /** At most NUM_CPUS CPUs ever run the passes, whatever the number of CPUs. */
  lemma FewInLoop(n: nat, es: seq<Event>, cs: seq<nat>)
    requires n < SIZE_MOD
    requires forall k :: 0 <= k < |cs| ==> cs[k] < n
    requires forall k, l :: 0 <= k < l < |cs| ==> cs[k] != cs[l]
    requires var s := Run(Init(n), es); |s.cpus| == n && forall k :: 0 <= k < |cs| ==> InLoop(s.cpus[cs[k]])
    ensures |cs| <= NUM_CPUS
  {
    RunInv(n, es);
    var s := Run(Init(n), es);
    forall k | 0 <= k < |cs|
      ensures 0 <= s.cpus[cs[k]].ticket < NUM_CPUS
    {
      assert Issued(s.cpus[cs[k]]);
    }
    var rows := seq(|cs|, k requires 0 <= k < |cs| => s.cpus[cs[k]].ticket as nat);
    forall k, l | 0 <= k < l < |rows|
      ensures rows[k] != rows[l]
    {
      assert Issued(s.cpus[cs[k]]) && Issued(s.cpus[cs[l]]);
    }
    DistinctBelow(rows, NUM_CPUS);
  }

  /** Only the CPU served as number x.0 can have written cell x, and the cell holds its own index. */
  lemma WriterWasServed(s: State, x: (int, int))
    requires Inv(s) && x in s.writer
    ensures 0 <= x.0 < |s.served| && s.writer[x] == s.served[x.0] && s.buf[x] == x.1
    ensures 0 <= x.0 < NUM_CPUS && 0 <= x.1 < RANGE
  {
    assert Issued(s.cpus[s.writer[x]]);
  }

  lemma {:induction false} ServedGrows(s: State, es: seq<Event>, k: nat)
    requires k <= |es|
    ensures Run(s, es[..k]).served <= Run(s, es).served
  {
    if k < |es| {
      var before := es[..|es| - 1];
      assert es[..k] == before[..k];
      ServedGrows(s, before, k);
      StepServed(Run(s, before), es[|es| - 1]);
    } else {
      assert es[..k] == es;
    }
  }

  lemma StepServed(s: State, e: Event)
    ensures s.served <= Step(s, e).served
  {
  }

  /** Buffer isolation: two writes to one cell, however far apart in the run, are by one CPU. */
  lemma BufferIsolation(n: nat, es: seq<Event>, k: nat, x: (int, int))
    requires n < SIZE_MOD && k <= |es|
    requires x in Run(Init(n), es[..k]).writer && x in Run(Init(n), es).writer
    ensures Run(Init(n), es[..k]).writer[x] == Run(Init(n), es).writer[x]
  {
    RunInv(n, es[..k]);
    RunInv(n, es);
    WriterWasServed(Run(Init(n), es[..k]), x);
    WriterWasServed(Run(Init(n), es), x);
    ServedGrows(Init(n), es, k);
  }

  // ------------------------------------------------------------------ the lock can always be had

  ghost predicate Reaches(s: State, t: State) {
    exists es :: Run(s, es) == t
  }

  lemma {:induction false} RunConcat(s: State, es: seq<Event>, fs: seq<Event>)
    ensures Run(s, es + fs) == Run(Run(s, es), fs)
  {
    if fs == [] {
      assert es + fs == es;
    } else {
      RunConcat(s, es, fs[..|fs| - 1]);
      assert (es + fs)[..|es + fs| - 1] == es + fs[..|fs| - 1];
    }
  }

  lemma ReachesOne(s: State, e: Event)
    ensures Reaches(s, Step(s, e))
  {
    assert [e][..0] == [];
    assert Run(s, [e]) == Step(s, e);
  }

  lemma ReachesTrans(s: State, t: State, u: State)
    requires Reaches(s, t) && Reaches(t, u)
    ensures Reaches(s, u)
  {
    var es :| Run(s, es) == t;
    var fs :| Run(t, fs) == u;
    RunConcat(s, es, fs);
  }

  function HoldDistance(u: Cpu): nat
    requires Holds(u)
  {
    match u.pc
    case TestStored => 5
    case TakeTicket => 4
    case BumpRead => 3
    case BumpWrite => 2
    case _ => 1
  }

  lemma HolderStep(s: State, h: nat)
    requires Inv(s) && h < |s.cpus| && Holds(s.cpus[h])
    ensures var t := Step(s, Exec(h));
      |t.cpus| == |s.cpus| && (forall d :: 0 <= d < |s.cpus| && d != h ==> t.cpus[d] == s.cpus[d])
      && (t.lock == 0 || (Holds(t.cpus[h]) && HoldDistance(t.cpus[h]) < HoldDistance(s.cpus[h])))
  {
  }

  /** A holder left to itself gives the lock back. */
  lemma {:induction false} HolderLeaves(s: State, h: nat) returns (t: State)
    requires Inv(s) && h < |s.cpus| && Holds(s.cpus[h])
    ensures Reaches(s, t) && Inv(t) && t.lock == 0 && |t.cpus| == |s.cpus|
    ensures forall d :: 0 <= d < |s.cpus| && d != h ==> t.cpus[d] == s.cpus[d]
    decreases HoldDistance(s.cpus[h])
  {
    t := Step(s, Exec(h));
    HolderStep(s, h);
    StepInv(s, Exec(h));
    ReachesOne(s, Exec(h));
    if t.lock != 0 {
      var m := t;
      t := HolderLeaves(m, h);
      ReachesTrans(s, m, t);
    }
  }

  /** Still in spin_lock. */
  predicate Waiting(u: Cpu) {
    u.pc.LoadExclusive? || u.pc.TestLoaded? || u.pc.StoreExclusive? || u.pc.TestStored?
  }

  function WaitDistance(s: State, c: nat): nat
    requires c < |s.cpus|
  {
    var u := s.cpus[c];
    match u.pc
    case TestStored => if u.tmp == 0 then 1 else 5
    case StoreExclusive => if c in s.reserved then 2 else 6
    case TestLoaded => if c in s.reserved && u.tmp == 0 then 3 else 7
    case LoadExclusive => 4
    case _ => 0
  }

  lemma WaiterStep(s: State, c: nat)
    requires Inv(s) && c < |s.cpus| && Waiting(s.cpus[c]) && (s.lock == 0 || Holds(s.cpus[c]))
    ensures var t := Step(s, Exec(c));
      |t.cpus| == |s.cpus| && (InCriticalSection(t.cpus[c]) ||
        (Waiting(t.cpus[c]) && (t.lock == 0 || Holds(t.cpus[c])) && WaitDistance(t, c) < WaitDistance(s, c)))
  {
  }

  /** With the lock free, a waiting CPU left to itself enters. */
  lemma {:induction false} WaiterEnters(s: State, c: nat) returns (t: State)
    requires Inv(s) && c < |s.cpus| && Waiting(s.cpus[c]) && (s.lock == 0 || Holds(s.cpus[c]))
    ensures Reaches(s, t) && Inv(t) && |t.cpus| == |s.cpus| && InCriticalSection(t.cpus[c])
    decreases WaitDistance(s, c)
  {
    t := Step(s, Exec(c));
    WaiterStep(s, c);
    StepInv(s, Exec(c));
    ReachesOne(s, Exec(c));
    if !InCriticalSection(t.cpus[c]) {
      var m := t;
      t := WaiterEnters(m, c);
      ReachesTrans(s, m, t);
    }
  }

  /** No deadlock: from every reachable state, every CPU still waiting can be scheduled into the
      critical section. */
  lemma LockIsAvailable(n: nat, es: seq<Event>, c: nat)
    requires n < SIZE_MOD && c < n
    ensures var s := Run(Init(n), es);
      |s.cpus| == n && (Waiting(s.cpus[c]) ==>
        exists t :: Reaches(s, t) && |t.cpus| == n && InCriticalSection(t.cpus[c]))
  {
    RunInv(n, es);
    var s := Run(Init(n), es);
    if Waiting(s.cpus[c]) {
      var m := s;
      assert Run(s, []) == s;
      if s.lock == 1 && !Holds(s.cpus[c]) {
        var h :| 0 <= h < |s.cpus| && Holds(s.cpus[h]);
        m := HolderLeaves(s, h);
      }
      var t := WaiterEnters(m, c);
      ReachesTrans(s, m, t);
    }
  }
}
