/** The interference guest as a machine whose words change in place, one atomic access at a time. */
module GuestMachine {
  import opened Interference

  class Machine {
    var lock: int
    var ticketCounter: int
    var reserved: set<nat>
    var cpus: seq<Cpu>
    var interfBuf: map<(int, int), int>
    ghost var served: seq<nat>
    ghost var writer: map<(int, int), nat>

    ghost function Now(): State
      reads this
    {
      State(lock, ticketCounter, reserved, cpus, interfBuf, served, writer)
    }

    /** Static storage: the lock word and the ticket counter start at 0, nothing is reserved. */
    constructor (n: nat)
      ensures Now() == Init(n)
    {
      lock, ticketCounter, reserved := 0, 0, {};
      cpus := seq(n, _ => Cpu(LoadExclusive, 0, 0, 0));
      interfBuf := map[];
      served, writer := [], map[];
    }

    /** The exclusive monitor of a CPU may be cleared at any time. */
    method LoseReservation(c: nat)
      modifies this
      ensures Now() == Step(old(Now()), Lose(c))
    {
      reserved := reserved - {c};
    }

    /** One instruction of spin_lock or spin_unlock. */
    method ExecuteLock(c: nat)
      requires c < |cpus| && LockPc(cpus[c].pc)
      modifies this
      ensures Now() == LockStep(old(Now()), c)
    {
      var u := cpus[c];
      match u.pc {
        case LoadExclusive =>
          reserved := reserved + {c};
          u := u.(pc := TestLoaded, tmp := lock);
        case TestLoaded =>
          u := u.(pc := if u.tmp != 0 then LoadExclusive else StoreExclusive);
        case StoreExclusive =>
          if c in reserved {
            lock := 1;
            reserved := {};
            u := u.(pc := TestStored, tmp := 0);
          } else {
            u := u.(pc := TestStored, tmp := 1);
          }
        case TestStored =>
          u := u.(pc := if u.tmp != 0 then LoadExclusive else TakeTicket);
        case Unlock =>
          lock := 0;
          reserved := {};
          u := u.(pc := CutOff);
      }
      cpus := cpus[c := u];
    }

    /** One instruction of main outside the lock routines. */
    method ExecuteMain(c: nat)
      requires c < |cpus| && !LockPc(cpus[c].pc)
      modifies this
      ensures Now() == MainStep(old(Now()), c)
    {
      var u := cpus[c];
      match u.pc {
        case TakeTicket =>
          u := u.(pc := BumpRead, ticket := ticketCounter);
        case BumpRead =>
          u := u.(pc := BumpWrite, tmp := ticketCounter);
        case BumpWrite =>
          ticketCounter := (u.tmp + 1) % SIZE_MOD;
          served := served + [c];
          u := u.(pc := Unlock);
        case CutOff =>
          if u.ticket >= NUM_CPUS {
            u := u.(pc := Returned);
          } else {
            u := u.(pc := WritePass, i := 0);
          }
        case WritePass =>
          if u.i < RANGE {
            interfBuf := interfBuf[(u.ticket, u.i) := u.i];
            writer := writer[(u.ticket, u.i) := c];
            u := u.(i := u.i + STRIDE);
          } else {
            u := u.(pc := ReadPass, i := 0);
          }
        case ReadPass =>
          if u.i < RANGE {
            u := u.(i := u.i + STRIDE);
          } else {
            u := u.(pc := WritePass, i := 0);
          }
        case Returned =>
      }
      cpus := cpus[c := u];
    }

    method Execute(c: nat)
      modifies this
      ensures Now() == Step(old(Now()), Exec(c))
    {
      if c < |cpus| {
        if LockPc(cpus[c].pc) {
          ExecuteLock(c);
        } else {
          ExecuteMain(c);
        }
      }
    }

    /** Running a schedule: the machine is in the state the schedule leads to, and the invariant of
        the protocol holds there. */
    method RunSchedule(n: nat, es: seq<Event>)
      requires n < SIZE_MOD && Now() == Init(n)
      modifies this
      ensures Now() == Run(Init(n), es) && Inv(Now())
    {
      var k := 0;
      assert es[..0] == [];
      while k < |es|
        invariant 0 <= k <= |es| && Now() == Run(Init(n), es[..k])
      {
        assert es[..k + 1][..k] == es[..k];
        match es[k] {
          case Lose(c) => LoseReservation(c);
          case Exec(c) => Execute(c);
        }
        k := k + 1;
      }
      assert es[..|es|] == es;
      RunInv(n, es);
    }
  }
}
