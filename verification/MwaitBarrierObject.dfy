/** The MWAIT barrier in place: the object, the cell and the threads as each instruction
    changes them. */
module MwaitBarrierObject {
  import opened Traces
  import opened MwaitBarrier
  import Safety = MwaitBarrierSafety
  import L = SpinLocks
  import M = Monitor

  class Barrier {
    const initCount: nat
    const calls: nat
    var lock: int
    var gathered: int
    var byte: char
    var th: array<Thread>
    ghost var notifies: nat
    ghost var resets: nat
    ghost var wins: nat

    ghost predicate Valid()
      reads this
    {
      th.Length == initCount
    }

    ghost function Abs(): State
      reads this, th
    {
      State(calls, Obj(lock, gathered, notifies, resets, wins), byte, th[..])
    }

    /** mwait_barrier_init, and the device driver's initial byte. */
    constructor (nthreads: nat, calls: nat)
      ensures Valid() && fresh(th) && Abs() == Init(nthreads, calls)
    {
      initCount := nthreads;
      this.calls := calls;
      gathered := 0;
      lock := 1;
      byte := M.ORIGINAL_VAL;
      th := new Thread[nthreads](i => Thread(Idle, M.Off, 0, 0, 0));
      notifies, resets, wins := 0, 0, 0;
    }

    /** A store to the monitored line fires every armed monitor. */
    method Store(v: char)
      modifies this`byte, th
      ensures byte == v
      ensures forall j :: 0 <= j < th.Length ==> th[j] == Hit(old(th[j]))
    {
      byte := v;
      for i := 0 to th.Length
        invariant byte == v
        invariant forall j :: 0 <= j < i ==> th[j] == Hit(old(th[j]))
        invariant forall j :: i <= j < th.Length ==> th[j] == old(th[j])
      {
        if th[i].mon == M.Armed {
          th[i] := th[i].(mon := M.Fired);
        }
      }
    }

    /** The first instruction of spin_lock_fast: decrement, and acquire on zero. */
    method DecrementLock() returns (zero: bool)
      modifies this`lock
      ensures lock == L.Swap(L.DecZero, old(lock)) && zero == L.Won(L.DecZero, old(lock))
    {
      lock := if lock == -L.W31 then L.W31 - 1 else lock - 1;
      zero := lock == 0;
    }

    method AtomicDecAndTest() returns (zero: bool)
      modifies this`gathered, this`wins
      ensures gathered == (old(gathered) - 1) % W32
      ensures zero <==> gathered == 0
      ensures wins == old(wins) + (if zero then 1 else 0)
    {
      gathered := (gathered - 1) % W32;
      zero := gathered == 0;
      wins := if zero then wins + 1 else wins;
    }

    /** One instruction of thread `i` inside the sleep system call, entered at `at`. */
    method StepSleep(i: nat, at: M.Pc)
      requires Valid() && i < th.Length && th[i].pc == Sleep(at)
      modifies this`byte, this`resets, th
      ensures Abs() == Next(old(Abs()), Instr(i))
    {
      var t := th[i];
      match at {
        case Arm => th[i] := t.(mon := M.Armed, pc := Sleep(M.Check));
        case Check => th[i] := t.(pc := Sleep(if byte == M.NOTIFIED_VAL then M.Reset else M.Mwait));
        case Mwait =>
          th[i] := if t.mon == M.Armed then t.(pc := Sleep(M.Blocked)) else t.(mon := M.Off, pc := Sleep(M.Recheck));
        case Blocked =>
          if t.mon != M.Armed { th[i] := t.(mon := M.Off, pc := Sleep(M.Recheck)); }
        case Recheck => th[i] := t.(pc := Sleep(if byte == M.NOTIFIED_VAL then M.Reset else M.Arm));
        case Reset =>
          th[i] := t.(pc := DecTest);
          resets := resets + 1;
          Store(M.ORIGINAL_VAL);
        case Pretest => th[i] := t.(pc := Sleep(if byte == M.NOTIFIED_VAL then M.Reset else M.Arm));
        case Out => th[i] := t.(pc := Sleep(M.Arm));
      }
      assert th[..] == Next(old(Abs()), Instr(i)).th;
    }

    /** One instruction of thread `i`. */
    method Step(i: nat)
      requires Valid()
      modifies this, th
      ensures Valid() && th == old(th) && Abs() == Next(old(Abs()), Instr(i))
    {
      if i >= th.Length {
        return;
      }
      var t := th[i];
      match t.pc {
        case Idle =>
          if t.passed != calls { th[i] := t.(pc := LockTry); }
        case LockTry =>
          var zero := DecrementLock();
          th[i] := t.(pc := if zero then IncRead else LockSpin);
        case LockSpin =>
          if lock > 0 { th[i] := t.(pc := LockTry); }
        case IncRead =>
          th[i] := t.(pc := IncWrite, tmp := gathered);
        case IncWrite =>
          gathered := (t.tmp + 1) % W32;
          th[i] := t.(pc := Test, arrived := t.arrived + 1);
        case Test =>
          th[i] := t.(pc := if gathered == initCount then Notify else Unlock);
        case Notify =>
          th[i] := t.(pc := DecTest);
          notifies := notifies + 1;
          Store(M.NOTIFIED_VAL);
        case Unlock =>
          lock := 1;
          th[i] := t.(pc := Sleep(M.Arm));
        case Sleep(at) =>
          StepSleep(i, at);
        case DecTest =>
          var zero := AtomicDecAndTest();
          th[i] := if zero then t.(pc := FinalUnlock) else t.(pc := Idle, passed := t.passed + 1);
        case FinalUnlock =>
          lock := 1;
          th[i] := t.(pc := Idle, passed := t.passed + 1);
      }
      assert th[..] == Next(old(Abs()), Instr(i)).th;
    }

    /** The CPU of thread `i` takes an interrupt. */
    method TakeInterrupt(i: nat)
      requires Valid()
      modifies th
      ensures Abs() == Next(old(Abs()), Interrupt(i))
    {
      if i < th.Length && th[i].mon == M.Armed {
        th[i] := th[i].(mon := M.Fired);
      }
      assert th[..] == Next(old(Abs()), Interrupt(i)).th;
    }

    /** Any schedule, run in place. */
    method Execute(schedule: seq<Event>)
      requires Valid() && Inv(Abs())
      modifies this, th
      ensures Valid() && th == old(th) && Abs() == Run(Next, old(Abs()), schedule) && Inv(Abs())
      ensures forall i, j :: 0 <= i < initCount && 0 <= j < initCount ==> th[i].passed <= th[j].arrived
    {
      ghost var start := Abs();
      for k := 0 to |schedule|
        invariant Valid() && th == old(th)
        invariant Abs() == Run(Next, start, schedule[..k])
      {
        var e := schedule[k];
        RunSnoc(Next, start, schedule[..k], e);
        assert schedule[..k] + [e] == schedule[..k + 1];
        if e.Instr? { Step(e.i); } else { TakeInterrupt(e.i); }
      }
      assert schedule[..|schedule|] == schedule;
      Safety.RunIsSafe(start, schedule);
    }
  }
}
