/** The sense-reversing barrier of spin.c, which counts under a lock: any number of threads, any
    number of rounds. One atomic action per instruction; `current_count++` is a read and a write. */
module LockedBarrier {
  import opened Traces
  import opened Sums
  import B = BarrierSpec
  import L = SpinLocks

  datatype Pc =
    | Idle | LockTry | LockSpin
    | IncRead | IncWrite | Test | ResetCount | SetFlag | Unlock
    | Wait

  /** `arrived` counts the arrivals written to the counter, `passed` the calls returned from. */
  datatype Thread = Thread(pc: Pc, sense: int, tmp: int, arrived: nat, passed: nat)

  /** `rounds` counts the rounds the flag has released. */
  datatype State = State(calls: nat, lock: int, count: int, flag: int, rounds: nat, th: seq<Thread>)

  /** `~x` on a two's-complement int. */
  function Not(x: int): int
  {
    -1 - x
  }

  /** The sense of round `k`, which the flag takes when the round is released. */
  function Sense(k: nat): int
  {
    if k % 2 == 0 then 0 else -1
  }

  function Init(threads: nat, calls: nat): State
  {
    State(calls, 0, 0, 0, 0, seq(threads, i => Thread(Idle, 0, 0, 0, 0)))
  }

  function Put(s: State, i: nat, t: Thread): State
    requires i < |s.th|
  {
    s.(th := s.th[i := t])
  }

  /** One instruction of thread `i`. */
  function Next(s: State, i: nat): State
  {
    if i >= |s.th| then s else
    var t := s.th[i];
    match t.pc
    case Idle => if t.passed == s.calls then s else Put(s, i, t.(pc := LockTry, sense := Not(t.sense)))
    case LockTry =>
      Put(s.(lock := L.Swap(L.XchgSet, s.lock)), i, t.(pc := if L.Won(L.XchgSet, s.lock) then IncRead else LockSpin))
    case LockSpin => if L.LooksFree(L.XchgSet, s.lock) then Put(s, i, t.(pc := LockTry)) else s
    case IncRead => Put(s, i, t.(pc := IncWrite, tmp := s.count))
    case IncWrite => Put(s.(count := t.tmp + 1), i, t.(pc := Test, arrived := t.arrived + 1))
    case Test => Put(s, i, t.(pc := if s.count == |s.th| then ResetCount else Unlock))
    case ResetCount => Put(s.(count := 0), i, t.(pc := SetFlag))
    case SetFlag => Put(s.(flag := t.sense, rounds := s.rounds + 1), i, t.(pc := Unlock))
    case Unlock => Put(s.(lock := L.FreeWord(L.XchgSet)), i, t.(pc := Wait))
    case Wait => if s.flag == t.sense then Put(s, i, t.(pc := Idle, passed := t.passed + 1)) else s
  }

  // ---------- the invariant ----------

  function CallOf(t: Thread): B.Call
  {
    B.Call(t.arrived, t.passed)
  }

  /** What the barrier specification sees of a state. */
  function Seen(s: State): (cs: seq<B.Call>)
    ensures |cs| == |s.th|
  {
    B.Calls(s.th, CallOf)
  }

  predicate InCritical(t: Thread)
  {
    t.pc in {IncRead, IncWrite, Test, ResetCount, SetFlag, Unlock}
  }

  /** What a thread's program counter says of its arrivals, calls and sense, while the flag has
      released `rounds` rounds. */
  predicate ThreadOk(t: Thread, calls: nat, rounds: nat)
  {
    && t.passed <= calls && (t.pc != Idle ==> t.passed < calls)
    && match t.pc
       case Idle => t.arrived == t.passed == rounds && t.sense == Sense(t.arrived)
       case LockTry => t.arrived == t.passed == rounds && t.sense == Sense(t.arrived + 1)
       case LockSpin => t.arrived == t.passed == rounds && t.sense == Sense(t.arrived + 1)
       case IncRead => t.arrived == t.passed == rounds && t.sense == Sense(t.arrived + 1)
       case IncWrite => t.arrived == t.passed == rounds && t.sense == Sense(t.arrived + 1)
       case Test => t.arrived == t.passed + 1 == rounds + 1 && t.sense == Sense(t.arrived)
       case ResetCount => t.arrived == t.passed + 1 == rounds + 1 && t.sense == Sense(t.arrived)
       case SetFlag => t.arrived == t.passed + 1 == rounds + 1 && t.sense == Sense(t.arrived)
       case Unlock => t.arrived == t.passed + 1 && rounds <= t.arrived <= rounds + 1 && t.sense == Sense(t.arrived)
       case Wait => t.arrived == t.passed + 1 && rounds <= t.arrived <= rounds + 1 && t.sense == Sense(t.arrived)
  }

  /** Arrivals in the open round. */
  function Open(s: State): nat
  {
    B.Arrivals(Seen(s), s.rounds + 1)
  }

  /** What the thread inside the critical section knows of the counter. */
  predicate CriticalOk(s: State, t: Thread)
  {
    match t.pc
    case IncRead => s.count == Open(s)
    case IncWrite => t.tmp == s.count == Open(s)
    case Test => s.count == Open(s)
    case ResetCount => s.count == Open(s) == |s.th|
    case SetFlag => s.count == 0 && Open(s) == |s.th|
    case Unlock => s.count == Open(s) < |s.th|
    case _ => true
  }

  ghost predicate Threads(s: State)
  {
    (forall i :: 0 <= i < |s.th| ==> ThreadOk(s.th[i], s.calls, s.rounds)) && s.flag == Sense(s.rounds)
  }

  ghost predicate Inside(s: State, i: int)
  {
    0 <= i < |s.th| && InCritical(s.th[i])
  }

  /** At most one thread is in the critical section, and the lock word tells whether one is. */
  ghost predicate Exclusive(s: State)
  {
    && (forall i, j :: Inside(s, i) && Inside(s, j) ==> i == j)
    && (s.lock == 0 || s.lock == 1)
    && (s.lock == 0 <==> forall i :: !Inside(s, i))
  }

  ghost predicate Counter(s: State)
  {
    && (forall i :: Inside(s, i) ==> CriticalOk(s, s.th[i]))
    && (s.lock == 0 && |s.th| > 0 ==> s.count == Open(s) < |s.th|)
  }

  ghost predicate Inv(s: State)
  {
    Threads(s) && Exclusive(s) && Counter(s)
  }

  lemma InitInv(threads: nat, calls: nat)
    ensures Inv(Init(threads, calls))
  {
    B.ArrivalsFull(Seen(Init(threads, calls)), 1);
  }

  /** When a round is released every thread has arrived, so every other thread waits. */
  lemma AllHaveArrived(s: State, i: nat)
    requires Inv(s) && Inside(s, i) && s.th[i].pc == SetFlag
    ensures forall j :: 0 <= j < |s.th| ==> s.th[j].arrived == s.rounds + 1
    ensures forall j :: 0 <= j < |s.th| && j != i ==> s.th[j].pc == Wait
  {
    assert CriticalOk(s, s.th[i]);
    B.ArrivalsFull(Seen(s), s.rounds + 1);
    forall j | 0 <= j < |s.th| && j != i ensures s.th[j].pc == Wait {
      assert ThreadOk(s.th[j], s.calls, s.rounds);
      assert Inside(s, j) ==> i == j;
    }
  }

  lemma OwnThreadStep(s: State, i: nat)
    requires Threads(s) && i < |s.th|
    ensures var u := Next(s, i); |u.th| == |s.th| && ThreadOk(u.th[i], u.calls, u.rounds)
  {
    assert ThreadOk(s.th[i], s.calls, s.rounds);
  }

  lemma ThreadsStep(s: State, i: nat)
    requires Inv(s)
    ensures Threads(Next(s, i))
  {
    if i < |s.th| {
      var u := Next(s, i);
      OwnThreadStep(s, i);
      assert ThreadOk(s.th[i], s.calls, s.rounds);
      if s.th[i].pc == SetFlag {
        assert Inside(s, i);
        AllHaveArrived(s, i);
      }
      forall j | 0 <= j < |u.th| && j != i ensures ThreadOk(u.th[j], u.calls, u.rounds) {
        assert ThreadOk(s.th[j], s.calls, s.rounds);
      }
    }
  }

  lemma ExclusiveStep(s: State, i: nat)
    requires Exclusive(s)
    ensures Exclusive(Next(s, i))
  {
    if i < |s.th| {
      var u := Next(s, i);
      assert forall j :: j != i ==> (Inside(u, j) <==> Inside(s, j));
      if Inside(s, i) {
        assert s.lock == 1;
        assert forall j :: j != i ==> !Inside(s, j);
        assert s.th[i].pc != Unlock ==> Inside(u, i);
      } else if Inside(u, i) {
        assert s.lock == 0 && u.lock == 1;
        assert forall j :: !Inside(s, j);
      } else {
        assert s.lock == 1 ==> exists j :: Inside(s, j) && Inside(u, j);
        assert u.lock == s.lock;
      }
    }
  }

  lemma ReleaseEmptiesRound(s: State, i: nat)
    requires Inv(s) && Inside(s, i) && s.th[i].pc == SetFlag
    ensures Open(s) == |s.th| && Open(Next(s, i)) == 0
  {
    AllHaveArrived(s, i);
    B.ArrivalsFull(Seen(s), s.rounds + 1);
    B.ArrivalsFull(Seen(Next(s, i)), s.rounds + 2);
  }

  lemma {:induction false} CountChange(cs: seq<B.Call>, i: nat, c: B.Call, rounds: nat)
    requires i < |cs| && rounds <= cs[i].arrived <= c.arrived <= rounds + 1
    ensures B.Arrivals(cs[i := c], rounds + 1) == B.Arrivals(cs, rounds + 1) + c.arrived - cs[i].arrived <= |cs|
  {
    B.ArrivalsUpdate(cs, i, c, rounds + 1);
    B.ArrivalsFull(cs[i := c], rounds + 1);
  }

  lemma OpenStep(s: State, i: nat)
    requires Threads(s) && i < |s.th| && s.th[i].pc != SetFlag
    ensures Open(Next(s, i)) == Open(s) + (if s.th[i].pc == IncWrite then 1 else 0) <= |s.th|
  {
    var u := Next(s, i);
    assert ThreadOk(s.th[i], s.calls, s.rounds);
    CountChange(Seen(s), i, CallOf(u.th[i]), s.rounds);
    assert Seen(u) == Seen(s)[i := CallOf(u.th[i])];
  }

  lemma CounterStep(s: State, i: nat)
    requires Inv(s)
    ensures Counter(Next(s, i))
  {
    if i < |s.th| {
      var u := Next(s, i);
      ExclusiveStep(s, i);
      if Inside(s, i) {
        assert CriticalOk(s, s.th[i]);
      }
      if s.th[i].pc == SetFlag { ReleaseEmptiesRound(s, i); } else { OpenStep(s, i); }
      forall j | Inside(u, j) ensures CriticalOk(u, u.th[j]) {
        if j != i {
          assert Inside(s, j) && CriticalOk(s, s.th[j]);
          assert !Inside(s, i) && !Inside(u, i);
        }
      }
    }
  }

  lemma InvStep(s: State, i: nat)
    requires Inv(s)
    ensures Inv(Next(s, i))
  {
    ThreadsStep(s, i);
    ExclusiveStep(s, i);
    CounterStep(s, i);
  }

  function Reached(threads: nat, calls: nat, es: seq<nat>): State
  {
    Run(Next, Init(threads, calls), es)
  }

  ghost predicate InvFor(threads: nat, calls: nat, s: State)
  {
    Inv(s) && |s.th| == threads && s.calls == calls
  }

  lemma InvIsKept(threads: nat, calls: nat)
    ensures forall s, i :: InvFor(threads, calls, s) ==> InvFor(threads, calls, Next(s, i))
  {
    forall s, i | InvFor(threads, calls, s) ensures InvFor(threads, calls, Next(s, i)) {
      InvStep(s, i);
    }
  }

  lemma {:induction false} ReachedInv(threads: nat, calls: nat, es: seq<nat>)
    ensures InvFor(threads, calls, Reached(threads, calls, es))
  {
    InitInv(threads, calls);
    InvIsKept(threads, calls);
    Invariance(Next, (s: State) => InvFor(threads, calls, s), Init(threads, calls), es);
  }

  /** Whenever the lock is free the counter holds the arrivals of the open round, which is not
      full, and the flag the sense of the last complete round. The counter never exceeds `total`. */
  lemma {:induction false} CounterAndFlag(threads: nat, calls: nat, es: seq<nat>)
    requires threads > 0
    ensures var s := Reached(threads, calls, es);
            && (s.lock == 0 ==> s.count == B.Arrivals(Seen(s), s.rounds + 1) < threads)
            && s.flag == (if s.rounds % 2 == 0 then 0 else -1)
            && 0 <= s.count <= threads
  {
    ReachedInv(threads, calls, es);
    var s := Reached(threads, calls, es);
    B.ArrivalsFull(Seen(s), s.rounds + 1);
    if s.lock == 1 {
      var i :| Inside(s, i);
      assert CriticalOk(s, s.th[i]);
    }
  }

  lemma CountsOfStep(s: State, i: nat)
    requires Threads(s) && i < |s.th|
    ensures var t, u := s.th[i], Next(s, i).th[i];
            || (u.arrived == t.arrived && u.passed == t.passed)
            || (u.arrived == t.arrived + 1 && u.passed == t.passed == t.arrived)
            || (u.arrived == t.arrived == t.passed + 1 == s.rounds && u.passed == t.passed + 1)
  {
    assert ThreadOk(s.th[i], s.calls, s.rounds);
  }

  /** Every step of this barrier is a step of the barrier specification, or no step at all. */
  lemma StepRefinesSpec(s: State, i: nat)
    requires Threads(s)
    ensures B.Allowed(Seen(s), Seen(Next(s, i)), i)
  {
    if i < |s.th| {
      var a, b := Seen(s), Seen(Next(s, i));
      CountsOfStep(s, i);
      assert b == a[i := b[i]];
      forall j | 0 <= j < |a| ensures a[j].arrived >= s.rounds {
        assert ThreadOk(s.th[j], s.calls, s.rounds);
      }
    }
  }

  /** So every run of this barrier is a run of the specification. */
  lemma {:induction false} RunRefinesSpec(threads: nat, calls: nat, es: seq<nat>)
    ensures B.IsRun(B.Trace(Next, Seen, Init(threads, calls), es))
  {
    InitInv(threads, calls);
    forall x, i | Inv(x) ensures Inv(Next(x, i)) && B.SomeAllowed(Seen(x), Seen(Next(x, i))) {
      InvStep(x, i);
      StepRefinesSpec(x, i);
    }
    B.TraceIsRun(Next, Inv, Seen, Init(threads, calls), es);
  }

  /** Nobody leaves round k before all have entered it, and all threads are within one round. */
  lemma {:induction false} NoEarlyReturn(threads: nat, calls: nat, es: seq<nat>, i: nat, j: nat)
    requires i < threads && j < threads
    ensures var s := Reached(threads, calls, es);
            && |s.th| == threads
            && s.th[i].passed <= s.rounds <= s.th[j].arrived <= s.rounds + 1
            && s.th[i].passed <= s.th[j].passed + 1
  {
    ReachedInv(threads, calls, es);
    RunRefinesSpec(threads, calls, es);
    B.RefinementStaysInStep(Next, Seen, Init(threads, calls), es, i, j);
    var s := Reached(threads, calls, es);
    assert ThreadOk(s.th[i], s.calls, s.rounds) && ThreadOk(s.th[j], s.calls, s.rounds);
  }

  /** A thread turns its sense round before it takes the lock; and the flag is stored under the lock,
      after the counter is reset, when everybody has arrived. */
  lemma {:induction false} SenseAndRelease(threads: nat, calls: nat, es: seq<nat>, i: nat)
    requires i < threads
    ensures var s := Reached(threads, calls, es);
            && |s.th| == threads
            && var t, u := s.th[i], Next(s, i);
            && t.sense == (if (t.passed % 2 == 0) == (t.pc == Idle) then 0 else -1)
            && (u.flag != s.flag ==>
                && s.lock == u.lock == 1 && s.count == u.count == 0
                && forall j :: 0 <= j < threads ==> s.th[j].arrived == s.rounds + 1)
  {
    ReachedInv(threads, calls, es);
    var s := Reached(threads, calls, es);
    assert ThreadOk(s.th[i], s.calls, s.rounds);
    if s.th[i].pc == SetFlag {
      assert Inside(s, i);
      AllHaveArrived(s, i);
    }
  }

  /** An attempt leaves the lock taken, and acquires it exactly if it was free; the spin loop only looks,
      and is left exactly when the lock is free. */
  lemma {:induction false} AttemptOrLook(threads: nat, calls: nat, es: seq<nat>, i: nat)
    requires i < threads
    ensures var s := Reached(threads, calls, es);
            && |s.th| == threads
            && var t, u := s.th[i], Next(s, i);
            && |u.th| == threads
            && (t.pc == LockTry ==>
                u.lock == 1 && u.th[i] == t.(pc := if s.lock == 0 then IncRead else LockSpin))
            && (t.pc == LockSpin ==>
                u.lock == s.lock && u.th[i] == t.(pc := if s.lock == 0 then LockTry else LockSpin))
  {
    ReachedInv(threads, calls, es);
  }

  /** An instruction does not both read and write the counter: it leaves any value there alone, or
      stores a value, and takes a step, that do not depend on it. */
  lemma IncrementIsTwoAccesses(s: State, i: nat, c: int)
    ensures var u, v := Next(s, i), Next(s.(count := c), i);
            (u.count == s.count && v.count == c) || u == v
  {
  }

  // ---------- a round, thread by thread ----------

  function Turns(s: State, i: nat, m: nat): State
  {
    Repeat(Next, s, i, m)
  }

  predicate RestsAfter(t: Thread, k: nat)
  {
    t.pc == Idle && t.arrived == t.passed == k && t.sense == Sense(k)
  }

  /** Two threads between their calls, after `k` rounds. */
  predicate Resting(s: State, k: nat)
  {
    && |s.th| == 2 && RestsAfter(s.th[0], k) && RestsAfter(s.th[1], k)
    && s.lock == 0 && s.count == 0 && s.flag == Sense(k) && s.rounds == k
  }

  /** The first to arrive waits after its sixth instruction, with the lock free again. */
  lemma FirstWaits(s: State, k: nat)
    requires Resting(s, k) && k < s.calls
    ensures var u := Turns(s, 0, 6);
            && u == s.(count := 1, th := [Thread(Wait, Sense(k + 1), 0, k + 1, k), s.th[1]])
            && |Turns(s, 0, 5).th| == 2 && Turns(s, 0, 5).lock == 1
  {
    assert Turns(s, 0, 3).th[0].pc == IncWrite && Turns(s, 0, 3).count == 0;
    assert Turns(s, 0, 6).th == [Thread(Wait, Sense(k + 1), 0, k + 1, k), s.th[1]];
  }

  /** The second finds the counter full, and has reset it after its sixth. */
  lemma SecondResets(s: State, k: nat)
    requires |s.th| == 2 && RestsAfter(s.th[1], k) && k < s.calls
    requires s.th[0] == Thread(Wait, Sense(k + 1), 0, k + 1, k)
    requires s.lock == 0 && s.count == 1 && s.flag == Sense(k) && s.rounds == k
    ensures Turns(s, 1, 5).count == 2
    ensures Turns(s, 1, 6) ==
            s.(lock := 1, count := 0, th := [s.th[0], Thread(SetFlag, Sense(k + 1), 1, k + 1, k)])
  {
    assert Turns(s, 1, 3).th[1].pc == IncWrite && Turns(s, 1, 3).count == 1;
    assert Turns(s, 1, 6).th == [s.th[0], Thread(SetFlag, Sense(k + 1), 1, k + 1, k)];
  }

  /** It releases the round at its next instruction and returns two later, and the first returns at
      its next. */
  lemma BothReturn(s: State, k: nat)
    requires s.th == [Thread(Wait, Sense(k + 1), 0, k + 1, k), Thread(SetFlag, Sense(k + 1), 1, k + 1, k)]
    requires s.lock == 1 && s.count == 0 && s.rounds == k
    ensures Next(s, 1).rounds == k + 1 && Next(s, 1).lock == 1
    ensures |Turns(s, 1, 2).th| == 2 && Turns(s, 1, 2).th[1].passed == k
    ensures Resting(Next(Turns(s, 1, 3), 0), k + 1) && Next(Turns(s, 1, 3), 0).calls == s.calls
  {
    assert RestsAfter(Turns(s, 1, 3).th[1], k + 1);
  }

  // ---------- progress ----------

  ghost predicate Finished(s: State)
  {
    forall i :: 0 <= i < |s.th| ==> s.th[i].passed == s.calls
  }

  /** How far a thread is from the end of its call; acquiring the lock outweighs what it costs
      the other threads that now find it taken. */
  function Distance(n: nat, lock: int, pc: Pc): nat
  {
    match pc
    case Idle => 3 * n + 40
    case LockTry => 3 * n + (if lock == 0 then 30 else 33)
    case LockSpin => 3 * n + (if lock == 0 then 31 else 32)
    case IncRead => 10
    case IncWrite => 9
    case Test => 8
    case ResetCount => 7
    case SetFlag => 6
    case Unlock => 5
    case Wait => 4
  }

  function Weight(s: State, i: nat): nat
    requires i < |s.th|
  {
    var t := s.th[i];
    if t.passed >= s.calls then 0 else Cost(3 * |s.th| + 50, s.calls - t.passed) + Distance(|s.th|, s.lock, t.pc)
  }

  function Measure(s: State): nat
  {
    Sum(Weights(s))
  }

  function Weights(s: State): (ws: seq<nat>)
    ensures |ws| == |s.th|
  {
    seq(|s.th|, i requires 0 <= i < |s.th| => Weight(s, i))
  }

  /** Thread `i` is neither done, nor spinning on a held lock, nor waiting for its round. */
  ghost predicate Helpful(s: State, i: nat)
  {
    && i < |s.th| && s.th[i].passed < s.calls
    && (s.th[i].pc == LockSpin ==> s.lock == 0)
    && (s.th[i].pc == Wait ==> s.flag == s.th[i].sense)
  }

  /** The distance falls, or the call ends. */
  lemma DistanceFalls(s: State, i: nat)
    requires Inv(s) && Helpful(s, i)
    ensures var u := Next(s, i);
            var n := |s.th|;
            && |u.th| == n && u.calls == s.calls
            && (s.th[i].pc != Wait ==>
                && u.th[i].passed == s.th[i].passed
                && Distance(n, u.lock, u.th[i].pc) + (if s.lock == 0 && u.lock == 1 then 3 * n else 0)
                   < Distance(n, s.lock, s.th[i].pc))
            && (s.th[i].pc == Wait ==> u.th[i].passed == s.th[i].passed + 1 && u.th[i].pc == Idle && u.lock == s.lock)
  {
    assert ThreadOk(s.th[i], s.calls, s.rounds);
    assert s.lock == 0 ==> !Inside(s, i);
  }

  lemma OwnWeightFalls(s: State, i: nat)
    requires Inv(s) && Helpful(s, i)
    ensures |Next(s, i).th| == |s.th|
    ensures var u := Next(s, i);
            Weight(u, i) + (if s.lock == 0 && u.lock == 1 then 3 * |s.th| else 0) < Weight(s, i)
  {
    DistanceFalls(s, i);
  }

  lemma OthersRiseLittle(s: State, i: nat, j: nat)
    requires Inv(s) && i < |s.th| && j < |s.th| && j != i
    ensures var u := Next(s, i); Weight(u, j) <= Weight(s, j) + (if s.lock == 0 && u.lock == 1 then 3 else 0)
  {
  }

  /** Every step either leaves the state as it is or brings the system closer to the end. */
  lemma MeasureStep(s: State, i: nat)
    requires Inv(s)
    ensures Helpful(s, i) ==> Measure(Next(s, i)) < Measure(s)
    ensures !Helpful(s, i) ==> Next(s, i) == s
  {
    if Helpful(s, i) {
      var u := Next(s, i);
      var taken := s.lock == 0 && u.lock == 1;
      OwnWeightFalls(s, i);
      forall j | 0 <= j < |s.th| && j != i ensures Weights(u)[j] <= Weights(s)[j] + (if taken then 3 else 0) {
        OthersRiseLittle(s, i, j);
      }
      SumCompare(Weights(s), Weights(u), i, if taken then 3 else 0);
    } else if i < |s.th| {
      assert ThreadOk(s.th[i], s.calls, s.rounds);
    }
  }

  /** Somebody waits for the open round, which is not full: somebody else has yet to arrive. */
  lemma LatecomerAdvances(s: State, i: nat)
    requires Inv(s) && s.lock == 0 && i < |s.th| && s.th[i].pc == Wait && s.flag != s.th[i].sense
    ensures exists j :: Helpful(s, j)
  {
    assert ThreadOk(s.th[i], s.calls, s.rounds);
    B.ArrivalsFull(Seen(s), s.rounds + 1);
    var j :| 0 <= j < |s.th| && s.th[j].arrived != s.rounds + 1;
    assert ThreadOk(s.th[j], s.calls, s.rounds);
    assert Helpful(s, j);
  }

  /** No reachable unfinished state is stuck. */
  lemma SomeThreadAdvances(s: State)
    requires Inv(s) && !Finished(s)
    ensures exists i :: Helpful(s, i)
  {
    var i :| 0 <= i < |s.th| && s.th[i].passed != s.calls;
    assert ThreadOk(s.th[i], s.calls, s.rounds);
    if s.lock == 1 {
      var c :| Inside(s, c);
      assert ThreadOk(s.th[c], s.calls, s.rounds);
      assert Helpful(s, c);
    } else if s.th[i].pc != Wait || s.flag == s.th[i].sense {
      assert Helpful(s, i);
    } else {
      LatecomerAdvances(s, i);
    }
  }

  lemma ProgressIsRanked(threads: nat, calls: nat)
    ensures Ranked(Next, (s: State) => InvFor(threads, calls, s), Finished, Measure, Helpful)
  {
    var inv := (s: State) => InvFor(threads, calls, s);
    InvIsKept(threads, calls);
    forall x, i | inv(x) ensures if Helpful(x, i) then Measure(Next(x, i)) < Measure(x) else Next(x, i) == x {
      MeasureStep(x, i);
    }
    forall x | inv(x) && !Finished(x) ensures exists i :: Helpful(x, i) {
      SomeThreadAdvances(x);
    }
    ChangesAreRanked(Next, inv, Finished, Measure, Helpful);
  }

  /** Every call of every thread returns, under every schedule that is fair to the threads. */
  lemma EveryFairRunFinishes(threads: nat, calls: nat, schedule: nat -> nat) returns (k: nat)
    requires FairTo(threads, schedule, Turn)
    ensures Finished(After(Next, Init(threads, calls), schedule, k))
  {
    var inv := (s: State) => InvFor(threads, calls, s);
    InitInv(threads, calls);
    ProgressIsRanked(threads, calls);
    forall x, i: nat | inv(x) && Helpful(x, i) ensures exists j: nat :: j < threads && Turn(j) == i {
      assert Turn(i) == i;
    }
    FairToHelpful(threads, schedule, Turn, inv, Helpful);
    k := FairRunReaches(Next, inv, Finished, Measure, Helpful, Init(threads, calls), schedule, 0);
  }

  lemma {:induction false} InitMeasure(threads: nat, calls: nat)
    ensures Measure(Init(threads, calls)) <= threads * ((calls + 1) * (3 * threads + 50))
  {
    var s, each := Init(threads, calls), 3 * threads + 50;
    CostIs(each, calls + 1);
    assert Cost(each, calls + 1) == each + Cost(each, calls);
    SumBound(Weights(s), Cost(each, calls + 1));
  }

  /** Fair or not, a run has a bounded number of steps that change anything, quadratic in the threads
      and linear in the calls: the rest are failed looks at the lock and at the flag. */
  lemma {:induction false} RunsAreShort(threads: nat, calls: nat, es: seq<nat>)
    ensures Changes(Next, Nothing, Init(threads, calls), es) <= threads * ((calls + 1) * (3 * threads + 50))
  {
    InitInv(threads, calls);
    forall x, i | Inv(x) ensures Inv(Next(x, i)) && (Next(x, i) == x || Measure(Next(x, i)) < Measure(x)) {
      InvStep(x, i);
      MeasureStep(x, i);
    }
    ChangesAreBounded(Next, Nothing, Inv, Measure, 0, Init(threads, calls), es);
    InitMeasure(threads, calls);
  }

  // ---------- the barrier in place ----------

  class SpinBarrier {
    const total: nat
    const calls: nat
    var lock: int
    var count: int
    var flag: int
    var th: array<Thread>
    ghost var rounds: nat

    ghost predicate Valid()
      reads this
    {
      th.Length == total
    }

    ghost function Abs(): State
      reads this, th
    {
      State(calls, lock, count, flag, rounds, th[..])
    }

    /** spin_barrier_init, and spin_barrier_init_lsense for every thread. */
    constructor (total: nat, calls: nat)
      ensures Valid() && fresh(th) && this.total == total && Abs() == Init(total, calls)
    {
      this.total := total;
      this.calls := calls;
      lock, count, flag := 0, 0, 0;
      th := new Thread[total](i => Thread(Idle, 0, 0, 0, 0));
      rounds := 0;
    }

    /** Exchange the lock word with 1. */
    method ExchangeLock() returns (before: int)
      modifies this`lock
      ensures before == old(lock) && lock == L.Swap(L.XchgSet, old(lock))
    {
      before := lock;
      lock := 1;
    }

    /** One instruction of thread `i`. */
    method Step(i: nat)
      requires Valid()
      modifies this, th
      ensures Valid() && th == old(th) && Abs() == Next(old(Abs()), i)
    {
      if i >= th.Length {
        return;
      }
      var t := th[i];
      match t.pc {
        case Idle =>
          if t.passed != calls { th[i] := t.(pc := LockTry, sense := -1 - t.sense); }
        case LockTry =>
          var before := ExchangeLock();
          th[i] := t.(pc := if before == 0 then IncRead else LockSpin);
        case LockSpin =>
          if lock == 0 { th[i] := t.(pc := LockTry); }
        case IncRead =>
          th[i] := t.(pc := IncWrite, tmp := count);
        case IncWrite =>
          count := t.tmp + 1;
          th[i] := t.(pc := Test, arrived := t.arrived + 1);
        case Test =>
          th[i] := t.(pc := if count == total then ResetCount else Unlock);
        case ResetCount =>
          count := 0;
          th[i] := t.(pc := SetFlag);
        case SetFlag =>
          flag := t.sense;
          rounds := rounds + 1;
          th[i] := t.(pc := Unlock);
        case Unlock =>
          lock := 0;
          th[i] := t.(pc := Wait);
        case Wait =>
          if flag == t.sense { th[i] := t.(pc := Idle, passed := t.passed + 1); }
      }
      assert th[..] == Next(old(Abs()), i).th;
    }

    /** Any schedule, run in place. */
    method Execute(schedule: seq<nat>)
      requires Valid() && Inv(Abs())
      modifies this, th
      ensures Valid() && th == old(th) && Abs() == Run(Next, old(Abs()), schedule) && Inv(Abs())
    {
      ghost var start := Abs();
      for k := 0 to |schedule|
        invariant Valid() && th == old(th)
        invariant Abs() == Run(Next, start, schedule[..k])
      {
        RunSnoc(Next, start, schedule[..k], schedule[k]);
        assert schedule[..k] + [schedule[k]] == schedule[..k + 1];
        Step(schedule[k]);
      }
      assert schedule[..|schedule|] == schedule;
      InvIsKept(|start.th|, calls);
      Invariance(Next, (s: State) => InvFor(|start.th|, start.calls, s), start, schedule);
    }
  }
}
