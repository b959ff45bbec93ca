/** The sense-reversing barrier of synch.h, which increments the counter atomically and then reads
    it again: any number of threads, any number of rounds. Several threads can find the counter
    full, and a late reset can erase arrivals of the next round. */
module LockFreeBarrier {
  import opened Traces
  import B = BarrierSpec

  datatype Pc = Idle | Inc | Test | ResetCount | SetFlag | Wait

  /** `arrived` counts increments of the counter, `passed` the calls returned from. */
  datatype Thread = Thread(pc: Pc, sense: int, arrived: nat, passed: nat)

  /** `rounds` counts the rounds the flag has released. */
  datatype State = State(calls: nat, count: int, flag: int, rounds: nat, th: seq<Thread>)

  /** The sense of round `k`: flag and senses start at 1. */
  function Sense(k: nat): int
  {
    if k % 2 == 0 then 1 else 0
  }

  /** `!x` */
  function Not(x: int): int
  {
    if x == 0 then 1 else 0
  }

  function Fresh(): Thread
  {
    Thread(Idle, 1, 0, 0)
  }

  function Init(threads: nat, calls: nat): State
  {
    State(calls, 0, 1, 0, seq(threads, i => Fresh()))
  }

  function Put(s: State, i: nat, t: Thread): State
    requires i < |s.th|
  {
    s.(th := s.th[i := t])
  }

  function Return(t: Thread): Thread
  {
    t.(pc := Idle, passed := t.passed + 1)
  }

  /** One instruction of thread `i`. A store of the flag releases a round unless an earlier store
      of the same round already has. */
  function Next(s: State, i: nat): State
  {
    if i >= |s.th| then s else
    var t := s.th[i];
    match t.pc
    case Idle => if t.passed == s.calls then s else Put(s, i, t.(pc := Inc, sense := Not(t.sense)))
    case Inc => Put(s.(count := s.count + 1), i, t.(pc := Test, arrived := t.arrived + 1))
    case Test => Put(s, i, t.(pc := if s.count == |s.th| then ResetCount else Wait))
    case ResetCount => Put(s.(count := 0), i, t.(pc := SetFlag))
    case SetFlag =>
      Put(s.(flag := t.sense, rounds := if t.sense == s.flag then s.rounds else s.rounds + 1), i, Return(t))
    case Wait => if s.flag == t.sense then Put(s, i, Return(t)) else s
  }

  function Open(s: State): nat
  {
    B.Arrivals(Seen(s), s.rounds + 1)
  }

  function CallOf(t: Thread): B.Call
  {
    B.Call(t.arrived, t.passed)
  }

  /** What the barrier specification sees of a state. */
  function Seen(s: State): (cs: seq<B.Call>)
    ensures |cs| == |s.th|
  {
    B.Calls(s.th, CallOf)
  }

  predicate ThreadOk(t: Thread, calls: nat, rounds: nat)
  {
    && t.passed <= calls && (t.pc != Idle ==> t.passed < calls)
    && match t.pc
       case Idle => t.arrived == t.passed == rounds && t.sense == Sense(t.arrived)
       case Inc => t.arrived == t.passed == rounds && t.sense == Sense(t.arrived + 1)
       case _ => t.arrived == t.passed + 1 && rounds <= t.arrived <= rounds + 1 && t.sense == Sense(t.arrived)
  }

  /** About to reset the counter or set the flag. */
  predicate AtReset(t: Thread)
  {
    t.pc in {ResetCount, SetFlag}
  }

  /** Found the open round full. */
  ghost predicate Closer(s: State, i: int)
  {
    0 <= i < |s.th| && AtReset(s.th[i]) && s.th[i].arrived == s.rounds + 1
  }

  /** Still to reset the counter for a round that somebody else has released. */
  ghost predicate LateReset(s: State, i: int)
  {
    0 <= i < |s.th| && s.th[i].pc == ResetCount && s.th[i].arrived == s.rounds
  }

  /** Will read the counter of the open round, or has found it full and not yet reset it. */
  ghost predicate Watcher(s: State, i: int)
  {
    0 <= i < |s.th| && s.th[i].pc in {Test, ResetCount} && s.th[i].arrived == s.rounds + 1
  }

  ghost predicate Threads(s: State)
  {
    (forall i :: 0 <= i < |s.th| ==> ThreadOk(s.th[i], s.calls, s.rounds)) && s.flag == Sense(s.rounds)
  }

  /** The counter never exceeds the arrivals of the open round; only a full round is closed; and a
      full counter has somebody to notice it. */
  ghost predicate Counter(s: State)
  {
    && 0 <= s.count <= Open(s)
    && (forall i :: Closer(s, i) ==> Open(s) == |s.th|)
    && (forall i :: Closer(s, i) && s.th[i].pc == SetFlag ==> s.count == 0)
    && (s.count == |s.th| > 0 ==> exists i :: Watcher(s, i))
  }

  ghost predicate Inv(s: State)
  {
    Threads(s) && Counter(s)
  }

  lemma InitInv(threads: nat, calls: nat)
    ensures Inv(Init(threads, calls))
  {
    B.ArrivalsFull(Seen(Init(threads, calls)), 1);
  }

  lemma FullRound(s: State)
    requires Threads(s)
    ensures Open(s) <= |s.th|
    ensures Open(s) == |s.th| <==> forall i :: 0 <= i < |s.th| ==> s.th[i].arrived == s.rounds + 1
    ensures Open(s) == 0 <==> forall i :: 0 <= i < |s.th| ==> s.th[i].arrived == s.rounds
  {
    B.ArrivalsFull(Seen(s), s.rounds + 1);
    forall i | 0 <= i < |s.th| ensures s.rounds <= s.th[i].arrived <= s.rounds + 1 {
      assert ThreadOk(s.th[i], s.calls, s.rounds);
    }
  }

  /** The first store of a round's flag finds every thread arrived and the counter reset. */
  lemma ReleaseKeepsInv(s: State, i: nat)
    requires Inv(s) && 0 <= i < |s.th| && Releases(s, i)
    ensures Inv(Next(s, i)) && Next(s, i).rounds == s.rounds + 1 && Open(Next(s, i)) == 0
  {
    var u := Next(s, i);
    assert Closer(s, i);
    FullRound(s);
    assert ThreadOk(s.th[i], s.calls, s.rounds);
    forall j | 0 <= j < |u.th| ensures ThreadOk(u.th[j], u.calls, u.rounds) {
      assert ThreadOk(s.th[j], s.calls, s.rounds);
    }
    FullRound(u);
  }

  predicate Releases(s: State, i: nat)
    requires i < |s.th|
  {
    s.th[i].pc == SetFlag && s.th[i].arrived == s.rounds + 1
  }

  lemma ThreadsStep(s: State, i: nat)
    requires Threads(s) && i < |s.th| && !Releases(s, i)
    ensures Threads(Next(s, i)) && Next(s, i).rounds == s.rounds
  {
    var u := Next(s, i);
    assert ThreadOk(s.th[i], s.calls, s.rounds);
    forall j | 0 <= j < |u.th| ensures ThreadOk(u.th[j], u.calls, u.rounds) {
      assert ThreadOk(s.th[j], s.calls, s.rounds);
    }
  }

  lemma OpenStep(s: State, i: nat)
    requires Threads(s) && i < |s.th| && !Releases(s, i)
    ensures Open(Next(s, i)) == Open(s) + (if s.th[i].pc == Inc then 1 else 0)
  {
    var u := Next(s, i);
    ThreadsStep(s, i);
    assert ThreadOk(s.th[i], s.calls, s.rounds);
    B.ArrivalsUpdate(Seen(s), i, CallOf(u.th[i]), s.rounds + 1);
    assert Seen(u) == Seen(s)[i := CallOf(u.th[i])];
  }

  lemma CounterStep(s: State, i: nat)
    requires Inv(s) && i < |s.th| && !Releases(s, i)
    ensures Counter(Next(s, i))
  {
    var u := Next(s, i);
    ThreadsStep(s, i);
    OpenStep(s, i);
    FullRound(s);
    FullRound(u);
    assert ThreadOk(s.th[i], s.calls, s.rounds);
    forall j | Closer(u, j) ensures Open(u) == |u.th| && (u.th[j].pc == SetFlag ==> u.count == 0) {
      if j != i {
        assert Closer(s, j);
        assert s.th[i].pc != Inc;
      } else if s.th[i].pc == ResetCount {
        assert Closer(s, i);
      }
    }
    if u.count == |u.th| > 0 {
      if s.th[i].pc == Inc {
        assert Watcher(u, i);
      } else {
        var w :| Watcher(s, w);
        assert Watcher(u, w);
      }
    }
  }

  lemma InvStep(s: State, i: nat)
    requires Inv(s)
    ensures Inv(Next(s, i))
  {
    if i < |s.th| {
      if Releases(s, i) {
        ReleaseKeepsInv(s, i);
      } else {
        ThreadsStep(s, i);
        CounterStep(s, i);
      }
    }
  }

  function Reached(threads: nat, calls: nat, es: seq<nat>): State
  {
    Run(Next, Init(threads, calls), es)
  }

  ghost predicate InvFor(threads: nat, calls: nat, s: State)
  {
    Inv(s) && |s.th| == threads && s.calls == calls
  }

  lemma InvIsKept(threads: nat, calls: nat)
    ensures forall s, i :: InvFor(threads, calls, s) ==> InvFor(threads, calls, Next(s, i))
  {
    forall s, i | InvFor(threads, calls, s) ensures InvFor(threads, calls, Next(s, i)) {
      InvStep(s, i);
    }
  }

  lemma {:induction false} ReachedInv(threads: nat, calls: nat, es: seq<nat>)
    ensures InvFor(threads, calls, Reached(threads, calls, es))
  {
    InitInv(threads, calls);
    InvIsKept(threads, calls);
    Invariance(Next, (s: State) => InvFor(threads, calls, s), Init(threads, calls), es);
  }

  /** The counter never exceeds the arrivals of the open round, and a second store of the flag in
      the same round changes nothing. */
  lemma {:induction false} CounterAndFlag(threads: nat, calls: nat, es: seq<nat>, i: nat)
    requires i < threads
    ensures var s := Reached(threads, calls, es);
            && |s.th| == threads
            && 0 <= s.count <= B.Arrivals(Seen(s), s.rounds + 1) <= threads
            && s.flag == (if s.rounds % 2 == 0 then 1 else 0)
            && (s.th[i].pc == SetFlag && s.th[i].arrived == s.rounds ==> Next(s, i).flag == s.flag)
            && (s.th[i].pc == SetFlag && s.th[i].arrived != s.rounds ==>
                Next(s, i).rounds == s.rounds + 1 && B.Arrivals(Seen(s), s.rounds + 1) == threads)
  {
    ReachedInv(threads, calls, es);
    var s := Reached(threads, calls, es);
    assert ThreadOk(s.th[i], s.calls, s.rounds);
    FullRound(s);
    if s.th[i].pc == SetFlag && s.th[i].arrived != s.rounds {
      assert Closer(s, i);
      ReleaseKeepsInv(s, i);
    }
  }

  /** Every step of this barrier is a step of the barrier specification, or no step at all. */
  lemma StepRefinesSpec(s: State, i: nat)
    requires Inv(s)
    ensures B.Allowed(Seen(s), Seen(Next(s, i)), i)
  {
    if i < |s.th| {
      var a, b := Seen(s), Seen(Next(s, i));
      assert b == a[i := b[i]];
      assert ThreadOk(s.th[i], s.calls, s.rounds);
      if b[i].passed != a[i].passed {
        if s.th[i].pc == SetFlag && s.th[i].arrived == s.rounds + 1 {
          assert Closer(s, i);
          FullRound(s);
        }
        forall j | 0 <= j < |a| ensures a[j].arrived >= a[i].arrived {
          assert ThreadOk(s.th[j], s.calls, s.rounds);
        }
        assert B.Passes(a, b, i);
      }
    }
  }

  /** So every run of this barrier is a run of the specification. */
  lemma {:induction false} RunRefinesSpec(threads: nat, calls: nat, es: seq<nat>)
    ensures B.IsRun(B.Trace(Next, Seen, Init(threads, calls), es))
  {
    InitInv(threads, calls);
    forall x, i | Inv(x) ensures Inv(Next(x, i)) && B.SomeAllowed(Seen(x), Seen(Next(x, i))) {
      InvStep(x, i);
      StepRefinesSpec(x, i);
    }
    B.TraceIsRun(Next, Inv, Seen, Init(threads, calls), es);
  }

  /** No thread is released before all have arrived, in spite of the separate read. */
  lemma {:induction false} NoEarlyReturn(threads: nat, calls: nat, es: seq<nat>, i: nat, j: nat)
    requires i < threads && j < threads
    ensures var s := Reached(threads, calls, es);
            && |s.th| == threads
            && s.th[i].passed <= s.rounds <= s.th[j].arrived <= s.rounds + 1
            && s.th[i].passed <= s.th[j].passed + 1
  {
    ReachedInv(threads, calls, es);
    RunRefinesSpec(threads, calls, es);
    B.RefinementStaysInStep(Next, Seen, Init(threads, calls), es, i, j);
    var s := Reached(threads, calls, es);
    assert ThreadOk(s.th[i], s.calls, s.rounds) && ThreadOk(s.th[j], s.calls, s.rounds);
  }

  /** A thread turns its sense round when it calls; and a store that changes the flag finds the
      counter reset and everybody arrived. */
  lemma {:induction false} SenseAndRelease(threads: nat, calls: nat, es: seq<nat>, i: nat)
    requires i < threads
    ensures var s := Reached(threads, calls, es);
            && |s.th| == threads
            && var t, u := s.th[i], Next(s, i);
            && t.sense == (if (t.passed % 2 == 0) == (t.pc == Idle) then 1 else 0)
            && (u.flag != s.flag ==>
                && s.count == u.count == 0 && u.rounds == s.rounds + 1
                && forall j :: 0 <= j < threads ==> s.th[j].arrived == s.rounds + 1)
  {
    ReachedInv(threads, calls, es);
    var s := Reached(threads, calls, es);
    assert ThreadOk(s.th[i], s.calls, s.rounds);
    if s.th[i].pc == SetFlag && s.th[i].arrived == s.rounds + 1 {
      assert Closer(s, i);
      FullRound(s);
    }
  }

  /** Apart from the atomic increment, an instruction does not both read and write the counter. */
  lemma ResetIsSeparate(s: State, i: nat, c: int)
    requires i < |s.th| && s.th[i].pc != Inc
    ensures var u, v := Next(s, i), Next(s.(count := c), i);
            (u.count == s.count && v.count == c) || u == v
  {
  }

  // ---------- a round, thread by thread ----------

  function Turns(s: State, i: nat, m: nat): State
  {
    Repeat(Next, s, i, m)
  }

  predicate RestsAfter(t: Thread, k: nat)
  {
    t == Thread(Idle, Sense(k), k, k)
  }

  /** Two threads between their calls, after `k` rounds. */
  predicate Resting(s: State, k: nat)
  {
    && |s.th| == 2 && RestsAfter(s.th[0], k) && RestsAfter(s.th[1], k)
    && s.count == 0 && s.flag == Sense(k) && s.rounds == k
  }

  /** The first to arrive waits after its third instruction. */
  lemma FirstWaits(s: State, k: nat)
    requires Resting(s, k) && k < s.calls
    ensures Turns(s, 0, 3) == s.(count := 1, th := [Thread(Wait, Sense(k + 1), k + 1, k), s.th[1]])
    ensures |Turns(s, 0, 2).th| == 2 && Turns(s, 0, 2).th[0].pc == Test
  {
    assert Turns(s, 0, 3).th == [Thread(Wait, Sense(k + 1), k + 1, k), s.th[1]];
  }

  /** The second releases the round and returns at its fifth instruction, and the first returns at
      its next. */
  lemma SecondReleases(s: State, k: nat)
    requires |s.th| == 2 && RestsAfter(s.th[1], k) && k < s.calls
    requires s.th[0] == Thread(Wait, Sense(k + 1), k + 1, k)
    requires s.count == 1 && s.flag == Sense(k) && s.rounds == k
    ensures Turns(s, 1, 3).count == 2 && Turns(s, 1, 4).count == 0 && Turns(s, 1, 4).rounds == k
    ensures Resting(Next(Turns(s, 1, 5), 0), k + 1) && Next(Turns(s, 1, 5), 0).calls == s.calls
  {
    assert Turns(s, 1, 3).th[1].pc == ResetCount;
    assert RestsAfter(Turns(s, 1, 5).th[1], k + 1);
  }

  // ---------- the barrier in place ----------

  class SpinBarrier {
    const nthreads: nat
    const calls: nat
    var count: int
    var flag: int
    var th: array<Thread>
    ghost var rounds: nat

    ghost predicate Valid()
      reads this
    {
      th.Length == nthreads
    }

    ghost function Abs(): State
      reads this, th
    {
      State(calls, count, flag, rounds, th[..])
    }

    /** spin_barrier_init, and spin_barrier_init_lsense for every thread. */
    constructor (nthreads: nat, calls: nat)
      ensures Valid() && fresh(th) && this.nthreads == nthreads && Abs() == Init(nthreads, calls)
    {
      this.nthreads := nthreads;
      this.calls := calls;
      count, flag := 0, 1;
      th := new Thread[nthreads](i => Fresh());
      rounds := 0;
    }

    /** One instruction of thread `i`. */
    method Step(i: nat)
      requires Valid()
      modifies this, th
      ensures Valid() && th == old(th) && Abs() == Next(old(Abs()), i)
    {
      if i >= th.Length {
        return;
      }
      var t := th[i];
      match t.pc {
        case Idle =>
          if t.passed != calls { th[i] := t.(pc := Inc, sense := if t.sense == 0 then 1 else 0); }
        case Inc =>
          count := count + 1;
          th[i] := t.(pc := Test, arrived := t.arrived + 1);
        case Test =>
          th[i] := t.(pc := if count == nthreads then ResetCount else Wait);
        case ResetCount =>
          count := 0;
          th[i] := t.(pc := SetFlag);
        case SetFlag =>
          rounds := if t.sense == flag then rounds else rounds + 1;
          flag := t.sense;
          th[i] := t.(pc := Idle, passed := t.passed + 1);
        case Wait =>
          if flag == t.sense { th[i] := t.(pc := Idle, passed := t.passed + 1); }
      }
      assert th[..] == Next(old(Abs()), i).th;
    }

    /** Any schedule, run in place. */
    method Execute(schedule: seq<nat>)
      requires Valid() && Inv(Abs())
      modifies this, th
      ensures Valid() && th == old(th) && Abs() == Run(Next, old(Abs()), schedule) && Inv(Abs())
    {
      ghost var start := Abs();
      for k := 0 to |schedule|
        invariant Valid() && th == old(th)
        invariant Abs() == Run(Next, start, schedule[..k])
      {
        RunSnoc(Next, start, schedule[..k], schedule[k]);
        assert schedule[..k] + [schedule[k]] == schedule[..k + 1];
        Step(schedule[k]);
      }
      assert schedule[..|schedule|] == schedule;
      InvIsKept(|start.th|, calls);
      Invariance(Next, (s: State) => InvFor(|start.th|, start.calls, s), start, schedule);
    }
  }
}
