/** When the calls of the MWAIT barrier return: exactly when no sleeper has been stranded by
    another's reset of the cell, which cannot happen to two threads. */
module MwaitBarrierLiveness {
  import opened Traces
  import opened Counting
  import opened Sums
  import opened MwaitBarrier
  import opened MwaitBarrierSafety
  import M = Monitor

  ghost predicate Finished(s: State)
  {
    forall i :: 0 <= i < |s.th| ==> s.th[i].passed == s.calls
  }

  /** Asleep, and not yet past the test that lets it out. */
  ghost predicate Listens(s: State, i: int)
  {
    0 <= i < |s.th| && Sleeps(s.th[i]) && s.th[i].pc.at != M.Reset
  }

  /** The round has been notified and its notification consumed, and somebody still listens. */
  ghost predicate Stranded(s: State)
  {
    Noted(s) && s.byte == M.ORIGINAL_VAL && exists i :: Listens(s, i)
  }

  // ---------- a measure no event raises ----------

  /** How far a thread is from the end of its present call. Taking the lock outweighs what it costs
      the others, who now find it taken, and so does resetting the cell. A sleeper that has not been
      notified may loop, so its distance is a constant. */
  function Distance(n: nat, lock: int, byte: char, pc: Pc): nat
  {
    match pc
    case Idle => 6 * n + 40
    case LockTry => 6 * n + (if lock > 0 then 30 else 33)
    case LockSpin => 6 * n + (if lock > 0 then 31 else 32)
    case IncRead => 3 * n + 15
    case IncWrite => 3 * n + 14
    case Test => 3 * n + 13
    case Notify => 3 * n + 12
    case Unlock => 3 * n + 12
    case Sleep(at) => 3 * n + 6 + (if byte == M.NOTIFIED_VAL || at == M.Reset then M.Rank(at) else 4)
    case DecTest => 5
    case FinalUnlock => 4
  }

  function Weight(n: nat, calls: nat, lock: int, byte: char, t: Thread): nat
  {
    if t.passed >= calls then 0 else Cost(6 * n + 50, calls - t.passed) + Distance(n, lock, byte, t.pc)
  }

  function Weights(s: State): (ws: seq<nat>)
    ensures |ws| == |s.th|
  {
    seq(|s.th|, i requires 0 <= i < |s.th| => Weight(|s.th|, s.calls, s.obj.lock, s.byte, s.th[i]))
  }

  function Measure(s: State): nat
  {
    Sum(Weights(s))
  }

  /** The next instruction of the thread brings the system closer to the end: it is not spinning on
      a taken lock, and if it sleeps it has been notified. */
  predicate Advances(s: State, i: nat)
  {
    && i < |s.th| && s.th[i].passed < s.calls
    && (s.th[i].pc == LockSpin ==> s.obj.lock > 0)
    && (Sleeps(s.th[i]) ==> s.byte == M.NOTIFIED_VAL || s.th[i].pc.at == M.Reset)
  }

  predicate Helpful(s: State, e: Event)
  {
    e.Instr? && Advances(s, e.i)
  }

  /** How much an instruction may cost each other thread. */
  function Toll(s: State, i: nat): nat
    requires i < |s.th|
  {
    if TakesToll(s.obj.lock, s.th[i].pc) then 3 else 0
  }

  predicate TakesToll(lock: int, pc: Pc)
  {
    (pc == LockTry && lock > 0) || pc == Sleep(M.Reset)
  }

  lemma WeightFalls(n: nat, calls: nat, b: Obj, byte: char, t: Thread)
    requires t.passed < calls && b.lock <= 1 && (t.pc == LockSpin ==> b.lock > 0)
    requires Sleeps(t) ==> SleeperOk(t, true, byte) && (byte == M.NOTIFIED_VAL || t.pc.at == M.Reset)
    ensures var o := Code(n, calls, b, byte, t);
            Weight(n, calls, o.obj.lock, ByteAfter(byte, o), Hear(o.t, o))
            + (if TakesToll(b.lock, t.pc) then 3 * n else 0) < Weight(n, calls, b.lock, byte, t)
  {
  }

  lemma OwnWeightFalls(s: State, i: nat)
    requires Inv(s) && Advances(s, i)
    ensures var u := Next(s, Instr(i));
            |u.th| == |s.th| && Weights(u)[i] + (if Toll(s, i) > 0 then 3 * |s.th| else 0) < Weights(s)[i]
  {
    assert ThreadOk(s.th[i], s.calls, s.obj.wins, Noted(s), s.byte);
    WeightFalls(|s.th|, s.calls, s.obj, s.byte, s.th[i]);
  }

  /** The lock is taken, or the cell reset, only for a toll. */
  lemma TollIsPaid(s: State, i: nat)
    requires Inv(s) && i < |s.th|
    ensures var u := Next(s, Instr(i));
            && (s.obj.lock > 0 ==> u.obj.lock > 0 || Toll(s, i) == 3)
            && (s.byte == M.NOTIFIED_VAL ==> u.byte == M.NOTIFIED_VAL || Toll(s, i) == 3)
            && |u.th| == |s.th| && u.calls == s.calls
  {
    assert ThreadOk(s.th[i], s.calls, s.obj.wins, Noted(s), s.byte);
  }

  lemma OthersRiseLittle(s: State, i: nat, j: nat)
    requires Inv(s) && i < |s.th| && j < |s.th| && j != i
    ensures var u := Next(s, Instr(i)); |u.th| == |s.th| && Weights(u)[j] <= Weights(s)[j] + Toll(s, i)
  {
    var u := Next(s, Instr(i));
    TollIsPaid(s, i);
    assert u.th[j].pc == s.th[j].pc && u.th[j].passed == s.th[j].passed;
    assert ThreadOk(s.th[j], s.calls, s.obj.wins, Noted(s), s.byte);
    DistanceRises(|s.th|, s.obj.lock, u.obj.lock, s.byte, u.byte, s.th[j].pc);
  }

  lemma DistanceRises(n: nat, lock: int, lock': int, byte: char, byte': char, pc: Pc)
    requires pc.Sleep? ==> pc.at !in {M.Out, M.Pretest}
    ensures Distance(n, lock', byte', pc) <= Distance(n, lock, byte, pc) + 3
    ensures (lock > 0 ==> lock' > 0) && (byte == M.NOTIFIED_VAL ==> byte' == M.NOTIFIED_VAL) ==>
              Distance(n, lock', byte', pc) <= Distance(n, lock, byte, pc)
  {
  }

  lemma AdvanceFalls(s: State, i: nat)
    requires Inv(s) && Advances(s, i)
    ensures Measure(Next(s, Instr(i))) < Measure(s)
  {
    var ws, vs := Weights(s), Weights(Next(s, Instr(i)));
    OwnWeightFalls(s, i);
    forall j | 0 <= j < |ws| && j != i ensures vs[j] <= ws[j] + Toll(s, i) {
      OthersRiseLittle(s, i, j);
    }
    if Toll(s, i) == 0 { SumCompare(ws, vs, i, 0); } else { SumCompare(ws, vs, i, 3); }
  }

  /** A thread that does not advance is done, or spins on a taken lock, or takes a step inside the
      sleep call that nobody else can tell. */
  lemma VainStep(s: State, i: nat)
    requires Inv(s) && i < |s.th| && !Advances(s, i)
    ensures Next(s, Instr(i)) == s.(th := s.th[i := Own(s, i).t])
    ensures Sleeps(s.th[i]) ==> Sleeps(Own(s, i).t) && s.th[i].pc.at != M.Reset && Own(s, i).t.pc.at != M.Reset
    ensures !Sleeps(s.th[i]) ==> Next(s, Instr(i)) == s
  {
    var u := Next(s, Instr(i));
    assert ThreadOk(s.th[i], s.calls, s.obj.wins, Noted(s), s.byte);
    assert u.th == s.th[i := Own(s, i).t];
    assert s.th[i := s.th[i]] == s.th;
  }

  lemma VainStepKeepsMeasure(s: State, i: nat)
    requires Inv(s) && i < |s.th| && !Advances(s, i)
    ensures Measure(Next(s, Instr(i))) == Measure(s)
  {
    VainStep(s, i);
    assert Weights(Next(s, Instr(i))) == Weights(s);
  }

  lemma InterruptKeepsMeasure(s: State, i: nat)
    ensures Measure(Next(s, Interrupt(i))) == Measure(s)
  {
    assert Weights(Next(s, Interrupt(i))) == Weights(s);
  }

  /** No event takes the system further from the end, and every advancing instruction takes it
      closer. */
  lemma MeasureStep(s: State, e: Event)
    requires Inv(s)
    ensures Measure(Next(s, e)) <= Measure(s)
    ensures Helpful(s, e) <==> Measure(Next(s, e)) < Measure(s)
  {
    if e.Interrupt? {
      InterruptKeepsMeasure(s, e.i);
    } else if Advances(s, e.i) {
      AdvanceFalls(s, e.i);
    } else if e.i < |s.th| {
      VainStepKeepsMeasure(s, e.i);
    }
  }

  // ---------- a finer measure that every change lowers ----------

  /** Steps an un-notified sleeper can take before it stops, or spins through its loop once. */
  function Restless(byte: char, t: Thread): nat
  {
    if !Sleeps(t) || byte == M.NOTIFIED_VAL then 0 else
    match t.pc.at
    case Arm => 3
    case Check => if t.mon == M.Armed then 2 else 6
    case Mwait => if t.mon == M.Armed then 1 else 5
    case Blocked => if t.mon == M.Armed then 0 else 5
    case Recheck => 4
    case _ => 0
  }

  function Steps(s: State): (ws: seq<nat>)
    ensures |ws| == |s.th|
  {
    seq(|s.th|, i requires 0 <= i < |s.th| => Restless(s.byte, s.th[i]))
  }

  /** First the distance to the end, then the steps of the sleepers that do not change it. */
  function FineMeasure(s: State): nat
  {
    Cost(6 * |s.th| + 1, Measure(s)) + Sum(Steps(s))
  }

  lemma {:induction false} CostMonotone(each: nat, few: nat, many: nat)
    requires few < many
    ensures Cost(each, few) + each <= Cost(each, many)
  {
    if few + 1 < many { CostMonotone(each, few, many - 1); }
  }

  lemma StepsAreFew(s: State)
    ensures Sum(Steps(s)) <= 6 * |s.th|
  {
    SumBound(Steps(s), 6);
  }

  lemma LoopStep(s: State, i: nat)
    requires Inv(s) && i < |s.th| && !Advances(s, i) && Next(s, Instr(i)) != s
    ensures Sum(Steps(Next(s, Instr(i)))) < Sum(Steps(s))
  {
    VainStep(s, i);
    var u := Next(s, Instr(i));
    LoopCode(|s.th|, s.calls, s.obj, s.byte, s.th[i]);
    assert s.th[i := s.th[i]] == s.th;
    SumCompare(Steps(s), Steps(u), i, 0);
  }

  lemma LoopCode(n: nat, calls: nat, b: Obj, byte: char, t: Thread)
    requires Sleeps(t) && byte != M.NOTIFIED_VAL && t.pc.at !in {M.Reset, M.Out, M.Pretest}
    ensures var v := Code(n, calls, b, byte, t).t; v == t || Restless(byte, v) < Restless(byte, t)
  {
  }

  /** The distance to the end outweighs the steps of all sleepers. */
  lemma NearerIsFiner(s: State, u: State)
    requires |u.th| == |s.th| && Measure(u) < Measure(s)
    ensures FineMeasure(u) < FineMeasure(s)
  {
    CostMonotone(6 * |s.th| + 1, Measure(u), Measure(s));
    StepsAreFew(u);
  }

  lemma CalmerIsFiner(s: State, u: State)
    requires |u.th| == |s.th| && Measure(u) == Measure(s) && Sum(Steps(u)) < Sum(Steps(s))
    ensures FineMeasure(u) < FineMeasure(s)
  {
  }

  lemma SameThreads(s: State, e: Event)
    ensures |Next(s, e).th| == |s.th|
  {
  }

  lemma FineInstr(s: State, i: nat)
    requires Inv(s) && Next(s, Instr(i)) != s
    ensures FineMeasure(Next(s, Instr(i))) < FineMeasure(s)
  {
    SameThreads(s, Instr(i));
    if Advances(s, i) {
      AdvanceFalls(s, i);
      NearerIsFiner(s, Next(s, Instr(i)));
    } else {
      VainStepKeepsMeasure(s, i);
      LoopStep(s, i);
      CalmerIsFiner(s, Next(s, Instr(i)));
    }
  }

  lemma FineInterrupt(s: State, i: nat)
    ensures FineMeasure(Next(s, Interrupt(i))) <= FineMeasure(s) + 5
  {
    InterruptKeepsMeasure(s, i);
    if i < |s.th| {
      SumCompare(Steps(s), Steps(Next(s, Interrupt(i))), i, 0);
    }
  }

  /** Every instruction changes nothing at all or lowers the fine measure; an interrupt raises it by
      at most 5. */
  lemma FineStep(s: State, e: Event)
    requires Inv(s)
    ensures e.Instr? ==> Next(s, e) == s || FineMeasure(Next(s, e)) < FineMeasure(s)
    ensures e.Interrupt? ==> FineMeasure(Next(s, e)) <= FineMeasure(s) + 5
  {
    if e.Interrupt? {
      FineInterrupt(s, e.i);
    } else if Next(s, e) != s {
      FineInstr(s, e.i);
    }
  }

  predicate IsInterrupt(e: Event)
  {
    e.Interrupt?
  }

  lemma {:induction false} InitMeasure(threads: nat, calls: nat)
    ensures FineMeasure(Init(threads, calls)) <= (threads * ((calls + 1) * (6 * threads + 50))) * (6 * threads + 1)
  {
    var s, each := Init(threads, calls), 6 * threads + 50;
    CostIs(each, calls + 1);
    assert Cost(each, calls + 1) == each + Cost(each, calls);
    SumBound(Weights(s), Cost(each, calls + 1));
    SumBound(Steps(s), 0);
    var m := threads * ((calls + 1) * each);
    CostIs(6 * threads + 1, m);
    if Measure(s) < m { CostMonotone(6 * threads + 1, Measure(s), m); }
  }

  /** Fair or not, safe or stranded, a run has a bounded number of instructions that change
      anything, but for five more with every interrupt. */
  lemma {:induction false} RunsAreShort(threads: nat, calls: nat, es: seq<Event>)
    requires Fits(threads)
    ensures Changes(Next, IsInterrupt, Init(threads, calls), es)
            <= (threads * ((calls + 1) * (6 * threads + 50))) * (6 * threads + 1) + 5 * Count(es, IsInterrupt)
  {
    InitInv(threads, calls);
    forall x, e | Inv(x)
      ensures Inv(Next(x, e))
      ensures IsInterrupt(e) ==> FineMeasure(Next(x, e)) <= FineMeasure(x) + 5
      ensures !IsInterrupt(e) ==> Next(x, e) == x || FineMeasure(Next(x, e)) < FineMeasure(x)
    {
      InvStep(x, e);
      FineStep(x, e);
    }
    ChangesAreBounded(Next, IsInterrupt, Inv, FineMeasure, 5, Init(threads, calls), es);
    InitMeasure(threads, calls);
  }

  // ---------- stranded sleepers ----------

  /** A stranded sleeper stays stranded. */
  lemma StrandedStep(s: State, e: Event)
    requires Inv(s) && Stranded(s)
    ensures Inv(Next(s, e)) && Stranded(Next(s, e))
  {
    var u := Next(s, e);
    InvStep(s, e);
    var w :| Listens(s, w);
    assert ThreadOk(s.th[w], s.calls, s.obj.wins, Noted(s), s.byte);
    if e.Instr? && e.i < |s.th| {
      RoundStep(s, e.i);
      assert ThreadOk(s.th[e.i], s.calls, s.obj.wins, Noted(s), s.byte);
      if s.th[e.i].pc == DecTest && s.obj.gathered == 1 { AllGone(s, e.i); }
    }
    assert Listens(u, w);
  }

  ghost predicate StrandedInv(s: State)
  {
    Inv(s) && Stranded(s)
  }

  lemma StrandedForever(s: State)
    requires StrandedInv(s)
    ensures !CanReach(Next, s, Finished)
  {
    forall es: seq<Event> ensures !Finished(Run(Next, s, es)) {
      forall x, e | StrandedInv(x) ensures StrandedInv(Next(x, e)) {
        StrandedStep(x, e);
      }
      Invariance(Next, StrandedInv, s, es);
      var u := Run(Next, s, es);
      var w :| Listens(u, w);
      assert ThreadOk(u.th[w], u.calls, u.obj.wins, Noted(u), u.byte);
    }
  }

  /** Two threads never get there: the one sleeper is the one that resets the cell. */
  lemma TwoAreNotStranded(s: State)
    requires Inv(s) && (|s.th| <= 2 || s.calls == 0)
    ensures !Stranded(s)
  {
    if w :| Listens(s, w) {
      CountBounds(s.th, Sleeps);
      assert ThreadOk(s.th[w], s.calls, s.obj.wins, Noted(s), s.byte);
    }
  }

  // ---------- progress otherwise ----------

  /** No reachable unfinished state is stuck, unless a sleeper is stranded. */
  lemma SomeThreadAdvances(s: State) returns (i: nat)
    requires Inv(s) && !Finished(s) && !Stranded(s)
    ensures Advances(s, i)
  {
    i :| 0 <= i < |s.th| && s.th[i].passed != s.calls;
    assert ThreadOk(s.th[i], s.calls, s.obj.wins, Noted(s), s.byte);
    CountBounds(s.th, Gathered);
    if Noted(s) {
      i :| 0 <= i < |s.th| && Gathered(s.th[i]);
      assert !Holder(s, i);
      assert !Listens(s, i) || s.byte == M.NOTIFIED_VAL;
      assert ThreadOk(s.th[i], s.calls, s.obj.wins, Noted(s), s.byte);
    } else if h :| Holder(s, h) {
      i := h;
      assert ThreadOk(s.th[i], s.calls, s.obj.wins, Noted(s), s.byte);
    } else {
      i :| 0 <= i < |s.th| && !Gathered(s.th[i]);
      assert ThreadOk(s.th[i], s.calls, s.obj.wins, Noted(s), s.byte);
      assert !Holder(s, i);
    }
  }

  /** The careful scheduler: while the cell says `notified`, let everybody look at it first. */
  ghost predicate Careful(s: State, e: Event)
  {
    Helpful(s, e) && ((s.byte == M.NOTIFIED_VAL && exists i :: Listens(s, i)) ==> Listens(s, e.i))
  }

  lemma CarefulExists(s: State)
    requires Inv(s) && !Finished(s) && !Stranded(s)
    ensures exists e :: Careful(s, e)
  {
    if w :| s.byte == M.NOTIFIED_VAL && Listens(s, w) {
      assert ThreadOk(s.th[w], s.calls, s.obj.wins, Noted(s), s.byte);
      assert Careful(s, Instr(w));
    } else {
      var i := SomeThreadAdvances(s);
      assert Careful(s, Instr(i));
    }
  }

  lemma CarefulStrandsNobody(s: State, e: Event)
    requires Inv(s) && !Stranded(s) && Careful(s, e)
    ensures !Stranded(Next(s, e))
  {
    var u := Next(s, e);
    RoundStep(s, e.i);
    SleepStep(s, e.i);
    assert ThreadOk(s.th[e.i], s.calls, s.obj.wins, Noted(s), s.byte);
    forall w | Listens(u, w) && Noted(u) ensures u.byte != M.ORIGINAL_VAL {
      assert Listens(s, w);
    }
  }

  ghost predicate LiveInv(s: State)
  {
    Inv(s) && !Stranded(s)
  }

  /** From a reachable state all calls can still be completed if and only if no sleeper has been
      stranded by another's reset of the cell. */
  lemma {:induction false} CanFinishIffNotStranded(threads: nat, calls: nat, es: seq<Event>)
    requires Fits(threads)
    ensures CanReach(Next, Reached(threads, calls, es), Finished) <==> !Stranded(Reached(threads, calls, es))
  {
    var s := Reached(threads, calls, es);
    ReachedInv(threads, calls, es);
    if Stranded(s) {
      StrandedForever(s);
    } else {
      forall x | LiveInv(x) && !Finished(x) ensures exists e :: Careful(x, e) {
        CarefulExists(x);
      }
      forall x, e | LiveInv(x) && Careful(x, e) ensures LiveInv(Next(x, e)) && Measure(Next(x, e)) < Measure(x) {
        InvStep(x, e);
        CarefulStrandsNobody(x, e);
        MeasureStep(x, e);
      }
      HelpfulScheduleExists(Next, LiveInv, Finished, Measure, Careful, s);
    }
  }

  // ---------- fair runs ----------

  ghost predicate Settled(s: State)
  {
    Finished(s) || Stranded(s)
  }

  /** An event that does not advance its thread changes nothing the others depend on. */
  lemma HelpfulPersists(s: State, e: Event, f: Event)
    requires Inv(s) && Helpful(s, e) && Measure(Next(s, f)) == Measure(s)
    ensures Helpful(Next(s, f), e)
  {
    MeasureStep(s, f);
    if f.Instr? && f.i < |s.th| {
      VainStep(s, f.i);
    }
  }

  lemma ProgressIsRanked(threads: nat, calls: nat)
    ensures Ranked(Next, (s: State) => InvFor(threads, calls, s), Settled, Measure, Helpful)
  {
    var inv := (s: State) => InvFor(threads, calls, s);
    InvIsKept(threads, calls);
    forall x, e | inv(x)
      ensures Measure(Next(x, e)) <= Measure(x) && (Helpful(x, e) ==> Measure(Next(x, e)) < Measure(x))
    {
      MeasureStep(x, e);
    }
    forall x | inv(x) && !Settled(x) ensures exists e :: Helpful(x, e) {
      var i := SomeThreadAdvances(x);
      assert Helpful(x, Instr(i));
    }
    forall x, e, f | inv(x) && Helpful(x, e) && Measure(Next(x, f)) == Measure(x) ensures Helpful(Next(x, f), e) {
      HelpfulPersists(x, e, f);
    }
  }

  function Turn(i: nat): Event
  {
    Instr(i)
  }

  /** Under every schedule that runs each thread again and again, with interrupts at any time, also
      for ever, all calls return unless a sleeper is stranded. */
  lemma EveryFairRunSettles(threads: nat, calls: nat, schedule: nat -> Event) returns (k: nat)
    requires Fits(threads) && FairTo(threads, schedule, Turn)
    ensures Settled(After(Next, Init(threads, calls), schedule, k))
  {
    var inv := (s: State) => InvFor(threads, calls, s);
    InitInv(threads, calls);
    ProgressIsRanked(threads, calls);
    forall x, e | inv(x) && Helpful(x, e) ensures exists i: nat :: i < threads && Turn(i) == e {
      assert Turn(e.i) == e;
    }
    FairToHelpful(threads, schedule, Turn, inv, Helpful);
    k := FairRunReaches(Next, inv, Settled, Measure, Helpful, Init(threads, calls), schedule, 0);
  }

  /** Every call of both threads returns. */
  lemma EveryFairRunFinishes(threads: nat, calls: nat, schedule: nat -> Event) returns (k: nat)
    requires threads <= 2 && FairTo(threads, schedule, Turn)
    ensures Finished(After(Next, Init(threads, calls), schedule, k))
  {
    var inv := (s: State) => InvFor(threads, calls, s);
    k := EveryFairRunSettles(threads, calls, schedule);
    InitInv(threads, calls);
    InvIsKept(threads, calls);
    InvarianceAfter(Next, inv, Init(threads, calls), schedule, k);
    TwoAreNotStranded(After(Next, Init(threads, calls), schedule, k));
  }
}
