/** When the lock-free barrier deadlocks: exactly when a reset of an earlier round erases an
    arrival of the next, or is still to do so. */
module LockFreeBarrierProgress {
  import opened Traces
  import opened Sums
  import opened LockFreeBarrier
  import B = BarrierSpec

  ghost predicate Finished(s: State)
  {
    forall i :: 0 <= i < |s.th| ==> s.th[i].passed == s.calls
  }

  /** The open round can still complete: somebody has found it full, or the counter has every
      arrival and no late reset will erase one. */
  ghost predicate Live(s: State)
  {
    || (exists i :: Closer(s, i))
    || (s.count == Open(s) && (Open(s) > 0 ==> forall i :: !LateReset(s, i)))
  }

  /** A counter that reads full is a full round, and then nobody is late. */
  lemma FullCounter(s: State)
    requires Inv(s) && s.count == |s.th|
    ensures Open(s) == |s.th|
    ensures forall i :: !LateReset(s, i)
  {
    FullRound(s);
  }

  /** A lost arrival stays lost, and the round stays open. */
  lemma DoomedStep(s: State, i: nat)
    requires Inv(s) && !Live(s)
    ensures Inv(Next(s, i)) && !Live(Next(s, i)) && Next(s, i).rounds == s.rounds
  {
    InvStep(s, i);
    if i < |s.th| {
      var u := Next(s, i);
      if Releases(s, i) {
        assert Closer(s, i);
        assert false;
      }
      ThreadsStep(s, i);
      OpenStep(s, i);
      if s.count == |s.th| {
        FullCounter(s);
      }
      forall j ensures !Closer(u, j) {
        assert !Closer(s, j);
      }
      if s.count == Open(s) {
        var l :| LateReset(s, l);
        assert l != i ==> LateReset(u, l);
      }
    }
  }

  ghost predicate Doomed(s: State)
  {
    Inv(s) && !Live(s)
  }

  lemma DoomedForever(s: State)
    requires Doomed(s)
    ensures !CanReach(Next, s, Finished)
  {
    forall es: seq<nat> ensures !Finished(Run(Next, s, es)) {
      forall x, i | Doomed(x) ensures Doomed(Next(x, i)) {
        DoomedStep(x, i);
      }
      Invariance(Next, Doomed, s, es);
      DoomedIsUnfinished(Run(Next, s, es));
    }
  }

  lemma DoomedIsUnfinished(s: State)
    requires Doomed(s)
    ensures !Finished(s)
  {
    FullRound(s);
    var i :| 0 <= i < |s.th| && s.th[i].arrived != s.rounds;
    assert ThreadOk(s.th[i], s.calls, s.rounds);
  }

  function Distance(pc: Pc): nat
  {
    match pc
    case Idle => 5
    case Inc => 4
    case Test => 3
    case ResetCount => 2
    case SetFlag => 1
    case Wait => 1
  }

  function Weights(s: State): (ws: seq<nat>)
    ensures |ws| == |s.th|
  {
    seq(|s.th|, i requires 0 <= i < |s.th| =>
      if s.th[i].passed >= s.calls then 0 else 5 * (s.calls - s.th[i].passed - 1) + Distance(s.th[i].pc))
  }

  function Measure(s: State): nat
  {
    Sum(Weights(s))
  }

  /** Thread `i` has calls to make and is not waiting for its round. */
  predicate Advances(s: State, i: nat)
  {
    i < |s.th| && s.th[i].passed < s.calls && (s.th[i].pc == Wait ==> s.flag == s.th[i].sense)
  }

  lemma MeasureStep(s: State, i: nat)
    requires Inv(s)
    ensures Advances(s, i) ==> Measure(Next(s, i)) < Measure(s)
    ensures !Advances(s, i) ==> Next(s, i) == s
  {
    if Advances(s, i) {
      assert ThreadOk(s.th[i], s.calls, s.rounds);
      assert Weights(Next(s, i))[i] < Weights(s)[i];
      SumCompare(Weights(s), Weights(Next(s, i)), i, 0);
    } else if i < |s.th| {
      assert ThreadOk(s.th[i], s.calls, s.rounds);
    }
  }

  /** Fair or not, live or doomed, a run has at most five steps for each call that change anything:
      the rest are failed looks at the flag. */
  lemma {:induction false} RunsAreShort(threads: nat, calls: nat, es: seq<nat>)
    ensures Changes(Next, Nothing, Init(threads, calls), es) <= threads * (5 * calls)
  {
    var s := Init(threads, calls);
    InitInv(threads, calls);
    forall x, i | Inv(x) ensures Inv(Next(x, i)) && (Next(x, i) == x || Measure(Next(x, i)) < Measure(x)) {
      InvStep(x, i);
      MeasureStep(x, i);
    }
    ChangesAreBounded(Next, Nothing, Inv, Measure, 0, s, es);
    SumBound(Weights(s), 5 * calls);
  }

  /** A live unfinished state is not stuck. */
  lemma SomeThreadAdvances(s: State) returns (i: nat)
    requires Inv(s) && Live(s) && !Finished(s)
    ensures Advances(s, i)
  {
    i :| 0 <= i < |s.th| && s.th[i].passed != s.calls;
    assert ThreadOk(s.th[i], s.calls, s.rounds);
    if s.th[i].pc == Wait && s.flag != s.th[i].sense {
      i := RoundGoesOn(s, i);
    }
  }

  /** While somebody waits for a live round, another is to close it, to find it full, or to arrive. */
  lemma RoundGoesOn(s: State, w: nat) returns (i: nat)
    requires Inv(s) && Live(s) && w < |s.th| && s.th[w].pc == Wait && s.flag != s.th[w].sense
    ensures Advances(s, i)
  {
    assert ThreadOk(s.th[w], s.calls, s.rounds);
    FullRound(s);
    if c :| Closer(s, c) {
      i := c;
    } else if Open(s) == |s.th| {
      i :| Watcher(s, i);
    } else {
      i :| 0 <= i < |s.th| && s.th[i].arrived != s.rounds + 1;
    }
    assert ThreadOk(s.th[i], s.calls, s.rounds);
  }

  /** The careful scheduler: let whoever is about to reset or release go first. */
  ghost predicate Careful(s: State, i: nat)
  {
    Advances(s, i) && ((exists j :: 0 <= j < |s.th| && AtReset(s.th[j])) ==> AtReset(s.th[i]))
  }

  lemma CarefulStaysLive(s: State, i: nat)
    requires Inv(s) && Live(s) && Careful(s, i)
    ensures Live(Next(s, i))
  {
    var u := Next(s, i);
    InvStep(s, i);
    FullRound(s);
    if Releases(s, i) {
      ReleaseKeepsInv(s, i);
    } else {
      OpenStep(s, i);
      assert ThreadOk(s.th[i], s.calls, s.rounds);
      if c :| Closer(s, c) {
        assert AtReset(s.th[c]);
        assert Closer(s, i) && Closer(u, i);
      } else if s.th[i].pc == Test && s.count == |s.th| {
        FullCounter(s);
        assert Closer(u, i);
      } else {
        forall j | LateReset(u, j) ensures LateReset(s, j) {
        }
        if s.th[i].pc == ResetCount {
          assert !Closer(s, i);
          assert LateReset(s, i);
        }
      }
    }
  }

  lemma CarefulExists(s: State)
    requires Inv(s) && Live(s) && !Finished(s)
    ensures exists i :: Careful(s, i)
  {
    if j :| 0 <= j < |s.th| && AtReset(s.th[j]) {
      assert ThreadOk(s.th[j], s.calls, s.rounds);
      assert Careful(s, j);
    } else {
      var i := SomeThreadAdvances(s);
      assert Careful(s, i);
    }
  }

  ghost predicate LiveInv(s: State)
  {
    Inv(s) && Live(s)
  }

  /** From a reachable state all calls can still be completed if and only if no arrival of the
      open round has been erased, or is about to be. */
  lemma {:induction false} CanFinishIffLive(threads: nat, calls: nat, es: seq<nat>)
    ensures CanReach(Next, Reached(threads, calls, es), Finished) <==> Live(Reached(threads, calls, es))
  {
    var s := Reached(threads, calls, es);
    ReachedInv(threads, calls, es);
    if Live(s) {
      forall x | LiveInv(x) && !Finished(x) ensures exists i :: Careful(x, i) {
        CarefulExists(x);
      }
      forall x, i | LiveInv(x) && Careful(x, i) ensures LiveInv(Next(x, i)) && Measure(Next(x, i)) < Measure(x) {
        InvStep(x, i);
        CarefulStaysLive(x, i);
        MeasureStep(x, i);
      }
      HelpfulScheduleExists(Next, LiveInv, Finished, Measure, Careful, s);
    } else {
      DoomedForever(s);
    }
  }

  // ---------- for which threads and calls no arrival is ever erased ----------

  /** With one thread, or one call, a thread with a late reset has nobody's arrival to erase. */
  lemma LateResetIsHarmless(s: State, i: int)
    requires Inv(s) && (|s.th| <= 1 || s.calls <= 1) && LateReset(s, i)
    ensures Open(s) == 0
  {
    FullRound(s);
    forall j | 0 <= j < |s.th| ensures s.th[j].arrived == s.rounds {
      assert ThreadOk(s.th[i], s.calls, s.rounds) && ThreadOk(s.th[j], s.calls, s.rounds);
    }
  }

  /** Inside a round, with no late reset before or after the step. */
  lemma UndisturbedStep(s: State, i: nat)
    requires LiveInv(s) && i < |s.th| && !Releases(s, i)
    requires forall l :: LateReset(s, l) ==> Open(s) == 0
    requires forall l :: !LateReset(Next(s, i), l)
    ensures Live(Next(s, i))
  {
    var u := Next(s, i);
    OpenStep(s, i);
    FullRound(s);
    assert ThreadOk(s.th[i], s.calls, s.rounds);
    if c :| Closer(s, c) {
      assert s.th[i].pc != Inc;
      assert Closer(u, c);
    } else if s.th[i].pc == Test && s.count == |s.th| {
      assert Closer(u, i);
    } else if s.th[i].pc == ResetCount {
      assert !Closer(s, i);
      assert LateReset(s, i);
    }
  }

  lemma LiveStep(s: State, i: nat)
    requires LiveInv(s) && (|s.th| <= 1 || s.calls <= 1)
    ensures LiveInv(Next(s, i))
  {
    InvStep(s, i);
    if i < |s.th| {
      var u := Next(s, i);
      if l :| LateReset(u, l) {
        LateResetIsHarmless(u, l);
      } else if Releases(s, i) {
        ReleaseKeepsInv(s, i);
      } else {
        forall l | LateReset(s, l) ensures Open(s) == 0 {
          LateResetIsHarmless(s, l);
        }
        UndisturbedStep(s, i);
      }
    }
  }

  ghost predicate SmallInv(threads: nat, calls: nat, s: State)
  {
    LiveInv(s) && |s.th| == threads && s.calls == calls
  }

  lemma SmallInvHolds(threads: nat, calls: nat)
    requires threads <= 1 || calls <= 1
    ensures SmallInv(threads, calls, Init(threads, calls))
    ensures forall x, i :: SmallInv(threads, calls, x) ==> SmallInv(threads, calls, Next(x, i))
  {
    InitInv(threads, calls);
    B.ArrivalsFull(Seen(Init(threads, calls)), 1);
    forall x, i | SmallInv(threads, calls, x) ensures SmallInv(threads, calls, Next(x, i)) {
      LiveStep(x, i);
    }
  }

  lemma {:induction false} AlwaysLive(threads: nat, calls: nat, es: seq<nat>)
    requires threads <= 1 || calls <= 1
    ensures Live(Reached(threads, calls, es))
  {
    var inv := (s: State) => SmallInv(threads, calls, s);
    SmallInvHolds(threads, calls);
    Invariance(Next, inv, Init(threads, calls), es);
  }

  /** The first `j` threads have incremented the counter and not read it again. */
  function Counted(threads: nat, calls: nat, j: nat): State
  {
    State(calls, j, 1, 0, seq(threads, i => if 0 <= i < j then Thread(Test, 0, 1, 0) else Fresh()))
  }

  lemma {:induction false} AllCount(threads: nat, calls: nat, j: nat)
    requires 0 < calls && j <= threads
    ensures Leads(Next, Init(threads, calls), Counted(threads, calls, j))
  {
    var start := Init(threads, calls);
    if j == 0 {
      var s := Counted(threads, calls, 0);
      forall i | 0 <= i < threads ensures s.th[i] == start.th[i] {
        assert s.th[i] == Fresh();
        assert start.th[i] == Fresh();
      }
      assert s == start;
      LeadsNowhere(Next, start);
    } else {
      AllCount(threads, calls, j - 1);
      var s := Counted(threads, calls, j - 1);
      var last: nat := j - 1;
      LeadsOn(Next, start, s, last);
      LeadsOn(Next, start, Next(s, last), last);
      assert Next(Next(s, last), last) == Counted(threads, calls, j);
    }
  }

  /** Threads 0 and 1 have both read a full counter. */
  lemma TwoReaders(threads: nat, calls: nat) returns (s: State)
    requires threads >= 2 && calls >= 2
    ensures Leads(Next, Init(threads, calls), s)
    ensures s == Counted(threads, calls, threads).(th := s.th) && |s.th| == threads
    ensures s.th[0] == s.th[1] == Thread(ResetCount, 0, 1, 0)
    ensures forall i :: 2 <= i < threads ==> s.th[i].pc == Test && s.th[i].arrived == 1
  {
    var start := Init(threads, calls);
    AllCount(threads, calls, threads);
    s := Counted(threads, calls, threads);
    LeadsOn(Next, start, s, 0);
    s := Next(s, 0);
    LeadsOn(Next, start, s, 1);
    s := Next(s, 1);
  }

  /** Once two threads have read a full counter, one can close the round and arrive in the next; the
      reset of the other is then late. */
  lemma FirstClosesAndArrives(s: State)
    requires |s.th| >= 2 && s.calls >= 2 && s.rounds == 0 && s.flag == 1
    requires s.th[0] == s.th[1] == Thread(ResetCount, 0, 1, 0)
    ensures var u := Next(Next(Next(Next(s, 0), 0), 0), 0);
            u.rounds == 1 && LateReset(u, 1) && Open(u) > 0 && !Closer(u, 0)
            && u.th == s.th[0 := Thread(Test, 1, 2, 1)]
  {
    var u := Next(Next(s, 0), 0);
    assert u.th[0] == Thread(Idle, 0, 1, 1) && u.rounds == 1 && u.flag == 0;
    u := Next(Next(u, 0), 0);
    assert u.th[0] == Thread(Test, 1, 2, 1);
    B.ArrivalsFull(Seen(u), 2);
  }

  /** And then nobody can complete the next round. */
  lemma TwoReadersDoom(threads: nat, calls: nat) returns (s: State, u: State)
    requires threads >= 2 && calls >= 2
    ensures Leads(Next, Init(threads, calls), s) && |s.th| == threads
    ensures s.th[0] == s.th[1] == Thread(ResetCount, 0, 1, 0) && s.count == threads
    ensures Leads(Next, Init(threads, calls), u) && u == Next(Next(Next(Next(s, 0), 0), 0), 0)
    ensures u.rounds == 1 && LateReset(u, 1) && Open(u) > 0 && !Live(u)
  {
    var start := Init(threads, calls);
    s := TwoReaders(threads, calls);
    FirstClosesAndArrives(s);
    LeadsOn(Next, start, s, 0);
    LeadsOn(Next, start, Next(s, 0), 0);
    LeadsOn(Next, start, Next(Next(s, 0), 0), 0);
    LeadsOn(Next, start, Next(Next(Next(s, 0), 0), 0), 0);
    u := Next(Next(Next(Next(s, 0), 0), 0), 0);
  }

  /** Deadlock freedom, exactly: every reachable state can still complete all calls if and only if
      there is at most one thread or the barrier is used at most once. */
  lemma DeadlockFreeIffSingleUse(threads: nat, calls: nat)
    ensures (forall es: seq<nat> :: CanReach(Next, Reached(threads, calls, es), Finished))
            <==> threads <= 1 || calls <= 1
  {
    if threads <= 1 || calls <= 1 {
      forall es: seq<nat> ensures CanReach(Next, Reached(threads, calls, es), Finished) {
        AlwaysLive(threads, calls, es);
        CanFinishIffLive(threads, calls, es);
      }
    } else {
      var s, u := TwoReadersDoom(threads, calls);
      var es: seq<nat> :| Run(Next, Init(threads, calls), es) == u;
      CanFinishIffLive(threads, calls, es);
    }
  }

  // ---------- fair runs ----------

  ghost predicate Settled(s: State)
  {
    Finished(s) || !Live(s)
  }

  ghost predicate Helpful(s: State, i: nat)
  {
    Advances(s, i)
  }

  lemma ProgressIsRanked(threads: nat, calls: nat)
    ensures Ranked(Next, (s: State) => InvFor(threads, calls, s), Settled, Measure, Helpful)
  {
    var inv := (s: State) => InvFor(threads, calls, s);
    InvIsKept(threads, calls);
    forall x, i | inv(x) ensures if Helpful(x, i) then Measure(Next(x, i)) < Measure(x) else Next(x, i) == x {
      MeasureStep(x, i);
    }
    forall x | inv(x) && !Settled(x) ensures exists i :: Helpful(x, i) {
      var i := SomeThreadAdvances(x);
      assert Helpful(x, i);
    }
    ChangesAreRanked(Next, inv, Settled, Measure, Helpful);
  }

  /** A fair run completes all calls unless a late reset erases an arrival. */
  lemma EveryFairRunSettles(threads: nat, calls: nat, schedule: nat -> nat) returns (k: nat)
    requires FairTo(threads, schedule, Turn)
    ensures Settled(After(Next, Init(threads, calls), schedule, k))
  {
    var inv := (s: State) => InvFor(threads, calls, s);
    InitInv(threads, calls);
    ProgressIsRanked(threads, calls);
    forall x, i: nat | inv(x) && Helpful(x, i) ensures exists j: nat :: j < threads && Turn(j) == i {
      assert Turn(i) == i;
    }
    FairToHelpful(threads, schedule, Turn, inv, Helpful);
    k := FairRunReaches(Next, inv, Settled, Measure, Helpful, Init(threads, calls), schedule, 0);
  }

  /** Used once, or by one thread, the barrier lets every fair run finish. */
  lemma EveryFairRunFinishesIfSingleUse(threads: nat, calls: nat, schedule: nat -> nat) returns (k: nat)
    requires (threads <= 1 || calls <= 1) && FairTo(threads, schedule, Turn)
    ensures Finished(After(Next, Init(threads, calls), schedule, k))
  {
    var inv := (s: State) => SmallInv(threads, calls, s);
    k := EveryFairRunSettles(threads, calls, schedule);
    SmallInvHolds(threads, calls);
    InvarianceAfter(Next, inv, Init(threads, calls), schedule, k);
  }
}
