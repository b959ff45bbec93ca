/** What the MWAIT barrier guarantees along every run, for any number of threads the lock word can
    count. Beyond two threads it is still safe; what fails is progress (MwaitBarrierLiveness). */
module MwaitBarrierSafety {
  import opened Traces
  import opened Counting
  import opened Sums
  import opened MwaitBarrier
  import B = BarrierSpec
  import L = SpinLocks
  import M = Monitor

  function Reached(threads: nat, calls: nat, es: seq<Event>): State
  {
    Run(Next, Init(threads, calls), es)
  }

  predicate Fits(threads: nat)
  {
    L.Fits(L.DecZero, threads)
  }

  lemma InitInv(threads: nat, calls: nat)
    requires Fits(threads)
    ensures Inv(Init(threads, calls))
  {
    var s := Init(threads, calls);
    CountBounds(s.th, Gathered);
    assert forall i :: !Holder(s, i);
  }

  ghost predicate InvFor(threads: nat, calls: nat, s: State)
  {
    Inv(s) && |s.th| == threads && s.calls == calls
  }

  lemma InvIsKept(threads: nat, calls: nat)
    ensures forall s, e :: InvFor(threads, calls, s) ==> InvFor(threads, calls, Next(s, e))
  {
    forall s, e | InvFor(threads, calls, s) ensures InvFor(threads, calls, Next(s, e)) {
      InvStep(s, e);
    }
  }

  lemma {:induction false} ReachedInv(threads: nat, calls: nat, es: seq<Event>)
    requires Fits(threads)
    ensures InvFor(threads, calls, Reached(threads, calls, es))
  {
    InitInv(threads, calls);
    InvIsKept(threads, calls);
    Invariance(Next, (s: State) => InvFor(threads, calls, s), Init(threads, calls), es);
  }

  // ---------- refinement of the barrier specification ----------

  function CallOf(t: Thread): B.Call
  {
    B.Call(t.arrived, t.passed)
  }

  /** What the barrier specification sees of a state. */
  function Seen(s: State): (cs: seq<B.Call>)
    ensures |cs| == |s.th|
  {
    B.Calls(s.th, CallOf)
  }

  /** A step changes the calls of its own thread only. */
  lemma SeenAfter(s: State, e: Event)
    requires e.i < |s.th|
    ensures Seen(Next(s, e)) == if e.Interrupt? then Seen(s) else Seen(s)[e.i := CallOf(Own(s, e.i).t)]
  {
  }

  /** An arrival opens a call; a return comes when everybody has arrived. */
  lemma CallsOfStep(s: State, i: nat)
    requires Inv(s) && i < |s.th|
    ensures var t, v := s.th[i], Own(s, i).t;
            || CallOf(v) == CallOf(t)
            || (t.arrived == t.passed && CallOf(v) == B.Call(t.arrived + 1, t.passed))
            || (t.arrived == t.passed + 1 && CallOf(v) == B.Call(t.arrived, t.passed + 1)
                && forall j :: 0 <= j < |s.th| ==> s.th[j].arrived >= t.arrived)
  {
    assert ThreadOk(s.th[i], s.calls, s.obj.wins, Noted(s), s.byte);
    if s.th[i].pc in {DecTest, FinalUnlock} {
      forall j | 0 <= j < |s.th| ensures s.th[j].arrived >= s.th[i].arrived {
        assert ThreadOk(s.th[j], s.calls, s.obj.wins, Noted(s), s.byte);
        assert Holder(s, i) && Holder(s, j) ==> i == j;
      }
    }
  }

  /** Every step of the MWAIT barrier is a step of the barrier specification, or no step at all. */
  lemma StepRefinesSpec(s: State, e: Event)
    requires Inv(s)
    ensures B.Allowed(Seen(s), Seen(Next(s, e)), e.i)
  {
    if e.i < |s.th| {
      var a, c := Seen(s), CallOf(Own(s, e.i).t);
      SeenAfter(s, e);
      CallsOfStep(s, e.i);
      if e.Instr? && c == a[e.i] {
        assert a[e.i := c] == a;
      } else if e.Instr? && c.passed != a[e.i].passed {
        assert B.Passes(a, a[e.i := c], e.i);
      }
    }
  }

  /** So every run of the MWAIT barrier is a run of the specification. */
  lemma {:induction false} RunRefinesSpec(threads: nat, calls: nat, es: seq<Event>)
    requires Fits(threads)
    ensures B.IsRun(B.Trace(Next, Seen, Init(threads, calls), es))
  {
    InitInv(threads, calls);
    forall x, e | Inv(x) ensures Inv(Next(x, e)) && B.SomeAllowed(Seen(x), Seen(Next(x, e))) {
      InvStep(x, e);
      StepRefinesSpec(x, e);
    }
    B.TraceIsRun(Next, Inv, Seen, Init(threads, calls), es);
  }

  /** No thread returns from its k-th call before all have made their k-th arrival, and completed
      calls never differ by more than one. */
  lemma {:induction false} NoEarlyReturn(threads: nat, calls: nat, es: seq<Event>, i: nat, j: nat)
    requires Fits(threads) && i < threads && j < threads
    ensures var th := Reached(threads, calls, es).th;
            && |th| == threads
            && th[i].passed <= th[j].arrived
            && th[i].passed <= th[j].passed + 1
  {
    ReachedInv(threads, calls, es);
    RunRefinesSpec(threads, calls, es);
    B.RefinementStaysInStep(Next, Seen, Init(threads, calls), es, i, j);
  }

  lemma InvIsSafe(s: State)
    requires Inv(s)
    ensures forall i, j :: 0 <= i < |s.th| && 0 <= j < |s.th| ==> s.th[i].passed <= s.th[j].arrived
  {
    forall i, j | 0 <= i < |s.th| && 0 <= j < |s.th| ensures s.th[i].passed <= s.th[j].arrived {
      assert ThreadOk(s.th[i], s.calls, s.obj.wins, Noted(s), s.byte);
      assert ThreadOk(s.th[j], s.calls, s.obj.wins, Noted(s), s.byte);
    }
  }

  lemma {:induction false} RunIsSafe(s: State, es: seq<Event>)
    requires Inv(s)
    ensures var th := Run(Next, s, es).th;
            && Inv(Run(Next, s, es)) && |th| == |s.th|
            && forall i, j :: 0 <= i < |th| && 0 <= j < |th| ==> th[i].passed <= th[j].arrived
  {
    InvIsKept(|s.th|, s.calls);
    Invariance(Next, (x: State) => InvFor(|s.th|, s.calls, x), s, es);
    InvIsSafe(Run(Next, s, es));
  }

  // ---------- the lock from the last arrival to the last return ----------

  /** Somebody is still inside a call that everybody has entered: the time from the last arrival of
      a round to its last return. */
  ghost predicate Closing(s: State)
  {
    exists i :: StillIn(s, i)
  }

  ghost predicate StillIn(s: State, i: int)
  {
    && 0 <= i < |s.th| && s.th[i].arrived == s.th[i].passed + 1
    && forall j :: 0 <= j < |s.th| ==> s.th[j].arrived >= s.th[i].arrived
  }

  ghost predicate LastLeaves(s: State, i: int)
  {
    0 <= i < |s.th| && s.th[i].pc == FinalUnlock
  }

  lemma NotedIsClosing(s: State)
    requires Inv(s) && Noted(s)
    ensures Closing(s)
  {
    CountBounds(s.th, Gathered);
    var i :| 0 <= i < |s.th| && Gathered(s.th[i]);
    forall j | 0 <= j < |s.th| ensures s.th[j].arrived == s.obj.wins + 1 {
      assert ThreadOk(s.th[j], s.calls, s.obj.wins, Noted(s), s.byte);
      assert !Holder(s, j);
    }
    assert s.th[i].passed == s.obj.wins by {
      assert ThreadOk(s.th[i], s.calls, s.obj.wins, Noted(s), s.byte);
    }
    assert StillIn(s, i);
  }

  lemma FullIsClosing(s: State)
    requires Inv(s) && |s.th| > 0 && s.obj.gathered == |s.th|
    ensures Closing(s)
  {
    CountBounds(s.th, Gathered);
    forall j | 0 <= j < |s.th| ensures s.th[j].arrived == s.th[j].passed + 1 == s.obj.wins + 1 {
      assert Gathered(s.th[j]);
      assert ThreadOk(s.th[j], s.calls, s.obj.wins, Noted(s), s.byte);
    }
    assert StillIn(s, 0);
  }

  lemma LastLeaverIsClosing(s: State, i: int)
    requires Inv(s) && LastLeaves(s, i)
    ensures Closing(s)
  {
    assert ThreadOk(s.th[i], s.calls, s.obj.wins, Noted(s), s.byte);
    forall j | 0 <= j < |s.th| ensures s.th[j].arrived >= s.obj.wins {
      assert ThreadOk(s.th[j], s.calls, s.obj.wins, Noted(s), s.byte);
      assert Holder(s, i) && Holder(s, j) ==> i == j;
    }
    assert StillIn(s, i);
  }

  /** In terms of the object: the round is notified, or about to be, or about to be unlocked. */
  lemma ClosingIs(s: State)
    requires Inv(s) && Closing(s)
    ensures Noted(s) || s.obj.gathered == |s.th| > 0 || exists i :: LastLeaves(s, i)
  {
    var i :| StillIn(s, i);
    if !Noted(s) && !LastLeaves(s, i) {
      forall j | 0 <= j < |s.th| ensures Gathered(s.th[j]) {
        assert ThreadOk(s.th[i], s.calls, s.obj.wins, Noted(s), s.byte);
        assert ThreadOk(s.th[j], s.calls, s.obj.wins, Noted(s), s.byte);
      }
      CountBounds(s.th, Gathered);
    }
  }

  lemma ClosingIsTaken(s: State)
    requires Inv(s) && Closing(s)
    ensures Taken(s) && s.obj.lock <= 0
  {
    ClosingIs(s);
    if i :| LastLeaves(s, i) {
      assert Holder(s, i);
    }
  }

  /** While a round closes, every step but the last leaver's unlock leaves it closing. */
  lemma ClosingStays(s: State, i: nat)
    requires Inv(s) && Closing(s) && i < |s.th| && s.th[i].pc != FinalUnlock
    ensures Closing(Next(s, Instr(i)))
  {
    var u := Next(s, Instr(i));
    InvStep(s, Instr(i));
    RoundStep(s, i);
    ClosingIs(s);
    assert ThreadOk(s.th[i], s.calls, s.obj.wins, Noted(s), s.byte);
    if Noted(u) {
      NotedIsClosing(u);
    } else if Noted(s) {
      LastLeaverIsClosing(u, i);
    } else if h :| LastLeaves(s, h) {
      LastLeaverIsClosing(u, h);
    } else {
      CountBounds(s.th, Gathered);
      assert Gathered(s.th[i]);
      GatheredStep(s, i);
      FullIsClosing(u);
    }
  }

  lemma ClosingInterrupted(s: State, i: nat)
    requires Inv(s) && Closing(s)
    ensures Closing(Next(s, Interrupt(i)))
  {
    var u := Next(s, Interrupt(i));
    var h :| StillIn(s, h);
    assert StillIn(u, h);
  }

  /** The last leaver's unlock ends the round for everybody. */
  lemma LastLeaverUnlocks(s: State, i: nat)
    requires Inv(s) && LastLeaves(s, i)
    ensures var u := Next(s, Instr(i));
            && !Closing(u) && u.obj.lock == 1
            && |u.th| == |s.th| && forall j :: 0 <= j < |u.th| ==> u.th[j].passed == u.obj.wins
  {
    var u := Next(s, Instr(i));
    assert Holder(s, i);
    CountBounds(s.th, Gathered);
    forall j | 0 <= j < |u.th| ensures u.th[j].passed == u.obj.wins && u.th[j].arrived == u.th[j].passed {
      assert ThreadOk(s.th[j], s.calls, s.obj.wins, Noted(s), s.byte);
      assert j != i ==> !Holder(s, j) && !Gathered(s.th[j]);
    }
  }

  /** The lock is handed from the last arriver to the last leaver. From the last arrival of a round
      to its last return the lock is taken, every attempt at it fails, and no step but the last
      leaver's unlock ends that time or frees it; then the round is over for everybody. */
  lemma {:induction false} LockIsHandedOver(threads: nat, calls: nat, es: seq<Event>, e: Event)
    requires Fits(threads) && e.i < threads
    ensures var s := Reached(threads, calls, es);
            var u := Next(s, e);
            && |s.th| == |u.th| == threads
            && var unlocks := e.Instr? && s.th[e.i].pc == FinalUnlock;
            && (unlocks ==> Closing(s))
            && (Closing(s) ==>
                && s.obj.lock <= 0
                && (e.Instr? && s.th[e.i].pc in {LockTry, LockSpin} ==> u.th[e.i].pc == LockSpin)
                && (Closing(u) <==> !unlocks)
                && (u.obj.lock == 1 <==> unlocks)
                && (unlocks ==> forall j :: 0 <= j < threads ==> u.th[j].passed == u.obj.wins))
  {
    ReachedInv(threads, calls, es);
    var s := Reached(threads, calls, es);
    if e.Instr? && s.th[e.i].pc == FinalUnlock {
      LastLeaverIsClosing(s, e.i);
      LastLeaverUnlocks(s, e.i);
    }
    if Closing(s) {
      StepWhileClosing(s, e);
    }
  }

  lemma AttemptFails(s: State, i: nat)
    requires Inv(s) && Taken(s) && i < |s.th| && s.th[i].pc in {LockTry, LockSpin}
    ensures Own(s, i).t.pc == LockSpin
  {
    if s.th[i].pc == LockTry { WordFits(s, i); }
  }

  lemma StepWhileClosing(s: State, e: Event)
    requires Inv(s) && Closing(s) && e.i < |s.th|
    ensures s.obj.lock <= 0 && |Next(s, e).th| == |s.th|
    ensures !(e.Instr? && s.th[e.i].pc == FinalUnlock) ==> Closing(Next(s, e)) && Next(s, e).obj.lock <= 0
    ensures e.Instr? && s.th[e.i].pc in {LockTry, LockSpin} ==> Next(s, e).th[e.i].pc == LockSpin
  {
    InvStep(s, e);
    ClosingIsTaken(s);
    if e.Interrupt? {
      ClosingInterrupted(s, e.i);
    } else {
      if s.th[e.i].pc in {LockTry, LockSpin} { AttemptFails(s, e.i); }
      if s.th[e.i].pc != FinalUnlock {
        ClosingStays(s, e.i);
        ClosingIsTaken(Next(s, e));
      }
    }
  }

  /** `atomic_dec_and_test` has been true exactly once for every round that everybody has left, or
      that the last leaver, who is alone, is about to unlock. */
  lemma {:induction false} OneWinnerPerRound(threads: nat, calls: nat, es: seq<Event>)
    requires Fits(threads) && threads > 0
    ensures var s := Reached(threads, calls, es);
            && |s.th| == threads
            && (forall i :: LastLeaves(s, i) ==> s.th[i].passed + 1 == s.obj.wins)
            && (forall i, j :: LastLeaves(s, i) && LastLeaves(s, j) ==> i == j)
            && (forall i :: 0 <= i < threads && !LastLeaves(s, i) ==> s.obj.wins <= s.th[i].passed <= s.obj.wins + 1)
            && ((forall i :: !LastLeaves(s, i)) ==> exists i :: 0 <= i < threads && s.th[i].passed == s.obj.wins)
  {
    ReachedInv(threads, calls, es);
    var s := Reached(threads, calls, es);
    forall i | 0 <= i < threads
      ensures LastLeaves(s, i) ==> s.th[i].passed + 1 == s.obj.wins
      ensures !LastLeaves(s, i) ==> s.obj.wins <= s.th[i].passed <= s.obj.wins + 1
      ensures !LastLeaves(s, i) && (Gathered(s.th[i]) || !Noted(s)) ==> s.th[i].passed == s.obj.wins
    {
      assert ThreadOk(s.th[i], s.calls, s.obj.wins, Noted(s), s.byte);
    }
    assert forall i :: LastLeaves(s, i) ==> Holder(s, i);
    CountBounds(s.th, Gathered);
    assert Noted(s) || LastLeaves(s, 0) || s.th[0].passed == s.obj.wins;
  }

  /** The plain increment of `gathered` is never interleaved with another access that writes it, so
      it adds exactly one, and the atomic decrement never wraps. */
  lemma {:induction false} IncrementIsUndisturbed(threads: nat, calls: nat, es: seq<Event>, i: nat, j: nat)
    requires Fits(threads) && i < threads && j < threads && i != j
    ensures var s := Reached(threads, calls, es);
            var u := Next(s, Instr(i));
            && |s.th| == threads
            && (s.th[i].pc in {IncRead, IncWrite} ==> s.th[j].pc !in {IncRead, IncWrite, DecTest})
            && (s.th[i].pc == IncWrite ==> u.obj.gathered == s.obj.gathered + 1 <= threads)
            && (s.th[i].pc == DecTest ==> u.obj.gathered == s.obj.gathered - 1 >= 0)
  {
    ReachedInv(threads, calls, es);
    var s := Reached(threads, calls, es);
    GatheredStep(s, i);
    assert Holder(s, i) && Holder(s, j) ==> i == j;
    assert ThreadOk(s.th[i], s.calls, s.obj.wins, Noted(s), s.byte);
    assert ThreadOk(s.th[j], s.calls, s.obj.wins, Noted(s), s.byte);
  }

  /** Notifications stay inside their round. A free lock finds every round notified once and reset
      once by each of the others, and the cell at its original value, except that a thread alone leaves
      it notified; at any other time only the present round is missing. */
  lemma {:induction false} NotificationsStayInRound(threads: nat, calls: nat, es: seq<Event>)
    requires Fits(threads) && threads > 0
    ensures var s := Reached(threads, calls, es);
            && s.obj.wins <= s.obj.notifies <= s.obj.wins + 1
            && s.obj.resets <= s.obj.notifies * (threads - 1) <= s.obj.resets + (threads - 1)
            && (s.byte == M.NOTIFIED_VAL ==> s.obj.resets + (threads - 1) == s.obj.notifies * (threads - 1))
            && (s.obj.lock == 1 ==>
                && (s.byte == M.ORIGINAL_VAL <==> threads >= 2 || s.obj.wins == 0)
                && s.obj.notifies == s.obj.wins && s.obj.resets == s.obj.notifies * (threads - 1)
                && forall i :: 0 <= i < |s.th| ==> s.th[i].passed == s.obj.wins)
  {
    ReachedInv(threads, calls, es);
    var s := Reached(threads, calls, es);
    CostIs(threads - 1, s.obj.notifies);
    if s.obj.lock == 1 {
      forall i | 0 <= i < |s.th| ensures s.th[i].passed == s.obj.wins {
        assert ThreadOk(s.th[i], s.calls, s.obj.wins, Noted(s), s.byte);
        assert !Holder(s, i);
      }
    }
  }
}
