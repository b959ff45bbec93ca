/** The MWAIT barrier instruction by instruction: what one instruction may do to the shared words,
    what wakes a sleeper, and how many instructions a round takes. */
module MwaitBarrierRounds {
  import opened Traces
  import opened MwaitBarrier
  import opened MwaitBarrierSafety
  import M = Monitor

  // ---------- one instruction ----------

  /** Along every run, a thread on its way into `mwait` or stopped in it has executed `monitor`
      since its last one; behind `mwait` the monitor is used up, and outside the sleep call it is not
      armed. */
  lemma {:induction false} MonitorBeforeMwait(threads: nat, calls: nat, es: seq<Event>, i: nat)
    requires Fits(threads) && i < threads
    ensures var s := Reached(threads, calls, es);
            && |s.th| == threads
            && (s.th[i].pc in {Sleep(M.Check), Sleep(M.Mwait), Sleep(M.Blocked)} ==> s.th[i].mon != M.Off)
            && (s.th[i].pc == Sleep(M.Recheck) ==> s.th[i].mon == M.Off)
            && (!s.th[i].pc.Sleep? ==> s.th[i].mon != M.Armed)
  {
    ReachedInv(threads, calls, es);
    var s := Reached(threads, calls, es);
    assert ThreadOk(s.th[i], s.calls, s.obj.wins, Noted(s), s.byte);
  }

  /** Every attempt at the lock lowers its word by one, and acquires it exactly when it was 1; the spin
      loop only looks, and is left exactly when the word is 1. */
  lemma {:induction false} AttemptDecrements(threads: nat, calls: nat, es: seq<Event>, i: nat)
    requires Fits(threads) && i < threads
    ensures var s := Reached(threads, calls, es);
            var u := Next(s, Instr(i));
            && |s.th| == |u.th| == threads
            && (s.th[i].pc == LockTry ==>
                && u.obj.lock == s.obj.lock - 1
                && u.th[i].pc == if s.obj.lock == 1 then IncRead else LockSpin)
            && (s.th[i].pc == LockSpin ==>
                && u.obj == s.obj
                && u.th[i].pc == if s.obj.lock == 1 then LockTry else LockSpin)
  {
    ReachedInv(threads, calls, es);
    var s := Reached(threads, calls, es);
    if s.th[i].pc == LockTry && Taken(s) { WordFits(s, i); }
  }

  /** At most one of the lock word, `gathered` and the cell changes. */
  lemma OneWordAtATime(s: State, e: Event)
    ensures var u := Next(s, e);
            || (u.obj.lock == s.obj.lock && u.obj.gathered == s.obj.gathered)
            || (u.obj.lock == s.obj.lock && u.byte == s.byte)
            || (u.obj.gathered == s.obj.gathered && u.byte == s.byte)
  {
  }

  /** Apart from the atomic decrement, an instruction does not both read and write `gathered`: it
      leaves any value there alone, or stores a value, and takes a step, that do not depend on it. */
  lemma IncrementIsTwoAccesses(s: State, i: nat, g: int)
    requires i < |s.th| && s.th[i].pc != DecTest
    ensures var u, v := Next(s, Instr(i)), Next(s.(obj := s.obj.(gathered := g)), Instr(i));
            || (u.obj.gathered == s.obj.gathered && v.obj.gathered == g)
            || u == v
  {
  }

  /** On the 32-bit word the increment wraps from its maximum to 0, and the decrement from 0 to its
      maximum; the decrement tells whether 0 is left. */
  lemma WordWraps(n: nat, calls: nat, b: Obj, byte: char, t: Thread)
    requires 0 <= b.gathered < 0x1_0000_0000 && 0 <= t.tmp < 0x1_0000_0000
    ensures var g := Code(n, calls, b, byte, t).obj.gathered;
            && (t.pc == IncWrite ==> g == if t.tmp == 0xFFFF_FFFF then 0 else t.tmp + 1)
            && (t.pc == DecTest ==> g == if b.gathered == 0 then 0xFFFF_FFFF else b.gathered - 1)
  {
  }

  // ---------- what wakes a sleeper ----------

  /** The event is a store to the cell, or an interrupt taken by the CPU of thread `i`. */
  predicate Wakes(s: State, e: Event, i: nat)
  {
    match e
    case Interrupt(j) => j == i
    case Instr(j) => j < |s.th| && s.th[j].pc in {Notify, Sleep(M.Reset)}
  }

  predicate WokenDuring(s: State, es: seq<Event>, i: nat)
    decreases |es|
  {
    es != [] && (Wakes(s, es[0], i) || WokenDuring(Next(s, es[0]), es[1..], i))
  }

  predicate StoppedWith(s: State, i: nat, mon: M.Mon)
  {
    i < |s.th| && s.th[i].pc == Sleep(M.Blocked) && s.th[i].mon == mon
  }

  lemma StoppedStep(s: State, e: Event, i: nat, mon: M.Mon)
    requires StoppedWith(s, i, mon) && e != Instr(i)
    ensures StoppedWith(Next(s, e), i, if Wakes(s, e, i) && mon == M.Armed then M.Fired else mon)
  {
  }

  lemma {:induction false} StoppedRun(s: State, es: seq<Event>, i: nat, mon: M.Mon)
    requires StoppedWith(s, i, mon) && Instr(i) !in es
    ensures StoppedWith(Run(Next, s, es), i, if mon == M.Armed && WokenDuring(s, es, i) then M.Fired else mon)
    decreases |es|
  {
    if es != [] {
      StoppedStep(s, es[0], i, mon);
      StoppedRun(Next(s, es[0]), es[1..], i, if Wakes(s, es[0], i) && mon == M.Armed then M.Fired else mon);
    }
  }

  /** A stopped thread goes on, to the test of the cell, if and only if there has been a store to the
      cell or an interrupt to it in the meantime. */
  lemma {:induction false} WokenIff(s: State, es: seq<Event>, i: nat)
    requires StoppedWith(s, i, M.Armed) && Instr(i) !in es
    ensures var u := Next(Run(Next, s, es), Instr(i));
            && i < |u.th|
            && (u.th[i].pc == Sleep(M.Recheck) <==> WokenDuring(s, es, i))
            && (u.th[i].pc == Sleep(M.Blocked) <==> !WokenDuring(s, es, i))
  {
    StoppedRun(s, es, i, M.Armed);
  }

  // ---------- a round ----------

  function Turns(s: State, i: nat, m: nat): State
  {
    Repeat(Next, s, Instr(i), m)
  }

  predicate RestsAfter(t: Thread, k: nat)
  {
    t.pc == Idle && t.arrived == t.passed == k && t.mon != M.Armed
  }

  /** Two threads between their calls, after `k` rounds. */
  predicate Resting(s: State, k: nat)
  {
    && |s.th| == 2 && RestsAfter(s.th[0], k) && RestsAfter(s.th[1], k)
    && s.obj == Obj(1, 0, k, k, k) && s.byte == M.ORIGINAL_VAL
  }

  /** The first to arrive frees the lock again at its sixth instruction, and enters the sleep call. */
  lemma FirstArrives(s: State, k: nat)
    requires Resting(s, k) && k < s.calls
    ensures Turns(s, 0, 6) ==
            s.(obj := Obj(1, 1, k, k, k), th := [Thread(Sleep(M.Arm), s.th[0].mon, 0, k + 1, k), s.th[1]])
  {
    assert Turns(s, 0, 3).th[0].pc == IncWrite && Turns(s, 0, 3).obj == Obj(0, 0, k, k, k);
    assert Turns(s, 0, 6).th == [Thread(Sleep(M.Arm), s.th[0].mon, 0, k + 1, k), s.th[1]];
  }

  /** It stops at its ninth. */
  lemma FirstStops(s: State)
    requires |s.th| == 2 && s.th[0].pc == Sleep(M.Arm) && s.byte == M.ORIGINAL_VAL
    ensures |Turns(s, 0, 2).th| == 2 && Turns(s, 0, 2).th[0].pc == Sleep(M.Mwait)
    ensures Turns(s, 0, 3) == s.(th := [s.th[0].(pc := Sleep(M.Blocked), mon := M.Armed), s.th[1]])
  {
    assert Turns(s, 0, 2).th[0].pc == Sleep(M.Mwait);
    assert Turns(s, 0, 3).th == [s.th[0].(pc := Sleep(M.Blocked), mon := M.Armed), s.th[1]];
  }

  /** The second notifies and returns at its seventh instruction, and leaves the lock taken. */
  lemma SecondReturns(s: State, k: nat)
    requires |s.th| == 2 && RestsAfter(s.th[1], k) && k < s.calls && s.obj == Obj(1, 1, k, k, k)
    requires s.th[0] == Thread(Sleep(M.Blocked), M.Armed, 0, k + 1, k)
    ensures var u := Turns(s, 1, 7);
            && Turns(s, 1, 6).th[1].passed == k && Turns(s, 1, 6).th[1].pc == DecTest
            && RestsAfter(u.th[1], k + 1) && u.th[0] == s.th[0].(mon := M.Fired) && |u.th| == 2
            && u.obj == Obj(0, 1, k + 1, k, k) && u.byte == M.NOTIFIED_VAL && u.calls == s.calls
  {
    assert Turns(s, 1, 3).th[1].pc == IncWrite && Turns(s, 1, 3).obj == Obj(0, 1, k, k, k);
    assert Turns(s, 1, 5).th[1].pc == Notify && Turns(s, 1, 5).obj == Obj(0, 2, k, k, k);
  }

  /** The sleeper then resets the cell, unlocks, and returns at its fifth instruction. */
  lemma FirstReturns(s: State, k: nat)
    requires |s.th| == 2 && RestsAfter(s.th[1], k + 1) && s.obj == Obj(0, 1, k + 1, k, k)
    requires s.th[0] == Thread(Sleep(M.Blocked), M.Fired, 0, k + 1, k) && s.byte == M.NOTIFIED_VAL
    ensures Turns(s, 0, 4).th[0].passed == k && Resting(Turns(s, 0, 5), k + 1) && Turns(s, 0, 5).calls == s.calls
  {
    assert Turns(s, 0, 2).th[0].pc == Sleep(M.Reset);
    assert Turns(s, 0, 4).th[0].pc == FinalUnlock && Turns(s, 0, 4).obj == Obj(0, 0, k + 1, k + 1, k + 1);
  }

  /** How many instructions the first to arrive has up to the sleep call and in it, then the second,
      then the first again. */
  datatype Pace = Pace(arrive: nat, stop: nat, second: nat, last: nat)

  function InTurn(s: State, p: Pace): State
  {
    Turns(Turns(Turns(Turns(s, 0, p.arrive), 0, p.stop), 1, p.second), 0, p.last)
  }

  lemma RoundInTurn(s: State, k: nat, p: Pace)
    requires Resting(s, k) && k < s.calls && p == Pace(6, 3, 7, 5)
    ensures Resting(InTurn(s, p), k + 1) && InTurn(s, p).calls == s.calls
  {
    var s1 := Turns(s, 0, p.arrive);
    var s2 := Turns(s1, 0, p.stop);
    FirstArrives(s, k);
    FirstStops(s1);
    SecondReturns(s2, k);
    FirstReturns(Turns(s2, 1, p.second), k);
  }

  function Rounds(s: State, k: nat, p: Pace): State
  {
    if k == 0 then s else InTurn(Rounds(s, k - 1, p), p)
  }

  ghost predicate KeepsPace(p: Pace)
  {
    forall s, k: nat :: Resting(s, k) && k < s.calls ==>
      Resting(InTurn(s, p), k + 1) && InTurn(s, p).calls == s.calls
  }

  lemma {:induction false} RoundsAtPace(s: State, k: nat, p: Pace)
    requires Resting(s, 0) && k <= s.calls && KeepsPace(p)
    ensures Resting(Rounds(s, k, p), k) && Rounds(s, k, p).calls == s.calls
  {
    if k > 0 {
      RoundsAtPace(s, k - 1, p);
      assert Resting(InTurn(Rounds(s, k - 1, p), p), k);
    }
  }

  /** One after the other, two threads complete every round in 21 instructions, for as long as they
      have calls to make. */
  lemma RoundsInTurn(s: State, k: nat, p: Pace)
    requires s == Init(2, s.calls) && k <= s.calls && p == Pace(6, 3, 7, 5)
    ensures Resting(Rounds(s, k, p), k)
  {
    forall x, j: nat | Resting(x, j) && j < x.calls
      ensures Resting(InTurn(x, p), j + 1) && InTurn(x, p).calls == x.calls
    {
      RoundInTurn(x, j, p);
    }
    RoundsAtPace(s, k, p);
  }

  /** A thread alone notifies nobody and needs eight instructions for a call. */
  lemma AloneInEight(s: State, k: nat)
    requires |s.th| == 1 && RestsAfter(s.th[0], k) && k < s.calls
    requires s.obj.lock == 1 && s.obj.gathered == 0
    ensures var u := Turns(s, 0, 8);
            && Turns(s, 0, 7).th[0].passed == k
            && |u.th| == 1 && RestsAfter(u.th[0], k + 1) && u.obj.lock == 1 && u.obj.gathered == 0
  {
    assert Turns(s, 0, 3).th[0].pc == IncWrite && Turns(s, 0, 3).obj.gathered == 0;
    assert Turns(s, 0, 6).th[0].pc == DecTest && Turns(s, 0, 6).obj.gathered == 1;
  }
}
