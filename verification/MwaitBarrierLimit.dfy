/** Why the barrier is for two threads: with three or more, one sleeper's reset of the cell can
    strand another. */
module MwaitBarrierLimit {
  import opened Options
  import opened Traces
  import opened MwaitBarrier
  import opened MwaitBarrierSafety
  import opened MwaitBarrierLiveness
  import M = Monitor

  function Fresh(): Thread
  {
    Thread(Idle, M.Off, 0, 0, 0)
  }

  /** Thread number `i` asleep in its first call. */
  function Asleep(i: nat, mon: M.Mon): Thread
  {
    Thread(Sleep(M.Blocked), mon, i, 1, 0)
  }

  /** The first `j` threads sleep; the others have not called. */
  function Gathering(n: nat, calls: nat, j: nat): State
  {
    State(calls, Obj(1, j, 0, 0, 0), M.ORIGINAL_VAL, seq(n, i => if 0 <= i < j then Asleep(i, M.Armed) else Fresh()))
  }

  /** `base` with thread `i` and the object in another state. */
  function Slot(base: State, i: nat, b: Obj, t: Thread): State
    requires i < |base.th|
  {
    base.(obj := b, th := base.th[i := t])
  }

  /** One more instruction of thread `i` that does not store to the cell. */
  lemma Silently(start: State, base: State, i: nat, b: Obj, t: Thread) returns (o: Effect)
    requires i < |base.th| && Leads(Next, start, Slot(base, i, b, t))
    requires Code(|base.th|, base.calls, b, base.byte, t).store.None?
    ensures o == Code(|base.th|, base.calls, b, base.byte, t) && Leads(Next, start, Slot(base, i, o.obj, o.t))
  {
    o := Code(|base.th|, base.calls, b, base.byte, t);
    var s := Slot(base, i, b, t);
    LeadsOn(Next, start, s, Instr(i));
    assert Next(s, Instr(i)) == Slot(base, i, o.obj, o.t);
  }

  /** A fresh thread takes the free lock and counts itself in. */
  lemma Arrive(start: State, s: State, i: nat) returns (o: Effect)
    requires i < |s.th| && s.th[i] == Fresh() && 0 < s.calls && Leads(Next, start, s)
    requires s.obj.lock == 1 && s.obj.gathered == i && i + 1 < W32
    ensures o == Effect(Thread(Test, M.Off, i, 1, 0), s.obj.(lock := 0, gathered := i + 1), None)
    ensures Leads(Next, start, Slot(s, i, o.obj, o.t))
  {
    assert Slot(s, i, s.obj, Fresh()) == s;
    o := Silently(start, s, i, s.obj, Fresh());
    o := Silently(start, s, i, o.obj, o.t);
    o := Silently(start, s, i, o.obj, o.t);
    o := Silently(start, s, i, o.obj, o.t);
  }

  lemma FallAsleep(start: State, n: nat, calls: nat, j: nat)
    requires 0 < calls && j + 1 < n && Fits(n) && Leads(Next, start, Gathering(n, calls, j))
    ensures Leads(Next, start, Gathering(n, calls, j + 1))
  {
    var s := Gathering(n, calls, j);
    var o := Arrive(start, s, j);
    o := Silently(start, s, j, o.obj, o.t);
    o := Silently(start, s, j, o.obj, o.t);
    o := Silently(start, s, j, o.obj, o.t);
    o := Silently(start, s, j, o.obj, o.t);
    o := Silently(start, s, j, o.obj, o.t);
    assert o.t == Asleep(j, M.Armed) && o.obj == Obj(1, j + 1, 0, 0, 0);
    assert Slot(s, j, o.obj, o.t) == Gathering(n, calls, j + 1);
  }

  lemma {:induction false} AllButOneSleep(n: nat, calls: nat, j: nat)
    requires 0 < calls && j < n && Fits(n)
    ensures Leads(Next, Init(n, calls), Gathering(n, calls, j))
  {
    if j == 0 {
      var s, u := Gathering(n, calls, 0), Init(n, calls);
      forall i | 0 <= i < n ensures s.th[i] == u.th[i] {
        assert s.th[i] == Fresh();
        assert u.th[i] == Fresh();
      }
      assert s.th == u.th;
      LeadsNowhere(Next, Init(n, calls));
    } else {
      AllButOneSleep(n, calls, j - 1);
      FallAsleep(Init(n, calls), n, calls, j - 1);
    }
  }

  /** The last thread has arrived and notified; every sleeper's monitor has fired. */
  function Notifying(n: nat, calls: nat): State
    requires n >= 3
  {
    State(calls, Obj(0, n, 1, 0, 0), M.NOTIFIED_VAL,
          seq(n, i => if 0 <= i < n - 1 then Asleep(i, M.Fired) else Thread(DecTest, M.Off, n - 1, 1, 0)))
  }

  lemma LastArrives(start: State, n: nat, calls: nat)
    requires 0 < calls && 3 <= n && Fits(n) && Leads(Next, start, Gathering(n, calls, n - 1))
    ensures Leads(Next, start, Notifying(n, calls))
  {
    var s, j := Gathering(n, calls, n - 1), n - 1;
    var o := Arrive(start, s, j);
    o := Silently(start, s, j, o.obj, o.t);
    assert o.t == Thread(Notify, M.Off, n - 1, 1, 0) && o.obj == Obj(0, n, 0, 0, 0);
    var u := Slot(s, j, o.obj, o.t);
    LeadsOn(Next, start, u, Instr(j));
    assert Next(u, Instr(j)) == Notifying(n, calls);
  }

  /** Thread 0 has consumed the notification. */
  function Consumed(n: nat, calls: nat): State
    requires n >= 3
  {
    State(calls, Obj(0, n, 1, 1, 0), M.ORIGINAL_VAL,
          seq(n, i => if i == 0 then Thread(DecTest, M.Off, 0, 1, 0)
                      else if i == n - 1 then Thread(DecTest, M.Off, n - 1, 1, 0)
                      else if 0 < i < n - 1 then Asleep(i, M.Fired) else Fresh()))
  }

  lemma FirstWakes(start: State, n: nat, calls: nat)
    requires 0 < calls && 3 <= n && Fits(n) && Leads(Next, start, Notifying(n, calls))
    ensures Leads(Next, start, Consumed(n, calls))
  {
    var s := Notifying(n, calls);
    assert Slot(s, 0, s.obj, s.th[0]) == s;
    var o := Silently(start, s, 0, s.obj, s.th[0]);
    o := Silently(start, s, 0, o.obj, o.t);
    var u := Slot(s, 0, o.obj, o.t);
    LeadsOn(Next, start, u, Instr(0));
    assert Next(u, Instr(0)) == Consumed(n, calls);
  }

  /** With three threads or more, a schedule strands a sleeper. */
  lemma {:induction false} OneResetStrands(threads: nat, calls: nat) returns (es: seq<Event>)
    requires 3 <= threads && Fits(threads) && 0 < calls
    ensures Stranded(Reached(threads, calls, es))
  {
    var start := Init(threads, calls);
    AllButOneSleep(threads, calls, threads - 1);
    LastArrives(start, threads, calls);
    FirstWakes(start, threads, calls);
    es :| Run(Next, start, es) == Consumed(threads, calls);
    assert Listens(Reached(threads, calls, es), 1);
  }

  /** The two-thread restriction is exact: every reachable state can still complete all calls if
      and only if there are at most two threads (or nothing to call). */
  lemma AtMostTwoThreads(threads: nat, calls: nat)
    requires Fits(threads)
    ensures (forall es: seq<Event> :: CanReach(Next, Reached(threads, calls, es), Finished))
            <==> threads <= 2 || calls == 0
  {
    if threads <= 2 || calls == 0 {
      forall es: seq<Event> ensures CanReach(Next, Reached(threads, calls, es), Finished) {
        ReachedInv(threads, calls, es);
        TwoAreNotStranded(Reached(threads, calls, es));
        CanFinishIffNotStranded(threads, calls, es);
      }
    } else {
      var es := OneResetStrands(threads, calls);
      CanFinishIffNotStranded(threads, calls, es);
    }
  }
}
