/** The four hand-written spin locks, for any number of threads, against one abstract mutex. */
module SpinLocks {
  import opened Traces
  import opened Counting
  import opened Division

  /** `DecZero`: decrement, acquired on zero (spin_lock_fast).
      `DecSign`: decrement, acquired on a clear sign bit (spin_lock, spin_lock_v2).
      `XchgClear`: exchange with 0, free is 1 (spin_lock_cas).
      `XchgSet`: exchange with 1, free is 0 (spin_lock of spin.c). */
  datatype Form = DecZero | DecSign | XchgClear | XchgSet

  datatype Pc = Out | Try | Spin | Held

  /** `fails` counts the attempts that failed during the present hold. */
  datatype State = State(form: Form, word: int, pc: seq<Pc>, fails: nat)

  const W31 := 0x8000_0000

  /** `decl` on a 32-bit word read as a signed number. */
  function Dec32(w: int): int
  {
    if w == -W31 then W31 - 1 else w - 1
  }

  /** It is subtraction modulo 2^32, seen as a signed number; `jne` and `jns` look at its result. */
  lemma Dec32IsDecl(w: int)
    requires -0x8000_0000 <= w < 0x8000_0000
    ensures -0x8000_0000 <= Dec32(w) < 0x8000_0000
    ensures Dec32(w) % 0x1_0000_0000 == (w - 1) % 0x1_0000_0000
    ensures Won(DecZero, w) <==> (w - 1) % 0x1_0000_0000 == 0
    ensures Won(DecSign, w) <==> (w - 1) % 0x1_0000_0000 < 0x8000_0000
  {
  }

  function FreeWord(f: Form): int
  {
    if f == XchgSet then 0 else 1
  }

  /** The word left by the locked instruction. */
  function Swap(f: Form, w: int): int
  {
    match f
    case DecZero => Dec32(w)
    case DecSign => Dec32(w)
    case XchgClear => 0
    case XchgSet => 1
  }

  /** Whether the locked instruction acquired the lock. */
  predicate Won(f: Form, w: int)
  {
    match f
    case DecZero => Dec32(w) == 0
    case DecSign => Dec32(w) >= 0
    case XchgClear => w == 1
    case XchgSet => w == 0
  }

  /** Whether the spin loop leaves to try again. */
  predicate LooksFree(f: Form, w: int)
  {
    match f
    case DecZero => w > 0
    case DecSign => w > 0
    case XchgClear => w == 1
    case XchgSet => w == 0
  }

  /** The exchange locks take nothing but the free word for free, in the attempt and in the loop; the
      decrement locks leave their loop for just the words that an attempt would acquire, among those a
      lock within its bound can hold. */
  lemma LoopTestIsAttempt(w: int)
    ensures Won(XchgClear, w) <==> w == 1
    ensures Won(XchgSet, w) <==> w == 0
    ensures forall f :: (Decrements(f) ==> -0x8000_0000 < w <= 1) ==> (LooksFree(f, w) <==> Won(f, w))
  {
  }

  function Init(f: Form, threads: nat): State
  {
    State(f, FreeWord(f), seq(threads, i => Out), 0)
  }

  /** One instruction of thread `t`; no thread of that number, no change. */
  function Next(s: State, t: nat): State
  {
    if t >= |s.pc| then s else
    match s.pc[t]
    case Out => s.(pc := s.pc[t := Try])
    case Try =>
      if Won(s.form, s.word) then s.(pc := s.pc[t := Held], word := Swap(s.form, s.word), fails := 0)
      else s.(pc := s.pc[t := Spin], word := Swap(s.form, s.word), fails := s.fails + 1)
    case Spin => if LooksFree(s.form, s.word) then s.(pc := s.pc[t := Try]) else s
    case Held => s.(pc := s.pc[t := Out], word := FreeWord(s.form))
  }

  /** The abstract mutex: an attempt succeeds exactly when nobody is inside. */
  function Mutex(pcs: seq<Pc>, t: nat): seq<Pc>
  {
    if t >= |pcs| then pcs else
    match pcs[t]
    case Out => pcs[t := Try]
    case Try => pcs[t := if Held in pcs then Spin else Held]
    case Spin => if Held in pcs then pcs else pcs[t := Try]
    case Held => pcs[t := Out]
  }

  ghost predicate Exclusive(pcs: seq<Pc>)
  {
    forall i, j :: 0 <= i < |pcs| && 0 <= j < |pcs| && pcs[i] == Held && pcs[j] == Held ==> i == j
  }

  predicate IsSpinning(p: Pc)
  {
    p == Spin
  }

  /** The number of threads in the spin loop. */
  function Spinners(pcs: seq<Pc>): nat
  {
    Count(pcs, IsSpinning)
  }

  predicate Decrements(f: Form)
  {
    f == DecZero || f == DecSign
  }

  /** The bound the 32-bit word puts on the number of threads. */
  predicate Fits(f: Form, threads: nat)
  {
    Decrements(f) ==> threads <= W31 + 1
  }

  /** The word is the free value exactly when nobody is inside; while a decrement lock is held it
      is minus the number of attempts that failed during this hold. */
  ghost predicate Inv(s: State)
  {
    && Fits(s.form, |s.pc|)
    && Exclusive(s.pc)
    && (Held !in s.pc ==> s.word == FreeWord(s.form))
    && (Held in s.pc ==>
        && s.fails <= Spinners(s.pc)
        && s.word == if Decrements(s.form) then 0 - s.fails else if s.form == XchgClear then 0 else 1)
  }

  lemma InitInv(f: Form, threads: nat)
    requires Fits(f, threads)
    ensures Inv(Init(f, threads))
  {
    assert Held !in Init(f, threads).pc;
  }

  lemma AttemptWhileHeld(s: State, t: nat, h: nat)
    requires Inv(s) && t < |s.pc| && h < |s.pc| && s.pc[t] == Try && s.pc[h] == Held
    ensures s.fails + 1 <= Spinners(s.pc[t := Spin]) < |s.pc|
  {
    CountUpdate(s.pc, t, Spin, IsSpinning);
    CountBounds(s.pc[t := Spin], IsSpinning);
    assert s.pc[t := Spin][h] == Held;
  }

  lemma StepWhileHeld(s: State, t: nat, h: nat)
    requires Inv(s) && t < |s.pc| && h < |s.pc| && s.pc[h] == Held
    ensures Inv(Next(s, t)) && Next(s, t).pc == Mutex(s.pc, t)
  {
    var u := Next(s, t);
    assert Held in s.pc;
    if t == h {
      assert forall i :: 0 <= i < |s.pc| ==> u.pc[i] != Held;
    } else {
      if s.pc[t] == Try {
        AttemptWhileHeld(s, t, h);
      }
      assert u.pc[t] != Held;
      assert u.pc[h] == Held;
      CountUpdate(s.pc, t, u.pc[t], IsSpinning);
    }
  }

  lemma StepWhileFree(s: State, t: nat)
    requires Inv(s) && t < |s.pc| && Held !in s.pc
    ensures Inv(Next(s, t)) && Next(s, t).pc == Mutex(s.pc, t)
  {
    var u := Next(s, t);
    assert s.pc[t] != Held;
    assert forall i :: 0 <= i < |s.pc| && i != t ==> u.pc[i] == s.pc[i] != Held;
    assert Held in u.pc <==> u.pc[t] == Held;
  }

  /** Every instruction of every form is the abstract mutex's step on the program counters. */
  lemma StepIsMutexStep(s: State, t: nat)
    requires Inv(s)
    ensures Inv(Next(s, t)) && Next(s, t).pc == Mutex(s.pc, t)
  {
    if t < |s.pc| {
      if Held in s.pc {
        var h: nat :| h < |s.pc| && s.pc[h] == Held;
        StepWhileHeld(s, t, h);
      } else {
        StepWhileFree(s, t);
      }
    }
  }

  lemma {:induction false} RunIsMutexRun(s: State, es: seq<nat>)
    requires Inv(s)
    ensures Inv(Run(Next, s, es)) && Run(Next, s, es).pc == Run(Mutex, s.pc, es)
    decreases |es|
  {
    if es != [] {
      StepIsMutexStep(s, es[0]);
      RunIsMutexRun(Next(s, es[0]), es[1..]);
    }
  }

  /** The lock behaves as the abstract mutex under every schedule of `threads` threads. */
  ghost predicate IsMutex(f: Form, threads: nat)
  {
    forall es: seq<nat> :: Run(Next, Init(f, threads), es).pc == Run(Mutex, Init(f, threads).pc, es)
  }

  /** Never two threads inside, under every schedule of `threads` threads. */
  ghost predicate Excludes(f: Form, threads: nat)
  {
    forall es: seq<nat> :: Exclusive(Run(Next, Init(f, threads), es).pc)
  }

  lemma MutexStepExcludes(pcs: seq<Pc>, t: nat)
    requires Exclusive(pcs)
    ensures Exclusive(Mutex(pcs, t))
  {
  }

  /** The abstract mutex excludes, and so does every lock that behaves like it. */
  lemma MutexExcludes(f: Form, threads: nat)
    requires IsMutex(f, threads)
    ensures Excludes(f, threads)
  {
    forall es: seq<nat> ensures Exclusive(Run(Next, Init(f, threads), es).pc) {
      forall pcs, t | Exclusive(pcs) ensures Exclusive(Mutex(pcs, t)) {
        MutexStepExcludes(pcs, t);
      }
      Invariance(Mutex, Exclusive, Init(f, threads).pc, es);
    }
  }

  // ---------- one thread's turns ----------

  /** A thread that finds the lock free acquires it at its second instruction, by one attempt, and its
      third leaves everything as it was. */
  lemma FreeLockInTwo(s: State, t: nat)
    requires Inv(s) && Held !in s.pc && t < |s.pc| && s.pc[t] == Out
    ensures var u := Repeat(Next, s, t, 2);
            && u == s.(pc := s.pc[t := Held], word := Swap(s.form, s.word), fails := 0)
            && Repeat(Next, s, t, 3) == s.(fails := 0)
  {
    assert Repeat(Next, s, t, 1) == s.(pc := s.pc[t := Try]);
    assert s.pc[t := Try][t := Held] == s.pc[t := Held];
    assert s.pc[t := Held][t := Out] == s.pc;
  }

  /** A thread that finds it taken makes one attempt, and then changes nothing for as long as it is. */
  lemma {:induction false} TakenLockOnce(s: State, t: nat, m: nat)
    requires Inv(s) && Held in s.pc && t < |s.pc| && s.pc[t] == Try
    ensures Repeat(Next, s, t, m + 1) ==
            s.(pc := s.pc[t := Spin], fails := s.fails + 1,
               word := if Decrements(s.form) then s.word - 1 else s.word)
  {
    if m == 0 {
      var h: nat :| h < |s.pc| && s.pc[h] == Held;
      AttemptWhileHeld(s, t, h);
      assert Repeat(Next, s, t, 0) == s;
    } else {
      TakenLockOnce(s, t, m - 1);
    }
  }

  // ---------- beyond the bound ----------

  /** Thread 0 is inside and threads 1 to k have failed. */
  function Crowd(f: Form, threads: nat, k: nat): State
  {
    State(f, 0 - k, seq(threads, i => if i == 0 then Held else if i <= k then Spin else Out), k)
  }

  lemma {:induction false} CrowdGathers(f: Form, threads: nat, k: nat)
    requires Decrements(f) && k < threads && k <= W31
    ensures Leads(Next, Init(f, threads), Crowd(f, threads, k))
  {
    var start := Init(f, threads);
    var s := start;
    if k == 0 {
      LeadsNowhere(Next, start);
    } else {
      CrowdGathers(f, threads, k - 1);
      s := Crowd(f, threads, k - 1);
    }
    LeadsOn(Next, start, s, k);
    LeadsOn(Next, start, Next(s, k), k);
    assert s.pc[k := Try][k := if k == 0 then Held else Spin] == Crowd(f, threads, k).pc;
  }

  /** One attempt more, when the word stands at its minimum: it wraps to its maximum. The sign test
      takes that for the lock, the zero test does not. */
  lemma CrowdWraps(f: Form, threads: nat) returns (s: State)
    requires !Fits(f, threads)
    ensures Leads(Next, Init(f, threads), s) && |s.pc| == threads && s.form == f
    ensures s.word == W31 - 1 && s.pc[0] == Held && s.pc[1] == Spin
    ensures f == DecSign ==> s.pc[W31 + 1] == Held
  {
    var start, t: nat := Init(f, threads), W31 + 1;
    CrowdGathers(f, threads, W31);
    s := Crowd(f, threads, W31);
    LeadsOn(Next, start, s, t);
    s := Next(s, t);
    LeadsOn(Next, start, s, t);
    s := Next(s, t);
  }

  /** After `j` retries of thread 1, each of which finds the wrapped word positive, the word has come
      down by as many. */
  lemma {:induction false} RetriesLowerWord(start: State, s: State, j: nat)
    requires Leads(Next, start, s) && s.form == DecZero && s.word == W31 - 1 && |s.pc| > 1 && s.pc[1] == Spin
    requires j <= W31 - 2
    ensures Leads(Next, start, s.(word := W31 - 1 - j, fails := s.fails + j))
  {
    if j == 0 {
      assert s.(word := W31 - 1, fails := s.fails) == s;
    } else {
      RetriesLowerWord(start, s, j - 1);
      var u := s.(word := W31 - j, fails := s.fails + j - 1);
      LeadsOn(Next, start, u, 1);
      LeadsOn(Next, start, Next(u, 1), 1);
      assert s.pc[1 := Try][1 := Spin] == s.pc;
    }
  }

  /** The retry that finds the word at 1 acquires the lock from under its holder. */
  lemma RetryGetsIn(start: State, s: State) returns (u: State)
    requires Leads(Next, start, s) && s.form == DecZero && s.word == W31 - 1 && |s.pc| > 1
    requires s.pc[0] == Held && s.pc[1] == Spin
    ensures Leads(Next, start, u) && |u.pc| == |s.pc| && u.pc[0] == u.pc[1] == Held
  {
    RetriesLowerWord(start, s, W31 - 2);
    u := s.(word := 1, fails := s.fails + (W31 - 2));
    LeadsOn(Next, start, u, 1);
    u := Next(u, 1);
    LeadsOn(Next, start, u, 1);
    u := Next(u, 1);
  }

  /** More threads than the word can count: a schedule wraps it while thread 0 is inside, and one
      brings a second thread inside. */
  lemma CrowdBreaksMutex(f: Form, threads: nat) returns (wrapped: State, both: State, t: nat)
    requires !Fits(f, threads)
    ensures Leads(Next, Init(f, threads), wrapped) && |wrapped.pc| == threads
    ensures wrapped.word == 0x7FFF_FFFF && wrapped.pc[0] == Held
    ensures wrapped.pc[1] == Spin && Next(wrapped, 1).pc[1] == Try
    ensures f == DecSign ==> wrapped == both
    ensures Leads(Next, Init(f, threads), both) && |both.pc| == threads
    ensures 0 < t < threads && both.pc[0] == both.pc[t] == Held
    ensures !Excludes(f, threads) && !IsMutex(f, threads)
  {
    var start := Init(f, threads);
    wrapped := CrowdWraps(f, threads);
    both, t := wrapped, W31 + 1;
    if f == DecZero {
      t := 1;
      both := RetryGetsIn(start, wrapped);
    }
    var es: seq<nat> :| Run(Next, start, es) == both;
    assert !Exclusive(Run(Next, start, es).pc);
    if IsMutex(f, threads) { MutexExcludes(f, threads); }
  }

  /** Every form is a mutex under every schedule, for every number of threads the 32-bit
      word can count; the exchange locks have no bound, and the decrement locks' is exact. */
  lemma LockIsMutexIffFits(f: Form, threads: nat)
    ensures IsMutex(f, threads) <==> f == XchgClear || f == XchgSet || threads <= 0x8000_0001
  {
    if Fits(f, threads) {
      InitInv(f, threads);
      forall es: seq<nat> ensures Run(Next, Init(f, threads), es).pc == Run(Mutex, Init(f, threads).pc, es) {
        RunIsMutexRun(Init(f, threads), es);
      }
    } else {
      var wrapped, both, t := CrowdBreaksMutex(f, threads);
    }
  }

  /** The same bound decides mutual exclusion itself. */
  lemma LockExcludesIffFits(f: Form, threads: nat)
    ensures Excludes(f, threads) <==> f == XchgClear || f == XchgSet || threads <= 0x8000_0001
  {
    LockIsMutexIffFits(f, threads);
    if Fits(f, threads) {
      MutexExcludes(f, threads);
    } else {
      var wrapped, both, t := CrowdBreaksMutex(f, threads);
    }
  }

  /** Mutual exclusion, and what the word says, along every run. */
  lemma {:induction false} ExclusionAndWord(f: Form, threads: nat, es: seq<nat>)
    requires Fits(f, threads)
    ensures var s := Run(Next, Init(f, threads), es);
            && Exclusive(s.pc)
            && (Held !in s.pc <==> s.word == if f == XchgSet then 0 else 1)
            && (Decrements(f) && Held in s.pc ==> s.word == 0 - s.fails && s.fails < threads)
            && (f == XchgClear && Held in s.pc ==> s.word == 0)
            && (f == XchgSet && Held in s.pc ==> s.word == 1)
  {
    InitInv(f, threads);
    RunIsMutexRun(Init(f, threads), es);
    RunKeepsShape(Init(f, threads), es);
    var s := Run(Next, Init(f, threads), es);
    if Held in s.pc {
      var h: nat :| h < |s.pc| && s.pc[h] == Held;
      CountBounds(s.pc, IsSpinning);
    }
  }

  lemma {:induction false} RunKeepsShape(s: State, es: seq<nat>)
    ensures Run(Next, s, es).form == s.form && |Run(Next, s, es).pc| == |s.pc|
    decreases |es|
  {
    if es != [] {
      RunKeepsShape(Next(s, es[0]), es[1..]);
    }
  }

  lemma {:induction false} SameRun(s: State, es: seq<nat>)
    requires Inv(s) && s.form == DecZero
    ensures Run(Next, s.(form := DecSign), es) == Run(Next, s, es).(form := DecSign)
    decreases |es|
  {
    if es != [] {
      StepIsMutexStep(s, es[0]);
      assert Next(s.(form := DecSign), es[0]) == Next(s, es[0]).(form := DecSign);
      SameRun(Next(s, es[0]), es[1..]);
    }
  }

  /** The zero test and the sign test agree at every step of every run. */
  lemma {:induction false} SignTestIsZeroTest(threads: nat, es: seq<nat>)
    requires threads <= W31 + 1
    ensures Run(Next, Init(DecSign, threads), es) == Run(Next, Init(DecZero, threads), es).(form := DecSign)
  {
    InitInv(DecZero, threads);
    SameRun(Init(DecZero, threads), es);
  }

  // ---------- progress ----------

  ghost predicate InvFor(f: Form, threads: nat, s: State)
  {
    Inv(s) && s.form == f && |s.pc| == threads
  }

  lemma InvForStep(f: Form, threads: nat, s: State, t: nat)
    requires InvFor(f, threads, s)
    ensures InvFor(f, threads, Next(s, t)) && Next(s, t).pc == Mutex(s.pc, t)
  {
    StepIsMutexStep(s, t);
  }

  predicate IsFree(s: State)
  {
    Held !in s.pc
  }

  predicate IsTaken(s: State)
  {
    Held in s.pc
  }

  predicate Acquired(s: State, t: nat)
  {
    t < |s.pc| && s.pc[t] == Held
  }

  /** The way to the lock for thread `t`: let the holder release it, then try. */
  predicate Toward(s: State, t: nat, e: nat)
  {
    if IsFree(s) then e == t else e < |s.pc| && s.pc[e] == Held
  }

  function Way(s: State, t: nat): nat
  {
    (if IsFree(s) then 0 else 3) + (if t < |s.pc| && s.pc[t] == Try then 0 else 1)
  }

  lemma TowardFalls(s: State, t: nat, e: nat)
    requires Inv(s) && t < |s.pc| && !Acquired(s, t) && Toward(s, t, e)
    ensures Acquired(Next(s, e), t) || Way(Next(s, e), t) < Way(s, t)
  {
    StepIsMutexStep(s, e);
    if s.pc[e] == Held {
      assert forall i :: 0 <= i < |s.pc| && i != e ==> s.pc[i] != Held;
    } else {
      assert s.pc[e] != Try ==> Held !in s.pc[e := Try];
    }
  }

  /** No reachable state is stuck: from each, every thread can still acquire the lock. */
  lemma {:induction false} AnyoneCanAcquire(f: Form, threads: nat, es: seq<nat>, t: nat)
    requires Fits(f, threads) && t < threads
    ensures CanReach(Next, Run(Next, Init(f, threads), es), (s: State) => Acquired(s, t))
  {
    InitInv(f, threads);
    RunIsMutexRun(Init(f, threads), es);
    RunKeepsShape(Init(f, threads), es);
    OneCanAcquire(f, threads, Run(Next, Init(f, threads), es), t);
  }

  lemma {:induction false} OneCanAcquire(f: Form, threads: nat, s: State, t: nat)
    requires InvFor(f, threads, s) && t < threads
    ensures CanReach(Next, s, (x: State) => Acquired(x, t))
    decreases Way(s, t)
  {
    var goal := (x: State) => Acquired(x, t);
    if Acquired(s, t) {
      CanReachNow(Next, s, goal);
    } else {
      var e: nat := t;
      if IsTaken(s) {
        e :| 0 <= e < |s.pc| && s.pc[e] == Held;
      }
      TowardFalls(s, t, e);
      InvForStep(f, threads, s, e);
      if Acquired(Next(s, e), t) {
        CanReachNow(Next, Next(s, e), goal);
      } else {
        OneCanAcquire(f, threads, Next(s, e), t);
      }
      CanReachStep(Next, s, goal, e);
    }
  }

  function Hold(s: State): nat
  {
    if IsTaken(s) then 1 else 0
  }

  lemma ReleaseStep(f: Form, threads: nat, s: State, t: nat, u: nat)
    requires InvFor(f, threads, s) && Acquired(s, t)
    ensures if u == t then IsFree(Next(s, u)) else Acquired(Next(s, u), t)
  {
    InvForStep(f, threads, s, u);
    assert forall i :: 0 <= i < |s.pc| && i != t ==> s.pc[i] != Held;
  }

  /** Whoever is inside leaves when it has its turn. */
  lemma ReleaseIsRanked(f: Form, threads: nat)
    ensures Ranked(Next, (s: State) => InvFor(f, threads, s), IsFree, Hold, Acquired)
  {
    forall x, t | InvFor(f, threads, x) ensures InvFor(f, threads, Next(x, t)) {
      InvForStep(f, threads, x, t);
    }
    forall x, t, u | InvFor(f, threads, x) && Acquired(x, t)
      ensures if u == t then IsFree(Next(x, u)) else Acquired(Next(x, u), t)
    {
      ReleaseStep(f, threads, x, t, u);
    }
    forall x | InvFor(f, threads, x) && !IsFree(x) ensures exists t :: Acquired(x, t) {
      var t: nat :| t < |x.pc| && x.pc[t] == Held;
      assert Acquired(x, t);
    }
  }

  /** Nobody is inside: a thread at its attempt acquires the lock, and any other goes there. */
  predicate Contends(s: State, t: nat)
  {
    t < |s.pc| && (Try in s.pc ==> s.pc[t] == Try)
  }

  function Contention(s: State): nat
  {
    if IsTaken(s) then 0 else if Try in s.pc then 1 else 2
  }

  lemma FreeStep(s: State, t: nat)
    requires Inv(s) && IsFree(s) && t < |s.pc|
    ensures s.pc[t] == Try ==> IsTaken(Next(s, t))
    ensures s.pc[t] != Try ==> IsFree(Next(s, t)) && Next(s, t).pc == s.pc[t := Try]
  {
    StepIsMutexStep(s, t);
    assert Next(s, t).pc[t] == if s.pc[t] == Try then Held else Try;
  }

  lemma ContentionStep(f: Form, threads: nat, s: State, t: nat, u: nat)
    requires InvFor(f, threads, s) && IsFree(s)
    ensures Contention(Next(s, t)) <= Contention(s)
    ensures Contends(s, t) ==> Contention(Next(s, t)) < Contention(s)
    ensures Contends(s, u) && Contention(Next(s, t)) == Contention(s) ==> Contends(Next(s, t), u)
  {
    if t < |s.pc| {
      FreeStep(s, t);
      if s.pc[t] != Try {
        assert Next(s, t).pc[t] == Try;
      }
    }
  }

  lemma AcquireIsRanked(f: Form, threads: nat)
    requires threads > 0
    ensures Ranked(Next, (s: State) => InvFor(f, threads, s), IsTaken, Contention, Contends)
  {
    forall x, t | InvFor(f, threads, x) ensures InvFor(f, threads, Next(x, t)) {
      InvForStep(f, threads, x, t);
    }
    forall x, t | InvFor(f, threads, x) && !IsTaken(x)
      ensures Contention(Next(x, t)) <= Contention(x)
      ensures Contends(x, t) ==> Contention(Next(x, t)) < Contention(x)
    {
      ContentionStep(f, threads, x, t, t);
    }
    forall x, u, t | InvFor(f, threads, x) && !IsTaken(x) && Contends(x, u) && Contention(Next(x, t)) == Contention(x)
      ensures Contends(Next(x, t), u)
    {
      ContentionStep(f, threads, x, t, u);
    }
    forall x | InvFor(f, threads, x) && !IsTaken(x) ensures exists t :: Contends(x, t) {
      if Try in x.pc {
        var t: nat :| t < |x.pc| && x.pc[t] == Try;
        assert Contends(x, t);
      } else {
        assert Contends(x, 0);
      }
    }
  }

  function StateAt(f: Form, threads: nat, schedule: nat -> nat, k: nat): State
  {
    After(Next, Init(f, threads), schedule, k)
  }

  lemma {:induction false} AlwaysInv(f: Form, threads: nat, schedule: nat -> nat, k: nat)
    requires Fits(f, threads)
    ensures InvFor(f, threads, StateAt(f, threads, schedule, k))
  {
    if k == 0 {
      InitInv(f, threads);
    } else {
      AlwaysInv(f, threads, schedule, k - 1);
      InvForStep(f, threads, StateAt(f, threads, schedule, k - 1), schedule(k - 1));
    }
  }

  /** Step `k` of the run acquires the lock. */
  predicate Acquires(f: Form, threads: nat, schedule: nat -> nat, k: nat)
  {
    var s, t := StateAt(f, threads, schedule, k), schedule(k);
    t < |s.pc| && s.pc[t] == Try && Acquired(Next(s, t), t)
  }

  /** Between a free and a taken state somebody acquires. */
  lemma {:induction false} AcquiredBetween(f: Form, threads: nat, schedule: nat -> nat, i: nat, j: nat) returns (k: nat)
    requires Fits(f, threads) && i <= j
    requires IsFree(StateAt(f, threads, schedule, i)) && IsTaken(StateAt(f, threads, schedule, j))
    ensures i <= k && Acquires(f, threads, schedule, k)
    decreases j - i
  {
    var s := StateAt(f, threads, schedule, i);
    assert i < j;
    AlwaysInv(f, threads, schedule, i);
    if IsTaken(StateAt(f, threads, schedule, i + 1)) {
      StepIsMutexStep(s, schedule(i));
      k := i;
    } else {
      k := AcquiredBetween(f, threads, schedule, i + 1, j);
    }
  }

  lemma FairToThose(f: Form, threads: nat, schedule: nat -> nat, helpful: (State, nat) -> bool)
    requires FairTo(threads, schedule, Turn) && forall s: State, t: nat :: helpful(s, t) ==> t < |s.pc|
    ensures Fair(schedule, (s: State) => InvFor(f, threads, s), helpful)
  {
    var inv := (s: State) => InvFor(f, threads, s);
    forall s, t | inv(s) && helpful(s, t) ensures exists i: nat :: i < threads && Turn(i) == t {
      assert Turn(t) == t;
    }
    FairToHelpful(threads, schedule, Turn, inv, helpful);
  }

  /** Under a schedule fair to the threads, somebody acquires the lock again and again. */
  lemma {:induction false} SomebodyAcquires(f: Form, threads: nat, schedule: nat -> nat, m: nat) returns (k: nat)
    requires Fits(f, threads) && threads > 0 && FairTo(threads, schedule, Turn)
    ensures k >= m && Acquires(f, threads, schedule, k)
  {
    var inv := (s: State) => InvFor(f, threads, s);
    var start := Init(f, threads);
    AlwaysInv(f, threads, schedule, m);
    ReleaseIsRanked(f, threads);
    FairToThose(f, threads, schedule, Acquired);
    var i := FairRunReaches(Next, inv, IsFree, Hold, Acquired, start, schedule, m);
    AlwaysInv(f, threads, schedule, i);
    AcquireIsRanked(f, threads);
    FairToThose(f, threads, schedule, Contends);
    var j := FairRunReaches(Next, inv, IsTaken, Contention, Contends, start, schedule, i);
    k := AcquiredBetween(f, threads, schedule, i, j);
  }

  // ---------- starvation ----------

  /** Every thread acquires the lock again and again, under every schedule fair to the threads. */
  ghost predicate NobodyStarves(f: Form, threads: nat)
  {
    forall schedule: nat -> nat, t: nat, m: nat :: FairTo(threads, schedule, Turn) && t < threads ==>
      AcquiresFrom(f, threads, schedule, t, m)
  }

  ghost predicate AcquiresFrom(f: Form, threads: nat, schedule: nat -> nat, t: nat, m: nat)
  {
    exists k: nat :: k >= m && schedule(k) == t && Acquires(f, threads, schedule, k)
  }

  /** Thread 0 acquires and releases the lock again and again; the others in turn have one
      instruction each time, while it is inside. */
  function Unlucky(others: nat): nat -> nat
    requires others > 0
  {
    (k: nat) => if k % 4 == 2 then 1 + (k / 4) % others else 0
  }

  lemma UnluckyIsFair(others: nat)
    requires others > 0
    ensures FairTo(others + 1, Unlucky(others), Turn)
  {
    forall i: nat, m: nat | i < others + 1 ensures Recurs<nat>(Unlucky(others), Turn(i), m) {
      if i == 0 {
        DivModUnique(4 * m, 4, m, 0);
        assert Unlucky(others)(4 * m) == Turn(i);
      } else {
        var q := others * m + (i - 1);
        DivModUnique(q, others, m, i - 1);
        DivModUnique(4 * q + 2, 4, q, 2);
        assert q >= m;
        assert Unlucky(others)(4 * q + 2) == Turn(i);
      }
    }
  }

  /** At phase `p` of the four thread 0 is outside, at its attempt, or inside; the word is free before
      its attempt, and not afterwards; no other thread is inside. */
  predicate KeptOut(s: State, p: nat)
  {
    && |s.pc| > 0 && (forall i :: 1 <= i < |s.pc| ==> s.pc[i] != Held)
    && s.pc[0] == (if p == 0 then Out else if p == 1 then Try else Held)
    && (p <= 1 ==> s.word == FreeWord(s.form))
    && (p == 2 ==> s.word == Swap(s.form, FreeWord(s.form)))
  }

  lemma KeptOutStep(s: State, p: nat, t: nat)
    requires KeptOut(s, p) && p < 4 && t < |s.pc| && (t == 0 <==> p != 2)
    ensures KeptOut(Next(s, t), if p == 3 then 0 else p + 1) && |Next(s, t).pc| == |s.pc|
  {
  }

  lemma PhaseAndTurn(others: nat, k: nat)
    requires others > 0
    ensures (k + 1) % 4 == if k % 4 == 3 then 0 else k % 4 + 1
    ensures Unlucky(others)(k) < others + 1 && (Unlucky(others)(k) == 0 <==> k % 4 != 2)
  {
  }

  /** The number of threads does not matter here: one attempt at a time does not wrap the word. */
  lemma {:induction false} UnluckyKeepsOut(f: Form, others: nat, k: nat)
    requires others > 0
    ensures |StateAt(f, others + 1, Unlucky(others), k).pc| == others + 1
    ensures KeptOut(StateAt(f, others + 1, Unlucky(others), k), k % 4)
  {
    if k > 0 {
      UnluckyKeepsOut(f, others, k - 1);
      PhaseAndTurn(others, k - 1);
      KeptOutStep(StateAt(f, others + 1, Unlucky(others), k - 1), (k - 1) % 4, Unlucky(others)(k - 1));
    }
  }

  /** Under that schedule, which is fair to all threads, only thread 0 ever acquires the lock. */
  lemma FairnessMayStarve(f: Form, others: nat, k: nat)
    requires others > 0
    ensures FairTo(others + 1, Unlucky(others), Turn)
    ensures Acquires(f, others + 1, Unlucky(others), k) ==> Unlucky(others)(k) == 0
  {
    UnluckyIsFair(others);
    UnluckyKeepsOut(f, others, k);
    UnluckyKeepsOut(f, others, k + 1);
  }

  /** A lock starves nobody exactly when at most one thread uses it. */
  lemma NobodyStarvesIffAlone(f: Form, threads: nat)
    ensures NobodyStarves(f, threads) <==> threads <= 1
  {
    if threads <= 1 {
      forall schedule: nat -> nat, t: nat, m: nat | FairTo(threads, schedule, Turn) && t < threads
        ensures AcquiresFrom(f, threads, schedule, t, m)
      {
        var k := SomebodyAcquires(f, threads, schedule, m);
        AlwaysInv(f, threads, schedule, k);
      }
    } else {
      var others := threads - 1;
      UnluckyIsFair(others);
      if AcquiresFrom(f, threads, Unlucky(others), 1, 0) {
        var k: nat :| Unlucky(others)(k) == 1 && Acquires(f, threads, Unlucky(others), k);
        FairnessMayStarve(f, others, k);
      }
    }
  }

  // ---------- the lock in place ----------

  /** A lock word and the threads that use it, as they change in place. */
  class SpinLock {
    const form: Form
    var word: int
    var pc: array<Pc>
    ghost var fails: nat

    ghost function Abs(): State
      reads this, pc
    {
      State(form, word, pc[..], fails)
    }

    /** spin_lock_init: the word starts free. */
    constructor (f: Form, threads: nat)
      ensures fresh(pc) && Abs() == Init(f, threads)
    {
      form := f;
      word := if f == XchgSet then 0 else 1;
      pc := new Pc[threads](i => Out);
      fails := 0;
    }

    method Step(t: nat)
      modifies this, pc
      ensures pc == old(pc) && Abs() == Next(old(Abs()), t)
    {
      if t >= pc.Length {
        return;
      }
      match pc[t] {
        case Out =>
          pc[t] := Try;
        case Try =>
          var won := Attempt();
          pc[t] := if won then Held else Spin;
          fails := if won then 0 else fails + 1;
        case Spin =>
          if (if form == XchgClear then word == 1 else if form == XchgSet then word == 0 else word > 0) {
            pc[t] := Try;
          }
        case Held =>
          word := if form == XchgSet then 0 else 1;
          pc[t] := Out;
      }
    }

    /** The locked instruction and the conditional jump after it. */
    method Attempt() returns (won: bool)
      modifies this`word
      ensures word == Swap(form, old(word)) && won == Won(form, old(word))
    {
      match form {
        case XchgClear =>
          won := word == 1;
          word := 0;
        case XchgSet =>
          won := word == 0;
          word := 1;
        case DecZero =>
          word := if word == -W31 then W31 - 1 else word - 1;
          won := word == 0;
        case DecSign =>
          word := if word == -W31 then W31 - 1 else word - 1;
          won := word >= 0;
      }
    }

    /** Any schedule, run in place. */
    method Execute(schedule: seq<nat>)
      requires Inv(Abs())
      modifies this, pc
      ensures pc == old(pc) && Abs() == Run(Next, old(Abs()), schedule)
      ensures Exclusive(pc[..])
    {
      ghost var start := Abs();
      for i := 0 to |schedule|
        invariant pc == old(pc) && Inv(Abs())
        invariant Abs() == Run(Next, start, schedule[..i])
      {
        StepIsMutexStep(Abs(), schedule[i]);
        RunSnoc(Next, start, schedule[..i], schedule[i]);
        assert schedule[..i] + [schedule[i]] == schedule[..i + 1];
        Step(schedule[i]);
      }
      assert schedule[..|schedule|] == schedule;
    }
  }
}
