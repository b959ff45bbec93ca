/** The MONITOR/MWAIT barrier: a decrement spin lock, the sleep call on a one-byte cell, and an
    atomic decrement-and-test, one atomic action per instruction. `mwait_barrier` and
    `mwait_barrier2` are this code on two different cells. */
module MwaitBarrier {
  import opened Options
  import opened Counting
  import opened Sums
  import L = SpinLocks
  import M = Monitor

  /** The points of one call; `Sleep` is inside the sleep system call. */
  datatype Pc =
    | Idle | LockTry | LockSpin
    | IncRead | IncWrite | Test | Notify | Unlock
    | Sleep(at: M.Pc)
    | DecTest | FinalUnlock

  /** `arrived` counts the arrivals this thread has written to `gathered`, `passed` the calls it
      has returned from; `tmp` is the register of the plain increment. */
  datatype Thread = Thread(pc: Pc, mon: M.Mon, tmp: int, arrived: nat, passed: nat)

  /** The barrier object, and what has happened to it: stores of the notified value, stores of the
      original value, and true results of `atomic_dec_and_test`. */
  datatype Obj = Obj(lock: int, gathered: int, notifies: nat, resets: nat, wins: nat)

  /** Each thread makes `calls` calls; the barrier is initialised for as many threads as use it. */
  datatype State = State(calls: nat, obj: Obj, byte: char, th: seq<Thread>)

  /** An instruction of thread `i`, or an interrupt taken by its CPU. */
  datatype Event = Instr(i: nat) | Interrupt(i: nat)

  /** What an instruction does: the thread and the object after it, and a store to the cell. */
  datatype Effect = Effect(t: Thread, obj: Obj, store: Option<char>)

  const W32 := 0x1_0000_0000

  function Init(threads: nat, calls: nat): State
  {
    State(calls, Obj(1, 0, 0, 0, 0), M.ORIGINAL_VAL, seq(threads, i => Thread(Idle, M.Off, 0, 0, 0)))
  }

  /** One instruction of thread `t` on a barrier for `n` threads, when the cell holds `byte`. */
  function Code(n: nat, calls: nat, b: Obj, byte: char, t: Thread): Effect
  {
    match t.pc
    case Idle => Effect(if t.passed == calls then t else t.(pc := LockTry), b, None)
    case LockTry =>
      Effect(t.(pc := if L.Won(L.DecZero, b.lock) then IncRead else LockSpin),
             b.(lock := L.Swap(L.DecZero, b.lock)), None)
    case LockSpin => Effect(if L.LooksFree(L.DecZero, b.lock) then t.(pc := LockTry) else t, b, None)
    case IncRead => Effect(t.(pc := IncWrite, tmp := b.gathered), b, None)
    case IncWrite => Effect(t.(pc := Test, arrived := t.arrived + 1), b.(gathered := (t.tmp + 1) % W32), None)
    case Test => Effect(t.(pc := if b.gathered == n then Notify else Unlock), b, None)
    case Notify => Effect(t.(pc := DecTest), b.(notifies := b.notifies + 1), Some(M.NOTIFIED_VAL))
    case Unlock => Effect(t.(pc := Sleep(M.Arm)), b.(lock := 1), None)
    case Sleep(at) =>
      var o := M.Code(M.Checked, at, t.mon, byte);
      Effect(t.(pc := if o.pc == M.Out then DecTest else Sleep(o.pc), mon := o.mon),
             if o.store.Some? then b.(resets := b.resets + 1) else b, o.store)
    case DecTest =>
      var g := (b.gathered - 1) % W32;
      if g == 0 then Effect(t.(pc := FinalUnlock), b.(gathered := g, wins := b.wins + 1), None)
      else Effect(Return(t), b.(gathered := g), None)
    case FinalUnlock => Effect(Return(t), b.(lock := 1), None)
  }

  function Return(t: Thread): Thread
  {
    t.(pc := Idle, passed := t.passed + 1)
  }

  function Hit(t: Thread): Thread
  {
    t.(mon := M.Hit(t.mon))
  }

  /** How a thread whose monitor covers the cell sees the effect of an instruction. */
  function Hear(t: Thread, o: Effect): Thread
  {
    if o.store.Some? then Hit(t) else t
  }

  function ByteAfter(byte: char, o: Effect): char
  {
    if o.store.Some? then o.store.value else byte
  }

  function Next(s: State, e: Event): State
  {
    if e.i >= |s.th| then s else
    match e
    case Instr(i) =>
      var o := Code(|s.th|, s.calls, s.obj, s.byte, s.th[i]);
      State(s.calls, o.obj, ByteAfter(s.byte, o),
            seq(|s.th|, j requires 0 <= j < |s.th| => Hear(if j == i then o.t else s.th[j], o)))
    case Interrupt(i) => s.(th := s.th[i := Hit(s.th[i])])
  }

  // ---------- the invariant, for any number of threads ----------

  predicate Outside(t: Thread)
  {
    t.pc in {Idle, LockTry, LockSpin}
  }

  predicate Spins(t: Thread)
  {
    t.pc == LockSpin
  }

  /** Has the lock to release, or to leave to the last leaver. */
  predicate Holds(t: Thread)
  {
    t.pc in {IncRead, IncWrite, Test, Notify, Unlock, FinalUnlock}
  }

  predicate Sleeps(t: Thread)
  {
    t.pc.Sleep?
  }

  /** Has incremented `gathered` and not yet decremented it. */
  predicate Gathered(t: Thread)
  {
    t.pc in {Test, Notify, Unlock, DecTest} || Sleeps(t)
  }

  /** The present round has been notified: everybody has arrived, and somebody has yet to leave. */
  predicate Noted(s: State)
  {
    s.obj.notifies == s.obj.wins + 1
  }

  /** What a thread's program counter says of its calls, after `wins` complete rounds. */
  predicate ThreadOk(t: Thread, calls: nat, wins: nat, noted: bool, byte: char)
  {
    && t.passed <= calls && (t.pc != Idle ==> t.passed < calls)
    && (!Sleeps(t) ==> t.mon != M.Armed)
    && if Outside(t) then t.arrived == t.passed == wins + (if noted then 1 else 0)
       else if t.pc in {IncRead, IncWrite} then !noted && t.arrived == t.passed == wins
       else if t.pc == FinalUnlock then !noted && t.arrived == t.passed + 1 == wins
       else
         && t.arrived == t.passed + 1 == wins + 1
         && (t.pc in {Test, Notify, Unlock} ==> !noted)
         && (t.pc == DecTest ==> noted)
         && (Sleeps(t) ==> SleeperOk(t, noted, byte))
  }

  predicate SleeperOk(t: Thread, noted: bool, byte: char)
    requires Sleeps(t)
  {
    && t.pc.at !in {M.Out, M.Pretest}
    && M.Alert(t.pc.at, t.mon, byte) && M.SetUp(t.pc.at, t.mon) && (t.pc.at == M.Reset ==> noted)
  }

  ghost predicate Threads(s: State)
  {
    && (s.obj.notifies == s.obj.wins || Noted(s))
    && forall i :: 0 <= i < |s.th| ==> ThreadOk(s.th[i], s.calls, s.obj.wins, Noted(s), s.byte)
  }

  ghost predicate Holder(s: State, i: int)
  {
    0 <= i < |s.th| && Holds(s.th[i])
  }

  /** Somebody holds the lock, or it has been left to the last leaver. */
  ghost predicate Taken(s: State)
  {
    Noted(s) || exists i :: Holder(s, i)
  }

  /** At most one thread holds the lock, and none while it is left to the last leaver; the word is
      1 when it is free, and otherwise counts failed attempts down from 0. */
  ghost predicate Lock(s: State)
  {
    && (forall i, j :: Holder(s, i) && Holder(s, j) ==> i == j)
    && (Noted(s) ==> forall i :: !Holder(s, i))
    && (if Taken(s) then 0 - Count(s.th, Spins) <= s.obj.lock <= 0 else s.obj.lock == 1)
  }

  /** What the thread that holds the lock knows of `gathered`. */
  predicate HolderOk(t: Thread, gathered: int, n: nat)
  {
    match t.pc
    case IncWrite => t.tmp == gathered
    case Notify => gathered == n
    case Unlock => gathered < n
    case FinalUnlock => gathered == 0
    case _ => true
  }

  ghost predicate Counter(s: State)
  {
    && s.obj.gathered == Count(s.th, Gathered)
    && (forall i :: Holder(s, i) ==> HolderOk(s.th[i], s.obj.gathered, |s.th|))
    && (Noted(s) ==> s.obj.gathered > 0)
    && (!Taken(s) && |s.th| > 0 ==> s.obj.gathered < |s.th|)
  }

  function Others(s: State): nat
  {
    if |s.th| == 0 then 0 else |s.th| - 1
  }

  /** Every notification is consumed by all the others, in its own round: they leave the sleep call
      by one reset each, and the cell says `notified` until the first of them does. */
  ghost predicate Cell(s: State)
  {
    && s.obj.resets + (if Noted(s) then Count(s.th, Sleeps) else 0) == Cost(Others(s), s.obj.notifies)
    && (Noted(s) ==> Count(s.th, Sleeps) <= Others(s))
    && (Noted(s) ==> (s.byte == M.NOTIFIED_VAL <==> Count(s.th, Sleeps) == Others(s)))
    && (!Noted(s) && |s.th| >= 2 ==> s.byte == M.ORIGINAL_VAL)
    && (|s.th| == 1 ==> (s.byte == M.ORIGINAL_VAL <==> s.obj.notifies == 0))
    && s.byte in {M.ORIGINAL_VAL, M.NOTIFIED_VAL}
  }

  ghost predicate Inv(s: State)
  {
    L.Fits(L.DecZero, |s.th|) && Threads(s) && Lock(s) && Counter(s) && Cell(s)
  }

  /** The effect of the next instruction of thread `i`. */
  function Own(s: State, i: nat): Effect
    requires i < |s.th|
  {
    Code(|s.th|, s.calls, s.obj, s.byte, s.th[i])
  }

  /** A count of program points changes with the stepping thread only. */
  lemma CountStep(s: State, i: nat, p: Thread -> bool)
    requires i < |s.th| && forall t :: p(Hit(t)) == p(t)
    ensures Count(Next(s, Instr(i)).th, p) ==
            Count(s.th, p) - (if p(s.th[i]) then 1 else 0) + (if p(Own(s, i).t) then 1 else 0)
  {
    var o := Own(s, i);
    CountUpdate(s.th, i, o.t, p);
    CountSame(Next(s, Instr(i)).th, s.th[i := o.t], p);
  }

  /** The notifier finds all others asleep. */
  lemma AllAsleep(s: State, i: nat)
    requires Inv(s) && i < |s.th| && s.th[i].pc == Notify
    ensures !Noted(s) && s.obj.gathered == |s.th|
    ensures forall j :: 0 <= j < |s.th| && j != i ==> Sleeps(s.th[j])
    ensures Count(s.th, Sleeps) == |s.th| - 1
  {
    assert Holder(s, i);
    CountBounds(s.th, Gathered);
    forall j | 0 <= j < |s.th| && j != i ensures Sleeps(s.th[j]) {
      assert Gathered(s.th[j]) && !Holder(s, j);
      assert ThreadOk(s.th[j], s.calls, s.obj.wins, Noted(s), s.byte);
    }
    CountApart(s.th, i, Sleeps);
  }

  /** The last leaver finds all others gone. */
  lemma AllGone(s: State, i: nat)
    requires Inv(s) && i < |s.th| && s.th[i].pc == DecTest && s.obj.gathered == 1
    ensures Noted(s) && forall j :: 0 <= j < |s.th| && j != i ==> Outside(s.th[j])
    ensures Count(s.th, Sleeps) == 0
  {
    assert ThreadOk(s.th[i], s.calls, s.obj.wins, Noted(s), s.byte);
    CountApart(s.th, i, Gathered);
    forall j | 0 <= j < |s.th| && j != i ensures Outside(s.th[j]) {
      assert !Gathered(s.th[j]) && !Holder(s, j);
    }
    CountBounds(s.th, Sleeps);
  }

  lemma GatheredFits(s: State)
    requires Inv(s)
    ensures 0 <= s.obj.gathered <= |s.th| < W32
  {
    CountBounds(s.th, Gathered);
  }

  /** What an instruction at `pc` does to the round: notifying it and ending it. */
  predicate RoundMoves(s: State, u: State, pc: Pc)
  {
    && |u.th| == |s.th| && u.calls == s.calls
    && u.obj.wins == s.obj.wins + (if pc == DecTest && s.obj.gathered == 1 then 1 else 0)
    && u.obj.notifies == s.obj.notifies + (if pc == Notify then 1 else 0)
    && (Noted(u) <==> pc == Notify || (Noted(s) && !(pc == DecTest && s.obj.gathered == 1)))
    && (u.obj.notifies == u.obj.wins || Noted(u))
  }

  lemma RoundStep(s: State, i: nat)
    requires Inv(s) && i < |s.th|
    ensures RoundMoves(s, Next(s, Instr(i)), s.th[i].pc)
  {
    GatheredFits(s);
    assert ThreadOk(s.th[i], s.calls, s.obj.wins, Noted(s), s.byte);
    if s.th[i].pc == Notify { AllAsleep(s, i); }
    if s.th[i].pc == DecTest && s.obj.gathered == 1 { AllGone(s, i); }
  }

  lemma OwnThreadStep(s: State, i: nat)
    requires Inv(s) && i < |s.th|
    ensures var u := Next(s, Instr(i));
            |u.th| == |s.th| && ThreadOk(u.th[i], u.calls, u.obj.wins, Noted(u), u.byte)
  {
    RoundStep(s, i);
    GatheredFits(s);
    assert ThreadOk(s.th[i], s.calls, s.obj.wins, Noted(s), s.byte);
  }

  lemma OtherThreadStep(s: State, i: nat, j: nat)
    requires Inv(s) && i < |s.th| && j < |s.th| && j != i
    ensures var u := Next(s, Instr(i));
            |u.th| == |s.th| && ThreadOk(u.th[j], u.calls, u.obj.wins, Noted(u), u.byte)
  {
    RoundStep(s, i);
    assert ThreadOk(s.th[i], s.calls, s.obj.wins, Noted(s), s.byte);
    assert ThreadOk(s.th[j], s.calls, s.obj.wins, Noted(s), s.byte);
    if s.th[i].pc == Notify { AllAsleep(s, i); }
    if s.th[i].pc == DecTest && s.obj.gathered == 1 { AllGone(s, i); }
  }

  lemma ThreadsStep(s: State, i: nat)
    requires Inv(s) && i < |s.th|
    ensures Threads(Next(s, Instr(i)))
  {
    var u := Next(s, Instr(i));
    RoundStep(s, i);
    forall j | 0 <= j < |u.th| ensures ThreadOk(u.th[j], u.calls, u.obj.wins, Noted(u), u.byte) {
      if j == i { OwnThreadStep(s, i); } else { OtherThreadStep(s, i, j); }
    }
  }

  lemma OnlyHolder(s: State, i: nat)
    requires Inv(s) && i < |s.th|
    ensures Holder(s, i) ==> Taken(s) && !Noted(s) && forall j :: Holder(s, j) <==> j == i
    ensures forall j :: j != i ==> (Holder(Next(s, Instr(i)), j) <==> Holder(s, j))
  {
  }

  /** While the lock is taken, another failed attempt does not wrap the word. */
  lemma WordFits(s: State, i: nat)
    requires Inv(s) && i < |s.th| && Taken(s) && s.th[i].pc == LockTry
    ensures 0 - Count(s.th, Spins) > -L.W31
  {
    CountUpdate(s.th, i, s.th[i].(pc := LockSpin), Spins);
    var th := s.th[i := s.th[i].(pc := LockSpin)];
    CountBounds(th, Spins);
    if h :| Holder(s, h) {
      assert !Spins(th[h]);
    } else {
      CountBounds(s.th, Gathered);
      var h :| 0 <= h < |s.th| && Gathered(s.th[h]);
      assert !Spins(th[h]);
    }
  }

  lemma HeldLockStep(s: State, i: nat)
    requires Inv(s) && i < |s.th| && Taken(s)
    ensures var u := Next(s, Instr(i));
            && (Taken(u) <==> s.th[i].pc !in {Unlock, FinalUnlock})
            && (if Taken(u) then 0 - Count(u.th, Spins) <= u.obj.lock <= 0 else u.obj.lock == 1)
  {
    var u := Next(s, Instr(i));
    RoundStep(s, i);
    OnlyHolder(s, i);
    CountStep(s, i, Spins);
    assert ThreadOk(s.th[i], s.calls, s.obj.wins, Noted(s), s.byte);
    if s.th[i].pc == LockTry { WordFits(s, i); }
    if h :| Holder(s, h) {
      assert h != i ==> Holder(u, h);
      assert h == i && s.th[i].pc !in {Unlock, FinalUnlock, Notify} ==> Holder(u, i);
    } else if s.th[i].pc == DecTest && s.obj.gathered == 1 {
      assert Holder(u, i);
    }
  }

  lemma FreeLockStep(s: State, i: nat)
    requires Inv(s) && i < |s.th| && !Taken(s)
    ensures var u := Next(s, Instr(i));
            && (Taken(u) <==> s.th[i].pc == LockTry)
            && u.obj.lock == if Taken(u) then 0 else 1
  {
    var u := Next(s, Instr(i));
    assert ThreadOk(s.th[i], s.calls, s.obj.wins, Noted(s), s.byte);
    assert !Holder(s, i);
    RoundStep(s, i);
    OnlyHolder(s, i);
    assert s.th[i].pc == LockTry ==> Holder(u, i);
  }

  lemma LockStep(s: State, i: nat)
    requires Inv(s) && i < |s.th|
    ensures Lock(Next(s, Instr(i)))
  {
    var u := Next(s, Instr(i));
    RoundStep(s, i);
    OnlyHolder(s, i);
    if Taken(s) { HeldLockStep(s, i); } else { FreeLockStep(s, i); }
    if Holder(u, i) && !Holder(s, i) {
      HolderEnters(s, i);
    }
  }

  lemma HolderEnters(s: State, i: nat)
    requires Inv(s) && i < |s.th| && Holder(Next(s, Instr(i)), i) && !Holder(s, i)
    ensures !Noted(Next(s, Instr(i))) && forall j :: !Holder(s, j)
  {
    var u := Next(s, Instr(i));
    RoundStep(s, i);
    if Taken(s) { HeldLockStep(s, i); } else { FreeLockStep(s, i); }
    assert ThreadOk(s.th[i], s.calls, s.obj.wins, Noted(s), s.byte);
    assert s.th[i].pc == LockTry || (s.th[i].pc == DecTest && s.obj.gathered == 1);
  }

  lemma GatheredCode(n: nat, calls: nat, b: Obj, byte: char, t: Thread)
    requires n < W32 && 0 <= b.gathered <= n
    requires t.pc == IncWrite ==> t.tmp == b.gathered < n
    requires t.pc == DecTest ==> b.gathered > 0
    ensures var o := Code(n, calls, b, byte, t);
            && o.obj.gathered == b.gathered + (if t.pc == IncWrite then 1 else if t.pc == DecTest then -1 else 0)
            && o.obj.gathered == b.gathered - (if Gathered(t) then 1 else 0) + (if Gathered(o.t) then 1 else 0)
  {
  }

  /** The plain increment adds one and the decrement does not wrap. */
  lemma GatheredStep(s: State, i: nat)
    requires Inv(s) && i < |s.th|
    ensures var u, pc := Next(s, Instr(i)), s.th[i].pc;
            && u.obj.gathered == s.obj.gathered + (if pc == IncWrite then 1 else if pc == DecTest then -1 else 0)
            && 0 <= u.obj.gathered == Count(u.th, Gathered) <= |u.th|
  {
    GatheredFits(s);
    CountApart(s.th, i, Gathered);
    CountStep(s, i, Gathered);
    CountBounds(Next(s, Instr(i)).th, Gathered);
    assert Holder(s, i) ==> HolderOk(s.th[i], s.obj.gathered, |s.th|);
    assert ThreadOk(s.th[i], s.calls, s.obj.wins, Noted(s), s.byte);
    GatheredCode(|s.th|, s.calls, s.obj, s.byte, s.th[i]);
  }

  lemma HolderStep(s: State, i: nat, j: nat)
    requires Inv(s) && i < |s.th| && Holder(Next(s, Instr(i)), j)
    ensures var u := Next(s, Instr(i)); HolderOk(u.th[j], u.obj.gathered, |u.th|)
  {
    var u := Next(s, Instr(i));
    GatheredStep(s, i);
    if j == i {
      CountApart(u.th, i, Gathered);
      HolderCode(|s.th|, s.calls, s.obj, s.byte, s.th[i]);
    } else {
      OnlyHolder(s, i);
      assert ThreadOk(s.th[i], s.calls, s.obj.wins, Noted(s), s.byte);
      assert Holder(s, j) && HolderOk(s.th[j], s.obj.gathered, |s.th|);
    }
  }

  lemma HolderCode(n: nat, calls: nat, b: Obj, byte: char, t: Thread)
    requires b.gathered <= n
    ensures var o := Code(n, calls, b, byte, t); Holds(o.t) ==> HolderOk(o.t, o.obj.gathered, n)
  {
  }

  lemma CounterStep(s: State, i: nat)
    requires Inv(s) && i < |s.th|
    ensures Counter(Next(s, Instr(i)))
  {
    var u := Next(s, Instr(i));
    RoundStep(s, i);
    GatheredStep(s, i);
    forall j | Holder(u, j) ensures HolderOk(u.th[j], u.obj.gathered, |u.th|) {
      HolderStep(s, i, j);
    }
    if s.th[i].pc == Notify { AllAsleep(s, i); }
    if Taken(s) {
      HeldLockStep(s, i);
      if !Taken(u) { ReleaseLeavesRoom(s, i); }
    } else {
      FreeLockStep(s, i);
      assert ThreadOk(s.th[i], s.calls, s.obj.wins, Noted(s), s.byte);
      assert !Holder(s, i);
    }
  }

  lemma ReleaseLeavesRoom(s: State, i: nat)
    requires Inv(s) && i < |s.th| && s.th[i].pc in {Unlock, FinalUnlock}
    ensures s.obj.gathered < |s.th|
  {
    assert Holder(s, i) && HolderOk(s.th[i], s.obj.gathered, |s.th|);
  }

  /** What an instruction at `pc` does to the cell and the sleepers. */
  predicate CellMoves(s: State, u: State, pc: Pc)
  {
    && u.obj.resets == s.obj.resets + (if pc == Sleep(M.Reset) then 1 else 0)
    && u.byte == (if pc == Notify then M.NOTIFIED_VAL else if pc == Sleep(M.Reset) then M.ORIGINAL_VAL else s.byte)
    && Count(u.th, Sleeps) ==
       Count(s.th, Sleeps) + (if pc == Unlock then 1 else if pc == Sleep(M.Reset) then -1 else 0)
  }

  lemma SleepStep(s: State, i: nat)
    requires Inv(s) && i < |s.th|
    ensures CellMoves(s, Next(s, Instr(i)), s.th[i].pc)
  {
    CountStep(s, i, Sleeps);
    assert ThreadOk(s.th[i], s.calls, s.obj.wins, Noted(s), s.byte);
  }

  lemma CellCarries(s: State, u: State, pc: Pc)
    requires Cell(s) && (s.obj.notifies == s.obj.wins || Noted(s)) && |s.th| > 0
    requires RoundMoves(s, u, pc) && CellMoves(s, u, pc)
    requires pc == Notify ==> !Noted(s) && Count(s.th, Sleeps) == Others(s)
    requires pc == Unlock ==> !Noted(s)
    requires pc == Sleep(M.Reset) ==> Noted(s) && Count(s.th, Sleeps) > 0
    requires pc == DecTest && s.obj.gathered == 1 ==> Noted(s) && Count(s.th, Sleeps) == 0
    ensures Cell(u)
  {
  }

  lemma CellStep(s: State, i: nat)
    requires Inv(s) && i < |s.th|
    ensures Cell(Next(s, Instr(i)))
  {
    RoundStep(s, i);
    SleepStep(s, i);
    assert ThreadOk(s.th[i], s.calls, s.obj.wins, Noted(s), s.byte);
    if s.th[i].pc == Notify { AllAsleep(s, i); }
    if s.th[i].pc == DecTest && s.obj.gathered == 1 { AllGone(s, i); }
    CountApart(s.th, i, Sleeps);
    CellCarries(s, Next(s, Instr(i)), s.th[i].pc);
  }

  lemma InterruptCounts(s: State, i: nat, p: Thread -> bool)
    requires i < |s.th| && p(Hit(s.th[i])) == p(s.th[i])
    ensures Count(Next(s, Interrupt(i)).th, p) == Count(s.th, p)
  {
    CountUpdate(s.th, i, Hit(s.th[i]), p);
  }

  lemma InterruptThreads(s: State, i: nat)
    requires Threads(s) && i < |s.th|
    ensures Threads(Next(s, Interrupt(i)))
  {
    var u := Next(s, Interrupt(i));
    forall j | 0 <= j < |u.th| ensures ThreadOk(u.th[j], u.calls, u.obj.wins, Noted(u), u.byte) {
      assert ThreadOk(s.th[j], s.calls, s.obj.wins, Noted(s), s.byte);
    }
  }

  lemma InterruptLock(s: State, i: nat)
    requires Lock(s) && Counter(s) && i < |s.th|
    ensures Lock(Next(s, Interrupt(i))) && Counter(Next(s, Interrupt(i)))
  {
    var u := Next(s, Interrupt(i));
    InterruptCounts(s, i, Spins);
    InterruptCounts(s, i, Gathered);
    assert forall j :: Holder(u, j) <==> Holder(s, j);
    assert Taken(u) <==> Taken(s);
  }

  lemma InterruptStep(s: State, i: nat)
    requires Inv(s)
    ensures Inv(Next(s, Interrupt(i)))
  {
    if i < |s.th| {
      InterruptCounts(s, i, Sleeps);
      InterruptThreads(s, i);
      InterruptLock(s, i);
    }
  }

  lemma InvStep(s: State, e: Event)
    requires Inv(s)
    ensures Inv(Next(s, e))
  {
    if e.Interrupt? {
      InterruptStep(s, e.i);
    } else if e.i < |s.th| {
      ThreadsStep(s, e.i);
      LockStep(s, e.i);
      CounterStep(s, e.i);
      CellStep(s, e.i);
    }
  }
}
