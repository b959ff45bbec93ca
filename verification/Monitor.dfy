/** The kernel side of MONITOR/MWAIT: the sleep system call on a one-byte cell, as instructions.
    A logical CPU's monitor is a latch: `monitor` arms it, any store to the monitored line or any
    interrupt fires it, and `mwait` stops the CPU only while it is armed and has not fired. */
module Monitor {
  import opened Options

  const ORIGINAL_VAL := 'a'
  const NOTIFIED_VAL := 'b'

  datatype Mon = Off | Armed | Fired

  /** A store to the monitored line, or an interrupt. */
  function Hit(m: Mon): Mon
  {
    if m == Armed then Fired else m
  }

  /** `Checked` is the sleep call in use. `Unchecked` is the disabled version, which tests the
      cell before the loop and not between arming the monitor and `mwait`. */
  datatype Variant = Checked | Unchecked

  datatype Pc = Out | Pretest | Arm | Check | Mwait | Blocked | Recheck | Reset

  datatype Effect = Effect(pc: Pc, mon: Mon, store: Option<char>)

  /** One instruction of the sleep call, when the cell holds `byte`. */
  function Code(v: Variant, pc: Pc, mon: Mon, byte: char): Effect
  {
    match pc
    case Out => Effect(if v == Checked then Arm else Pretest, mon, None)
    case Pretest => Effect(if byte != NOTIFIED_VAL then Arm else Reset, mon, None)
    case Arm => Effect(if v == Checked then Check else Mwait, Armed, None)
    case Check => Effect(if byte == NOTIFIED_VAL then Reset else Mwait, mon, None)
    case Mwait => if mon == Armed then Effect(Blocked, mon, None) else Effect(Recheck, Off, None)
    case Blocked => if mon == Armed then Effect(Blocked, mon, None) else Effect(Recheck, Off, None)
    case Recheck => Effect(if byte != NOTIFIED_VAL then Arm else Reset, mon, None)
    case Reset => Effect(Out, mon, Some(ORIGINAL_VAL))
  }

  /** What the check between `monitor` and `mwait` buys: a CPU that is about to stop, or has
      stopped, with its monitor still armed has not been notified. */
  predicate Alert(pc: Pc, mon: Mon, byte: char)
  {
    pc in {Mwait, Blocked} && mon == Armed ==> byte != NOTIFIED_VAL
  }

  /** The monitor is set up before `mwait` and used up by it. */
  predicate SetUp(pc: Pc, mon: Mon)
  {
    && (pc in {Check, Mwait, Blocked} ==> mon != Off)
    && (pc == Recheck ==> mon == Off)
    && (pc == Out ==> mon != Armed)
  }

  /** Instructions a notified sleeper still needs before it returns. */
  function Rank(pc: Pc): nat
  {
    match pc
    case Out => 0
    case Reset => 1
    case Check => 2
    case Recheck => 2
    case Pretest => 2
    case _ => 3
  }
}

/** One sleeper that calls the sleep system call for ever, and any number of notifiers. */
module OneSleeper {
  import opened Traces
  import opened Monitor

  /** `notifies` counts notifier stores, `merged` those that found the cell already notified,
      `wakes` the sleep calls that have come back. */
  datatype State = State(v: Variant, byte: char, mon: Mon, pc: Pc, notifies: nat, merged: nat, wakes: nat)

  datatype Event = Sleeper | Notify | Interrupt

  function Init(v: Variant): State
  {
    State(v, ORIGINAL_VAL, Off, Out, 0, 0, 0)
  }

  function Next(s: State, e: Event): State
  {
    match e
    case Sleeper =>
      var o := Code(s.v, s.pc, s.mon, s.byte);
      if o.store.Some? then s.(pc := o.pc, mon := Hit(o.mon), byte := o.store.value, wakes := s.wakes + 1)
      else s.(pc := o.pc, mon := o.mon)
    case Notify =>
      s.(byte := NOTIFIED_VAL, mon := Hit(s.mon), notifies := s.notifies + 1, merged := s.merged + Pending(s))
    case Interrupt => s.(mon := Hit(s.mon))
  }

  /** 1 while a notification is in the cell. */
  function Pending(s: State): nat
  {
    if s.byte == NOTIFIED_VAL then 1 else 0
  }

  /** The lost wake-up: notified, and yet stopped with the monitor armed. */
  predicate Stranded(s: State)
  {
    s.pc == Blocked && s.mon == Armed && s.byte == NOTIFIED_VAL
  }

  function Reached(v: Variant, es: seq<Event>): State
  {
    Run(Next, Init(v), es)
  }

  /** Notifications equal returns, merged notifications and the pending one. */
  ghost predicate Balanced(s: State)
  {
    && s.notifies == s.wakes + s.merged + Pending(s)
    && s.byte in {ORIGINAL_VAL, NOTIFIED_VAL}
    && (s.pc == Reset ==> s.byte == NOTIFIED_VAL)
  }

  ghost predicate Inv(s: State)
  {
    && s.v == Checked && Alert(s.pc, s.mon, s.byte)
    && (s.pc == Reset ==> s.byte == NOTIFIED_VAL)
    && s.pc != Pretest
  }

  // ---------- what the monitor does ----------

  lemma SetUpStep(s: State, e: Event)
    requires SetUp(s.pc, s.mon)
    ensures SetUp(Next(s, e).pc, Next(s, e).mon)
  {
  }

  /** Along every run of both variants, a sleeper on its way into `mwait` or stopped in it has executed
      `monitor` since its last one; behind `mwait` the monitor is used up, and outside the call it is
      not armed. */
  lemma {:induction false} MonitorBeforeMwait(v: Variant, es: seq<Event>)
    ensures var s := Reached(v, es);
            && (s.pc in {Check, Mwait, Blocked} ==> s.mon != Off)
            && (s.pc == Recheck ==> s.mon == Off)
            && (s.pc == Out ==> s.mon != Armed)
  {
    var inv := (s: State) => SetUp(s.pc, s.mon);
    forall x, e | inv(x) ensures inv(Next(x, e)) {
      SetUpStep(x, e);
    }
    Invariance(Next, inv, Init(v), es);
  }

  /** A stopped sleeper goes on, to the test of the cell, if and only if a store or an interrupt has
      come in the meantime. */
  lemma {:induction false} WokenIff(s: State, es: seq<Event>)
    requires s.pc == Blocked && s.mon == Armed && Turns(es) == 0
    ensures var u := Next(Run(Next, s, es), Sleeper);
            && (u.pc == Recheck <==> Notify in es || Interrupt in es)
            && (u.pc == Blocked && u == s <==> es == [])
  {
    if es != [] {
      HitStaysHit(Next(s, es[0]), es[1..]);
      assert es[0] in es;
    }
  }

  lemma {:induction false} HitStaysHit(s: State, es: seq<Event>)
    requires s.pc == Blocked && s.mon == Fired && Turns(es) == 0
    ensures var u := Run(Next, s, es); u.pc == Blocked && u.mon == Fired
    decreases |es|
  {
    if es != [] {
      HitStaysHit(Next(s, es[0]), es[1..]);
    }
  }

  /** A spurious wake-up does not end the call: with the cell not notified the sleeper sets up its
      monitor and stops again, and has not returned. */
  lemma SpuriousWakeSleepsAgain(s: State)
    requires s.pc == Blocked && s.mon == Armed && s.byte != NOTIFIED_VAL
    ensures Repeat(Next, Next(s, Interrupt), Sleeper, if s.v == Checked then 5 else 4) == s
  {
    var u := Next(s, Interrupt);
    assert Repeat(Next, u, Sleeper, 2) == s.(pc := Arm, mon := Off);
    assert Repeat(Next, u, Sleeper, 3).pc == if s.v == Checked then Check else Mwait;
    assert Repeat(Next, u, Sleeper, 4).pc == if s.v == Checked then Mwait else Blocked;
    assert Repeat(Next, u, Sleeper, 5).pc == Blocked;
  }

  /** A call that finds the cell not notified stops at its fourth instruction, and stays there. */
  lemma CallStops(s: State)
    requires s.pc == Out && s.byte != NOTIFIED_VAL
    ensures Repeat(Next, s, Sleeper, 4) == Repeat(Next, s, Sleeper, 5) == s.(pc := Blocked, mon := Armed)
  {
    assert Repeat(Next, s, Sleeper, 2).pc == if s.v == Checked then Check else Arm;
  }

  /** A call that finds a notification consumes it and returns without stopping; the disabled version
      does so without setting up its monitor. */
  lemma CallConsumesPending(s: State)
    requires s.pc == Out && s.byte == NOTIFIED_VAL && s.mon != Armed
    ensures Repeat(Next, s, Sleeper, if s.v == Checked then 4 else 3)
            == s.(byte := ORIGINAL_VAL, wakes := s.wakes + 1, mon := if s.v == Checked then Fired else s.mon)
  {
    assert Repeat(Next, s, Sleeper, 2).pc == if s.v == Checked then Check else Reset;
  }

  /** A sleeper can be stranded exactly when the check between arming and `mwait` is missing. */
  lemma LostWakeupIffUnchecked(v: Variant)
    ensures CanReach(Next, Init(v), Stranded) <==> v == Unchecked
  {
    if v == Checked {
      forall es: seq<Event> ensures !Stranded(Run(Next, Init(v), es)) {
        forall x, e | Inv(x) ensures Inv(Next(x, e)) {
          InvStep(x, e);
        }
        Invariance(Next, Inv, Init(v), es);
      }
    } else {
      UncheckedStrands();
    }
  }

  /** A notification that falls between the decision to arm the monitor and arming it: without the
      check the sleeper stops for it, with the check it goes on to consume it. */
  lemma NotifiedBeforeArming(s: State)
    requires s.pc == Arm
    ensures var u := Next(Next(Next(s, Notify), Sleeper), Sleeper);
            && (s.v == Unchecked ==> Stranded(Next(u, Sleeper)) && Next(u, Sleeper) == u)
            && (s.v == Checked ==> u.pc == Reset)
  {
  }

  /** And so the disabled loop strands its sleeper: test the cell, be notified, arm, stop. */
  lemma UncheckedStrands()
    ensures CanReach(Next, Init(Unchecked), Stranded)
  {
    var s1 := Next(Init(Unchecked), Sleeper);
    var s2 := Next(s1, Sleeper);
    var s3 := Next(s2, Notify);
    var s4 := Next(s3, Sleeper);
    NotifiedBeforeArming(s2);
    CanReachNow(Next, Next(s4, Sleeper), Stranded);
    CanReachStep(Next, s4, Stranded, Sleeper);
    CanReachStep(Next, s3, Stranded, Sleeper);
    CanReachStep(Next, s2, Stranded, Notify);
    CanReachStep(Next, s1, Stranded, Sleeper);
    CanReachStep(Next, Init(Unchecked), Stranded, Sleeper);
  }

  /** A stranded sleeper stays where it is, however often it is scheduled. */
  lemma {:induction false} StrandedStays(s: State, es: seq<Event>)
    requires Stranded(s)
    requires forall i :: 0 <= i < |es| ==> es[i] == Sleeper
    ensures Run(Next, s, es) == s
  {
    if es != [] {
      StrandedStays(s, es[1..]);
    }
  }

  lemma BalancedStep(s: State, e: Event)
    requires Balanced(s)
    ensures Balanced(Next(s, e))
  {
  }

  lemma InvStep(s: State, e: Event)
    requires Inv(s)
    ensures Inv(Next(s, e))
  {
  }

  lemma {:induction false} BalancedRun(s: State, es: seq<Event>)
    requires Balanced(s)
    ensures Balanced(Run(Next, s, es))
    decreases |es|
  {
    if es != [] {
      BalancedStep(s, es[0]);
      BalancedRun(Next(s, es[0]), es[1..]);
    }
  }

  lemma {:induction false} ReachedBalanced(v: Variant, es: seq<Event>)
    ensures Balanced(Reached(v, es))
  {
    BalancedRun(Init(v), es);
  }

  lemma BalanceIs(s: State)
    requires Balanced(s)
    ensures s.notifies == s.wakes + s.merged + (if s.byte == 'b' then 1 else 0)
    ensures (s.byte == 'a' || s.byte == 'b') && (s.pc == Reset ==> s.byte == 'b')
  {
  }

  /** Conservation of notifications, in both variants and along every run: each store to the cell
      has released one return, has merged with an earlier one, or is still pending. */
  lemma {:induction false} NotificationsBalance(v: Variant, es: seq<Event>)
    ensures var s := Reached(v, es);
            && s.notifies == s.wakes + s.merged + (if s.byte == 'b' then 1 else 0)
            && (s.byte == 'a' || s.byte == 'b') && (s.pc == Reset ==> s.byte == 'b')
  {
    ReachedBalanced(v, es);
    BalanceIs(Reached(v, es));
  }

  lemma {:induction false} CountersGrow(s: State, es: seq<Event>)
    ensures Run(Next, s, es).merged >= s.merged && Run(Next, s, es).wakes >= s.wakes
    decreases |es|
  {
    if es != [] {
      CountersGrow(Next(s, es[0]), es[1..]);
    }
  }

  /** Over any stretch of a run, returns are paid for by the notifications of that stretch and the
      one that was pending when it began. */
  lemma {:induction false} ReturnsNeedNotifications(v: Variant, before: seq<Event>, stretch: seq<Event>)
    ensures var s, t := Reached(v, before), Reached(v, before + stretch);
            t.wakes - s.wakes <= t.notifies - s.notifies + Pending(s)
  {
    BalancedRun(Init(v), before);
    StretchBalances(Reached(v, before), stretch);
    RunConcat(Next, Init(v), before, stretch);
  }

  lemma {:induction false} StretchBalances(s: State, es: seq<Event>)
    requires Balanced(s)
    ensures var t := Run(Next, s, es); t.wakes - s.wakes <= t.notifies - s.notifies + Pending(s)
  {
    BalancedRun(s, es);
    CountersGrow(s, es);
  }

  function Turns(es: seq<Event>): nat
  {
    if es == [] then 0 else (if es[0] == Sleeper then 1 else 0) + Turns(es[1..])
  }

  lemma {:induction false} NotifiedReturns(s: State, es: seq<Event>)
    requires Inv(s) && s.byte == NOTIFIED_VAL && s.pc != Out
    requires Turns(es) >= Rank(s.pc)
    ensures Run(Next, s, es).wakes > s.wakes
    decreases |es|
  {
    var t := Next(s, es[0]);
    if t.wakes > s.wakes {
      CountersGrow(t, es[1..]);
    } else {
      NotifiedReturns(t, es[1..]);
    }
  }

  /** Wake-up in bounded time: once notified, a sleeper inside the call returns within three of
      its own instructions, whatever stores and interrupts come in between. */
  lemma {:induction false} NotifiedSleeperReturns(before: seq<Event>, after: seq<Event>)
    requires var s := Reached(Checked, before); s.byte == NOTIFIED_VAL && s.pc != Out
    requires Turns(after) >= 3
    ensures Reached(Checked, before + after).wakes > Reached(Checked, before).wakes
  {
    forall x, e | Inv(x) ensures Inv(Next(x, e)) {
      InvStep(x, e);
    }
    Invariance(Next, Inv, Init(Checked), before);
    RunConcat(Next, Init(Checked), before, after);
    NotifiedReturns(Run(Next, Init(Checked), before), after);
  }

  /** The cell, the monitor and the sleeper as they change in place. */
  class SleepCell {
    const v: Variant
    var byte: char
    var mon: Mon
    var pc: Pc
    ghost var notifies: nat
    ghost var merged: nat
    ghost var wakes: nat

    ghost function Abs(): State
      reads this
    {
      State(v, byte, mon, pc, notifies, merged, wakes)
    }

    /** The device driver opens with the cell at its original value. */
    constructor (v: Variant)
      ensures this.v == v && Abs() == Init(v) && byte == 'a'
    {
      this.v := v;
      byte, mon, pc := ORIGINAL_VAL, Off, Out;
      notifies, merged, wakes := 0, 0, 0;
    }

    /** One instruction of the sleeper. */
    method StepSleeper()
      modifies this
      ensures Abs() == Next(old(Abs()), Sleeper)
    {
      match pc {
        case Out =>
          pc := if v == Checked then Arm else Pretest;
        case Arm =>
          mon := Armed;
          pc := if v == Checked then Check else Mwait;
        case Check =>
          if byte == NOTIFIED_VAL { pc := Reset; } else { pc := Mwait; }
        case Mwait =>
          if mon == Armed { pc := Blocked; } else { mon := Off; pc := Recheck; }
        case Blocked =>
          if mon != Armed { mon := Off; pc := Recheck; }
        case Recheck =>
          if byte != NOTIFIED_VAL { pc := Arm; } else { pc := Reset; }
        case Pretest =>
          if byte != NOTIFIED_VAL { pc := Arm; } else { pc := Reset; }
        case Reset =>
          byte := ORIGINAL_VAL;
          if mon == Armed { mon := Fired; }
          pc := Out;
          wakes := wakes + 1;
      }
    }

    /** A notifier's store. */
    method Notify()
      modifies this
      ensures Abs() == Next(old(Abs()), Event.Notify) && byte == 'b'
    {
      if byte == NOTIFIED_VAL { merged := merged + 1; }
      byte := NOTIFIED_VAL;
      if mon == Armed { mon := Fired; }
      notifies := notifies + 1;
    }

    method Interrupt()
      modifies this
      ensures Abs() == Next(old(Abs()), Event.Interrupt)
    {
      if mon == Armed { mon := Fired; }
    }

    /** Any interleaving of sleeper, notifiers and interrupts, in place. */
    method Execute(schedule: seq<Event>)
      requires Balanced(Abs())
      modifies this
      ensures Abs() == Run(Next, old(Abs()), schedule) && Balanced(Abs())
    {
      ghost var start := Abs();
      for k := 0 to |schedule|
        invariant Balanced(Abs()) && Abs() == Run(Next, start, schedule[..k])
      {
        BalancedStep(Abs(), schedule[k]);
        RunSnoc(Next, start, schedule[..k], schedule[k]);
        assert schedule[..k] + [schedule[k]] == schedule[..k + 1];
        match schedule[k] {
          case Sleeper => StepSleeper();
          case Notify => this.Notify();
          case Interrupt => this.Interrupt();
        }
      }
      assert schedule[..|schedule|] == schedule;
    }
  }
}
