/** Two barriers on two packages: four threads, and two monitored cells in one shared page. */
module TwoPackages {
  import opened Traces
  import opened MwaitBarrier
  import opened MwaitBarrierSafety
  import opened MwaitBarrierLiveness
  import A = Alignment
  import K = KmemMapper
  import M = Monitor

  datatype Which = First | Second

  datatype Side = Side(calls: nat, obj: Obj, th: seq<Thread>)

  /** The page starts at address `base`; the cells are its first byte and the byte `distance` on. */
  datatype System = System(base: nat, distance: nat, page: seq<char>, one: Side, two: Side)

  datatype Action = Action(on: Which, e: Event)

  predicate Mapped(y: System)
  {
    K.Placed(y.base, y.distance) && |y.page| == K.PAGE_SIZE
  }

  function Other(w: Which): Which
  {
    if w == First then Second else First
  }

  function Offset(y: System, w: Which): nat
  {
    if w == First then 0 else y.distance
  }

  /** The cache line of the cell of package `w`. */
  function CellLine(y: System, w: Which): nat
  {
    K.LineOf(y.base + Offset(y, w))
  }

  function SideOf(y: System, w: Which): Side
  {
    if w == First then y.one else y.two
  }

  function WithSide(y: System, w: Which, d: Side): System
  {
    if w == First then y.(one := d) else y.(two := d)
  }

  /** One package as a barrier on its own. */
  function View(y: System, w: Which): State
    requires Mapped(y)
  {
    var d := SideOf(y, w);
    State(d.calls, d.obj, y.page[Offset(y, w)], d.th)
  }

  function AllHit(th: seq<Thread>): seq<Thread>
  {
    seq(|th|, j requires 0 <= j < |th| => Hit(th[j]))
  }

  /** A store to the line `line` fires the armed monitors of package `w` if they cover that line. */
  function FireIfOn(y: System, w: Which, line: nat): Side
  {
    var d := SideOf(y, w);
    if CellLine(y, w) == line then d.(th := AllHit(d.th)) else d
  }

  function EffectOf(y: System, w: Which, i: nat): Effect
    requires Mapped(y) && i < |SideOf(y, w).th|
  {
    Own(View(y, w), i)
  }

  /** An instruction of one package on the shared page. Its store is heard by every monitor of
      either package that covers the line. */
  function Next2(y: System, a: Action): System
  {
    var d := SideOf(y, a.on);
    if !Mapped(y) || a.e.i >= |d.th| then y else
    match a.e
    case Interrupt(i) => WithSide(y, a.on, d.(th := d.th[i := Hit(d.th[i])]))
    case Instr(i) =>
      var o := EffectOf(y, a.on, i);
      var z := WithSide(y, a.on, d.(obj := o.obj, th := d.th[i := o.t]));
      if o.store.None? then z else
      var line := CellLine(y, a.on);
      z.(page := z.page[Offset(y, a.on) := o.store.value],
         one := FireIfOn(z, First, line), two := FireIfOn(z, Second, line))
  }

  /** The two monitored lines are different. */
  predicate Apart(y: System)
  {
    CellLine(y, First) != CellLine(y, Second)
  }

  lemma LineAt(pages: nat, d: nat)
    ensures K.LineOf(K.PAGE_SIZE * pages + d) == 64 * pages + d / K.LINE
  {
    assert K.PAGE_SIZE * pages + d == 64 * (64 * pages + d / 64) + d % 64;
  }

  lemma ApartIffLineBetween(y: System)
    requires Mapped(y)
    ensures Apart(y) <==> y.distance >= K.LINE
  {
    LineAt(y.base / K.PAGE_SIZE, 0);
    LineAt(y.base / K.PAGE_SIZE, y.distance);
  }

  // ---------- what each package sees of the other ----------

  /** The action stores to the line that the other package monitors. */
  predicate Disturbs(y: System, a: Action)
  {
    && Mapped(y) && !Apart(y) && a.e.Instr? && a.e.i < |SideOf(y, a.on).th|
    && EffectOf(y, a.on, a.e.i).store.Some?
  }

  /** An interrupt to each of the first `n` threads. */
  function InterruptAll(n: nat): (es: seq<Event>)
    ensures |es| == n && forall i :: 0 <= i < n ==> es[i] == Interrupt(i)
  {
    seq(n, i requires 0 <= i < n => Interrupt(i))
  }

  /** What package `w` feels of an action: its own events, and as spurious wake-ups the stores of
      the other package to a line they share. */
  function Felt(y: System, a: Action, w: Which): seq<Event>
  {
    if a.on == w then [a.e] else if Disturbs(y, a) then InterruptAll(|SideOf(y, w).th|) else []
  }

  function AllFelt(y: System, es: seq<Action>, w: Which): seq<Event>
    decreases |es|
  {
    if es == [] then [] else Felt(y, es[0], w) + AllFelt(Next2(y, es[0]), es[1..], w)
  }

  /** The events of a schedule that belong to package `w`. */
  function Only(es: seq<Action>, w: Which): seq<Event>
  {
    if es == [] then [] else (if es[0].on == w then [es[0].e] else []) + Only(es[1..], w)
  }

  lemma {:induction false} InterruptsHitAll(s: State, n: nat)
    requires n <= |s.th|
    ensures Run(Next, s, InterruptAll(n)) ==
            s.(th := seq(|s.th|, j requires 0 <= j < |s.th| => if j < n then Hit(s.th[j]) else s.th[j]))
  {
    if n == 0 {
      assert seq(|s.th|, j requires 0 <= j < |s.th| => if j < n then Hit(s.th[j]) else s.th[j]) == s.th;
    } else {
      InterruptsHitAll(s, n - 1);
      assert InterruptAll(n) == InterruptAll(n - 1) + [Interrupt(n - 1)];
      RunSnoc(Next, s, InterruptAll(n - 1), Interrupt(n - 1));
    }
  }

  /** A step of a package is its barrier's step, whatever the layout. */
  lemma OwnStep(y: System, a: Action)
    requires Mapped(y)
    ensures Mapped(Next2(y, a)) && View(Next2(y, a), a.on) == Next(View(y, a.on), a.e)
    ensures Next2(y, a).base == y.base && Next2(y, a).distance == y.distance
  {
    var d := SideOf(y, a.on);
    if a.e.Instr? && a.e.i < |d.th| {
      assert View(Next2(y, a), a.on).th == Next(View(y, a.on), a.e).th;
    }
  }

  /** The other package's cell and object are left alone, and its monitors fire exactly if they
      share the line of a store. */
  lemma OtherStep(y: System, a: Action)
    requires Mapped(y)
    ensures var s := View(y, Other(a.on));
            && Mapped(Next2(y, a))
            && View(Next2(y, a), Other(a.on)) == if Disturbs(y, a) then s.(th := AllHit(s.th)) else s
  {
  }

  lemma StepProjects(y: System, a: Action, w: Which)
    requires Mapped(y)
    ensures Mapped(Next2(y, a)) && View(Next2(y, a), w) == Run(Next, View(y, w), Felt(y, a, w))
    ensures Next2(y, a).base == y.base && Next2(y, a).distance == y.distance
  {
    OwnStep(y, a);
    if a.on == w {
      RunOne(Next, View(y, w), a.e);
    } else {
      OtherStep(y, a);
      var s := View(y, w);
      InterruptsHitAll(s, |s.th|);
      assert AllHit(s.th) == Run(Next, s, InterruptAll(|s.th|)).th;
    }
  }

  /** An action leaves every byte of the page but its own package's cell as it was, and moves nothing. */
  lemma OneByteAtATime(y: System, a: Action, k: nat)
    requires Mapped(y) && k < 4096 && k != (if a.on == First then 0 else y.distance)
    ensures var z := Next2(y, a);
            && z.base == y.base && z.distance == y.distance
            && |z.page| == |y.page| == 4096 && z.page[k] == y.page[k]
  {
  }

  /** The driver's page meets the conditions of the joint results, with its lines apart. */
  lemma DriverPageIsPlaced(w: nat, ptr: nat, calls: nat)
    requires K.PAGE_SHIFT <= w && ptr + 12288 <= A.Pow2(w)
    ensures var area := A.AlignUp(w, ptr, K.PAGE_SHIFT);
            K.Placed(area, K.MONITORED_REGIONS_DISTANCE) && Independent(area, K.MONITORED_REGIONS_DISTANCE, calls)
  {
    K.LayoutIsSafe(w, ptr);
    IndependentIffLineApart(A.AlignUp(w, ptr, K.PAGE_SHIFT), K.MONITORED_REGIONS_DISTANCE, calls);
  }

  /** Every run of the joint system projects to a run of each barrier alone, with at most some
      spurious wake-ups more; event for event, if the cells lie in different lines. */
  lemma {:induction false} RunProjects(y: System, es: seq<Action>, w: Which)
    requires Mapped(y)
    ensures Mapped(Run(Next2, y, es))
    ensures View(Run(Next2, y, es), w) == Run(Next, View(y, w), AllFelt(y, es, w))
    ensures Apart(y) ==> AllFelt(y, es, w) == Only(es, w)
    decreases |es|
  {
    if es != [] {
      var z := Next2(y, es[0]);
      StepProjects(y, es[0], w);
      RunProjects(z, es[1..], w);
      RunConcat(Next, View(y, w), Felt(y, es[0], w), AllFelt(z, es[1..], w));
    }
  }

  /** Both barriers initialised for two threads, with both cells at their original value. */
  function Start(base: nat, distance: nat, calls: nat): System
  {
    System(base, distance, seq(K.PAGE_SIZE, i => M.ORIGINAL_VAL),
           Side(calls, Init(2, calls).obj, Init(2, calls).th), Side(calls, Init(2, calls).obj, Init(2, calls).th))
  }

  lemma StartViews(base: nat, distance: nat, calls: nat, w: Which)
    requires K.Placed(base, distance)
    ensures Mapped(Start(base, distance, calls)) && View(Start(base, distance, calls), w) == Init(2, calls)
  {
  }

  /** The single-barrier guarantee holds for each package of the joint system, wherever the cells
      lie. */
  lemma {:induction false} NoEarlyReturnOnEither(
      base: nat, distance: nat, calls: nat, es: seq<Action>, w: Which, i: nat, j: nat)
    requires K.Placed(base, distance) && i < 2 && j < 2
    ensures var y := Run(Next2, Start(base, distance, calls), es);
            && Mapped(y)
            && |SideOf(y, w).th| == 2
            && SideOf(y, w).th[i].passed <= SideOf(y, w).th[j].arrived
            && SideOf(y, w).th[i].passed <= SideOf(y, w).th[j].passed + 1
  {
    var start := Start(base, distance, calls);
    StartViews(base, distance, calls, w);
    RunProjects(start, es, w);
    NoEarlyReturn(2, calls, AllFelt(start, es, w), i, j);
  }

  // ---------- when a package never feels the other ----------

  /** No reachable step of one package changes anything the other sees. */
  ghost predicate Independent(base: nat, distance: nat, calls: nat)
    requires K.Placed(base, distance)
  {
    forall es: seq<Action>, a :: LeavesOtherAlone(Run(Next2, Start(base, distance, calls), es), a)
  }

  ghost predicate LeavesOtherAlone(y: System, a: Action)
  {
    && Mapped(y) && Mapped(Next2(y, a))
    && View(Next2(y, a), Other(a.on)) == View(y, Other(a.on))
  }

  /** One more instruction on package `w`, without a store. */
  lemma Quietly(start: System, y: System, w: Which, i: nat) returns (z: System)
    requires Leads(Next2, start, y) && Mapped(y) && i < |SideOf(y, w).th| && EffectOf(y, w, i).store.None?
    ensures Leads(Next2, start, z) && Mapped(z) && z.base == y.base && z.distance == y.distance
    ensures View(z, Other(w)) == View(y, Other(w))
    ensures var s, o := View(y, w), EffectOf(y, w, i); View(z, w) == s.(obj := o.obj, th := s.th[i := o.t])
  {
    var a := Action(w, Instr(i));
    z := Next2(y, a);
    LeadsOn(Next2, start, y, a);
    OtherStep(y, a);
  }

  /** Thread `i` takes the free lock and counts itself in. */
  lemma Enters(start: System, y: System, w: Which, i: nat, others: int) returns (z: System)
    requires Leads(Next2, start, y) && Mapped(y) && i < 2
    requires var s := View(y, w);
             && s.calls > 0 && |s.th| == 2 && s.th[i] == Thread(Idle, M.Off, 0, 0, 0)
             && s.obj == Obj(1, others, 0, 0, 0) && 0 <= others < 2
    ensures Leads(Next2, start, z) && Mapped(z) && z.base == y.base && z.distance == y.distance
    ensures View(z, Other(w)) == View(y, Other(w))
    ensures var s := View(y, w);
            View(z, w) == s.(obj := Obj(0, others + 1, 0, 0, 0), th := s.th[i := Thread(Test, M.Off, others, 1, 0)])
  {
    z := Quietly(start, y, w, i);
    z := Quietly(start, z, w, i);
    assert View(z, w).th[i].pc == IncRead && View(z, w).obj == Obj(0, others, 0, 0, 0);
    z := Quietly(start, z, w, i);
    z := Quietly(start, z, w, i);
  }

  /** Thread 0 arms its monitor. */
  lemma FirstArms(start: System, y: System, w: Which) returns (z: System)
    requires Leads(Next2, start, y) && Mapped(y)
    requires View(y, w).calls > 0 && View(y, w) == Init(2, View(y, w).calls)
    ensures Leads(Next2, start, z) && Mapped(z) && z.base == y.base && z.distance == y.distance
    ensures View(z, Other(w)) == View(y, Other(w))
    ensures var s := View(z, w);
            && s.calls > 0 && s.obj == Obj(1, 1, 0, 0, 0)
            && s.th == [Thread(Sleep(M.Check), M.Armed, 0, 1, 0), Thread(Idle, M.Off, 0, 0, 0)]
  {
    z := Enters(start, y, w, 0, 0);
    z := Quietly(start, z, w, 0);
    z := Quietly(start, z, w, 0);
    z := Quietly(start, z, w, 0);
  }

  /** With both cells in one line, package one is brought to its notification while a monitor of
      package two is armed. */
  lemma StoreIsHeard(base: nat, distance: nat, calls: nat) returns (y: System)
    requires K.Placed(base, distance) && distance < 64 && calls > 0
    ensures Leads(Next2, Start(base, distance, calls), y) && !LeavesOtherAlone(y, Action(First, Instr(1)))
  {
    var start := Start(base, distance, calls);
    StartViews(base, distance, calls, First);
    StartViews(base, distance, calls, Second);
    LeadsNowhere(Next2, start);
    y := FirstArms(start, start, Second);
    y := FirstArms(start, y, First);
    y := Enters(start, y, First, 1, 1);
    y := Quietly(start, y, First, 1);
    ApartIffLineBetween(y);
    assert View(y, First).th[1].pc == Notify && View(y, Second).th[0].mon == M.Armed;
    OtherStep(y, Action(First, Instr(1)));
  }

  lemma NobodyCalls(y: System, a: Action)
    requires BothInv(y) && SideOf(y, a.on).calls == 0
    ensures !Disturbs(y, a)
  {
    var s := View(y, a.on);
    if a.e.i < |s.th| {
      assert ThreadOk(s.th[a.e.i], s.calls, s.obj.wins, Noted(s), s.byte);
    }
  }

  /** One package's stores stay unseen by the other's monitors exactly when the cells are at least
      one line apart, or nobody calls. */
  lemma {:induction false} IndependentIffLineApart(base: nat, distance: nat, calls: nat)
    requires K.Placed(base, distance)
    ensures Independent(base, distance, calls) <==> distance >= 64 || calls == 0
  {
    if distance >= K.LINE || calls == 0 {
      forall es: seq<Action>, a ensures LeavesOtherAlone(Run(Next2, Start(base, distance, calls), es), a) {
        var y := Run(Next2, Start(base, distance, calls), es);
        ReachedBothInv(base, distance, calls, es);
        ApartIffLineBetween(y);
        if calls == 0 { NobodyCalls(y, a); }
        OtherStep(y, a);
      }
    } else {
      var y := StoreIsHeard(base, distance, calls);
      var es: seq<Action> :| Run(Next2, Start(base, distance, calls), es) == y;
      assert !LeavesOtherAlone(Run(Next2, Start(base, distance, calls), es), Action(First, Instr(1)));
    }
  }

  // ---------- both barriers make progress ----------

  ghost predicate TwoInv(s: State)
  {
    InvFor(2, s.calls, s)
  }

  ghost predicate BothInv(y: System)
  {
    Mapped(y) && TwoInv(View(y, First)) && TwoInv(View(y, Second))
  }

  /** As far from the end, and nobody held up. */
  ghost predicate NoWorse(s: State, u: State)
  {
    && u.calls == s.calls && Measure(u) == Measure(s)
    && (Finished(u) <==> Finished(s)) && forall i :: Advances(s, i) ==> Advances(u, i)
  }

  lemma HitIsHarmless(s: State, i: nat)
    requires TwoInv(s)
    ensures TwoInv(Next(s, Interrupt(i))) && NoWorse(s, Next(s, Interrupt(i)))
  {
    var u := Next(s, Interrupt(i));
    InvStep(s, Interrupt(i));
    InterruptKeepsMeasure(s, i);
    assert forall j :: 0 <= j < |s.th| ==> u.th[j].passed == s.th[j].passed && u.th[j].pc == s.th[j].pc;
  }

  /** Spurious wake-ups cost a barrier nothing. */
  lemma {:induction false} HitsAreHarmless(s: State, es: seq<Event>)
    requires TwoInv(s) && forall k :: 0 <= k < |es| ==> es[k].Interrupt?
    ensures TwoInv(Run(Next, s, es)) && NoWorse(s, Run(Next, s, es))
    decreases |es|
  {
    if es != [] {
      HitIsHarmless(s, es[0].i);
      HitsAreHarmless(Next(s, es[0]), es[1..]);
    }
  }

  lemma BothInvStep(y: System, a: Action)
    requires BothInv(y)
    ensures BothInv(Next2(y, a))
    ensures forall w :: SideOf(Next2(y, a), w).calls == SideOf(y, w).calls
    ensures Next2(y, a).base == y.base && Next2(y, a).distance == y.distance
  {
    var v, s := Other(a.on), View(y, a.on);
    OwnStep(y, a);
    InvStep(s, a.e);
    StepProjects(y, a, v);
    HitsAreHarmless(View(y, v), Felt(y, a, v));
    assert TwoInv(View(Next2(y, a), a.on)) && TwoInv(View(Next2(y, a), v));
  }

  ghost predicate JointInv(base: nat, distance: nat, calls: nat, y: System)
  {
    BothInv(y) && y.base == base && y.distance == distance && y.one.calls == calls && y.two.calls == calls
  }

  lemma {:induction false} ReachedBothInv(base: nat, distance: nat, calls: nat, es: seq<Action>)
    requires K.Placed(base, distance)
    ensures JointInv(base, distance, calls, Run(Next2, Start(base, distance, calls), es))
  {
    var inv := (y: System) => JointInv(base, distance, calls, y);
    StartInv(base, distance, calls);
    forall y, a | inv(y) ensures inv(Next2(y, a)) {
      BothInvStep(y, a);
      assert SideOf(Next2(y, a), First).calls == calls && SideOf(Next2(y, a), Second).calls == calls;
    }
    Invariance(Next2, inv, Start(base, distance, calls), es);
  }

  lemma StartInv(base: nat, distance: nat, calls: nat)
    requires K.Placed(base, distance)
    ensures JointInv(base, distance, calls, Start(base, distance, calls))
  {
    StartViews(base, distance, calls, First);
    StartViews(base, distance, calls, Second);
    InitInv(2, calls);
  }

  ghost predicate BothFinished(y: System)
  {
    Mapped(y) && Finished(View(y, First)) && Finished(View(y, Second))
  }

  function Measure2(y: System): nat
  {
    if Mapped(y) then Measure(View(y, First)) + Measure(View(y, Second)) else 0
  }

  predicate Helpful2(y: System, a: Action)
  {
    Mapped(y) && Helpful(View(y, a.on), a.e)
  }

  lemma Measure2Step(y: System, a: Action)
    requires BothInv(y)
    ensures Measure2(Next2(y, a)) <= Measure2(y)
    ensures Helpful2(y, a) <==> Measure2(Next2(y, a)) < Measure2(y)
  {
    var v := Other(a.on);
    OwnStep(y, a);
    MeasureStep(View(y, a.on), a.e);
    StepProjects(y, a, v);
    HitsAreHarmless(View(y, v), Felt(y, a, v));
  }

  lemma Helpful2Exists(y: System)
    requires BothInv(y) && !BothFinished(y)
    ensures exists a :: Helpful2(y, a)
  {
    var w := if Finished(View(y, First)) then Second else First;
    TwoAreNotStranded(View(y, w));
    var i := SomeThreadAdvances(View(y, w));
    assert Helpful2(y, Action(w, Instr(i)));
  }

  lemma Helpful2Persists(y: System, a: Action, f: Action)
    requires BothInv(y) && Helpful2(y, a) && Measure2(Next2(y, f)) == Measure2(y)
    ensures Helpful2(Next2(y, f), a)
  {
    var w := a.on;
    Measure2Step(y, f);
    StepProjects(y, f, w);
    if f.on == w {
      OwnStep(y, f);
      MeasureStep(View(y, w), f.e);
      HelpfulPersists(View(y, w), a.e, f.e);
    } else {
      HitsAreHarmless(View(y, w), Felt(y, f, w));
    }
  }

  lemma ProgressIsRanked2()
    ensures Ranked(Next2, BothInv, BothFinished, Measure2, Helpful2)
  {
    forall x, a | BothInv(x) ensures BothInv(Next2(x, a)) && Measure2(Next2(x, a)) <= Measure2(x) {
      BothInvStep(x, a);
      Measure2Step(x, a);
    }
    forall x, a | BothInv(x) && Helpful2(x, a) ensures Measure2(Next2(x, a)) < Measure2(x) {
      Measure2Step(x, a);
    }
    forall x | BothInv(x) && !BothFinished(x) ensures exists a :: Helpful2(x, a) {
      Helpful2Exists(x);
    }
    forall x, a, f | BothInv(x) && Helpful2(x, a) && Measure2(Next2(x, f)) == Measure2(x)
      ensures Helpful2(Next2(x, f), a)
    {
      Helpful2Persists(x, a, f);
    }
  }

  /** The four threads in turn. */
  function Turn4(k: nat): Action
  {
    Action(if k < 2 then First else Second, Instr(k % 2))
  }

  lemma HelpfulIsATurn(y: System, a: Action)
    requires BothInv(y) && Helpful2(y, a)
    ensures exists k: nat :: k < 4 && Turn4(k) == a
  {
    assert Turn4(if a.on == First then a.e.i else a.e.i + 2) == a;
  }

  lemma FairToHelpful2(schedule: nat -> Action)
    requires FairTo(4, schedule, Turn4)
    ensures Fair(schedule, BothInv, Helpful2)
  {
    forall y, a | BothInv(y) && Helpful2(y, a) ensures exists k: nat :: k < 4 && Turn4(k) == a {
      HelpfulIsATurn(y, a);
    }
    FairToHelpful(4, schedule, Turn4, BothInv, Helpful2);
  }

  /** All calls of all four threads return, under every schedule fair to the four threads and
      wherever the cells lie. */
  lemma EveryFairJointRunFinishes(base: nat, distance: nat, calls: nat, schedule: nat -> Action) returns (k: nat)
    requires K.Placed(base, distance) && FairTo(4, schedule, Turn4)
    ensures BothFinished(After(Next2, Start(base, distance, calls), schedule, k))
  {
    StartInv(base, distance, calls);
    ProgressIsRanked2();
    FairToHelpful2(schedule);
    k := FairRunReaches(Next2, BothInv, BothFinished, Measure2, Helpful2, Start(base, distance, calls), schedule, 0);
  }
}
