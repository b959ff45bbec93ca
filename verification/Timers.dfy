/** The cycle timers: the 64-bit form, and the 32-bit form that keeps every count in two limbs and
    adds with `sub`, `sbb`, `add` and `adc`. */
module Timers {
  import opened Division
  import opened Traces

  const W32: nat := 0x1_0000_0000
  const W64: nat := 0x1_0000_0000_0000_0000

  /** A timer operation with the time-stamp counter it reads. */
  datatype Op = Clear | Start(tsc: nat) | Stop(tsc: nat)

  datatype Timer64 = Timer64(start: nat, stop: nat, total: nat, loops: nat)

  datatype Limbs = Limbs(lo: nat, hi: nat)

  datatype Timer32 = Timer32(start: Limbs, stop: Limbs, total: Limbs, loops: nat)

  /** btimer_rdtsc64.h */
  function Next64(t: Timer64, op: Op): Timer64
  {
    match op
    case Clear => t.(total := 0, loops := 0)
    case Start(c) => t.(start := c % W64)
    case Stop(c) =>
      var stop := c % W64;
      t.(stop := stop, total := (t.total + (stop - t.start) % W64) % W64, loops := (t.loops + 1) % W64)
  }

  /** `rdtsc` puts the counter in two registers. */
  function Split(c: nat): Limbs
  {
    Limbs(c % W32, (c / W32) % W32)
  }

  function Value(l: Limbs): nat
  {
    l.hi * W32 + l.lo
  }

  /** `sub` and `sbb`: subtract limb by limb with borrow. */
  function SubBorrow(a: Limbs, b: Limbs): Limbs
  {
    var borrow := if a.lo < b.lo then 1 else 0;
    Limbs((a.lo - b.lo) % W32, (a.hi - b.hi - borrow) % W32)
  }

  /** `add` and `adc`: add limb by limb with carry. */
  function AddCarry(a: Limbs, b: Limbs): Limbs
  {
    var carry := if a.lo + b.lo >= W32 then 1 else 0;
    Limbs((a.lo + b.lo) % W32, (a.hi + b.hi + carry) % W32)
  }

  /** btimer_rdtsc32.h */
  function Next32(t: Timer32, op: Op): Timer32
  {
    match op
    case Clear => t.(total := Limbs(0, 0), loops := 0)
    case Start(c) => t.(start := Split(c))
    case Stop(c) =>
      var stop := Split(c);
      t.(stop := stop, total := AddCarry(t.total, SubBorrow(stop, t.start)), loops := (t.loops + 1) % W32)
  }

  predicate InRange(l: Limbs)
  {
    l.lo < W32 && l.hi < W32
  }

  lemma SplitValue(c: nat)
    ensures InRange(Split(c)) && Value(Split(c)) == c % W64
  {
    var q, r := c / W32, c % W32;
    assert c == W64 * (q / W32) + (W32 * (q % W32) + r);
  }

  lemma SubBorrowValue(a: Limbs, b: Limbs)
    requires InRange(a) && InRange(b)
    ensures InRange(SubBorrow(a, b)) && Value(SubBorrow(a, b)) == (Value(a) - Value(b)) % W64
  {
    var borrow := if a.lo < b.lo then 1 else 0;
    var hi := a.hi - b.hi - borrow;
    assert (a.lo - b.lo) % W32 == a.lo - b.lo + borrow * W32;
    assert hi % W32 == if hi < 0 then hi + W32 else hi;
    assert Value(SubBorrow(a, b)) == Value(a) - Value(b) + (if hi < 0 then W64 else 0);
  }

  lemma AddCarryValue(a: Limbs, b: Limbs)
    requires InRange(a) && InRange(b)
    ensures InRange(AddCarry(a, b)) && Value(AddCarry(a, b)) == (Value(a) + Value(b)) % W64
  {
    var carry := if a.lo + b.lo >= W32 then 1 else 0;
    var hi := a.hi + b.hi + carry;
    assert (a.lo + b.lo) % W32 == a.lo + b.lo - carry * W32;
    assert hi % W32 == if hi >= W32 then hi - W32 else hi;
    assert Value(AddCarry(a, b)) == Value(a) + Value(b) - (if hi >= W32 then W64 else 0);
  }

  lemma ValueInRange(l: Limbs)
    requires InRange(l)
    ensures Value(l) < W64 && Value(l) == Value(l) % W64
  {
    AsWord(Value(l));
  }

  lemma AsWord(x: int)
    ensures 0 <= x < W64 ==> x % W64 == x
  {
  }

  /** The two forms hold the same numbers; the loop counter of the 32-bit form is a 32-bit word. */
  predicate Agree(t: Timer32, u: Timer64)
  {
    && InRange(t.start) && InRange(t.total)
    && Value(t.start) == u.start && Value(t.total) == u.total && t.loops == u.loops % W32
  }

  lemma SameStop(t: Timer32, u: Timer64, c: nat)
    requires Agree(t, u)
    ensures Value(Next32(t, Stop(c)).total) == Next64(u, Stop(c)).total && InRange(Next32(t, Stop(c)).total)
  {
    SplitValue(c);
    SubBorrowValue(Split(c), t.start);
    AddCarryValue(t.total, SubBorrow(Split(c), t.start));
  }

  lemma SameLoops(n: nat, m: nat)
    requires n == m % W32
    ensures (n + 1) % W32 == ((m + 1) % W64) % W32
  {
  }

  lemma AgreeStep(t: Timer32, u: Timer64, op: Op)
    requires Agree(t, u)
    ensures Agree(Next32(t, op), Next64(u, op))
  {
    match op {
      case Clear =>
      case Start(c) =>
        SplitValue(c);
      case Stop(c) =>
        SameStop(t, u, c);
        SameLoops(t.loops, u.loops);
    }
  }

  /** What a timer is for: the sum of the stop-start intervals since the last clear, given the
      running start and sum, over the integers. */
  function Spent(ops: seq<Op>, start: int, sum: int): int
  {
    if ops == [] then sum else
    match ops[0]
    case Clear => Spent(ops[1..], start, 0)
    case Start(c) => Spent(ops[1..], c, sum)
    case Stop(c) => Spent(ops[1..], start, sum + c - start)
  }

  lemma SameRemainder(x: int, y: int, k: int)
    requires x == y + W64 * k
    ensures x % W64 == y % W64
  {
    DivModUnique(x, W64, y / W64 + k, y % W64);
  }

  lemma SpentStep(total: int, sum: int, start: int, from: int, c: int)
    requires total == sum % W64 && start == from % W64
    ensures (total + (c % W64 - start) % W64) % W64 == (sum + c - from) % W64
  {
    var x := c % W64 - start;
    SameRemainder(sum + c - from, total + x % W64, sum / W64 + c / W64 - from / W64 + x / W64);
  }

  lemma {:induction false} Total64IsSpent(u: Timer64, ops: seq<Op>, from: int, sum: int)
    requires u.total == sum % W64 && u.start == from % W64
    ensures Run(Next64, u, ops).total == Spent(ops, from, sum) % W64
    decreases |ops|
  {
    if ops != [] {
      match ops[0] {
        case Clear =>
          Total64IsSpent(Next64(u, ops[0]), ops[1..], from, 0);
        case Start(c) =>
          Total64IsSpent(Next64(u, ops[0]), ops[1..], c, sum);
        case Stop(c) =>
          SpentStep(u.total, sum, u.start, from, c);
          Total64IsSpent(Next64(u, ops[0]), ops[1..], from, sum + c - from);
      }
    }
  }

  /** The stops since the last clear. */
  function Stops(ops: seq<Op>): nat
  {
    if ops == [] then 0 else
    match ops[|ops| - 1]
    case Clear => 0
    case Start(c) => Stops(ops[..|ops| - 1])
    case Stop(c) => Stops(ops[..|ops| - 1]) + 1
  }

  /** What was counted before, if there has been no clear. */
  function CarriedOver(ops: seq<Op>, loops: nat): nat
  {
    if Clear in ops then 0 else loops
  }

  /** The counter read by the last start, and by the last stop, or else what was there before. */
  function LastStart(ops: seq<Op>, before: nat): nat
  {
    if ops == [] then before else
    match ops[|ops| - 1]
    case Start(c) => c
    case _ => LastStart(ops[..|ops| - 1], before)
  }

  function LastStop(ops: seq<Op>, before: nat): nat
  {
    if ops == [] then before else
    match ops[|ops| - 1]
    case Stop(c) => c
    case _ => LastStop(ops[..|ops| - 1], before)
  }

  lemma IncrementWraps(x: nat, m: nat)
    requires m == 0x1_0000_0000 || m == 0x1_0000_0000_0000_0000
    ensures (x % m + 1) % m == (x + 1) % m
  {
  }

  /** The loop count of the 64-bit timer is the number of stops since the last clear, modulo 2^64, and
      its readings are those of the last start and the last stop. */
  lemma {:induction false} LoopsCountStops(u: Timer64, ops: seq<Op>)
    requires u.loops < 0x1_0000_0000_0000_0000
    requires u.start < 0x1_0000_0000_0000_0000 && u.stop < 0x1_0000_0000_0000_0000
    ensures var v := Run(Next64, u, ops);
            && v.loops == (Stops(ops) + CarriedOver(ops, u.loops)) % 0x1_0000_0000_0000_0000
            && v.start == LastStart(ops, u.start) % 0x1_0000_0000_0000_0000
            && v.stop == LastStop(ops, u.stop) % 0x1_0000_0000_0000_0000
    decreases |ops|
  {
    if ops == [] {
      AsWord(u.loops);
      AsWord(u.start);
      AsWord(u.stop);
    } else {
      var before, op := ops[..|ops| - 1], ops[|ops| - 1];
      assert ops == before + [op];
      LoopsCountStops(u, before);
      RunSnoc(Next64, u, before, op);
      IncrementWraps(Stops(before) + CarriedOver(before, u.loops), 0x1_0000_0000_0000_0000);
    }
  }

  /** The limb timer holds these numbers, the loop count modulo 2^32 and the readings modulo 2^64. */
  predicate Holds(t: Timer32, loops: nat, start: nat, stop: nat)
  {
    && t.loops == loops % 0x1_0000_0000
    && Value(t.start) == start % 0x1_0000_0000_0000_0000
    && Value(t.stop) == stop % 0x1_0000_0000_0000_0000
  }

  lemma HoldsStep(t: Timer32, op: Op, loops: nat, start: nat, stop: nat)
    requires Holds(t, loops, start, stop)
    ensures op.Clear? ==> Holds(Next32(t, op), 0, start, stop)
    ensures op.Start? ==> Holds(Next32(t, op), loops, op.tsc, stop)
    ensures op.Stop? ==> Holds(Next32(t, op), loops + 1, start, op.tsc)
  {
    if !op.Clear? { SplitValue(op.tsc); }
    IncrementWraps(loops, 0x1_0000_0000);
  }

  /** The limb timer counts the same stops modulo 2^32, and has the same readings. */
  lemma {:induction false} LimbLoopsCountStops(t: Timer32, ops: seq<Op>)
    requires InRange(t.start) && InRange(t.stop) && t.loops < 0x1_0000_0000
    ensures Holds(Run(Next32, t, ops), Stops(ops) + CarriedOver(ops, t.loops),
                  LastStart(ops, Value(t.start)), LastStop(ops, Value(t.stop)))
    decreases |ops|
  {
    if ops == [] {
      ValueInRange(t.start);
      ValueInRange(t.stop);
    } else {
      var before, op := ops[..|ops| - 1], ops[|ops| - 1];
      assert ops == before + [op];
      LimbLoopsCountStops(t, before);
      RunSnoc(Next32, t, before, op);
      HoldsStep(Run(Next32, t, before), op, Stops(before) + CarriedOver(before, t.loops),
                LastStart(before, Value(t.start)), LastStop(before, Value(t.stop)));
    }
  }

  /** The limb timer refines the 64-bit timer, under every sequence of operations. */
  lemma {:induction false} LimbTimerRefines(t: Timer32, u: Timer64, ops: seq<Op>)
    requires Agree(t, u)
    ensures Agree(Run(Next32, t, ops), Run(Next64, u, ops))
    decreases |ops|
  {
    if ops != [] {
      AgreeStep(t, u, ops[0]);
      LimbTimerRefines(Next32(t, ops[0]), Next64(u, ops[0]), ops[1..]);
    }
  }

  /** Both timers hold the sum of the measured intervals modulo 2^64, and the sum itself whenever
      it is a 64-bit number. */
  lemma {:induction false} TimersMeasure(t: Timer32, u: Timer64, ops: seq<Op>)
    requires Agree(t, u)
    ensures var spent := Spent(ops, u.start, u.total);
            && Value(Run(Next32, t, ops).total) == Run(Next64, u, ops).total == spent % 0x1_0000_0000_0000_0000
            && (0 <= spent < 0x1_0000_0000_0000_0000 ==> Value(Run(Next32, t, ops).total) == spent)
  {
    ValueInRange(t.total);
    ValueInRange(t.start);
    LimbTimerRefines(t, u, ops);
    Total64IsSpent(u, ops, u.start, u.total);
    AsWord(Spent(ops, u.start, u.total));
  }

  /** What one measurement comes to, in both forms. */
  lemma OneInterval(t: Timer32, u: Timer64, from: nat, to: nat)
    ensures var v, w := Next64(Next64(Next64(u, Clear), Start(from)), Stop(to)),
                        Next32(Next32(Next32(t, Clear), Start(from)), Stop(to));
            && v.total == Value(w.total) == (to - from) % 0x1_0000_0000_0000_0000
            && v.loops == w.loops == 1
  {
    SplitValue(from);
    SplitValue(to);
    var d := SubBorrow(Split(to), Split(from));
    SubBorrowValue(Split(to), Split(from));
    AddCarryValue(Limbs(0, 0), d);
    SpentStep(0, 0, from % W64, from, to);
    assert Next32(Next32(t, Clear), Start(from)).total == Limbs(0, 0);
  }

  /** btimer_rdtsc64.h, in place. `tsc` is the counter the instruction reads. */
  class CycleTimer64 {
    var start: nat
    var stop: nat
    var total: nat
    var loops: nat

    ghost function Abs(): Timer64
      reads this
    {
      Timer64(start, stop, total, loops)
    }

    constructor ()
      ensures Abs() == Timer64(0, 0, 0, 0)
    {
      start, stop, total, loops := 0, 0, 0, 0;
    }

    method ClearTimer()
      modifies this
      ensures Abs() == Next64(old(Abs()), Clear)
    {
      loops := 0;
      total := 0;
    }

    method StartTimer(tsc: nat)
      modifies this
      ensures Abs() == Next64(old(Abs()), Start(tsc))
    {
      start := tsc % W64;
    }

    method StopTimer(tsc: nat)
      modifies this
      ensures Abs() == Next64(old(Abs()), Stop(tsc))
    {
      stop := tsc % W64;
      total := (total + (stop - start) % W64) % W64;
      loops := (loops + 1) % W64;
    }

    /** Any sequence of operations, in place: the total is the time spent. */
    method Execute(ops: seq<Op>)
      requires start < W64 && total < W64
      modifies this
      ensures Abs() == Run(Next64, old(Abs()), ops)
      ensures total == Spent(ops, old(start), old(total)) % W64
    {
      ghost var before := Abs();
      for k := 0 to |ops|
        invariant Abs() == Run(Next64, before, ops[..k])
      {
        RunSnoc(Next64, before, ops[..k], ops[k]);
        assert ops[..k] + [ops[k]] == ops[..k + 1];
        match ops[k] {
          case Clear => ClearTimer();
          case Start(c) => StartTimer(c);
          case Stop(c) => StopTimer(c);
        }
      }
      assert ops[..|ops|] == ops;
      AsWord(before.start);
      AsWord(before.total);
      Total64IsSpent(before, ops, before.start, before.total);
    }
  }

  /** btimer_rdtsc32.h, in place. */
  class CycleTimer32 {
    var start: Limbs
    var stop: Limbs
    var total: Limbs
    var loops: nat

    ghost function Abs(): Timer32
      reads this
    {
      Timer32(start, stop, total, loops)
    }

    constructor ()
      ensures Abs() == Timer32(Limbs(0, 0), Limbs(0, 0), Limbs(0, 0), 0)
    {
      start, stop, total, loops := Limbs(0, 0), Limbs(0, 0), Limbs(0, 0), 0;
    }

    method ClearTimer()
      modifies this
      ensures Abs() == Next32(old(Abs()), Clear)
    {
      loops := 0;
      total := Limbs(0, 0);
    }

    method StartTimer(tsc: nat)
      modifies this
      ensures Abs() == Next32(old(Abs()), Start(tsc))
    {
      start := Limbs(tsc % W32, (tsc / W32) % W32);
    }

    /** sub, sbb, add, adc. */
    method StopTimer(tsc: nat)
      modifies this
      ensures Abs() == Next32(old(Abs()), Stop(tsc))
    {
      stop := Limbs(tsc % W32, (tsc / W32) % W32);
      var borrow := if stop.lo < start.lo then 1 else 0;
      var lo := (stop.lo - start.lo) % W32;
      var hi := (stop.hi - start.hi - borrow) % W32;
      var carry := if total.lo + lo >= W32 then 1 else 0;
      total := Limbs((total.lo + lo) % W32, (total.hi + hi + carry) % W32);
      loops := (loops + 1) % W32;
    }

    /** Any sequence of operations, in place: the total is the time spent. */
    method Execute(ops: seq<Op>)
      requires InRange(start) && InRange(total) && loops < W32
      modifies this
      ensures Abs() == Run(Next32, old(Abs()), ops)
      ensures Value(total) == Spent(ops, Value(old(start)), Value(old(total))) % W64
    {
      ghost var before := Abs();
      for k := 0 to |ops|
        invariant Abs() == Run(Next32, before, ops[..k])
      {
        RunSnoc(Next32, before, ops[..k], ops[k]);
        assert ops[..k] + [ops[k]] == ops[..k + 1];
        match ops[k] {
          case Clear => ClearTimer();
          case Start(c) => StartTimer(c);
          case Stop(c) => StopTimer(c);
        }
      }
      assert ops[..|ops|] == ops;
      TimersMeasure(before, Timer64(Value(before.start), 0, Value(before.total), before.loops), ops);
    }
  }
}
