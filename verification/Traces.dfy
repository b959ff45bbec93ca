/** Runs of a state machine `next` under a schedule of events, and the two arguments every
    protocol below uses: an invariant holds along every run, and a measure that falls under
    "helpful" events brings every fair run to its goal. */
module Traces {
  import opened Counting

  /** The state reached from `s` by the events of `es`, in order. */
  function Run<S, E>(next: (S, E) -> S, s: S, es: seq<E>): S
  {
    if es == [] then s else Run(next, next(s, es[0]), es[1..])
  }

  /** The state after the first `m` events of an infinite schedule. */
  function After<S, E>(next: (S, E) -> S, s: S, schedule: nat -> E, m: nat): S
  {
    if m == 0 then s else next(After(next, s, schedule, m - 1), schedule(m - 1))
  }

  /** `m` times the same event. */
  function Repeat<S, E>(next: (S, E) -> S, s: S, e: E, m: nat): S
  {
    if m == 0 then s else next(Repeat(next, s, e, m - 1), e)
  }

  lemma {:induction false} RepeatIsRun<S, E>(next: (S, E) -> S, s: S, e: E, m: nat)
    ensures Repeat(next, s, e, m) == Run(next, s, seq(m, i => e))
  {
    if m > 0 {
      RepeatIsRun(next, s, e, m - 1);
      RunSnoc(next, s, seq(m - 1, i => e), e);
      assert seq(m, i => e) == seq(m - 1, i => e) + [e];
    }
  }

  lemma {:induction false} AfterIsRun<S, E>(next: (S, E) -> S, s: S, schedule: nat -> E, m: nat)
    ensures After(next, s, schedule, m) == Run(next, s, seq(m, i requires i >= 0 => schedule(i)))
  {
    if m > 0 {
      AfterIsRun(next, s, schedule, m - 1);
      var es := seq(m - 1, i requires i >= 0 => schedule(i));
      RunSnoc(next, s, es, schedule(m - 1));
      assert seq(m, i requires i >= 0 => schedule(i)) == es + [schedule(m - 1)];
    }
  }

  lemma {:induction false} RunConcat<S, E>(next: (S, E) -> S, s: S, xs: seq<E>, ys: seq<E>)
    ensures Run(next, s, xs + ys) == Run(next, Run(next, s, xs), ys)
  {
    if xs == [] {
      assert xs + ys == ys;
    } else {
      assert (xs + ys)[1..] == xs[1..] + ys;
      RunConcat(next, next(s, xs[0]), xs[1..], ys);
    }
  }

  /** A run of one event is one step. */
  lemma RunOne<S, E>(next: (S, E) -> S, s: S, e: E)
    ensures Run(next, s, [e]) == next(s, e)
  {
    assert [e][1..] == [];
    assert Run(next, next(s, e), [e][1..]) == next(s, e);
  }

  /** The last event of a run is a step from the state its predecessors reach. */
  lemma RunSnoc<S, E>(next: (S, E) -> S, s: S, es: seq<E>, e: E)
    ensures Run(next, s, es + [e]) == next(Run(next, s, es), e)
  {
    RunConcat(next, s, es, [e]);
    RunOne(next, Run(next, s, es), e);
  }

  lemma {:induction false} Invariance<S(!new), E(!new)>(next: (S, E) -> S, inv: S -> bool, s: S, es: seq<E>)
    requires inv(s)
    requires forall x, e :: inv(x) ==> inv(next(x, e))
    ensures inv(Run(next, s, es))
  {
    if es != [] {
      Invariance(next, inv, next(s, es[0]), es[1..]);
    }
  }

  lemma {:induction false} InvarianceAfter<S(!new), E(!new)>(
      next: (S, E) -> S, inv: S -> bool, s: S, schedule: nat -> E, m: nat)
    requires inv(s)
    requires forall x, e :: inv(x) ==> inv(next(x, e))
    ensures inv(After(next, s, schedule, m))
  {
    if m > 0 {
      InvarianceAfter(next, inv, s, schedule, m - 1);
    }
  }

  /** Some schedule leads from `s` to a state satisfying `goal`. */
  ghost predicate CanReach<S(!new), E(!new)>(next: (S, E) -> S, s: S, goal: S -> bool)
  {
    exists es: seq<E> :: goal(Run(next, s, es))
  }

  lemma CanReachVia<S(!new), E(!new)>(next: (S, E) -> S, s: S, goal: S -> bool, first: seq<E>)
    requires CanReach(next, Run(next, s, first), goal)
    ensures CanReach(next, s, goal)
  {
    var es: seq<E> :| goal(Run(next, Run(next, s, first), es));
    RunConcat(next, s, first, es);
  }

  lemma CanReachStep<S(!new), E(!new)>(next: (S, E) -> S, s: S, goal: S -> bool, e: E)
    requires CanReach(next, next(s, e), goal)
    ensures CanReach(next, s, goal)
  {
    RunOne(next, s, e);
    CanReachVia(next, s, goal, [e]);
  }

  lemma CanReachNow<S(!new), E(!new)>(next: (S, E) -> S, s: S, goal: S -> bool)
    requires goal(s)
    ensures CanReach(next, s, goal)
  {
    assert goal(Run(next, s, []));
  }

  /** Some schedule leads from `s` to `t`. */
  ghost predicate Leads<S, E(!new)>(next: (S, E) -> S, s: S, t: S)
  {
    exists es: seq<E> :: Run(next, s, es) == t
  }

  lemma LeadsNowhere<S, E(!new)>(next: (S, E) -> S, s: S)
    ensures Leads(next, s, s)
  {
    assert Run(next, s, []) == s;
  }

  lemma LeadsOn<S, E(!new)>(next: (S, E) -> S, s: S, t: S, e: E)
    requires Leads(next, s, t)
    ensures Leads(next, s, next(t, e))
  {
    var es: seq<E> :| Run(next, s, es) == t;
    RunSnoc(next, s, es, e);
  }

  /** If every unfinished state has a helpful event, and a helpful event keeps `inv` and lowers
      the measure, then the goal can be reached. */
  lemma {:induction false} HelpfulScheduleExists<S(!new), E(!new)>(
      next: (S, E) -> S, inv: S -> bool, goal: S -> bool, measure: S -> nat, helpful: (S, E) -> bool, s: S)
    requires inv(s)
    requires forall x :: inv(x) && !goal(x) ==> exists e :: helpful(x, e)
    requires forall x, e :: inv(x) && helpful(x, e) ==> inv(next(x, e)) && measure(next(x, e)) < measure(x)
    ensures CanReach(next, s, goal)
    decreases measure(s)
  {
    if goal(s) {
      CanReachNow(next, s, goal);
    } else {
      var e :| helpful(s, e);
      HelpfulScheduleExists(next, inv, goal, measure, helpful, next(s, e));
      CanReachStep(next, s, goal, e);
    }
  }

  /** Every helpful event recurs in the schedule. */
  ghost predicate Fair<S(!new), E(!new)>(schedule: nat -> E, inv: S -> bool, helpful: (S, E) -> bool)
  {
    forall m: nat, x, e :: inv(x) && helpful(x, e) ==> Recurs(schedule, e, m)
  }

  /** Each of `threads` threads has its turn again and again. */
  ghost predicate FairTo<E>(threads: nat, schedule: nat -> E, turn: nat -> E)
  {
    forall i: nat, m: nat :: i < threads ==> Recurs(schedule, turn(i), m)
  }

  /** Where the event is the number of the thread. */
  function Turn(i: nat): nat
  {
    i
  }

  ghost predicate Recurs<E>(schedule: nat -> E, e: E, m: nat)
  {
    exists k: nat :: k >= m && schedule(k) == e
  }

  lemma FairToHelpful<S(!new), E(!new)>(
      threads: nat, schedule: nat -> E, turn: nat -> E, inv: S -> bool, helpful: (S, E) -> bool)
    requires FairTo(threads, schedule, turn)
    requires forall x, e :: inv(x) && helpful(x, e) ==> exists i: nat :: i < threads && turn(i) == e
    ensures Fair(schedule, inv, helpful)
  {
    forall m: nat, x, e | inv(x) && helpful(x, e) ensures Recurs(schedule, e, m) {
      var i: nat :| i < threads && turn(i) == e;
    }
  }

  /** Short of the goal some event is helpful; no event raises the measure, a helpful event lowers
      it, and an event that leaves the measure alone leaves helpful events helpful. */
  ghost predicate Ranked<S(!new), E(!new)>(
      next: (S, E) -> S, inv: S -> bool, goal: S -> bool, measure: S -> nat, helpful: (S, E) -> bool)
  {
    && (forall x, e :: inv(x) ==> inv(next(x, e)))
    && (forall x :: inv(x) && !goal(x) ==> exists e :: helpful(x, e))
    && (forall x, e :: inv(x) && !goal(x) ==> measure(next(x, e)) <= measure(x))
    && (forall x, e :: inv(x) && !goal(x) && helpful(x, e) ==> measure(next(x, e)) < measure(x))
    && (forall x, e, f :: inv(x) && !goal(x) && helpful(x, e) && measure(next(x, f)) == measure(x) ==>
          helpful(next(x, f), e))
  }

  /** If only helpful events change anything, and each lowers the measure, the rest follows. */
  lemma ChangesAreRanked<S(!new), E(!new)>(
      next: (S, E) -> S, inv: S -> bool, goal: S -> bool, measure: S -> nat, helpful: (S, E) -> bool)
    requires forall x, e :: inv(x) ==> inv(next(x, e))
    requires forall x :: inv(x) && !goal(x) ==> exists e :: helpful(x, e)
    requires forall x, e :: inv(x) ==> if helpful(x, e) then measure(next(x, e)) < measure(x) else next(x, e) == x
    ensures Ranked(next, inv, goal, measure, helpful)
  {
  }

  /** Liveness under weak fairness. */
  lemma {:induction false} FairRunReaches<S(!new), E(!new)>(
      next: (S, E) -> S, inv: S -> bool, goal: S -> bool, measure: S -> nat, helpful: (S, E) -> bool,
      s: S, schedule: nat -> E, m: nat)
    returns (k: nat)
    requires inv(After(next, s, schedule, m))
    requires Ranked(next, inv, goal, measure, helpful)
    requires Fair(schedule, inv, helpful)
    ensures k >= m && goal(After(next, s, schedule, k))
    decreases measure(After(next, s, schedule, m))
  {
    var x := After(next, s, schedule, m);
    if goal(x) {
      return m;
    }
    var e :| helpful(x, e);
    assert Recurs(schedule, e, m);
    var last: nat :| last >= m && schedule(last) == e;
    var j := m;
    while j < last && measure(After(next, s, schedule, j + 1)) == measure(x)
      invariant m <= j <= last
      invariant inv(After(next, s, schedule, j)) && !goal(After(next, s, schedule, j))
      invariant helpful(After(next, s, schedule, j), e)
      invariant measure(After(next, s, schedule, j)) == measure(x)
    {
      j := j + 1;
      if goal(After(next, s, schedule, j)) {
        return j;
      }
    }
    k := FairRunReaches(next, inv, goal, measure, helpful, s, schedule, j + 1);
  }

  /** How many events of a run change the state, not counting the foreign ones. */
  function Changes<S(==), E>(next: (S, E) -> S, foreign: E -> bool, s: S, es: seq<E>): nat
    decreases |es|
  {
    if es == [] then 0
    else (if !foreign(es[0]) && next(s, es[0]) != s then 1 else 0) + Changes(next, foreign, next(s, es[0]), es[1..])
  }

  /** Each event adds to the count if it changes the state it finds. */
  lemma {:induction false} ChangesSnoc<S, E>(next: (S, E) -> S, foreign: E -> bool, s: S, es: seq<E>, e: E)
    ensures var u := Run(next, s, es);
            Changes(next, foreign, s, es + [e]) ==
            Changes(next, foreign, s, es) + (if !foreign(e) && next(u, e) != u then 1 else 0)
    decreases |es|
  {
    if es == [] {
      assert [e][1..] == [];
    } else {
      assert (es + [e])[1..] == es[1..] + [e];
      ChangesSnoc(next, foreign, next(s, es[0]), es[1..], e);
    }
  }

  /** If every change lowers a measure that a foreign event raises by at most `rise`, the measure at
      the start bounds the changes, fair schedule or not. */
  lemma {:induction false} ChangesAreBounded<S(!new), E(!new)>(
      next: (S, E) -> S, foreign: E -> bool, inv: S -> bool, measure: S -> nat, rise: nat, s: S, es: seq<E>)
    requires inv(s)
    requires forall x, e :: inv(x) ==> inv(next(x, e))
    requires forall x, e :: inv(x) && !foreign(e) ==> next(x, e) == x || measure(next(x, e)) < measure(x)
    requires forall x, e :: inv(x) && foreign(e) ==> measure(next(x, e)) <= measure(x) + rise
    ensures Changes(next, foreign, s, es) + measure(Run(next, s, es)) <= measure(s) + rise * Count(es, foreign)
    decreases |es|
  {
    if es != [] {
      ChangesAreBounded(next, foreign, inv, measure, rise, next(s, es[0]), es[1..]);
      assert rise * (1 + Count(es[1..], foreign)) == rise + rise * Count(es[1..], foreign);
    }
  }

  /** Where no event is foreign. */
  predicate Nothing(i: nat)
  {
    false
  }
}

/** Sums of per-thread quantities. */
module Sums {
  function Sum(ws: seq<nat>): nat
  {
    if ws == [] then 0 else ws[0] + Sum(ws[1..])
  }

  /** One term changes by itself; every other rises by at most `rise`. */
  lemma {:induction false} SumCompare(ws: seq<nat>, vs: seq<nat>, i: nat, rise: nat)
    requires |ws| == |vs| && i < |ws|
    requires forall j :: 0 <= j < |ws| && j != i ==> vs[j] <= ws[j] + rise
    ensures Sum(vs) + ws[i] <= Sum(ws) + vs[i] + rise * (|ws| - 1)
    decreases |ws|
  {
    if i == 0 {
      SumRise(ws[1..], vs[1..], rise);
    } else {
      SumCompare(ws[1..], vs[1..], i - 1, rise);
      assert rise * (|ws| - 1) == rise + rise * (|ws[1..]| - 1);
    }
  }

  lemma {:induction false} SumRise(ws: seq<nat>, vs: seq<nat>, rise: nat)
    requires |ws| == |vs|
    requires forall j :: 0 <= j < |ws| ==> vs[j] <= ws[j] + rise
    ensures Sum(vs) <= Sum(ws) + rise * |ws|
    decreases |ws|
  {
    if ws != [] {
      SumRise(ws[1..], vs[1..], rise);
      assert rise * |ws| == rise + rise * |ws[1..]|;
    }
  }

  lemma {:induction false} SumBound(ws: seq<nat>, w: nat)
    requires forall i :: 0 <= i < |ws| ==> ws[i] <= w
    ensures Sum(ws) <= |ws| * w
    decreases |ws|
  {
    if ws != [] {
      SumBound(ws[1..], w);
      assert |ws| * w == w + |ws[1..]| * w;
    }
  }

  /** What `left` calls are worth at `each` a call. */
  function Cost(each: nat, left: nat): nat
  {
    if left == 0 then 0 else each + Cost(each, left - 1)
  }

  lemma {:induction false} CostIs(each: nat, left: nat)
    ensures Cost(each, left) == left * each
  {
    if left > 0 {
      CostIs(each, left - 1);
      assert left * each == (left - 1) * each + each;
    }
  }
}

/** How many elements of a sequence satisfy a predicate. */
module Counting {
  function Count<T>(xs: seq<T>, p: T -> bool): nat
  {
    if xs == [] then 0 else (if p(xs[0]) then 1 else 0) + Count(xs[1..], p)
  }

  lemma {:induction false} CountUpdate<T>(xs: seq<T>, i: nat, x: T, p: T -> bool)
    requires i < |xs|
    ensures Count(xs[i := x], p) == Count(xs, p) - (if p(xs[i]) then 1 else 0) + (if p(x) then 1 else 0)
  {
    if i == 0 {
      assert xs[i := x][1..] == xs[1..];
    } else {
      assert xs[i := x][1..] == xs[1..][i - 1 := x];
      CountUpdate(xs[1..], i - 1, x, p);
    }
  }

  /** The count is full exactly when every element is counted, and zero when none is. */
  lemma {:induction false} CountBounds<T>(xs: seq<T>, p: T -> bool)
    ensures Count(xs, p) <= |xs|
    ensures Count(xs, p) == |xs| <==> forall i :: 0 <= i < |xs| ==> p(xs[i])
    ensures Count(xs, p) == 0 <==> forall i :: 0 <= i < |xs| ==> !p(xs[i])
  {
    if xs != [] {
      CountBounds(xs[1..], p);
      assert forall i :: 0 <= i < |xs[1..]| ==> xs[1..][i] == xs[i + 1];
      assert forall i :: 1 <= i < |xs| ==> xs[i] == xs[1..][i - 1];
    }
  }

  lemma {:induction false} CountSame<T>(xs: seq<T>, ys: seq<T>, p: T -> bool)
    requires |xs| == |ys|
    requires forall i :: 0 <= i < |xs| ==> p(xs[i]) == p(ys[i])
    ensures Count(xs, p) == Count(ys, p)
  {
    if xs != [] {
      CountSame(xs[1..], ys[1..], p);
    }
  }

  /** The count without element `i`: full when every other element is counted, zero when none is. */
  lemma {:induction false} CountApart<T>(xs: seq<T>, i: nat, p: T -> bool)
    requires i < |xs|
    ensures var rest := Count(xs, p) - (if p(xs[i]) then 1 else 0);
            && 0 <= rest < |xs|
            && (rest == |xs| - 1 <==> forall j :: 0 <= j < |xs| && j != i ==> p(xs[j]))
            && (rest == 0 <==> forall j :: 0 <= j < |xs| && j != i ==> !p(xs[j]))
  {
    var tail := xs[1..];
    assert forall j :: 0 <= j < |tail| ==> tail[j] == xs[j + 1];
    assert forall j :: 1 <= j < |xs| ==> xs[j] == tail[j - 1];
    if i == 0 {
      CountBounds(tail, p);
    } else {
      CountApart(tail, i - 1, p);
    }
  }
}
