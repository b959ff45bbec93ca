/** What a barrier is, apart from how it is built: a thread may arrive when its last call is
    complete, and may pass once every thread has made the arrival of its call. */
module BarrierSpec {
  import opened Traces
  import opened Counting

  /** Arrivals made and calls completed. */
  datatype Call = Call(arrived: nat, passed: nat)

  function Calls<T>(th: seq<T>, call: T -> Call): (cs: seq<Call>)
    ensures |cs| == |th|
    ensures forall i :: 0 <= i < |th| ==> cs[i] == call(th[i])
  {
    seq(|th|, i requires 0 <= i < |th| => call(th[i]))
  }

  function HasArrived(k: nat): Call -> bool
  {
    (c: Call) => c.arrived == k
  }

  /** How many threads have made arrival number `k` and no later one. */
  function Arrivals(cs: seq<Call>, k: nat): nat
  {
    Count(cs, HasArrived(k))
  }

  lemma {:induction false} ArrivalsUpdate(cs: seq<Call>, i: nat, c: Call, k: nat)
    requires i < |cs|
    ensures Arrivals(cs[i := c], k) ==
            Arrivals(cs, k) - (if cs[i].arrived == k then 1 else 0) + (if c.arrived == k then 1 else 0)
  {
    CountUpdate(cs, i, c, HasArrived(k));
  }

  lemma {:induction false} ArrivalsFull(cs: seq<Call>, k: nat)
    ensures Arrivals(cs, k) <= |cs|
    ensures Arrivals(cs, k) == |cs| <==> forall i :: 0 <= i < |cs| ==> cs[i].arrived == k
    ensures Arrivals(cs, k) == 0 <==> forall i :: 0 <= i < |cs| ==> cs[i].arrived != k
  {
    CountBounds(cs, HasArrived(k));
  }

  // ---------- the specification ----------

  predicate Arrives(a: seq<Call>, b: seq<Call>, i: nat)
  {
    i < |a| && a[i].arrived == a[i].passed && b == a[i := a[i].(arrived := a[i].arrived + 1)]
  }

  ghost predicate Passes(a: seq<Call>, b: seq<Call>, i: nat)
  {
    && i < |a| && a[i].arrived == a[i].passed + 1 && b == a[i := a[i].(passed := a[i].passed + 1)]
    && forall j :: 0 <= j < |a| ==> a[j].arrived >= a[i].passed + 1
  }

  /** A step that the barrier allows thread `i`. */
  ghost predicate Allowed(a: seq<Call>, b: seq<Call>, i: nat)
  {
    b == a || Arrives(a, b, i) || Passes(a, b, i)
  }

  /** Nobody has completed a call that somebody has not begun. */
  ghost predicate InStep(a: seq<Call>)
  {
    && (forall i :: 0 <= i < |a| ==> a[i].passed <= a[i].arrived <= a[i].passed + 1)
    && (forall i, j :: 0 <= i < |a| && 0 <= j < |a| ==> a[i].passed <= a[j].arrived)
  }

  lemma AllowedKeepsInStep(a: seq<Call>, b: seq<Call>, i: nat)
    requires InStep(a) && Allowed(a, b, i)
    ensures InStep(b)
  {
  }

  ghost predicate SomeAllowed(a: seq<Call>, b: seq<Call>)
  {
    exists i: nat :: Allowed(a, b, i)
  }

  ghost predicate IsRun(run: seq<seq<Call>>)
  {
    && |run| > 0
    && (forall i :: 0 <= i < |run[0]| ==> run[0][i] == Call(0, 0))
    && forall k {:trigger run[k]} :: 0 < k < |run| ==> SomeAllowed(run[k - 1], run[k])
  }

  /** Along every run the barrier allows, completed calls differ by at most one. */
  lemma {:induction false} RunsStayInStep(run: seq<seq<Call>>, k: nat)
    requires IsRun(run) && k < |run|
    ensures InStep(run[k])
    ensures forall i, j :: 0 <= i < |run[k]| && 0 <= j < |run[k]| ==> run[k][i].passed <= run[k][j].passed + 1
  {
    if k > 0 {
      RunsStayInStep(run, k - 1);
      var i: nat :| Allowed(run[k - 1], run[k], i);
      AllowedKeepsInStep(run[k - 1], run[k], i);
    }
  }

  /** What a run of a protocol shows of its calls, from the start to the end. */
  function Trace<S, E>(next: (S, E) -> S, calls: S -> seq<Call>, s: S, es: seq<E>): (run: seq<seq<Call>>)
    ensures |run| == |es| + 1
  {
    seq(|es| + 1, k requires 0 <= k <= |es| => calls(Run(next, s, es[..k])))
  }

  /** A protocol refines the specification if each of its steps does. */
  lemma {:induction false} TraceIsRun<S(!new), E(!new)>(
      next: (S, E) -> S, inv: S -> bool, calls: S -> seq<Call>, s: S, es: seq<E>)
    requires inv(s)
    requires forall x, e :: inv(x) ==> inv(next(x, e)) && SomeAllowed(calls(x), calls(next(x, e)))
    requires forall i :: 0 <= i < |calls(s)| ==> calls(s)[i] == Call(0, 0)
    ensures IsRun(Trace(next, calls, s, es))
  {
    var run := Trace(next, calls, s, es);
    assert run[0] == calls(Run(next, s, es[..0])) == calls(s);
    forall k {:trigger run[k]} | 0 < k < |run| ensures SomeAllowed(run[k - 1], run[k]) {
      var x := Run(next, s, es[..k - 1]);
      Invariance(next, inv, s, es[..k - 1]);
      RunSnoc(next, s, es[..k - 1], es[k - 1]);
      assert es[..k] == es[..k - 1] + [es[k - 1]];
      assert run[k - 1] == calls(x) && run[k] == calls(next(x, es[k - 1]));
    }
  }

  /** And then its threads stay in step. */
  lemma {:induction false} RefinementStaysInStep<S, E>(
      next: (S, E) -> S, calls: S -> seq<Call>, s: S, es: seq<E>, i: nat, j: nat)
    requires IsRun(Trace(next, calls, s, es))
    requires i < |calls(Run(next, s, es))| && j < |calls(Run(next, s, es))|
    ensures var cs := calls(Run(next, s, es)); cs[i].passed <= cs[j].arrived && cs[i].passed <= cs[j].passed + 1
  {
    var run := Trace(next, calls, s, es);
    assert es[..|es|] == es;
    assert run[|es|] == calls(Run(next, s, es));
    RunsStayInStep(run, |es|);
  }
}
