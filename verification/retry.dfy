/** `Analysis.delay` and `Analysis.__compute_timeout` (ecowcdb/analysis.py):
    the solve/retry state machine around the LP solver.

    The solver is an oracle: given the global call number and the query (the
    forest, the flow of interest or all flows, the scale factor and the
    timeout) it returns either an answer or the `LPErrorType` that `FifoLP`
    raised.  The answer is a single delay, or one delay per flow in all-delays
    mode.  The timeout factor is state of the `Analysis` instance: it is read
    and returned, never reset. */
module AnalysisDelay {
  import opened Wrappers
  import opened Sorting
  import opened Descriptors
  import opened LPErrors

  /** `__SCALE_FACTORS`: the scale tried first, second and last. */
  const ScaleFactors: seq<real> := [1.0, 0.1, 10.0]

  /** The initial `__timeout_factor`. */
  const InitialTimeoutFactor: nat := 2

  /** What `PLP.delay(foi)` or `PLP.all_delays` returns. */
  datatype Answer = Scalar(delay: ExtReal) | Vector(delays: seq<ExtReal>)

  /** One solver call: the forest, the flow of interest (`None` for all
      flows), the scale factor of the network and the timeout in seconds. */
  datatype Query = Query(forest: Forest, foi: Option<nat>, scale: real, timeout: int)

  type Oracle = (nat, Query) -> Result<Answer, LPErrorType>

  /** The running totals behind the average runtime. */
  datatype RuntimeStats = RuntimeStats(totalRuntime: real, numIters: nat)

  /** Runtimes are sums of non-negative elapsed times, and are positive once
      a forest has been analysed. */
  predicate StatsOk(st: RuntimeStats) {
    st.totalRuntime >= 0.0 && (st.numIters == 0 || st.totalRuntime > 0.0)
  }

  /** Python's `math.ceil`. */
  function Ceil(x: real): (c: int)
    ensures x <= c as real < x + 1.0
  {
    -((-x).Floor)
  }

  function Average(st: RuntimeStats): real
    requires st.numIters > 0
  {
    st.totalRuntime / st.numIters as real
  }

  /** `__compute_timeout(all_delays)`.  `hard` is the user's timeout.  In
      all-delays mode the soft timeout is multiplied by the number of flows
      after it was compared with `hard`, so it may exceed `hard`. */
  function ComputeTimeout(hard: int, st: RuntimeStats, factor: nat, allDelays: bool, numFlows: nat): (t: int)
    ensures st.numIters == 0 ==> t == hard
    ensures !allDelays ==> t <= hard
  {
    if st.numIters == 0 then hard
    else
      var upperBound := Ceil(Average(st) * factor as real);
      if hard < upperBound then hard
      else if allDelays then upperBound * numFlows
      else upperBound
  }

  lemma MulMono(a: real, x: real, y: real)
    requires a >= 0.0 && x <= y
    ensures a * x <= a * y
  {
  }

  /** In single-flow mode a larger factor never gives a shorter timeout,
      and the hard timeout is reached once `average * factor` exceeds it. */
  lemma TimeoutMonotone(hard: int, st: RuntimeStats, f: nat, g: nat, numFlows: nat)
    requires StatsOk(st) && f <= g
    ensures ComputeTimeout(hard, st, f, false, numFlows) <= ComputeTimeout(hard, st, g, false, numFlows)
    ensures st.numIters > 0 && Average(st) * f as real > hard as real ==> ComputeTimeout(hard, st, f, false, numFlows) == hard
  {
    if st.numIters > 0 {
      assert Average(st) >= 0.0;
      MulMono(Average(st), f as real, g as real);
    }
  }

  /** The all-delays timeout is not re-capped: with a hard timeout of 10 s,
      an average of 3 s and two flows, the timeout used is 12 s. */
  lemma AllDelaysExceedsHard()
    ensures ComputeTimeout(10, RuntimeStats(6.0, 2), 2, true, 2) == 12
  {
    assert Average(RuntimeStats(6.0, 2)) == 3.0;
    assert Ceil(6.0) == 6;
  }

  /** With a zero average runtime the single-flow timeout is `0` for every
      factor: it never equals a positive hard timeout, so a solver that keeps
      answering `SuboptimalSolutionWarning` keeps `delay` looping. */
  lemma ZeroAverageStalls(hard: int, numIters: nat, factor: nat)
    requires hard > 0 && numIters > 0
    ensures ComputeTimeout(hard, RuntimeStats(0.0, numIters), factor, false, 0) == 0
    ensures Decide(Err(SuboptimalSolutionWarning), 0, 0, hard) == DoubleTimeout
  {
    assert Average(RuntimeStats(0.0, numIters)) == 0.0;
    assert Ceil(0.0) == 0;
  }

  // ---------------------------------------------------------------------------
  // One attempt

  /** What the `except LPError` block decides. */
  datatype Decision = Return(answer: Answer) | GiveUp | Rescale | DoubleTimeout

  /** The errors that move to the next scale factor. */
  predicate ScaleError(e: LPErrorType) {
    e == AccuracyError || e == TimeoutError || e == LPSolveFailure
  }

  /** The errors that end the attempt at once. */
  predicate FatalError(e: LPErrorType) {
    e == InfeasibleProblemError || e == UnboundedProblemError || e == UnhandledLPError
  }

  /** The decision on the outcome of an attempt at scale index `index` with
      timeout `timeout`.  The three error branches cover the seven error
      kinds, so the match is exhaustive and the source's `ValueError` arm has
      no counterpart. */
  function Decide(outcome: Result<Answer, LPErrorType>, index: nat, timeout: int, hard: int): (d: Decision)
    requires index < |ScaleFactors|
    ensures d.Return? <==> outcome.Ok?
    ensures d.Return? ==> d.answer == outcome.value
    ensures d.Rescale? ==> index < |ScaleFactors| - 1
    ensures d.DoubleTimeout? ==> timeout != hard
    ensures d.GiveUp? <==> outcome.Err? && (FatalError(outcome.error)
                                            || (ScaleError(outcome.error) && index == |ScaleFactors| - 1)
                                            || (outcome.error == SuboptimalSolutionWarning && timeout == hard))
  {
    match outcome
    case Ok(a) => Return(a)
    case Err(e) =>
      match e
      case AccuracyError | TimeoutError | LPSolveFailure =>
        if index == |ScaleFactors| - 1 then GiveUp else Rescale
      case SuboptimalSolutionWarning =>
        if timeout == hard then GiveUp else DoubleTimeout
      case InfeasibleProblemError | UnboundedProblemError | UnhandledLPError =>
        GiveUp
  }

  // ---------------------------------------------------------------------------
  // The loop

  /** One solver call of the loop, with the state it was made in. */
  datatype Attempt = Attempt(index: nat, factor: nat, timeout: int, outcome: Result<Answer, LPErrorType>)

  /** The answer of `delay`, the instance's new timeout factor and the calls
      made, in order. */
  datatype DelayRun = DelayRun(answer: Answer, factor: nat, attempts: seq<Attempt>)

  /** The fixed parameters of one `delay` call. */
  datatype Setup = Setup(hard: int, st: RuntimeStats, numFlows: nat, forest: Forest, foi: Option<nat>)

  predicate SetupOk(s: Setup) {
    s.hard > 0 && StatsOk(s.st)
  }

  function AllDelays(s: Setup): bool {
    s.foi.None?
  }

  function TimeoutOf(s: Setup, factor: nat): int {
    ComputeTimeout(s.hard, s.st, factor, AllDelays(s), s.numFlows)
  }

  function QueryOf(s: Setup, index: nat, factor: nat): Query
    requires index < |ScaleFactors|
  {
    Query(s.forest, s.foi, ScaleFactors[index], TimeoutOf(s, factor))
  }

  /** How many more times the factor can double before the timeout is capped
      at `hard`: the factor stays below `hard / average + 1` while it is not. */
  function Room(s: Setup, factor: nat): nat {
    if s.st.numIters == 0 || s.st.totalRuntime <= 0.0 then 0
    else
      var b := (s.hard as real / Average(s.st)).Floor + 1;
      if factor < b then b - factor else 0
  }

  lemma DivBound(h: real, a: real, f: real)
    requires a > 0.0 && a * f <= h
    ensures f <= h / a
  {
  }

  /** Doubling happens only below the cap, and it uses up room. */
  lemma DoublingShrinksRoom(s: Setup, factor: nat)
    requires SetupOk(s) && factor >= 1
    requires TimeoutOf(s, factor) != s.hard
    ensures Room(s, factor * 2) < Room(s, factor)
  {
    var st := s.st;
    assert st.numIters > 0 && st.totalRuntime > 0.0;
    var avg := Average(st);
    assert avg > 0.0;
    var ub := Ceil(avg * factor as real);
    assert ub <= s.hard;
    DivBound(s.hard as real, avg, factor as real);
    assert factor < (s.hard as real / avg).Floor + 1;
  }

  /** The `while not could_not_solve` loop, from scale index `index` and
      timeout factor `factor`, the next solver call being number `call`. */
  function Loop(s: Setup, oracle: Oracle, call: nat, index: nat, factor: nat): (r: DelayRun)
    requires SetupOk(s) && index < |ScaleFactors| && factor >= 1
    decreases Room(s, factor), |ScaleFactors| - index
  {
    var q := QueryOf(s, index, factor);
    var outcome := oracle(call, q);
    var attempt := Attempt(index, factor, q.timeout, outcome);
    match Decide(outcome, index, q.timeout, s.hard)
    case Return(a) => DelayRun(a, factor, [attempt])
    case GiveUp => DelayRun(Scalar(Inf), factor, [attempt])
    case Rescale =>
      var rest := Loop(s, oracle, call + 1, index + 1, factor);
      DelayRun(rest.answer, rest.factor, [attempt] + rest.attempts)
    case DoubleTimeout =>
      DoublingShrinksRoom(s, factor);
      var rest := Loop(s, oracle, call + 1, index, factor * 2);
      DelayRun(rest.answer, rest.factor, [attempt] + rest.attempts)
  }

  /** Attempt `k` was made in the state it records, as call `call + k`. */
  predicate Consistent(s: Setup, oracle: Oracle, call: nat, t: seq<Attempt>) {
    forall k :: 0 <= k < |t| ==> Made(s, oracle, call + k, t[k])
  }

  /** Between two attempts exactly one thing changed: a scale error advanced
      the index by one, or a suboptimal solution doubled the factor. */
  predicate Chained(s: Setup, t: seq<Attempt>) {
    forall k :: 0 <= k < |t| - 1 ==> Step(s, t[k], t[k + 1])
  }

  predicate Step(s: Setup, a: Attempt, b: Attempt) {
    && a.index < |ScaleFactors|
    && var d := Decide(a.outcome, a.index, a.timeout, s.hard);
       || (d.Rescale? && b.index == a.index + 1 && b.factor == a.factor)
       || (d.DoubleTimeout? && b.index == a.index && b.factor == 2 * a.factor)
  }

  /** Attempt `a` was made in the state it records, as call `call`. */
  predicate Made(s: Setup, oracle: Oracle, call: nat, a: Attempt) {
    && a.index < |ScaleFactors| && a.factor >= 1
    && a.timeout == TimeoutOf(s, a.factor)
    && a.outcome == oracle(call, QueryOf(s, a.index, a.factor))
  }

  lemma ConsistentCons(s: Setup, oracle: Oracle, call: nat, a: Attempt, rest: seq<Attempt>)
    requires Made(s, oracle, call, a) && Consistent(s, oracle, call + 1, rest)
    ensures Consistent(s, oracle, call, [a] + rest)
  {
    var t := [a] + rest;
    forall k | 0 <= k < |t|
      ensures Made(s, oracle, call + k, t[k])
    {
      if k > 0 {
        assert t[k] == rest[k - 1];
        assert Made(s, oracle, (call + 1) + (k - 1), rest[k - 1]);
      }
    }
  }

  lemma ChainedCons(s: Setup, a: Attempt, rest: seq<Attempt>)
    requires |rest| >= 1 && Step(s, a, rest[0]) && Chained(s, rest)
    ensures Chained(s, [a] + rest)
  {
    var t := [a] + rest;
    forall k | 0 <= k < |t| - 1
      ensures Step(s, t[k], t[k + 1])
    {
      if k > 0 {
        assert t[k] == rest[k - 1] && t[k + 1] == rest[k];
      }
    }
  }

  lemma ChainedTail(s: Setup, t: seq<Attempt>)
    requires |t| >= 1 && Chained(s, t)
    ensures Chained(s, t[1..])
  {
    var u := t[1..];
    forall k | 0 <= k < |u| - 1
      ensures Step(s, u[k], u[k + 1])
    {
      assert u[k] == t[k + 1] && u[k + 1] == t[k + 2];
    }
  }

  /** The last attempt decides the answer: the oracle's answer unchanged on
      success, a scalar `inf` when the attempt gives up. */
  predicate Finished(s: Setup, last: Attempt, answer: Answer) {
    last.index < |ScaleFactors| &&
    var d := Decide(last.outcome, last.index, last.timeout, s.hard);
    (d.Return? && answer == d.answer) || (d.GiveUp? && answer == Scalar(Inf))
  }

  /** The first call the loop makes. */
  function FirstAttempt(s: Setup, oracle: Oracle, call: nat, index: nat, factor: nat): Attempt
    requires index < |ScaleFactors|
  {
    var q := QueryOf(s, index, factor);
    Attempt(index, factor, q.timeout, oracle(call, q))
  }

  function Extend(a: Attempt, rest: DelayRun): DelayRun {
    DelayRun(rest.answer, rest.factor, [a] + rest.attempts)
  }

  /** One turn of the loop. */
  lemma LoopUnfold(s: Setup, oracle: Oracle, call: nat, index: nat, factor: nat)
    requires SetupOk(s) && index < |ScaleFactors| && factor >= 1
    ensures var r := Loop(s, oracle, call, index, factor);
      var a := FirstAttempt(s, oracle, call, index, factor);
      var d := Decide(a.outcome, index, a.timeout, s.hard);
      && Made(s, oracle, call, a)
      && ((d.Return? || d.GiveUp?) ==> r.attempts == [a] && Finished(s, a, r.answer) && r.factor == factor)
      && (d.Rescale? ==> index + 1 < |ScaleFactors| && r == Extend(a, Loop(s, oracle, call + 1, index + 1, factor)))
      && (d.DoubleTimeout? ==> Room(s, factor * 2) < Room(s, factor) && r == Extend(a, Loop(s, oracle, call + 1, index, factor * 2)))
  {
    var a := FirstAttempt(s, oracle, call, index, factor);
    if Decide(a.outcome, index, a.timeout, s.hard).DoubleTimeout? {
      DoublingShrinksRoom(s, factor);
    }
  }

  /** The loop makes at most `|ScaleFactors| - index + Room` calls, and hands
      back the factor of its last call. */
  lemma {:induction false} LoopCount(s: Setup, oracle: Oracle, call: nat, index: nat, factor: nat)
    requires SetupOk(s) && index < |ScaleFactors| && factor >= 1
    ensures var r := Loop(s, oracle, call, index, factor);
      && 1 <= |r.attempts| <= |ScaleFactors| - index + Room(s, factor)
      && r.attempts[0] == FirstAttempt(s, oracle, call, index, factor)
      && Finished(s, r.attempts[|r.attempts| - 1], r.answer)
      && r.factor == r.attempts[|r.attempts| - 1].factor
    decreases Room(s, factor), |ScaleFactors| - index
  {
    LoopUnfold(s, oracle, call, index, factor);
    var a := FirstAttempt(s, oracle, call, index, factor);
    var d := Decide(a.outcome, index, a.timeout, s.hard);
    if d.Rescale? {
      LoopCount(s, oracle, call + 1, index + 1, factor);
    } else if d.DoubleTimeout? {
      LoopCount(s, oracle, call + 1, index, factor * 2);
    }
  }

  /** Every call of the loop was made in the state it records, and
      consecutive calls differ by one rescale or one doubling. */
  lemma {:induction false} LoopTrace(s: Setup, oracle: Oracle, call: nat, index: nat, factor: nat)
    requires SetupOk(s) && index < |ScaleFactors| && factor >= 1
    ensures var t := Loop(s, oracle, call, index, factor).attempts;
      Consistent(s, oracle, call, t) && Chained(s, t)
    decreases Room(s, factor), |ScaleFactors| - index
  {
    LoopUnfold(s, oracle, call, index, factor);
    var a := FirstAttempt(s, oracle, call, index, factor);
    var d := Decide(a.outcome, index, a.timeout, s.hard);
    if d.Rescale? || d.DoubleTimeout? {
      var index' := if d.Rescale? then index + 1 else index;
      var factor' := if d.Rescale? then factor else factor * 2;
      var rest := Loop(s, oracle, call + 1, index', factor');
      LoopTrace(s, oracle, call + 1, index', factor');
      LoopCount(s, oracle, call + 1, index', factor');
      ConsistentCons(s, oracle, call, a, rest.attempts);
      ChainedCons(s, a, rest.attempts);
    } else {
      assert Chained(s, [a]);
    }
  }

  /** The loop is the chain of attempts it is meant to be: it starts in the
      given state, each step is a rescale or a doubling, it stops exactly at
      the first success or give-up, the factor handed back is the last one
      used, and it makes at most `|ScaleFactors| - index + Room` calls. */
  lemma LoopFacts(s: Setup, oracle: Oracle, call: nat, index: nat, factor: nat)
    requires SetupOk(s) && index < |ScaleFactors| && factor >= 1
    ensures var r := Loop(s, oracle, call, index, factor);
      && 1 <= |r.attempts| <= |ScaleFactors| - index + Room(s, factor)
      && r.attempts[0].index == index && r.attempts[0].factor == factor
      && Consistent(s, oracle, call, r.attempts)
      && Chained(s, r.attempts)
      && Finished(s, r.attempts[|r.attempts| - 1], r.answer)
      && r.factor == r.attempts[|r.attempts| - 1].factor
  {
    LoopCount(s, oracle, call, index, factor);
    LoopTrace(s, oracle, call, index, factor);
  }

  /** Every attempt but the last failed with an error that allows a retry. */
  lemma LoopRetriesOnlyOnErrors(s: Setup, oracle: Oracle, call: nat, index: nat, factor: nat)
    requires SetupOk(s) && index < |ScaleFactors| && factor >= 1
    ensures var t := Loop(s, oracle, call, index, factor).attempts;
      forall k :: 0 <= k < |t| - 1 ==>
        t[k].outcome.Err? && (ScaleError(t[k].outcome.error) || t[k].outcome.error == SuboptimalSolutionWarning)
  {
    var t := Loop(s, oracle, call, index, factor).attempts;
    LoopTrace(s, oracle, call, index, factor);
    forall k | 0 <= k < |t| - 1
      ensures t[k].outcome.Err? && (ScaleError(t[k].outcome.error) || t[k].outcome.error == SuboptimalSolutionWarning)
    {
      assert Step(s, t[k], t[k + 1]);
    }
  }

  /** The timeout factor only grows. */
  lemma {:induction false} FactorGrows(s: Setup, t: seq<Attempt>)
    requires Chained(s, t) && |t| >= 1
    ensures forall k :: 0 <= k < |t| ==> t[k].factor >= t[0].factor
    ensures forall k :: 0 <= k < |t| ==> t[k].index >= t[0].index
  {
    if |t| > 1 {
      var u := t[1..];
      ChainedTail(s, t);
      FactorGrows(s, u);
      assert Step(s, t[0], t[1]);
      forall k | 1 <= k < |t|
        ensures t[k].factor >= t[0].factor && t[k].index >= t[0].index
      {
        assert t[k] == u[k - 1];
      }
    }
  }

  /** `delay(foi, forest, _internal_call=True, _all_delays=...)`: the loop
      restarts at scale index 0 and returns the new instance factor. */
  function Delay(s: Setup, oracle: Oracle, call: nat, factor: nat): (r: DelayRun)
    requires SetupOk(s) && factor >= 1
    ensures 1 <= |r.attempts| <= |ScaleFactors| + Room(s, factor)
    ensures r.attempts[0].index == 0 && r.attempts[0].factor == factor
    ensures r.factor >= factor
    ensures Finished(s, r.attempts[|r.attempts| - 1], r.answer)
  {
    var r := Loop(s, oracle, call, 0, factor);
    LoopFacts(s, oracle, call, 0, factor);
    FactorGrows(s, r.attempts);
    r
  }

  /** A successful first call returns the oracle's answer unchanged: there
      is no inverse scaling. */
  lemma DelayFirstSuccess(s: Setup, oracle: Oracle, call: nat, factor: nat)
    requires SetupOk(s) && factor >= 1
    requires oracle(call, QueryOf(s, 0, factor)).Ok?
    ensures Delay(s, oracle, call, factor) == DelayRun(oracle(call, QueryOf(s, 0, factor)).value, factor, [Attempt(0, factor, TimeoutOf(s, factor), oracle(call, QueryOf(s, 0, factor)))])
  {
  }

  /** Scale errors on every call give up after exactly the three scale
      factors, in order. */
  lemma ScaleErrorsGiveUp(s: Setup, oracle: Oracle, call: nat, factor: nat)
    requires SetupOk(s) && factor >= 1
    requires forall k: nat, q: Query :: oracle(k, q) == Err(AccuracyError)
    ensures var r := Delay(s, oracle, call, factor);
      && r.answer == Scalar(Inf) && r.factor == factor && |r.attempts| == |ScaleFactors|
      && forall k :: 0 <= k < |r.attempts| ==> r.attempts[k].index == k
  {
    var r := Delay(s, oracle, call, factor);
    var r2 := Loop(s, oracle, call + 2, 2, factor);
    assert |r2.attempts| == 1;
    var r1 := Loop(s, oracle, call + 1, 1, factor);
    assert r1.attempts == [Attempt(1, factor, TimeoutOf(s, factor), Err(AccuracyError))] + r2.attempts;
  }

  /** Before any forest was analysed the timeout is the hard one, so a
      suboptimal solution gives up at once. */
  lemma FirstSuboptimalGivesUp(s: Setup, oracle: Oracle, call: nat, factor: nat)
    requires SetupOk(s) && factor >= 1 && s.st.numIters == 0
    requires oracle(call, QueryOf(s, 0, factor)) == Err(SuboptimalSolutionWarning)
    ensures Delay(s, oracle, call, factor).answer == Scalar(Inf)
    ensures Delay(s, oracle, call, factor).factor == factor
  {
  }

  /** `PLP.delay(foi)` returns a single float. */
  ghost predicate ScalarWhenSingle(oracle: Oracle) {
    forall k: nat, q: Query :: q.foi.Some? && oracle(k, q).Ok? ==> oracle(k, q).value.Scalar?
  }

  /** The answer of `delay` is the last call's answer, or a scalar `inf`
      after an error. */
  lemma DelayAnswer(s: Setup, oracle: Oracle, call: nat, factor: nat)
    requires SetupOk(s) && factor >= 1
    ensures var r := Delay(s, oracle, call, factor);
      var k := |r.attempts| - 1;
      var q := QueryOf(s, r.attempts[k].index, r.attempts[k].factor);
      || (r.answer == Scalar(Inf) && r.attempts[k].outcome.Err?)
      || (oracle(call + k, q) == Ok(r.answer) && q.foi == s.foi)
  {
    LoopTrace(s, oracle, call, 0, factor);
    var r := Delay(s, oracle, call, factor);
    var k := |r.attempts| - 1;
    assert Made(s, oracle, call + k, r.attempts[k]);
  }

  /** For one flow of interest the answer is a single delay. */
  lemma DelayScalar(s: Setup, oracle: Oracle, call: nat, factor: nat)
    requires SetupOk(s) && factor >= 1 && s.foi.Some? && ScalarWhenSingle(oracle)
    ensures Delay(s, oracle, call, factor).answer.Scalar?
  {
    DelayAnswer(s, oracle, call, factor);
  }
}
