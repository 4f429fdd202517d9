/** The `ECOWCDB` class (ecowcdb/ecowcdb.py): one delay computation on one
    heuristic forest, with its own retry policy around the LP solver.

    The solver is an oracle indexed by the call number: the `k`-th call with a
    query returns a delay or the `LPErrorType` that `FifoLP` raised.  Unlike
    `Analysis.delay`, the scale factor here only shrinks (by 0.1) and the
    timeout only grows (by 10), each until a fixed threshold. */
module Ecowcdb {
  import opened Wrappers
  import opened Sorting
  import opened Descriptors
  import opened LPErrors
  import AnalysisDelay
  import Validation

  /** `scale_factor = 1.0` and `timeout = 1000` at the start of `__delay`. */
  const InitialScale: real := 1.0
  const InitialTimeout: nat := 1000

  /** A scale factor below `10**-2` or a timeout above `10**6` ends the retries. */
  const SmallestScale: real := 0.01
  const LargestTimeout: nat := 1000000

  /** `10**e`. */
  function Pow10(e: nat): (r: nat)
    ensures r >= 1
  {
    if e == 0 then 1 else 10 * Pow10(e - 1)
  }

  lemma {:induction false} Pow10Mono(a: nat, b: nat)
    requires a <= b
    ensures Pow10(a) <= Pow10(b)
    decreases b - a
  {
    if a < b {
      Pow10Mono(a, b - 1);
    }
  }

  /** The scale factor after `s` rescalings: `scale_factor *= 0.1`, `s` times,
      which is `10**-s`.  Exact reals: the floating-point product differs only
      in digits that no comparison against `10**-2` sees. */
  function Scale(s: nat): (r: real)
    ensures r > 0.0
    ensures r * Pow10(s) as real == 1.0
  {
    if s == 0 then InitialScale
    else
      var prev := Scale(s - 1);
      assert prev * 0.1 * (10 * Pow10(s - 1)) as real == prev * Pow10(s - 1) as real;
      prev * 0.1
  }

  /** The timeout after `t` extensions: `timeout *= 10`, `t` times, which is
      `1000 * 10**t`. */
  function Timeout(t: nat): (r: nat)
    ensures r >= InitialTimeout
    ensures r == InitialTimeout * Pow10(t)
  {
    if t == 0 then InitialTimeout else Timeout(t - 1) * 10
  }

  /** A positive `x` with `x * p == 1` is below `10**-2` exactly when `p`
      exceeds 100. */
  lemma ReciprocalBelow(x: real, p: real)
    requires x > 0.0 && x * p == 1.0
    ensures x < SmallestScale <==> p > 100.0
  {
    if x < SmallestScale {
      assert p == 1.0 / x;
    } else {
      assert x * p >= SmallestScale * p;
    }
  }

  /** The scale test `scale_factor < 10**-2` first holds after three
      rescalings, at 0.001, and holds for every later scale. */
  lemma ScaleGivesUp(s: nat)
    ensures Scale(s) < SmallestScale <==> s >= 3
  {
    ReciprocalBelow(Scale(s), Pow10(s) as real);
    assert Pow10(2) == 100 && Pow10(3) == 1000;
    if s >= 3 {
      Pow10Mono(3, s);
    } else {
      Pow10Mono(s, 2);
    }
  }

  /** The timeout test `timeout > 10**6` first holds after four extensions,
      at `10**7`, and holds for every later timeout. */
  lemma TimeoutGivesUp(t: nat)
    ensures Timeout(t) > LargestTimeout <==> t >= 4
  {
    assert Pow10(3) == 1000 && Pow10(4) == 10000;
    if t >= 4 {
      Pow10Mono(4, t);
    } else {
      Pow10Mono(t, 3);
    }
  }

  /** One `FifoLP` problem: the flow of interest, the forest, the scale factor
      of the network and the solver timeout. */
  datatype Query = Query(foi: nat, forest: Forest, scale: real, timeout: nat)

  type Solver = (nat, Query) -> Result<ExtReal, LPErrorType>

  /** One solver call and what it returned. */
  datatype Attempt = Attempt(query: Query, outcome: Result<ExtReal, LPErrorType>)

  /** What `__delay` returns, with the calls it made in order. */
  datatype Run = Run(delay: ExtReal, attempts: seq<Attempt>)

  /** The reaction to a failed solve. */
  datatype Reaction = GiveUp | Rescale | Extend

  /** The `except` clause of `__delay`.  The three lists of error types cover
      all seven, so the final `raise ValueError` cannot be reached. */
  function React(e: LPErrorType, scale: real, timeout: nat): (r: Reaction)
    ensures r == Rescale <==> AnalysisDelay.ScaleError(e) && scale >= SmallestScale
    ensures r == Extend <==> e == SuboptimalSolutionWarning && timeout <= LargestTimeout
    ensures r == GiveUp <==>
              AnalysisDelay.FatalError(e)
              || (AnalysisDelay.ScaleError(e) && scale < SmallestScale)
              || (e == SuboptimalSolutionWarning && timeout > LargestTimeout)
  {
    match e
    case AccuracyError | TimeoutError | LPSolveFailure =>
      if scale < SmallestScale then GiveUp else Rescale
    case SuboptimalSolutionWarning =>
      if timeout > LargestTimeout then GiveUp else Extend
    case InfeasibleProblemError | UnboundedProblemError | UnhandledLPError =>
      GiveUp
  }

  /** The `while True` loop of `__delay` after `s` rescalings and `t`
      extensions, its next solver call being call number `k`. */
  function Retry(solver: Solver, foi: nat, forest: Forest, k: nat, s: nat, t: nat): (r: Run)
    requires s <= 3 && t <= 4
    ensures 1 <= |r.attempts| <= 8 - s - t
    decreases 7 - s - t
  {
    var q := Query(foi, forest, Scale(s), Timeout(t));
    var a := Attempt(q, solver(k, q));
    match a.outcome
    case Ok(d) => Run(d, [a])
    case Err(e) =>
      match React(e, Scale(s), Timeout(t))
      case GiveUp => Run(Inf, [a])
      case Rescale =>
        ScaleGivesUp(s);
        var rest := Retry(solver, foi, forest, k + 1, s + 1, t);
        Run(rest.delay, [a] + rest.attempts)
      case Extend =>
        TimeoutGivesUp(t);
        var rest := Retry(solver, foi, forest, k + 1, s, t + 1);
        Run(rest.delay, [a] + rest.attempts)
  }

  /** `__delay(foi, forest)`, its first solver call being call number `k`. */
  function Delay(solver: Solver, k: nat, foi: nat, forest: Forest): (r: Run)
    ensures 1 <= |r.attempts| <= 8
  {
    Retry(solver, foi, forest, k, 0, 0)
  }

  /** Attempt `i` of a run starting at call `k` is answered by call `k + i`,
      and every query is about the given flow and forest. */
  predicate Answered(solver: Solver, k: nat, foi: nat, forest: Forest, attempts: seq<Attempt>) {
    forall i :: 0 <= i < |attempts| ==>
      attempts[i].query.foi == foi && attempts[i].query.forest == forest
      && attempts[i].outcome == solver(k + i, attempts[i].query)
  }

  /** Two consecutive attempts: the first failed and was retried either with
      the scale factor divided by ten or with the timeout multiplied by ten. */
  predicate Step(a: Attempt, b: Attempt) {
    a.outcome.Err?
    && ((React(a.outcome.error, a.query.scale, a.query.timeout) == Rescale
         && b.query.scale == a.query.scale * 0.1 && b.query.timeout == a.query.timeout)
        || (React(a.outcome.error, a.query.scale, a.query.timeout) == Extend
            && b.query.timeout == a.query.timeout * 10 && b.query.scale == a.query.scale))
  }

  predicate Steps(attempts: seq<Attempt>) {
    forall i :: 0 <= i < |attempts| - 1 ==> Step(attempts[i], attempts[i + 1])
  }

  /** The last attempt ends the run: a delay is returned as the solver gave it,
      and a failure that is given up on yields `inf`. */
  predicate Ends(a: Attempt, delay: ExtReal) {
    match a.outcome
    case Ok(d) => delay == d
    case Err(e) => delay == Inf && React(e, a.query.scale, a.query.timeout) == GiveUp
  }

  /** The rescalings and extensions after the first attempt of
      `Retry(solver, foi, forest, k, s, t)`: one more of either when it is
      retried, none when it ends the run. */
  function Followup(solver: Solver, foi: nat, forest: Forest, k: nat, s: nat, t: nat): (nat, nat) {
    var q := Query(foi, forest, Scale(s), Timeout(t));
    match solver(k, q)
    case Ok(_) => (s, t)
    case Err(e) =>
      match React(e, Scale(s), Timeout(t))
      case GiveUp => (s, t)
      case Rescale => (s + 1, t)
      case Extend => (s, t + 1)
  }

  /** A run of more than one attempt is its first attempt followed by the run
      from the next call. */
  lemma RetryCons(solver: Solver, foi: nat, forest: Forest, k: nat, s: nat, t: nat)
    requires s <= 3 && t <= 4
    requires |Retry(solver, foi, forest, k, s, t).attempts| > 1
    ensures var (s', t') := Followup(solver, foi, forest, k, s, t);
      && s' <= 3 && t' <= 4 && s' + t' == s + t + 1
      && Retry(solver, foi, forest, k, s, t).delay == Retry(solver, foi, forest, k + 1, s', t').delay
      && Retry(solver, foi, forest, k, s, t).attempts
         == [Retry(solver, foi, forest, k, s, t).attempts[0]] + Retry(solver, foi, forest, k + 1, s', t').attempts
  {
    ScaleGivesUp(s);
    TimeoutGivesUp(t);
  }

  /** The first attempt of a run: call `k` at the given scale and timeout. */
  lemma RetryFirst(solver: Solver, foi: nat, forest: Forest, k: nat, s: nat, t: nat)
    requires s <= 3 && t <= 4
    ensures var q := Query(foi, forest, Scale(s), Timeout(t));
      Retry(solver, foi, forest, k, s, t).attempts[0] == Attempt(q, solver(k, q))
  {
  }

  lemma AnsweredCons(solver: Solver, k: nat, foi: nat, forest: Forest, a: Attempt, rest: seq<Attempt>)
    requires a.query.foi == foi && a.query.forest == forest && a.outcome == solver(k, a.query)
    requires Answered(solver, k + 1, foi, forest, rest)
    ensures Answered(solver, k, foi, forest, [a] + rest)
  {
    var r := [a] + rest;
    forall i | 1 <= i < |r|
      ensures r[i].query.foi == foi && r[i].query.forest == forest
      ensures r[i].outcome == solver(k + i, r[i].query)
    {
      assert r[i] == rest[i - 1];
    }
  }

  lemma StepsCons(a: Attempt, rest: seq<Attempt>)
    requires rest != [] && Step(a, rest[0]) && Steps(rest)
    ensures Steps([a] + rest)
  {
    var r := [a] + rest;
    forall i | 1 <= i < |r| - 1
      ensures Step(r[i], r[i + 1])
    {
      assert r[i] == rest[i - 1];
    }
  }

  lemma TriedCons(a: Attempt, rest: seq<Attempt>)
    requires Tried(a.query)
    requires forall i :: 0 <= i < |rest| ==> Tried(rest[i].query)
    ensures forall i :: 0 <= i < |[a] + rest| ==> Tried(([a] + rest)[i].query)
  {
    var r := [a] + rest;
    forall i | 1 <= i < |r|
      ensures Tried(r[i].query)
    {
      assert r[i] == rest[i - 1];
    }
  }

  lemma LastCons(a: Attempt, rest: seq<Attempt>)
    requires rest != []
    ensures ([a] + rest)[|rest|] == rest[|rest| - 1]
  {
  }

  lemma {:induction false} RetryAnswered(solver: Solver, foi: nat, forest: Forest, k: nat, s: nat, t: nat)
    requires s <= 3 && t <= 4
    ensures Answered(solver, k, foi, forest, Retry(solver, foi, forest, k, s, t).attempts)
    decreases 7 - s - t
  {
    var r := Retry(solver, foi, forest, k, s, t);
    RetryFirst(solver, foi, forest, k, s, t);
    if |r.attempts| > 1 {
      RetryCons(solver, foi, forest, k, s, t);
      var (s', t') := Followup(solver, foi, forest, k, s, t);
      RetryAnswered(solver, foi, forest, k + 1, s', t');
      AnsweredCons(solver, k, foi, forest, r.attempts[0], Retry(solver, foi, forest, k + 1, s', t').attempts);
    }
  }

  /** The first attempt of a longer run is a failure whose reaction leads to
      the second attempt. */
  lemma RetryFirstStep(solver: Solver, foi: nat, forest: Forest, k: nat, s: nat, t: nat)
    requires s <= 3 && t <= 4
    requires |Retry(solver, foi, forest, k, s, t).attempts| > 1
    ensures Step(Retry(solver, foi, forest, k, s, t).attempts[0], Retry(solver, foi, forest, k, s, t).attempts[1])
  {
    RetryCons(solver, foi, forest, k, s, t);
    RetryFirst(solver, foi, forest, k, s, t);
    var (s', t') := Followup(solver, foi, forest, k, s, t);
    RetryFirst(solver, foi, forest, k + 1, s', t');
  }

  lemma {:induction false} RetrySteps(solver: Solver, foi: nat, forest: Forest, k: nat, s: nat, t: nat)
    requires s <= 3 && t <= 4
    ensures Steps(Retry(solver, foi, forest, k, s, t).attempts)
    decreases 7 - s - t
  {
    var r := Retry(solver, foi, forest, k, s, t);
    if |r.attempts| > 1 {
      RetryCons(solver, foi, forest, k, s, t);
      var (s', t') := Followup(solver, foi, forest, k, s, t);
      RetrySteps(solver, foi, forest, k + 1, s', t');
      RetryFirstStep(solver, foi, forest, k, s, t);
      StepsCons(r.attempts[0], Retry(solver, foi, forest, k + 1, s', t').attempts);
    }
  }

  lemma {:induction false} RetryEnds(solver: Solver, foi: nat, forest: Forest, k: nat, s: nat, t: nat)
    requires s <= 3 && t <= 4
    ensures var r := Retry(solver, foi, forest, k, s, t); Ends(r.attempts[|r.attempts| - 1], r.delay)
    decreases 7 - s - t
  {
    var r := Retry(solver, foi, forest, k, s, t);
    if |r.attempts| > 1 {
      RetryCons(solver, foi, forest, k, s, t);
      var (s', t') := Followup(solver, foi, forest, k, s, t);
      RetryEnds(solver, foi, forest, k + 1, s', t');
      LastCons(r.attempts[0], Retry(solver, foi, forest, k + 1, s', t').attempts);
    }
  }

  /** `__delay` makes between one and eight solver calls, numbered from `k`
      on; each retry follows a failure and divides the scale by ten or
      multiplies the timeout by ten; the last call decides the result. */
  lemma DelayRun(solver: Solver, k: nat, foi: nat, forest: Forest)
    ensures var r := Delay(solver, k, foi, forest);
      && 1 <= |r.attempts| <= 8
      && r.attempts[0].query == Query(foi, forest, InitialScale, InitialTimeout)
      && Answered(solver, k, foi, forest, r.attempts)
      && Steps(r.attempts)
      && Ends(r.attempts[|r.attempts| - 1], r.delay)
  {
    RetryAnswered(solver, foi, forest, k, 0, 0);
    RetrySteps(solver, foi, forest, k, 0, 0);
    RetryEnds(solver, foi, forest, k, 0, 0);
  }

  /** Along a run the scale factor never grows and the timeout never shrinks. */
  lemma {:induction false} StepsMonotone(attempts: seq<Attempt>, i: nat, j: nat)
    requires Steps(attempts) && i <= j < |attempts|
    requires attempts[i].query.scale > 0.0
    ensures 0.0 < attempts[j].query.scale <= attempts[i].query.scale
    ensures attempts[j].query.timeout >= attempts[i].query.timeout
    decreases j - i
  {
    if i < j {
      StepsMonotone(attempts, i + 1, j);
      assert Step(attempts[i], attempts[i + 1]);
    }
  }

  /** The scales tried are 1, 0.1, 0.01 and 0.001, the timeouts `10**3` to
      `10**7`. */
  predicate Tried(q: Query) {
    (exists s: nat :: s <= 3 && q.scale == Scale(s)) && (exists t: nat :: t <= 4 && q.timeout == Timeout(t))
  }

  lemma {:induction false} RetryTried(solver: Solver, foi: nat, forest: Forest, k: nat, s: nat, t: nat)
    requires s <= 3 && t <= 4
    ensures forall i :: 0 <= i < |Retry(solver, foi, forest, k, s, t).attempts| ==>
              Tried(Retry(solver, foi, forest, k, s, t).attempts[i].query)
    decreases 7 - s - t
  {
    var r := Retry(solver, foi, forest, k, s, t);
    RetryFirst(solver, foi, forest, k, s, t);
    assert Tried(r.attempts[0].query);
    if |r.attempts| > 1 {
      RetryCons(solver, foi, forest, k, s, t);
      var (s', t') := Followup(solver, foi, forest, k, s, t);
      RetryTried(solver, foi, forest, k + 1, s', t');
      TriedCons(r.attempts[0], Retry(solver, foi, forest, k + 1, s', t').attempts);
    }
  }

  /** A solver that answers the first call is asked exactly once, and its
      delay is returned unchanged. */
  lemma FirstAnswer(solver: Solver, k: nat, foi: nat, forest: Forest, d: ExtReal)
    requires solver(k, Query(foi, forest, InitialScale, InitialTimeout)) == Ok(d)
    ensures Delay(solver, k, foi, forest) == Run(d, [Attempt(Query(foi, forest, InitialScale, InitialTimeout), Ok(d))])
  {
  }

  /** An infeasible, unbounded or unhandled failure gives up at once. */
  lemma FatalGivesUp(solver: Solver, k: nat, foi: nat, forest: Forest)
    requires var o := solver(k, Query(foi, forest, InitialScale, InitialTimeout));
      o.Err? && AnalysisDelay.FatalError(o.error)
    ensures Delay(solver, k, foi, forest).delay == Inf
    ensures |Delay(solver, k, foi, forest).attempts| == 1
  {
  }

  /** A solver that always fails with a scaling error is asked four times,
      at scales 1, 0.1, 0.01 and 0.001, and the delay is `inf`. */
  lemma AlwaysInaccurate(k: nat, foi: nat, forest: Forest)
    ensures var r := Delay((n: nat, q: Query) => Err(AccuracyError), k, foi, forest);
      r.delay == Inf && |r.attempts| == 4 && r.attempts[3].query.scale == 0.001
  {
    var solver := (n: nat, q: Query) => Err(AccuracyError);
    ScaleGivesUp(0);
    ScaleGivesUp(1);
    ScaleGivesUp(2);
    ScaleGivesUp(3);
    var r3 := Retry(solver, foi, forest, k + 3, 3, 0);
    assert |r3.attempts| == 1 && r3.delay == Inf;
    var r2 := Retry(solver, foi, forest, k + 2, 2, 0);
    assert r2.attempts == [r2.attempts[0]] + r3.attempts;
    var r1 := Retry(solver, foi, forest, k + 1, 1, 0);
    assert r1.attempts == [r1.attempts[0]] + r2.attempts;
    var r0 := Retry(solver, foi, forest, k, 0, 0);
    assert r0.attempts == [r0.attempts[0]] + r1.attempts;
  }

  /** A solver that always reports a suboptimal solution is asked five times,
      with timeouts `10**3` to `10**7`, and the delay is `inf`. */
  lemma AlwaysSuboptimal(k: nat, foi: nat, forest: Forest)
    ensures var r := Delay((n: nat, q: Query) => Err(SuboptimalSolutionWarning), k, foi, forest);
      r.delay == Inf && |r.attempts| == 5 && r.attempts[4].query.timeout == 10000000
  {
    var solver := (n: nat, q: Query) => Err(SuboptimalSolutionWarning);
    TimeoutGivesUp(0);
    TimeoutGivesUp(1);
    TimeoutGivesUp(2);
    TimeoutGivesUp(3);
    TimeoutGivesUp(4);
    var r4 := Retry(solver, foi, forest, k + 4, 0, 4);
    assert |r4.attempts| == 1 && r4.delay == Inf;
    var r3 := Retry(solver, foi, forest, k + 3, 0, 3);
    assert r3.attempts == [r3.attempts[0]] + r4.attempts;
    var r2 := Retry(solver, foi, forest, k + 2, 0, 2);
    assert r2.attempts == [r2.attempts[0]] + r3.attempts;
    var r1 := Retry(solver, foi, forest, k + 1, 0, 1);
    assert r1.attempts == [r1.attempts[0]] + r2.attempts;
    var r0 := Retry(solver, foi, forest, k, 0, 0);
    assert r0.attempts == [r0.attempts[0]] + r1.attempts;
  }

  /** The bound of eight calls is reached: three scaling failures, four
      suboptimal solutions and then an answer. */
  lemma EightCalls(foi: nat, forest: Forest)
    ensures var solver := (n: nat, q: Query) =>
              if n < 3 then Err(AccuracyError) else if n < 7 then Err(SuboptimalSolutionWarning) else Ok(Fin(1.0));
      var r := Delay(solver, 0, foi, forest);
      r.delay == Fin(1.0) && |r.attempts| == 8
  {
    var solver := (n: nat, q: Query) =>
      if n < 3 then Err(AccuracyError) else if n < 7 then Err(SuboptimalSolutionWarning) else Ok(Fin(1.0));
    ScaleGivesUp(0);
    ScaleGivesUp(1);
    ScaleGivesUp(2);
    TimeoutGivesUp(0);
    TimeoutGivesUp(1);
    TimeoutGivesUp(2);
    TimeoutGivesUp(3);
    var r7 := Retry(solver, foi, forest, 7, 3, 4);
    assert r7.attempts == [Attempt(Query(foi, forest, Scale(3), Timeout(4)), Ok(Fin(1.0)))];
    var r6 := Retry(solver, foi, forest, 6, 3, 3);
    assert r6.attempts == [r6.attempts[0]] + r7.attempts;
    var r5 := Retry(solver, foi, forest, 5, 3, 2);
    assert r5.attempts == [r5.attempts[0]] + r6.attempts;
    var r4 := Retry(solver, foi, forest, 4, 3, 1);
    assert r4.attempts == [r4.attempts[0]] + r5.attempts;
    var r3 := Retry(solver, foi, forest, 3, 3, 0);
    assert r3.attempts == [r3.attempts[0]] + r4.attempts;
    var r2 := Retry(solver, foi, forest, 2, 2, 0);
    assert r2.attempts == [r2.attempts[0]] + r3.attempts;
    var r1 := Retry(solver, foi, forest, 1, 1, 0);
    assert r1.attempts == [r1.attempts[0]] + r2.attempts;
    var r0 := Retry(solver, foi, forest, 0, 0, 0);
    assert r0.attempts == [r0.attempts[0]] + r1.attempts;
  }

  /** The three public methods differ only in the heuristic call they make:
      the default depth, a restricted depth, or a restricted-depth tree. */
  datatype Heuristic = MinCutForest | RestrictedForest(maxDepth: int) | RestrictedTree(maxDepth: int)

  /** `heuristic_algorithm(edges, num_servers, path, ...)` for the instance's
      network, as a function of the path of the flow of interest. */
  type Builder = (seq<nat>, Heuristic) -> Forest

  /** The delay and the runtime `end - start` of the public methods. */
  datatype Timed = Timed(delay: ExtReal, runtime: real, run: Run)

  /** Why a public method failed: a validator rejected its arguments, or
      `self.__net.flows[foi]` raised `IndexError`. */
  datatype MinCutError = Invalid(error: Validation.ValidationError) | FlowIndexError

  /** `min_cut_forest`, `min_cut_forest_with_restricted_depth` and
      `min_cut_tree_with_restricted_depth`.  The flow of interest is checked
      first and, for the restricted variants, `max_depth` next, each by a
      validator of `Validation.ECOWCDB` that is not part of this model, so
      their verdicts are inputs.  Then the forest is built from the path of
      `net.flows[foi]` and one `__delay` is run on it.  The clock readings
      `start` and `end` are inputs. */
  function MinCut(net: Network, foi: int, h: Heuristic, foiCheck: Validation.Check, depthCheck: int -> Validation.Check,
                  build: Builder, solver: Solver, k: nat, start: real, end: real): (r: Result<Timed, MinCutError>)
    ensures r.Ok? <==> foiCheck.Pass? && (h.MinCutForest? || depthCheck(h.maxDepth).Pass?) && 0 <= foi < net.NumFlows()
    ensures foiCheck.Fail? ==> r == Err(Invalid(foiCheck.error))
    ensures foiCheck.Pass? && !h.MinCutForest? && depthCheck(h.maxDepth).Fail? ==> r == Err(Invalid(depthCheck(h.maxDepth).error))
    ensures r == Err(FlowIndexError) <==> foiCheck.Pass? && (h.MinCutForest? || depthCheck(h.maxDepth).Pass?) && !(0 <= foi < net.NumFlows())
    ensures r.Ok? ==> r.value.runtime == end - start
    ensures r.Ok? ==> r.value.run == Delay(solver, k, foi, build(net.flows[foi].path, h))
  {
    if foiCheck.Fail? then Err(Invalid(foiCheck.error))
    else if !h.MinCutForest? && depthCheck(h.maxDepth).Fail? then Err(Invalid(depthCheck(h.maxDepth).error))
    else if !(0 <= foi < net.NumFlows()) then Err(FlowIndexError)
    else
      var forest := build(net.flows[foi].path, h);
      var run := Delay(solver, k, foi, forest);
      Ok(Timed(run.delay, end - start, run))
  }

  /** With the flow-index check of `Analysis.foi` (`0 <= foi <= num_flows - 1`)
      as the foi validator, the index error cannot arise: every failure is a
      validation error. */
  lemma MinCutIndexChecked(net: Network, foi: int, h: Heuristic, depthCheck: int -> Validation.Check,
                           build: Builder, solver: Solver, k: nat, start: real, end: real)
    ensures var r := MinCut(net, foi, h, Validation.AnalysisFoi(foi, net.NumFlows()), depthCheck, build, solver, k, start, end);
      && (r.Ok? <==> 0 <= foi < net.NumFlows() && (h.MinCutForest? || depthCheck(h.maxDepth).Pass?))
      && r != Err(FlowIndexError)
  {
  }

  /** A successful call asks the solver between one and eight times about the
      flow of interest and the forest built from its path, and returns the
      delay decided by the last call. */
  lemma MinCutRun(net: Network, foi: int, h: Heuristic, foiCheck: Validation.Check, depthCheck: int -> Validation.Check,
                  build: Builder, solver: Solver, k: nat, start: real, end: real)
    requires MinCut(net, foi, h, foiCheck, depthCheck, build, solver, k, start, end).Ok?
    ensures var m := MinCut(net, foi, h, foiCheck, depthCheck, build, solver, k, start, end).value;
      && 0 <= foi < |net.flows|
      && 1 <= |m.run.attempts| <= 8
      && Answered(solver, k, foi, build(net.flows[foi].path, h), m.run.attempts)
      && Ends(m.run.attempts[|m.run.attempts| - 1], m.delay)
  {
    DelayRun(solver, k, foi, build(net.flows[foi].path, h));
  }
}
