/** The exhaustive searches of `Analysis` (ecowcdb/analysis.py): one delay
    computation per generated forest, results stably sorted by delay, and the
    shortcut for symmetric cycles that computes all flows at once and copies
    the results of flow 0 to the others by rotation.

    Wall-clock times are an input: `clock(c)` is the time, in seconds, spent
    on the forest whose first solver call is call number `c`. */
module Search {
  import opened Wrappers
  import opened Sorting
  import opened Seqs
  import opened Descriptors
  import opened Graph
  import opened Options
  import opened AnalysisDelay
  import opened Symmetry
  import opened Validation
  import opened LPErrors

  /** One row of `__results[foi]`: the forest, its delay bound and the
      seconds spent on it. */
  datatype Entry = Entry(forest: Forest, delay: ExtReal, elapsed: real)

  /** The key of `sorted(result, key=lambda x: x[1])`. */
  function DelayKey(e: Entry): ExtReal {
    e.delay
  }

  type Seconds = r: real | r > 0.0 witness 1.0

  type Clock = nat -> Seconds

  /** The state of an `Analysis` instance that the searches read and write.
      `numFlows`, `numServers`, `edges` and `symmetricCycle` describe the
      network; `calls` counts the solver calls made so far. */
  datatype Analysis = Analysis(
    numFlows: nat, numServers: nat, edges: seq<Edge>, symmetricCycle: bool,
    mode: ForestGeneration, forests: seq<Forest>, hard: int,
    factor: nat, stats: RuntimeStats, calls: nat, results: map<int, seq<Entry>>)

  /** The constructor ran: a positive hard timeout, the initial factor or a
      doubled one, and consistent runtime totals. */
  predicate Ready(a: Analysis) {
    a.hard > 0 && a.factor >= 1 && StatsOk(a.stats)
  }

  datatype SearchError = Invalid(error: ValidationError) | SliceOfScalar | MissingKey

  // ---------------------------------------------------------------------------
  // `delay` called by the user

  /** `delay(foi, forest)`: both arguments are validated, then the retry
      loop runs with the instance's current factor. */
  function PublicDelay(a: Analysis, oracle: Oracle, foi: int, forest: Forest): (r: Result<(ExtReal, Analysis), ValidationError>)
    requires Ready(a) && ScalarWhenSingle(oracle)
    ensures r.Ok? <==> 0 <= foi < a.numFlows && KnownEdges(forest, a.edges) && IsForest(forest, a.numServers)
    ensures r.Ok? ==> Ready(r.value.1) && r.value.1.factor >= a.factor && r.value.1.results == a.results
  {
    var v := AndThen(AnalysisFoi(foi, a.numFlows), AnalysisForest(forest, a.edges, a.numServers));
    if v.Fail? then Err(v.error)
    else
      var s := Setup(a.hard, a.stats, a.numFlows, forest, Some(foi));
      var run := Delay(s, oracle, a.calls, a.factor);
      DelayScalar(s, oracle, a.calls, a.factor);
      Ok((run.answer.delay, a.(factor := run.factor, calls := a.calls + |run.attempts|)))
  }

  // ---------------------------------------------------------------------------
  // The search for one flow

  /** What a search loop carries from one forest to the next. */
  datatype Progress = Progress(entries: seq<Entry>, stats: RuntimeStats, factor: nat, calls: nat)

  predicate ProgressOk(p: Progress) {
    p.factor >= 1 && StatsOk(p.stats)
  }

  /** `for forest in forests` of `exhaustive_search`, from `forests[i]`. */
  function FlowLoop(a: Analysis, oracle: Oracle, clock: Clock, foi: nat, i: nat, p: Progress): (r: Progress)
    requires a.hard > 0 && ProgressOk(p) && ScalarWhenSingle(oracle) && i <= |a.forests|
    ensures ProgressOk(r) && r.factor >= p.factor
    ensures |r.entries| == |p.entries| + |a.forests| - i && r.entries[..|p.entries|] == p.entries
    ensures forall k :: i <= k < |a.forests| ==> r.entries[|p.entries| + k - i].forest == a.forests[k]
    ensures r.stats.numIters == p.stats.numIters + |a.forests| - i
    decreases |a.forests| - i
  {
    if i == |a.forests| then p
    else
      var s := Setup(a.hard, p.stats, a.numFlows, a.forests[i], Some(foi));
      var run := Delay(s, oracle, p.calls, p.factor);
      DelayScalar(s, oracle, p.calls, p.factor);
      var elapsed := clock(p.calls);
      var next := Progress(p.entries + [Entry(a.forests[i], run.answer.delay, elapsed)],
                           RuntimeStats(p.stats.totalRuntime + elapsed, p.stats.numIters + 1),
                           run.factor, p.calls + |run.attempts|);
      var r := FlowLoop(a, oracle, clock, foi, i + 1, next);
      assert r.entries[..|p.entries|] == next.entries[..|p.entries|];
      r
  }

  /** The search state once a search finished: runtime totals zeroed. */
  function Finish(a: Analysis, p: Progress, results: map<int, seq<Entry>>): Analysis {
    a.(factor := p.factor, stats := RuntimeStats(0.0, 0), calls := p.calls, results := results)
  }

  /** `exhaustive_search` for a network that is not a symmetric cycle. */
  function FlowSearch(a: Analysis, oracle: Oracle, clock: Clock, foi: nat): (r: Analysis)
    requires Ready(a) && ScalarWhenSingle(oracle)
    ensures Ready(r) && r.factor >= a.factor && r.stats == RuntimeStats(0.0, 0)
    ensures r.forests == a.forests && r.numFlows == a.numFlows && r.symmetricCycle == a.symmetricCycle
    ensures foi in r.results && |r.results[foi]| == |a.forests|
    ensures forall g :: g in a.results && g != foi ==> g in r.results && r.results[g] == a.results[g]
  {
    var p := FlowLoop(a, oracle, clock, foi, 0, Progress([], a.stats, a.factor, a.calls));
    Finish(a, p, a.results[foi := SortBy(p.entries, DelayKey)])
  }

  /** One entry per forest, in generator order, stably sorted by delay into
      `results[foi]`; the results of the other flows are untouched and the
      runtime totals are zero afterwards. */
  lemma FlowSearchFacts(a: Analysis, oracle: Oracle, clock: Clock, foi: nat)
    requires Ready(a) && ScalarWhenSingle(oracle)
    ensures var p := FlowLoop(a, oracle, clock, foi, 0, Progress([], a.stats, a.factor, a.calls));
      var r := FlowSearch(a, oracle, clock, foi);
      && |p.entries| == |a.forests|
      && (forall k :: 0 <= k < |a.forests| ==> p.entries[k].forest == a.forests[k])
      && foi in r.results && |r.results[foi]| == |a.forests|
      && SortedBy(r.results[foi], DelayKey)
      && multiset(r.results[foi]) == multiset(p.entries)
      && (forall d :: KeyFilter(r.results[foi], DelayKey, d) == KeyFilter(p.entries, DelayKey, d))
      && (forall g :: g in a.results && g != foi ==> g in r.results && r.results[g] == a.results[g])
      && r.stats == RuntimeStats(0.0, 0)
  {
  }

  // ---------------------------------------------------------------------------
  // Symmetric cycles

  function Reverse<T>(s: seq<T>): (r: seq<T>)
    ensures |r| == |s| && forall k :: 0 <= k < |s| ==> r[k] == s[|s| - 1 - k]
  {
    if s == [] then [] else Reverse(s[1..]) + [s[0]]
  }

  /** `[symmetric_forests[0]] + symmetric_forests[1:][::-1]`: the forest that
      the delay of flow `k` belongs to is the orientation turned back `k`
      places. */
  function PairOrder(sf: seq<Forest>): (r: seq<Forest>)
    requires |sf| >= 1
    ensures |r| == |sf| && r[0] == sf[0]
    ensures forall k :: 1 <= k < |sf| ==> r[k] == sf[|sf| - k]
  {
    [sf[0]] + Reverse(sf[1..])
  }

  /** `delays[:k]` as written: slicing the scalar `inf` returned after a
      give-up raises `TypeError`. */
  function SliceAsWritten(answer: Answer, k: nat): (r: Result<seq<ExtReal>, SearchError>)
    ensures r.Err? <==> answer.Scalar?
    ensures r.Ok? ==> r.value == answer.delays[..if k < |answer.delays| then k else |answer.delays|]
  {
    match answer
    case Scalar(_) => Err(SliceOfScalar)
    case Vector(ds) => Ok(if k < |ds| then ds[..k] else ds)
  }

  /** `delays[:k]` as evidently intended: a cut given up on has delay `inf`
      for every flow. */
  function SliceFixed(answer: Answer, k: nat, numFlows: nat): (r: Result<seq<ExtReal>, SearchError>)
    ensures r.Ok?
    ensures answer.Vector? ==> r == SliceAsWritten(answer, k)
    ensures answer.Scalar? ==> |r.value| == (if k < numFlows then k else numFlows)
                                && forall j :: 0 <= j < |r.value| ==> r.value[j] == answer.delay
  {
    match answer
    case Scalar(d) =>
      var ds := seq(numFlows, _ => d);
      Ok(if k < |ds| then ds[..k] else ds)
    case Vector(ds) => Ok(if k < |ds| then ds[..k] else ds)
  }

  /** The state of the symmetric-cycle loop: the progress and
      `pre_computed_forests`. */
  datatype Cycle = Cycle(p: Progress, pre: set<Forest>)

  /** The entries recorded for one analysed forest. */
  function Block(order: seq<Forest>, ds: seq<ExtReal>, share: real): (r: seq<Entry>)
    requires |ds| <= |order|
    ensures |r| == |ds| && forall k :: 0 <= k < |ds| ==> r[k] == Entry(order[k], ds[k], share)
  {
    seq(|ds|, k requires 0 <= k < |ds| => Entry(order[k], ds[k], share))
  }

  /** The orientations of `forest` on the ring of servers. */
  function Orients(a: Analysis, forest: Forest): (sf: seq<Forest>)
    ensures |sf| >= 1
  {
    SymmetricSetsShape(forest, a.numServers);
    SymmetricForests(forest, a.numServers)
  }

  /** The all-flows `delay` call for `forest`. */
  function CycleRun(a: Analysis, oracle: Oracle, forest: Forest, c: Cycle): DelayRun
    requires a.hard > 0 && ProgressOk(c.p)
  {
    Delay(Setup(a.hard, c.p.stats, a.numFlows, forest, None), oracle, c.p.calls, c.p.factor)
  }

  /** One iteration of `__exhaustive_search_symmetric_cycle` on a forest not
      covered yet (the fixed slice when `fixed`). */
  function CycleAnalyse(a: Analysis, oracle: Oracle, clock: Clock, forest: Forest, c: Cycle, fixed: bool): (r: Result<Cycle, SearchError>)
    requires a.hard > 0 && ProgressOk(c.p)
    ensures r.Ok? ==> ProgressOk(r.value.p) && r.value.p.factor >= c.p.factor && forest !in r.value.pre
    ensures r.Ok? ==> c.p.entries <= r.value.p.entries
    ensures fixed && r.Err? ==> r.error == MissingKey
  {
    var sf := Orients(a, forest);
    var run := CycleRun(a, oracle, forest, c);
    var ds :- if fixed then SliceFixed(run.answer, |sf|, a.numFlows) else SliceAsWritten(run.answer, |sf|);
    var order := PairOrder(sf);
    var elapsed := clock(c.p.calls);
    var block := Block(order, ds, elapsed / |sf| as real);
    var pre := c.pre + set k | 0 <= k < |ds| :: order[k];
    if forest !in pre then Err(MissingKey)
    else
      Ok(Cycle(Progress(c.p.entries + block,
                        RuntimeStats(c.p.stats.totalRuntime + elapsed, c.p.stats.numIters + |sf|),
                        run.factor, c.p.calls + |run.attempts|),
               pre - {forest}))
  }

  /** One iteration of the loop: a forest already covered by symmetry is
      struck off `pre_computed_forests` without a solver call. */
  function CycleStep(a: Analysis, oracle: Oracle, clock: Clock, forest: Forest, c: Cycle, fixed: bool): (r: Result<Cycle, SearchError>)
    requires a.hard > 0 && ProgressOk(c.p)
    ensures r.Ok? ==> ProgressOk(r.value.p) && r.value.p.factor >= c.p.factor && forest !in r.value.pre
    ensures r.Ok? ==> c.p.entries <= r.value.p.entries
    ensures fixed && r.Err? ==> r.error == MissingKey
    ensures forest in c.pre ==> r == Ok(Cycle(c.p, c.pre - {forest}))
  {
    if forest in c.pre then Ok(Cycle(c.p, c.pre - {forest}))
    else CycleAnalyse(a, oracle, clock, forest, c, fixed)
  }

  /** An analysed forest costs one all-flows call, and `num_iters` grows by
      the number of its orientations. */
  lemma CycleAnalyseCounts(a: Analysis, oracle: Oracle, clock: Clock, forest: Forest, c: Cycle, fixed: bool)
    requires a.hard > 0 && ProgressOk(c.p)
    ensures var r := CycleAnalyse(a, oracle, clock, forest, c, fixed);
      var sf := Orients(a, forest);
      var run := CycleRun(a, oracle, forest, c);
      var width := if run.answer.Vector? then |run.answer.delays| else a.numFlows;
      r.Ok? ==>
        && (run.answer.Vector? || fixed)
        && r.value.p.stats.numIters == c.p.stats.numIters + |sf|
        && r.value.p.calls == c.p.calls + |run.attempts|
        && |r.value.p.entries| == |c.p.entries| + (if |sf| < width then |sf| else width)
  {
  }

  /** The `k`-th delay of the all-flows answer is recorded for the
      orientation turned back `k` places (`sf[0]` for `k == 0`,
      `sf[|sf| - k]` otherwise), and every recorded orientation other than
      the forest itself is marked as pre-computed. */
  lemma CycleAnalysePairs(a: Analysis, oracle: Oracle, clock: Clock, forest: Forest, c: Cycle, fixed: bool)
    requires a.hard > 0 && ProgressOk(c.p)
    ensures var r := CycleAnalyse(a, oracle, clock, forest, c, fixed);
      var sf := Orients(a, forest);
      var run := CycleRun(a, oracle, forest, c);
      r.Ok? && run.answer.Vector? ==>
        var block := r.value.p.entries[|c.p.entries|..];
        forall k :: 0 <= k < |block| ==>
          && block[k].delay == run.answer.delays[k]
          && block[k].forest == (if k == 0 then sf[0] else sf[|sf| - k])
          && block[k].forest in r.value.pre + {forest}
  {
    var r := CycleAnalyse(a, oracle, clock, forest, c, fixed);
    if r.Ok? && CycleRun(a, oracle, forest, c).answer.Vector? {
      var sf := Orients(a, forest);
      var order := PairOrder(sf);
      var block := r.value.p.entries[|c.p.entries|..];
      forall k | 0 <= k < |block|
        ensures block[k].forest == order[k]
      {
      }
    }
  }

  /** As written, a give-up in all-flows mode makes the slice raise. */
  lemma CycleAnalyseRaises(a: Analysis, oracle: Oracle, clock: Clock, forest: Forest, c: Cycle)
    requires a.hard > 0 && ProgressOk(c.p)
    requires CycleRun(a, oracle, forest, c).answer.Scalar?
    ensures CycleAnalyse(a, oracle, clock, forest, c, false) == Err(SliceOfScalar)
  {
  }

  /** `for forest in forests` of the symmetric-cycle search, from `forests[i]`. */
  function CycleLoop(a: Analysis, oracle: Oracle, clock: Clock, i: nat, c: Cycle, fixed: bool): (r: Result<Cycle, SearchError>)
    requires a.hard > 0 && ProgressOk(c.p) && i <= |a.forests|
    ensures r.Ok? ==> ProgressOk(r.value.p) && r.value.p.factor >= c.p.factor
    ensures fixed && r.Err? ==> r.error == MissingKey
    decreases |a.forests| - i
  {
    if i == |a.forests| then Ok(c)
    else
      var next :- CycleStep(a, oracle, clock, a.forests[i], c, fixed);
      CycleLoop(a, oracle, clock, i + 1, next, fixed)
  }

  /** Turning every edge of a forest `foi` places on a ring of `N` and sorting
      by source. */
  function ShiftForest(f: Forest, foi: nat, N: nat): (r: Forest)
    requires N > 0
    ensures |r| == |f| && SortedBy(r, SrcKey)
    ensures EdgeSet(r) == RotateSet(EdgeSet(f), foi, N)
  {
    var turned := seq(|f|, k requires 0 <= k < |f| => Rotate(f[k], foi, N));
    var r := SortBy(turned, SrcKey);
    assert forall e :: e in r <==> e in turned by {
      forall e
        ensures e in r <==> e in turned
      {
        assert e in r <==> e in multiset(r);
        assert e in turned <==> e in multiset(turned);
      }
    }
    forall e | e in RotateSet(EdgeSet(f), foi, N)
      ensures e in EdgeSet(r)
    {
      var x :| x in EdgeSet(f) && e == Rotate(x, foi, N);
      var k :| 0 <= k < |f| && f[k] == x;
      assert turned[k] == e;
    }
    r
  }

  /** The entries of flow 0 turned to flow `foi`. */
  function ShiftEntries(res0: seq<Entry>, foi: nat, N: nat): (r: seq<Entry>)
    requires N > 0
    ensures |r| == |res0|
    ensures forall i :: 0 <= i < |r| ==>
      && r[i].delay == res0[i].delay && r[i].elapsed == res0[i].elapsed
      && EdgeSet(r[i].forest) == RotateSet(EdgeSet(res0[i].forest), foi, N)
      && SortedBy(r[i].forest, SrcKey) && |r[i].forest| == |res0[i].forest|
  {
    seq(|res0|, i requires 0 <= i < |res0| => Entry(ShiftForest(res0[i].forest, foi, N), res0[i].delay, res0[i].elapsed))
  }

  /** `set(range(lo, hi))`. */
  function Range(lo: int, hi: int): (r: set<int>)
    ensures forall x :: x in r <==> lo <= x < hi
    decreases hi - lo
  {
    if lo >= hi then {} else {lo} + Range(lo + 1, hi)
  }

  /** `__exhaustive_search_symmetric_copy`: flows `1 .. N-1` get the results
      of flow 0, turned, with `N` the number of flows. */
  function SymmetricCopy(results: map<int, seq<Entry>>, N: nat): (r: map<int, seq<Entry>>)
    requires 0 in results
    ensures r.Keys == results.Keys + Range(1, N)
    ensures forall foi :: 0 <= foi < N ==> foi in r
    ensures forall foi :: 1 <= foi < N ==> r[foi] == ShiftEntries(results[0], foi, N)
    ensures forall g :: g in results && !(1 <= g < N) ==> r[g] == results[g]
  {
    map g | g in results.Keys + Range(1, N) :: if 1 <= g < N then ShiftEntries(results[0], g, N) else results[g]
  }

  /** Copy round trip: turning the copied forest of flow `foi` the rest of
      the way round gives back the edges of flow 0's forest. */
  lemma CopyRoundTrip(results: map<int, seq<Entry>>, N: nat, foi: nat, i: nat)
    requires 0 in results && 1 <= foi < N && i < |results[0]|
    requires EdgesInRange(results[0][i].forest, N)
    ensures var r := SymmetricCopy(results, N);
      RotateSet(EdgeSet(r[foi][i].forest), N - foi, N) == EdgeSet(results[0][i].forest)
  {
    var f := results[0][i].forest;
    var r: map<int, seq<Entry>> := SymmetricCopy(results, N);
    assert EdgeSet(r[foi][i].forest) == RotSet(f, foi, N);
    RotationRoundTrip(f, foi, N);
  }

  /** `__exhaustive_search_symmetric_cycle` with the slice `fixed` or as
      written. */
  function SymmetricCycleWith(a: Analysis, oracle: Oracle, clock: Clock, fixed: bool): (r: Result<Analysis, SearchError>)
    requires Ready(a)
    ensures r.Ok? ==> Ready(r.value) && r.value.factor >= a.factor && r.value.stats == RuntimeStats(0.0, 0)
    ensures r.Ok? ==> 0 in r.value.results && forall foi :: 0 <= foi < a.numFlows ==> foi in r.value.results
    ensures fixed && r.Err? ==> r.error == MissingKey
  {
    var c :- CycleLoop(a, oracle, clock, 0, Cycle(Progress([], a.stats, a.factor, a.calls), {}), fixed);
    var res := a.results[0 := SortBy(c.p.entries, DelayKey)];
    Ok(Finish(a, c.p, SymmetricCopy(res, a.numFlows)))
  }

  /** As written: a forest given up on in all-flows mode (here, one the
      solver reports infeasible) stops the search with `TypeError`. */
  lemma CycleGiveUpRaises(a: Analysis, clock: Clock)
    requires Ready(a) && a.forests == [[]] && a.stats.numIters == 0
    ensures SymmetricCycleWith(a, (k, q) => Err(InfeasibleProblemError), clock, false) == Err(SliceOfScalar)
  {
    var oracle: Oracle := (k, q) => Err(InfeasibleProblemError);
    var c := Cycle(Progress([], a.stats, a.factor, a.calls), {});
    var s := Setup(a.hard, a.stats, a.numFlows, [], None);
    assert Delay(s, oracle, a.calls, a.factor).answer == Scalar(Inf);
    CycleAnalyseRaises(a, oracle, clock, [], c);
  }

  /** Fixed: the same search completes and records the forest with delay
      `inf` for flow 0 (the network has one server and one flow). */
  lemma CycleGiveUpFixed(a: Analysis, clock: Clock)
    requires Ready(a) && a.forests == [[]] && a.stats.numIters == 0 && a.numFlows == 1 && a.numServers == 1
    ensures var r := SymmetricCycleWith(a, (k, q) => Err(InfeasibleProblemError), clock, true);
      r.Ok? && r.value.results[0] == [Entry([], Inf, clock(a.calls))]
  {
    var oracle: Oracle := (k, q) => Err(InfeasibleProblemError);
    var c := Cycle(Progress([], a.stats, a.factor, a.calls), {});
    var s := Setup(a.hard, a.stats, a.numFlows, [], None);
    assert Delay(s, oracle, a.calls, a.factor).answer == Scalar(Inf);
    var sf := Orients(a, []);
    SymmetricSetsShape([], 1);
    assert |sf| == 1;
    SortedListFacts({});
    assert sf[0] == [];
    var r := CycleAnalyse(a, oracle, clock, [], c, true);
    assert r.Ok?;
    CycleAnalyseCounts(a, oracle, clock, [], c, true);
    assert r.value.p.entries == [Entry([], Inf, clock(a.calls))];
    assert CycleStep(a, oracle, clock, [], c, true) == r;
    assert CycleLoop(a, oracle, clock, 1, r.value, true) == r;
    assert CycleLoop(a, oracle, clock, 0, c, true) == r;
    SortBySorted(r.value.p.entries, DelayKey);
  }

  // ---------------------------------------------------------------------------
  // The public searches

  /** `exhaustive_search(foi)`: the mode and the flow of interest are
      validated before the symmetric-cycle branch; internal calls skip the
      validation.  The symmetric branch slices as written unless `fixed`. */
  function ExhaustiveSearch(a: Analysis, oracle: Oracle, clock: Clock, foi: int, internal: bool, fixed: bool): (r: Result<Analysis, SearchError>)
    requires Ready(a) && ScalarWhenSingle(oracle)
    requires internal ==> 0 <= foi
    ensures !internal && a.mode == Empty ==> r == Err(Invalid(ValueError("forest_generation", EmptyMode)))
    ensures !internal && a.mode != Empty && !(0 <= foi < a.numFlows) ==> r.Err? && r.error.Invalid?
    ensures r.Ok? ==> Ready(r.value) && r.value.stats == RuntimeStats(0.0, 0) && r.value.factor >= a.factor
    ensures r.Ok? && !a.symmetricCycle ==> foi in r.value.results && |r.value.results[foi]| == |a.forests|
    ensures r.Ok? && a.symmetricCycle ==> forall g :: 0 <= g < a.numFlows ==> g in r.value.results
    ensures r.Err? && !(r.error.Invalid?) ==> a.symmetricCycle && (r.error == MissingKey || (!fixed && r.error == SliceOfScalar))
  {
    var v := if internal then Pass else AndThen(Callable(a.mode), AnalysisFoi(foi, a.numFlows));
    if v.Fail? then Err(Invalid(v.error))
    else if a.symmetricCycle then SymmetricCycleWith(a, oracle, clock, fixed)
    else Ok(FlowSearch(a, oracle, clock, foi))
  }

  /** `for foi in range(num_flows): exhaustive_search(foi, _internal_call=True)`. */
  function AllFlowsLoop(a: Analysis, oracle: Oracle, clock: Clock, foi: nat): (r: Analysis)
    requires Ready(a) && ScalarWhenSingle(oracle) && !a.symmetricCycle
    ensures Ready(r) && r.factor >= a.factor && r.stats == (if foi < a.numFlows then RuntimeStats(0.0, 0) else a.stats)
    ensures r.forests == a.forests && r.numFlows == a.numFlows && !r.symmetricCycle
    ensures forall g :: foi <= g < a.numFlows ==> g in r.results && |r.results[g]| == |a.forests|
    ensures forall g :: g in a.results && (g < foi || g >= a.numFlows) ==> g in r.results && r.results[g] == a.results[g]
    decreases a.numFlows - foi
  {
    if foi >= a.numFlows then a
    else
      var next := FlowSearch(a, oracle, clock, foi);
      var r := AllFlowsLoop(next, oracle, clock, foi + 1);
      r
  }

  /** `exhaustive_search_all_flows`: one symmetric-cycle search (slicing as
      written unless `fixed`), or one search per flow. */
  function ExhaustiveSearchAllFlows(a: Analysis, oracle: Oracle, clock: Clock, fixed: bool): (r: Result<Analysis, SearchError>)
    requires Ready(a) && ScalarWhenSingle(oracle)
    ensures r.Err? <==> a.mode == Empty || (a.symmetricCycle && SymmetricCycleWith(a, oracle, clock, fixed).Err?)
    ensures r.Err? && !(r.error.Invalid?) ==> a.symmetricCycle && (r.error == MissingKey || (!fixed && r.error == SliceOfScalar))
    ensures r.Ok? ==> Ready(r.value) && forall foi :: 0 <= foi < a.numFlows ==> foi in r.value.results
    ensures r.Ok? && !a.symmetricCycle ==> forall foi :: 0 <= foi < a.numFlows ==> |r.value.results[foi]| == |a.forests|
  {
    var v := Callable(a.mode);
    if v.Fail? then Err(Invalid(v.error))
    else if a.symmetricCycle then SymmetricCycleWith(a, oracle, clock, fixed)
    else Ok(AllFlowsLoop(a, oracle, clock, 0))
  }

  // ---------------------------------------------------------------------------
  // The corrected slice against the one as written

  /** The corrected slice changes nothing where the slice as written
      succeeds: it only replaces the `TypeError` after a give-up. */
  lemma {:induction false} CycleLoopFixAgrees(a: Analysis, oracle: Oracle, clock: Clock, i: nat, c: Cycle)
    requires a.hard > 0 && ProgressOk(c.p) && i <= |a.forests|
    ensures CycleLoop(a, oracle, clock, i, c, false).Ok? ==>
            CycleLoop(a, oracle, clock, i, c, true) == CycleLoop(a, oracle, clock, i, c, false)
    decreases |a.forests| - i
  {
    if i < |a.forests| {
      var w := CycleStep(a, oracle, clock, a.forests[i], c, false);
      if w.Ok? {
        if a.forests[i] !in c.pre {
          var run := CycleRun(a, oracle, a.forests[i], c);
          assert run.answer.Vector?;
          assert SliceFixed(run.answer, |Orients(a, a.forests[i])|, a.numFlows)
              == SliceAsWritten(run.answer, |Orients(a, a.forests[i])|);
        }
        assert CycleStep(a, oracle, clock, a.forests[i], c, true) == w;
        CycleLoopFixAgrees(a, oracle, clock, i + 1, w.value);
      }
    }
  }

  /** As written, the public searches succeed only where the corrected ones
      do, with the same result; they differ only by raising after a give-up. */
  lemma SearchFixAgrees(a: Analysis, oracle: Oracle, clock: Clock, foi: int, internal: bool)
    requires Ready(a) && ScalarWhenSingle(oracle)
    requires internal ==> 0 <= foi
    ensures ExhaustiveSearch(a, oracle, clock, foi, internal, false).Ok? ==>
            ExhaustiveSearch(a, oracle, clock, foi, internal, true) == ExhaustiveSearch(a, oracle, clock, foi, internal, false)
    ensures ExhaustiveSearchAllFlows(a, oracle, clock, false).Ok? ==>
            ExhaustiveSearchAllFlows(a, oracle, clock, true) == ExhaustiveSearchAllFlows(a, oracle, clock, false)
  {
    CycleLoopFixAgrees(a, oracle, clock, 0, Cycle(Progress([], a.stats, a.factor, a.calls), {}));
  }

  /** As written, `exhaustive_search_all_flows` on a symmetric cycle whose one
      forest the solver reports infeasible raises `TypeError`; corrected, it
      completes. */
  lemma SearchGiveUpRaises(a: Analysis, clock: Clock)
    requires Ready(a) && a.forests == [[]] && a.stats.numIters == 0 && a.symmetricCycle && a.mode != Empty
    requires a.numFlows == 1 && a.numServers == 1
    ensures ExhaustiveSearchAllFlows(a, (k, q) => Err(InfeasibleProblemError), clock, false) == Err(SliceOfScalar)
    ensures ExhaustiveSearchAllFlows(a, (k, q) => Err(InfeasibleProblemError), clock, true).Ok?
  {
    CycleGiveUpRaises(a, clock);
    CycleGiveUpFixed(a, clock);
  }
}
