/** The statistics over stored results (ecowcdb/stats.py): the `inf` filter
    applied before every correlation, the columns the correlations read, and
    the rank of a heuristic forest among the delay-ordered results. */
module Stats {
  import opened Wrappers
  import opened Sorting
  import opened Descriptors
  import opened Seqs
  import opened Validation
  import Search
  import Heuristic

  type Pair = (ExtReal, ExtReal)

  /** `zip(list1, list2)`: pairs up to the shorter length. */
  function Zip(a: seq<ExtReal>, b: seq<ExtReal>): (r: seq<Pair>)
    ensures |r| == if |a| <= |b| then |a| else |b|
    ensures forall i :: 0 <= i < |r| ==> r[i] == (a[i], b[i])
  {
    seq(if |a| <= |b| then |a| else |b|, i requires 0 <= i < |a| && i < |b| => (a[i], b[i]))
  }

  predicate BothFinite(p: Pair) {
    p.0.Fin? && p.1.Fin?
  }

  /** The pairs of `p` with no `inf` in them, in order: the reference for
      `__filter_inf`. */
  function KeepFinite(p: seq<Pair>): seq<Pair> {
    if p == [] then []
    else (if BothFinite(p[0]) then [p[0]] else []) + KeepFinite(p[1..])
  }

  /** The number of pairs of `p` with no `inf` in them. */
  function CountFinite(p: seq<Pair>): nat {
    if p == [] then 0 else (if BothFinite(p[0]) then 1 else 0) + CountFinite(p[1..])
  }

  lemma {:induction false} KeepFiniteAppend(p: seq<Pair>, e: Pair)
    ensures KeepFinite(p + [e]) == KeepFinite(p) + (if BothFinite(e) then [e] else [])
  {
    if p == [] {
      assert p + [e] == [e];
      assert [e][1..] == [];
    } else {
      assert (p + [e])[1..] == p[1..] + [e];
      KeepFiniteAppend(p[1..], e);
    }
  }

  /** The filter keeps exactly the finite pairs: it is a subsequence of its
      input, every pair in it is finite, and it has as many pairs as the
      input has finite ones. */
  lemma {:induction false} KeepFiniteSpec(p: seq<Pair>)
    ensures IsSubseq(KeepFinite(p), p)
    ensures forall i :: 0 <= i < |KeepFinite(p)| ==> BothFinite(KeepFinite(p)[i])
    ensures |KeepFinite(p)| == CountFinite(p)
  {
    if p != [] {
      KeepFiniteSpec(p[1..]);
      var k := KeepFinite(p);
      var rest := KeepFinite(p[1..]);
      if BothFinite(p[0]) {
        assert k == [p[0]] + rest;
        assert k[1..] == rest;
      } else {
        assert k == rest;
        if k != [] {
          SubseqSkip(k, p);
        }
      }
    }
  }

  lemma SubseqSkip(a: seq<Pair>, s: seq<Pair>)
    requires a != [] && s != [] && IsSubseq(a, s[1..])
    ensures IsSubseq(a, s)
  {
  }

  /** `__filter_inf(list1, list2)`: the items at the positions where neither
      list holds `inf`, up to the shorter length. */
  method FilterInf(a: seq<ExtReal>, b: seq<ExtReal>) returns (x: seq<ExtReal>, y: seq<ExtReal>)
    ensures |x| == |y|
    ensures forall i :: 0 <= i < |x| ==> x[i] != Inf && y[i] != Inf
    ensures Zip(x, y) == KeepFinite(Zip(a, b))
  {
    var z := Zip(a, b);
    x, y := [], [];
    var i := 0;
    while i < |z|
      invariant 0 <= i <= |z|
      invariant |x| == |y|
      invariant forall k :: 0 <= k < |x| ==> x[k] != Inf && y[k] != Inf
      invariant Zip(x, y) == KeepFinite(z[..i])
    {
      var (item1, item2) := z[i];
      KeepFiniteAppend(z[..i], z[i]);
      assert z[..i + 1] == z[..i] + [z[i]];
      if item1 != Inf && item2 != Inf {
        assert Zip(x + [item1], y + [item2]) == Zip(x, y) + [(item1, item2)];
        x, y := x + [item1], y + [item2];
      }
      i := i + 1;
    }
    assert z[..i] == z;
  }

  // ---------------------------------------------------------------------------
  // Correlation inputs

  /** The columns of a result row the correlations read. */
  datatype Column = Delays | Runtimes | ForestSizes

  function Cell(e: Search.Entry, c: Column): ExtReal {
    match c
    case Delays => e.delay
    case Runtimes => Fin(e.elapsed)
    case ForestSizes => NatKey(|e.forest|)
  }

  function ColumnOf(rows: seq<Search.Entry>, c: Column): (r: seq<ExtReal>)
    ensures |r| == |rows|
  {
    seq(|rows|, i requires 0 <= i < |rows| => Cell(rows[i], c))
  }

  /** The two lists `delay_runtime_correlation`,
      `forestsize_delay_correlation` and `forestsize_runtime_correlation`
      hand to `pearsonr`, after `Stats.foi` has accepted `foi`. */
  function CorrelationData(results: map<int, seq<Search.Entry>>, foi: int, c1: Column, c2: Column): (r: Result<Pair2, ValidationError>)
    ensures r.Ok? <==> StatsFoi(foi, results).Pass?
    ensures r.Err? ==> r.error == StatsFoi(foi, results).error
  {
    var check := StatsFoi(foi, results);
    if check.Fail? then Err(check.error)
    else
      var z := KeepFinite(Zip(ColumnOf(results[foi], c1), ColumnOf(results[foi], c2)));
      Ok((seq(|z|, i requires 0 <= i < |z| => z[i].0), seq(|z|, i requires 0 <= i < |z| => z[i].1)))
  }

  type Pair2 = (seq<ExtReal>, seq<ExtReal>)

  /** The correlated lists are equally long, free of `inf`, and come from the
      rows whose two cells are both finite, in row order. */
  lemma CorrelationDataSpec(results: map<int, seq<Search.Entry>>, foi: int, c1: Column, c2: Column)
    requires CorrelationData(results, foi, c1, c2).Ok?
    ensures var (x, y) := CorrelationData(results, foi, c1, c2).value;
      && |x| == |y|
      && (forall i :: 0 <= i < |x| ==> x[i].Fin? && y[i].Fin?)
      && IsSubseq(Zip(x, y), Zip(ColumnOf(results[foi], c1), ColumnOf(results[foi], c2)))
      && |x| == CountFinite(Zip(ColumnOf(results[foi], c1), ColumnOf(results[foi], c2)))
  {
    var z := KeepFinite(Zip(ColumnOf(results[foi], c1), ColumnOf(results[foi], c2)));
    KeepFiniteSpec(Zip(ColumnOf(results[foi], c1), ColumnOf(results[foi], c2)));
    var (x, y) := CorrelationData(results, foi, c1, c2).value;
    assert Zip(x, y) == z;
  }

  // ---------------------------------------------------------------------------
  // Forest ranking

  /** The position of the forest among the delay-ordered results and the
      fraction `top = (index + 1) / len(results)`. */
  datatype Ranking = Ranking(index: nat, top: real)

  datatype StatsError =
    | Invalid(error: ValidationError)
    | FlowIndexError                        // `net.flows[foi]` beyond the flows
    | HeuristicFailed(cause: Heuristic.HeuristicError)
    | NotRanked                             // `list.index` raises `ValueError`

  /** The first position of `forest` in the rows, if any. */
  function IndexOf(rows: seq<Search.Entry>, forest: Forest): (r: Option<nat>)
    ensures r.Some? ==> r.value < |rows| && rows[r.value].forest == forest
    ensures r.Some? ==> forall k :: 0 <= k < r.value ==> rows[k].forest != forest
    ensures r.None? <==> forall k :: 0 <= k < |rows| ==> rows[k].forest != forest
  {
    if rows == [] then None
    else if rows[0].forest == forest then Some(0)
    else
      match IndexOf(rows[1..], forest)
      case None => None
      case Some(k) => Some(k + 1)
  }

  /** `__forest_ranking(foi, forest)` for the rows of `results[foi]` (the
      median runtime comparison and the printing are left out). */
  function ForestRanking(rows: seq<Search.Entry>, forest: Forest): (r: Result<Ranking, StatsError>)
    ensures r.Err? <==> forall k :: 0 <= k < |rows| ==> rows[k].forest != forest
    ensures r.Err? ==> r.error == NotRanked
    ensures r.Ok? ==> r.value.index < |rows| && rows[r.value.index].forest == forest
    ensures r.Ok? ==> forall k :: 0 <= k < r.value.index ==> rows[k].forest != forest
    ensures r.Ok? ==> 0.0 < r.value.top <= 1.0
    ensures r.Ok? ==> r.value.top * |rows| as real == (r.value.index + 1) as real
  {
    match IndexOf(rows, forest)
    case None => Err(NotRanked)
    case Some(i) => Ok(Ranking(i, (i + 1) as real / |rows| as real))
  }

  /** `best_forest_ranking(foi)` (with `maxDepth == -1`) and `forest_ranking(foi,
      max_depth)`: `Stats.foi`, the `max_depth` check of the latter (its
      validator is not part of this model, so its verdict is an input), then
      the heuristic forest of the flow's path, then its ranking.  The network
      edges are an input. */
  function RankHeuristic(results: map<int, seq<Search.Entry>>, foi: int, net: Network, edges: Forest,
                         maxDepth: int, depthCheck: Check): (r: Result<Ranking, StatsError>)
    ensures StatsFoi(foi, results).Fail? ==> r == Err(Invalid(StatsFoi(foi, results).error))
    ensures r.Ok? ==> 0 <= foi < |net.flows| && foi in results && depthCheck.Pass?
    ensures r.Ok? ==>
      var f := Heuristic.MinDepthMaxForest(edges, net.NumServers(), net.flows[foi].path, maxDepth);
      f.Ok? && ForestRanking(results[foi], f.value) == r
  {
    var c := StatsFoi(foi, results);
    if c.Fail? then Err(Invalid(c.error))
    else if depthCheck.Fail? then Err(Invalid(depthCheck.error))
    else if foi >= |net.flows| then Err(FlowIndexError)
    else
      match Heuristic.MinDepthMaxForest(edges, net.NumServers(), net.flows[foi].path, maxDepth)
      case Err(e) => Err(HeuristicFailed(e))
      case Ok(forest) => ForestRanking(results[foi], forest)
  }

  /** `best_forest_ranking`: the unrestricted depth, no depth check. */
  function BestForestRanking(results: map<int, seq<Search.Entry>>, foi: int, net: Network, edges: Forest): (r: Result<Ranking, StatsError>)
    ensures r.Ok? ==> 0.0 < r.value.top <= 1.0
    ensures r.Ok? ==> 0 <= foi < |net.flows| && foi in results && r.value.index < |results[foi]|
    ensures r.Ok? ==>
      var f := Heuristic.MinDepthMaxForest(edges, net.NumServers(), net.flows[foi].path, -1);
      f.Ok? && results[foi][r.value.index].forest == f.value
  {
    RankHeuristic(results, foi, net, edges, -1, Pass)
  }
}
