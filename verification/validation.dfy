/** Input validation (ecowcdb/util/validation.py).

    Every validator either returns normally (`Pass`) or raises the first
    `TypeError`/`ValueError` its checks meet, in source order.  Arguments whose
    Python type the validator checks are modelled as dynamic `PyValue`s so that
    the type checks themselves are part of the model; arguments that are
    already typed in this model (enums, networks, edges) are not re-checked. */
module Validation {
  import opened Wrappers
  import opened Descriptors
  import opened Graph
  import opened Options

  /** The failure that a validator raises: the argument name, and for a
      `ValueError` the rule that was broken. */
  datatype Rule = Negative | NotPositive | AboveBound | NotEqual | Missing | EmptyMode | UnknownEdge | NotForest | NetMismatch

  datatype ValidationError = TypeError(arg: string) | ValueError(arg: string, rule: Rule)

  type Check = Outcome<ValidationError>

  /** Runs `second` only when `first` returned normally. */
  function AndThen(first: Check, second: Check): Check {
    if first.Fail? then first else second
  }

  /** A Python value, as far as `isinstance` and the numeric checks see it. */
  datatype PyValue = PyInt(i: int) | PyFloat(f: real) | PyStr(s: string) | PyTuple(items: seq<PyValue>) | PyList(items: seq<PyValue>) | PyNone

  predicate IsNumber(v: PyValue) {
    v.PyInt? || v.PyFloat?
  }

  function Num(v: PyValue): real
    requires IsNumber(v)
  {
    if v.PyInt? then v.i as real else v.f
  }

  // ---------------------------------------------------------------------------
  // Base predicates

  /** `_non_negative`: rejects exactly the negative arguments. */
  function NonNegative(arg: real, name: string): (r: Check)
    ensures r.Pass? <==> arg >= 0.0
    ensures r.Fail? ==> r.error == ValueError(name, Negative)
  {
    if arg < 0.0 then Fail(ValueError(name, Negative)) else Pass
  }

  /** `_positive`: rejects every argument that is not strictly positive. */
  function Positive(arg: real, name: string): (r: Check)
    ensures r.Pass? <==> arg > 0.0
    ensures r.Fail? ==> r.error == ValueError(name, NotPositive)
  {
    if !(arg > 0.0) then Fail(ValueError(name, NotPositive)) else Pass
  }

  /** `_upper_bound`: rejects arguments above the bound; the bound itself is
      accepted. */
  function UpperBound(arg: real, name: string, bound: real): (r: Check)
    ensures r.Pass? <==> arg <= bound
    ensures r.Fail? ==> r.error == ValueError(name, AboveBound)
  {
    if arg > bound then Fail(ValueError(name, AboveBound)) else Pass
  }

  /** `_equal`: rejects every argument different from the expected value. */
  function Equal(arg: real, name: string, expected: real): (r: Check)
    ensures r.Pass? <==> arg == expected
    ensures r.Fail? ==> r.error == ValueError(name, NotEqual)
  {
    if arg != expected then Fail(ValueError(name, NotEqual)) else Pass
  }

  /** `_exists_in_dict`: rejects keys the dictionary does not hold. */
  function ExistsIn<K, V>(arg: K, name: string, dict: map<K, V>): (r: Check)
    ensures r.Pass? <==> arg in dict
    ensures r.Fail? ==> r.error == ValueError(name, Missing)
  {
    if arg !in dict then Fail(ValueError(name, Missing)) else Pass
  }

  /** A Python `for` loop of checks: the first failing item's error, if any. */
  function CheckAll(items: seq<PyValue>, check: PyValue -> Check): (r: Check)
    ensures r.Pass? <==> forall i :: 0 <= i < |items| ==> check(items[i]).Pass?
    ensures r.Fail? ==> exists i :: 0 <= i < |items| && r == check(items[i]) && forall j :: 0 <= j < i ==> check(items[j]).Pass?
  {
    if items == [] then Pass
    else if check(items[0]).Fail? then check(items[0])
    else
      var rest := CheckAll(items[1..], check);
      assert forall i :: 1 <= i < |items| ==> items[i] == items[1..][i - 1];
      rest
  }

  // ---------------------------------------------------------------------------
  // Validation.Analysis

  /** The numeric part of `Analysis.constructor_arguments` (the type checks
      hold by the types of the model's parameters). */
  function ConstructorArguments(numEdges: nat, numForests: int, minEdges: int, timeout: int): (r: Check)
    ensures r.Pass? <==> numForests >= 0 && 0 <= minEdges <= numEdges && timeout > 0
    ensures numForests < 0 ==> r == Fail(ValueError("num_forests", Negative))
    ensures numForests >= 0 && minEdges < 0 ==> r == Fail(ValueError("min_edges", Negative))
    ensures numForests >= 0 && minEdges > numEdges ==> r == Fail(ValueError("min_edges", AboveBound))
    ensures numForests >= 0 && 0 <= minEdges <= numEdges && timeout <= 0 ==> r == Fail(ValueError("timeout", NotPositive))
  {
    AndThen(NonNegative(numForests as real, "num_forests"),
    AndThen(NonNegative(minEdges as real, "min_edges"),
    AndThen(UpperBound(minEdges as real, "min_edges", numEdges as real),
            Positive(timeout as real, "timeout"))))
  }

  /** `Analysis.callable`: a forest-dependent operation is refused exactly in
      `Empty` mode. */
  function Callable(mode: ForestGeneration): (r: Check)
    ensures r.Fail? <==> mode == Empty
    ensures r.Fail? ==> r.error == ValueError("forest_generation", EmptyMode)
  {
    if mode == Empty then Fail(ValueError("forest_generation", EmptyMode)) else Pass
  }

  /** `Analysis.foi`: `0 <= foi <= num_flows - 1`.  The inclusive bound
      `num_flows - 1` accepts exactly the indices of the network's flows, so a
      network without flows accepts none. */
  function AnalysisFoi(foi: int, numFlows: nat): (r: Check)
    ensures r.Pass? <==> 0 <= foi < numFlows
    ensures foi < 0 ==> r == Fail(ValueError("foi", Negative))
    ensures foi >= 0 && foi >= numFlows ==> r == Fail(ValueError("foi", AboveBound))
  {
    AndThen(NonNegative(foi as real, "foi"), UpperBound(foi as real, "foi", (numFlows - 1) as real))
  }

  /** Every edge of `forest` is an edge of the network. */
  predicate KnownEdges(forest: Forest, edges: seq<Edge>) {
    forall i :: 0 <= i < |forest| ==> forest[i] in edges
  }

  /** `Analysis.forest`: unknown edges are reported before the forest test. */
  function AnalysisForest(forest: Forest, edges: seq<Edge>, n: nat): (r: Check)
    ensures r.Pass? <==> KnownEdges(forest, edges) && IsForest(forest, n)
    ensures !KnownEdges(forest, edges) ==> r == Fail(ValueError("forest", UnknownEdge))
    ensures KnownEdges(forest, edges) && !IsForest(forest, n) ==> r == Fail(ValueError("forest", NotForest))
  {
    if !KnownEdges(forest, edges) then Fail(ValueError("forest", UnknownEdge))
    else if !IsForest(forest, n) then Fail(ValueError("forest", NotForest))
    else Pass
  }

  /** On a network whose edges join its own servers, `Analysis.forest`
      accepts exactly the sub-forests with unique successors and no cycle. */
  lemma AnalysisForestIff(forest: Forest, edges: seq<Edge>, n: nat)
    requires EdgesInRange(edges, n)
    ensures AnalysisForest(forest, edges, n).Pass? <==> KnownEdges(forest, edges) && UniqueSuccessor(forest) && !HasCycle(forest)
  {
    if KnownEdges(forest, edges) {
      forall i | 0 <= i < |forest|
        ensures forest[i].0 < n && forest[i].1 < n
      {
        var j :| 0 <= j < |edges| && edges[j] == forest[i];
      }
      IsForestIff(forest, n);
    }
  }

  /** `Analysis.net`: a loaded network must equal the analysed one.  panco's
      `Network.__eq__` is not part of this model; the networks are compared
      as records, which is what a structural `__eq__` does.  Without one,
      Python compares by identity and rejects an equal copy. */
  function AnalysisNet(net: Network, loaded: Network): (r: Check)
    ensures r.Pass? <==> net == loaded
    ensures r.Fail? ==> r.error == ValueError("net", NetMismatch)
  {
    if net != loaded then Fail(ValueError("net", NetMismatch)) else Pass
  }

  // ---------------------------------------------------------------------------
  // Validation.Stats

  /** `Stats.foi`: a non-negative key of the stored results. */
  function StatsFoi<V>(foi: int, results: map<int, V>): (r: Check)
    ensures r.Pass? <==> foi >= 0 && foi in results
    ensures foi < 0 ==> r == Fail(ValueError("foi", Negative))
    ensures foi >= 0 && foi !in results ==> r == Fail(ValueError("foi", Missing))
  {
    AndThen(NonNegative(foi as real, "foi"), ExistsIn(foi, "foi", results))
  }

  // ---------------------------------------------------------------------------
  // Validation.Networks

  /** The argument checks of the generated topologies. */
  predicate GenericTypes(R: PyValue, L: PyValue, S: PyValue, N: PyValue, load: PyValue) {
    IsNumber(R) && IsNumber(L) && IsNumber(S) && N.PyInt? && load.PyFloat?
  }

  /** `Networks.generic_arguments`: all type checks come first, then the
      ranges `R > 0`, `L >= 0`, `S >= 0`, `N > 0`, `0 < load <= 1`. */
  function GenericArguments(R: PyValue, L: PyValue, S: PyValue, N: PyValue, load: PyValue): (r: Check)
    ensures r.Pass? <==> GenericTypes(R, L, S, N, load)
                         && Num(R) > 0.0 && Num(L) >= 0.0 && Num(S) >= 0.0 && N.i > 0 && 0.0 < load.f <= 1.0
    ensures !GenericTypes(R, L, S, N, load) ==> r.Fail? && r.error.TypeError?
    ensures GenericTypes(R, L, S, N, load) && r.Fail? ==> r.error.ValueError?
  {
    if !IsNumber(R) then Fail(TypeError("R"))
    else if !IsNumber(L) then Fail(TypeError("L"))
    else if !IsNumber(S) then Fail(TypeError("S"))
    else if !N.PyInt? then Fail(TypeError("N"))
    else if !load.PyFloat? then Fail(TypeError("load"))
    else
      AndThen(Positive(Num(R), "R"),
      AndThen(NonNegative(Num(L), "L"),
      AndThen(NonNegative(Num(S), "S"),
      AndThen(Positive(N.i as real, "N"),
      AndThen(Positive(load.f, "load"),
              UpperBound(load.f, "load", 1.0))))))
  }

  /** A curve argument: a 2-tuple of non-negative floats. */
  predicate CurveOk(v: PyValue) {
    && v.PyTuple? && |v.items| == 2
    && v.items[0].PyFloat? && v.items[0].f >= 0.0
    && v.items[1].PyFloat? && v.items[1].f >= 0.0
  }

  /** The checks of one `(rate, latency)`, `(sigma, rho)` curve argument. */
  function CurveArguments(v: PyValue, name: string): (r: Check)
    ensures r.Pass? <==> CurveOk(v)
  {
    if !v.PyTuple? then Fail(TypeError(name))
    else if |v.items| != 2 then Fail(ValueError("len(" + name + ")", NotEqual))
    else if !v.items[0].PyFloat? then Fail(TypeError(name + "[0]"))
    else if v.items[0].f < 0.0 then Fail(ValueError(name + "[0]", Negative))
    else if !v.items[1].PyFloat? then Fail(TypeError(name + "[1]"))
    else NonNegative(v.items[1].f, name + "[1]")
  }

  /** A list of curve arguments, each of them valid. */
  predicate CurvesOk(v: PyValue) {
    v.PyList? && forall i :: 0 <= i < |v.items| ==> CurveOk(v.items[i])
  }

  function CurveList(v: PyValue, name: string, item: string): (r: Check)
    ensures r.Pass? <==> CurvesOk(v)
  {
    if !v.PyList? then Fail(TypeError(name))
    else CheckAll(v.items, c => CurveArguments(c, item))
  }

  /** One server argument: `(service curves, shapers)`. */
  predicate ServerOk(v: PyValue) {
    v.PyTuple? && |v.items| == 2 && CurvesOk(v.items[0]) && CurvesOk(v.items[1])
  }

  function ServerArguments(v: PyValue): (r: Check)
    ensures r.Pass? <==> ServerOk(v)
  {
    if !v.PyTuple? then Fail(TypeError("server_args"))
    else if |v.items| != 2 then Fail(ValueError("len(server_args)", NotEqual))
    else AndThen(CurveList(v.items[0], "server_args[0]", "service_curve_args"),
                 CurveList(v.items[1], "server_args[1]", "shaper_args"))
  }

  /** A server id accepted with the bound `bound` (inclusive, as `_upper_bound`). */
  predicate IdOk(v: PyValue, bound: int) {
    v.PyInt? && 0 <= v.i <= bound
  }

  function ServerId(v: PyValue, bound: int): (r: Check)
    ensures r.Pass? <==> IdOk(v, bound)
  {
    if !v.PyInt? then Fail(TypeError("server_id"))
    else AndThen(NonNegative(v.i as real, "server_id"), UpperBound(v.i as real, "server_id", bound as real))
  }

  /** One flow argument: `(arrival curves, path)`, every server id at most `bound`. */
  predicate FlowOk(v: PyValue, bound: int) {
    && v.PyTuple? && |v.items| == 2 && CurvesOk(v.items[0])
    && v.items[1].PyList? && forall i :: 0 <= i < |v.items[1].items| ==> IdOk(v.items[1].items[i], bound)
  }

  function FlowArguments(v: PyValue, bound: int): (r: Check)
    ensures r.Pass? <==> FlowOk(v, bound)
  {
    if !v.PyTuple? then Fail(TypeError("flow_args"))
    else if |v.items| != 2 then Fail(ValueError("len(flow_args)", NotEqual))
    else if !v.items[1].PyList? then AndThen(CurveList(v.items[0], "flow_args[0]", "arrival_curve_args"), Fail(TypeError("flow_args[1]")))
    else AndThen(CurveList(v.items[0], "flow_args[0]", "arrival_curve_args"),
                 CheckAll(v.items[1].items, id => ServerId(id, bound)))
  }

  /** The shared body of `custom_network_arguments`, parameterised by the
      largest server id a path may name. */
  function CustomWithBound(servers: PyValue, flows: PyValue, bound: int): (r: Check)
    ensures r.Pass? <==> && servers.PyList? && (forall i :: 0 <= i < |servers.items| ==> ServerOk(servers.items[i]))
                         && flows.PyList? && (forall i :: 0 <= i < |flows.items| ==> FlowOk(flows.items[i], bound))
  {
    if !servers.PyList? then Fail(TypeError("servers_args"))
    else
      AndThen(CheckAll(servers.items, ServerArguments),
              if !flows.PyList? then Fail(TypeError("flows_args"))
              else CheckAll(flows.items, f => FlowArguments(f, bound)))
  }

  /** `Networks.custom_network_arguments` as written: a server id may be as
      large as the number of servers. */
  function CustomNetworkArguments(servers: PyValue, flows: PyValue): (r: Check)
    ensures r.Pass? ==> servers.PyList? && flows.PyList?
  {
    if !servers.PyList? then Fail(TypeError("servers_args"))
    else CustomWithBound(servers, flows, |servers.items|)
  }

  /** The inclusive bound accepts a flow through a server that does not
      exist: with one server, the path `[1]` passes validation. */
  lemma CustomAcceptsMissingServer()
    ensures var servers := PyList([PyTuple([PyList([]), PyList([])])]);
            var flows := PyList([PyTuple([PyList([]), PyList([PyInt(1)])])]);
            CustomNetworkArguments(servers, flows).Pass? && flows.items[0].items[1].items[0].i >= |servers.items|
  {
    var servers := PyList([PyTuple([PyList([]), PyList([])])]);
    var flows := PyList([PyTuple([PyList([]), PyList([PyInt(1)])])]);
    assert ServerOk(servers.items[0]);
    assert FlowOk(flows.items[0], 1);
  }

  /** The corrected validator: server ids must index `servers_args`, like the
      flow of interest in `Analysis.foi`. */
  function CustomNetworkArgumentsFixed(servers: PyValue, flows: PyValue): (r: Check)
    ensures r.Pass? ==> servers.PyList? && flows.PyList?
  {
    if !servers.PyList? then Fail(TypeError("servers_args"))
    else CustomWithBound(servers, flows, |servers.items| - 1)
  }

  /** After the corrected validation every server id of every flow path names
      an existing server, and every curve argument is a valid pair. */
  lemma CustomFixedInRange(servers: PyValue, flows: PyValue)
    requires CustomNetworkArgumentsFixed(servers, flows).Pass?
    ensures forall f :: 0 <= f < |flows.items| ==>
              var path := flows.items[f].items[1].items;
              forall k :: 0 <= k < |path| ==> path[k].PyInt? && 0 <= path[k].i < |servers.items|
    ensures forall s :: 0 <= s < |servers.items| ==> ServerOk(servers.items[s])
  {
    assert forall f :: 0 <= f < |flows.items| ==> FlowOk(flows.items[f], |servers.items| - 1);
  }

  /** The corrected validator accepts nothing the one as written rejects. */
  lemma CustomFixedStricter(servers: PyValue, flows: PyValue)
    ensures CustomNetworkArgumentsFixed(servers, flows).Pass? ==> CustomNetworkArguments(servers, flows).Pass?
  {
    if CustomNetworkArgumentsFixed(servers, flows).Pass? {
      forall f | 0 <= f < |flows.items|
        ensures FlowOk(flows.items[f], |servers.items|)
      {
        assert FlowOk(flows.items[f], |servers.items| - 1);
      }
    }
  }
}
