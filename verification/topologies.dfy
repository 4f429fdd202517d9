/** The topology generators (ecowcdb/networks.py): tandem, ring and mesh
    networks built from integer path lists, and custom networks built from
    validated argument lists. */
module Topologies {
  import opened Wrappers
  import opened Descriptors
  import opened Options
  import opened Validation
  import Symmetry
  import Seqs

  /** `ASYMMETRICITY_FACTOR`: the rate ratio of the favoured flow or server. */
  const AsymmetryFactor: real := 0.8

  /** The failures of a generator: a rejected argument, or the
      `NotImplementedError` of asymmetric meshes. */
  datatype TopologyError = Invalid(error: ValidationError) | NotImplemented

  // ---------------------------------------------------------------------------
  // Integer paths

  /** `list(range(lo, hi))`. */
  function Interval(lo: nat, hi: nat): (r: seq<nat>)
    ensures |r| == if lo <= hi then hi - lo else 0
    ensures forall k :: 0 <= k < |r| ==> r[k] == lo + k
  {
    seq(if lo <= hi then hi - lo else 0, k requires k >= 0 => lo + k)
  }

  /** `range(lo, hi)` holds exactly the integers from `lo` up to `hi`. */
  lemma IntervalMembers(lo: nat, hi: nat, x: nat)
    ensures x in Interval(lo, hi) <==> lo <= x < hi
  {
    if lo <= x < hi {
      assert Interval(lo, hi)[x - lo] == x;
    }
  }

  /** `[p % N for p in range(i, i + len)]`: `len` servers around a ring of
      `N`, starting at server `i`. */
  function RingPath(i: nat, len: nat, N: nat): (r: seq<nat>)
    requires N > 0
    ensures |r| == len
  {
    seq(len, k requires k >= 0 => (i + k) % N)
  }

  /** The number of the first `m` paths that cross server `j`. */
  function Crossing(paths: seq<seq<nat>>, j: nat, m: nat): (c: nat)
    requires m <= |paths|
    ensures c <= m
  {
    if m == 0 then 0 else Crossing(paths, j, m - 1) + (if j in paths[m - 1] then 1 else 0)
  }

  // ---------------------------------------------------------------------------
  // _generic

  /** Server `i` of a generated network: service `RateLatency(R, L)` and
      shaper `TokenBucket(0, R)`, every server after the first running
      `1/0.8` times faster in the asymmetric-server variant. */
  function ServerAt(R: real, L: real, t: NetworkType, i: nat): Server {
    var rate := if t == AsymmetricServer && i > 0 then R / AsymmetryFactor else R;
    Server([RateLatency(rate, L)], [TokenBucket(0.0, rate)])
  }

  /** Flow `i` of a generated network: arrival `TokenBucket(S, rho)`, every
      flow after the first sending at `0.8 * rho` in the asymmetric-flow
      variant. */
  function FlowAt(S: real, rho: real, t: NetworkType, i: nat, path: seq<nat>): Flow {
    Flow([TokenBucket(S, if t == AsymmetricFlow && i > 0 then AsymmetryFactor * rho else rho)], path)
  }

  /** The per-flow rate `load * R / max_flows`. */
  function FlowRate(R: real, load: real, maxFlows: nat): real
    requires maxFlows > 0
  {
    load * R / maxFlows as real
  }

  /** `Networks._generic`: `N` servers and one flow per path, the paths kept
      as given.  The final `raise ValueError` of its `match` is unreachable:
      `NetworkType` has exactly the three handled members. */
  function Generic(R: real, L: real, S: real, N: nat, load: real, maxFlows: nat, paths: seq<seq<nat>>, t: NetworkType): (net: Network)
    requires maxFlows > 0
    ensures net.NumServers() == N && net.NumFlows() == |paths|
    ensures forall i :: 0 <= i < |paths| ==> net.flows[i].path == paths[i]
  {
    Network(seq(N, i requires 0 <= i => ServerAt(R, L, t, i)),
            seq(|paths|, i requires 0 <= i < |paths| => FlowAt(S, FlowRate(R, load, maxFlows), t, i, paths[i])))
  }

  /** In the symmetric variant every server and every flow has the same curves. */
  lemma GenericSymmetric(R: real, L: real, S: real, N: nat, load: real, maxFlows: nat, paths: seq<seq<nat>>)
    requires maxFlows > 0
    ensures var net := Generic(R, L, S, N, load, maxFlows, paths, Symmetric);
      && (forall i :: 0 <= i < N ==> net.servers[i] == Server([RateLatency(R, L)], [TokenBucket(0.0, R)]))
      && (forall i :: 0 <= i < |paths| ==> net.flows[i].arrivalCurve == [TokenBucket(S, load * R / maxFlows as real)])
  {
    var net := Generic(R, L, S, N, load, maxFlows, paths, Symmetric);
    forall i | 0 <= i < N
      ensures net.servers[i] == Server([RateLatency(R, L)], [TokenBucket(0.0, R)])
    {
      assert net.servers[i] == ServerAt(R, L, Symmetric, i);
    }
    forall i | 0 <= i < |paths|
      ensures net.flows[i].arrivalCurve == [TokenBucket(S, load * R / maxFlows as real)]
    {
      assert net.flows[i] == FlowAt(S, FlowRate(R, load, maxFlows), Symmetric, i, paths[i]);
    }
  }

  /** The asymmetric-flow variant differs from the symmetric one only in the
      rates of the flows after the first, which are multiplied by 0.8. */
  lemma GenericAsymmetricFlow(R: real, L: real, S: real, N: nat, load: real, maxFlows: nat, paths: seq<seq<nat>>)
    requires maxFlows > 0
    ensures var sym := Generic(R, L, S, N, load, maxFlows, paths, Symmetric);
      var net := Generic(R, L, S, N, load, maxFlows, paths, AsymmetricFlow);
      && net.servers == sym.servers
      && (|paths| > 0 ==> net.flows[0] == sym.flows[0])
      && (forall i :: 0 < i < |paths| ==>
            net.flows[i] == Flow([TokenBucket(S, AsymmetryFactor * sym.flows[i].arrivalCurve[0].rho)], sym.flows[i].path))
  {
    var sym := Generic(R, L, S, N, load, maxFlows, paths, Symmetric);
    var net := Generic(R, L, S, N, load, maxFlows, paths, AsymmetricFlow);
    assert net.servers == sym.servers;
  }

  /** The asymmetric-server variant differs from the symmetric one only in the
      servers after the first, whose rates are divided by 0.8. */
  lemma GenericAsymmetricServer(R: real, L: real, S: real, N: nat, load: real, maxFlows: nat, paths: seq<seq<nat>>)
    requires maxFlows > 0
    ensures var sym := Generic(R, L, S, N, load, maxFlows, paths, Symmetric);
      var net := Generic(R, L, S, N, load, maxFlows, paths, AsymmetricServer);
      && net.flows == sym.flows
      && (N > 0 ==> net.servers[0] == sym.servers[0])
      && (forall i :: 0 < i < N ==>
            net.servers[i] == Server([RateLatency(R / AsymmetryFactor, L)], [TokenBucket(0.0, R / AsymmetryFactor)]))
  {
    var sym := Generic(R, L, S, N, load, maxFlows, paths, Symmetric);
    var net := Generic(R, L, S, N, load, maxFlows, paths, AsymmetricServer);
    assert net.flows == sym.flows;
  }

  /** The sustained rate flow `f` puts on server `j`. */
  function Contribution(f: Flow, j: nat): real {
    if j in f.path && f.arrivalCurve != [] then f.arrivalCurve[0].rho else 0.0
  }

  /** The sum of the sustained rates of the first `m` flows that cross server `j`. */
  function Arrival(flows: seq<Flow>, j: nat, m: nat): real
    requires m <= |flows|
  {
    if m == 0 then 0.0 else Arrival(flows, j, m - 1) + Contribution(flows[m - 1], j)
  }

  /** Flow `i` of a generated network: one token bucket, sending at most
      the per-flow rate, on the given path. */
  lemma GenericFlow(R: real, L: real, S: real, N: nat, load: real, maxFlows: nat,
                    paths: seq<seq<nat>>, t: NetworkType, i: nat)
    requires maxFlows > 0 && R >= 0.0 && load >= 0.0 && i < |paths|
    ensures var f := Generic(R, L, S, N, load, maxFlows, paths, t).flows[i];
      f.path == paths[i] && |f.arrivalCurve| == 1 && 0.0 <= f.arrivalCurve[0].rho <= FlowRate(R, load, maxFlows)
  {
    assert FlowRate(R, load, maxFlows) >= 0.0;
  }

  /** Flows on the given paths, each sending at most `rho`. */
  predicate RatesBelow(flows: seq<Flow>, paths: seq<seq<nat>>, rho: real) {
    |flows| == |paths| &&
    forall i :: 0 <= i < |flows| ==>
      flows[i].path == paths[i] && (flows[i].arrivalCurve != [] ==> 0.0 <= flows[i].arrivalCurve[0].rho <= rho)
  }

  /** Flows sending at most `rho` each load a server with at most `rho`
      times the number of them that cross it. */
  lemma {:induction false} ArrivalBound(flows: seq<Flow>, paths: seq<seq<nat>>, rho: real, j: nat, m: nat)
    requires RatesBelow(flows, paths, rho) && rho >= 0.0 && m <= |paths|
    ensures Arrival(flows, j, m) <= Crossing(paths, j, m) as real * rho
  {
    if m > 0 {
      ArrivalBound(flows, paths, rho, j, m - 1);
      ContributionBound(flows, paths, rho, j, m - 1);
      AddFlowBound(Arrival(flows, j, m - 1), Contribution(flows[m - 1], j),
                   Crossing(paths, j, m - 1), Crossing(paths, j, m), rho);
    }
  }

  /** Flow `i` adds at most `rho` to a server it crosses and nothing to the others. */
  lemma ContributionBound(flows: seq<Flow>, paths: seq<seq<nat>>, rho: real, j: nat, i: nat)
    requires RatesBelow(flows, paths, rho) && rho >= 0.0 && i < |paths|
    ensures Crossing(paths, j, i + 1) == Crossing(paths, j, i) + (if j in paths[i] then 1 else 0)
    ensures j in paths[i] ==> 0.0 <= Contribution(flows[i], j) <= rho
    ensures j !in paths[i] ==> Contribution(flows[i], j) == 0.0
  {
    assert flows[i].path == paths[i];
  }

  /** One more flow, crossing the server or not, keeps the arrival bound. */
  lemma AddFlowBound(a: real, x: real, c: nat, c': nat, rho: real)
    requires a <= c as real * rho && rho >= 0.0
    requires (c' == c + 1 && 0.0 <= x <= rho) || (c' == c && x == 0.0)
    ensures a + x <= c' as real * rho
  {
    assert (c + 1) as real * rho == c as real * rho + rho;
  }

  /** Each generated flow sends at most `load * R / max_flows`, so the flows
      crossing a server send at most that rate times their number. */
  lemma GenericArrival(R: real, L: real, S: real, N: nat, load: real, maxFlows: nat,
                       paths: seq<seq<nat>>, t: NetworkType, j: nat)
    requires maxFlows > 0 && R >= 0.0 && load >= 0.0
    ensures Arrival(Generic(R, L, S, N, load, maxFlows, paths, t).flows, j, |paths|)
            <= Crossing(paths, j, |paths|) as real * FlowRate(R, load, maxFlows)
  {
    var flows := Generic(R, L, S, N, load, maxFlows, paths, t).flows;
    forall i | 0 <= i < |paths|
      ensures flows[i].path == paths[i] && (flows[i].arrivalCurve != [] ==> 0.0 <= flows[i].arrivalCurve[0].rho <= FlowRate(R, load, maxFlows))
    {
      GenericFlow(R, L, S, N, load, maxFlows, paths, t, i);
    }
    assert FlowRate(R, load, maxFlows) >= 0.0;
    ArrivalBound(flows, paths, FlowRate(R, load, maxFlows), j, |paths|);
  }

  /** Server `j` exists, and the rates of the flows crossing it add up to at
      most `load` times the rate of its service curve. */
  predicate WithinLoad(net: Network, load: real, j: nat) {
    && j < |net.servers| && |net.servers[j].serviceCurve| >= 1
    && Arrival(net.flows, j, |net.flows|) <= load * net.servers[j].serviceCurve[0].rate
  }

  /** When no server is crossed by more than `max_flows` paths, the flows of a
      generated network load every server with at most `load` times its rate. */
  lemma GenericWithinLoad(R: real, L: real, S: real, N: nat, load: real, maxFlows: nat,
                          paths: seq<seq<nat>>, t: NetworkType, j: nat)
    requires maxFlows > 0 && R > 0.0 && load >= 0.0 && j < N
    requires Crossing(paths, j, |paths|) <= maxFlows
    ensures WithinLoad(Generic(R, L, S, N, load, maxFlows, paths, t), load, j)
  {
    var net := Generic(R, L, S, N, load, maxFlows, paths, t);
    GenericArrival(R, L, S, N, load, maxFlows, paths, t, j);
    GenericServerRate(R, L, S, N, load, maxFlows, paths, t, j);
    LoadBound(Arrival(net.flows, j, |net.flows|), Crossing(paths, j, |paths|), maxFlows,
              load, R, net.servers[j].serviceCurve[0].rate);
  }

  /** An arrival of at most `c` flows at the per-flow rate, with `c <= max_flows`,
      is at most `load` times any rate of at least `R`. */
  lemma LoadBound(arrival: real, c: nat, maxFlows: nat, load: real, R: real, rate: real)
    requires 0 < maxFlows && c <= maxFlows && R >= 0.0 && load >= 0.0 && R <= rate
    requires arrival <= c as real * FlowRate(R, load, maxFlows)
    ensures arrival <= load * rate
  {
    var rho := FlowRate(R, load, maxFlows);
    ScaledBound(c, maxFlows, rho, load, R);
    LoadMono(load, R, rate);
  }

  /** No generated server is slower than `R`. */
  lemma GenericServerRate(R: real, L: real, S: real, N: nat, load: real, maxFlows: nat,
                          paths: seq<seq<nat>>, t: NetworkType, j: nat)
    requires maxFlows > 0 && R > 0.0 && j < N
    ensures var s := Generic(R, L, S, N, load, maxFlows, paths, t).servers[j];
      |s.serviceCurve| == 1 && R <= s.serviceCurve[0].rate
  {
    var s := Generic(R, L, S, N, load, maxFlows, paths, t).servers[j];
    assert s == ServerAt(R, L, t, j);
    assert R <= R / AsymmetryFactor;
  }

  /** `c` flows at the per-flow rate send at most `load * R` when `c <= max_flows`. */
  lemma ScaledBound(c: nat, maxFlows: nat, rho: real, load: real, R: real)
    requires 0 < maxFlows && c <= maxFlows && R >= 0.0 && load >= 0.0 && rho == FlowRate(R, load, maxFlows)
    ensures c as real * rho <= load * R
  {
    assert rho >= 0.0;
    assert maxFlows as real * rho == c as real * rho + (maxFlows - c) as real * rho;
    assert (maxFlows - c) as real * rho >= 0.0;
    assert maxFlows as real * rho == load * R;
  }

  lemma LoadMono(load: real, x: real, y: real)
    requires load >= 0.0 && x <= y
    ensures load * x <= load * y
  {
    assert load * y == load * x + load * (y - x);
  }

  // ---------------------------------------------------------------------------
  // Tandem and ring paths

  /** The generated topologies that go through `_generic`. */
  datatype Topology = SinkTree | Interleaved | SourceSink | RingFull | RingSemi | CompleteFull | CompleteSemi

  /** The flows of `Tandem.sink_tree`: one from each server to the last. */
  function SinkTreePaths(N: nat): seq<seq<nat>> {
    seq(N, i requires 0 <= i => Interval(i, N))
  }

  /** The flows of `Tandem.interleaved`: one through all servers, then one
      over each pair of neighbours. */
  function InterleavedPaths(N: nat): seq<seq<nat>> {
    [Interval(0, N)] + seq(if N > 0 then N - 1 else 0, i requires 0 <= i => [i, i + 1])
  }

  /** The flows of `Tandem.source_sink`: one through all servers, then for
      each cut point `i` in `1..N-1` the flow before it and the flow after it. */
  function SourceSinkPaths(N: nat): seq<seq<nat>> {
    [Interval(0, N)]
    + seq(if N > 0 then 2 * (N - 1) else 0,
          m requires 0 <= m => if m % 2 == 0 then Interval(0, m / 2 + 1) else Interval(m / 2 + 1, N))
  }

  /** The flows of `Ring.full` (length `N`) and `Ring.semi` (length
      `N // 2 + 1`): one from each server, around the ring. */
  function RingPaths(N: nat, len: nat): seq<seq<nat>>
    requires N > 0
  {
    seq(N, i requires 0 <= i => RingPath(i, len, N))
  }

  /** The flows of `Ring.complete_full` (`H == N`) and `Ring.complete_semi`
      (`H == N // 2 + 1`): from each server `i` in turn, the paths of lengths
      `H`, `H - 1`, ..., `1`. */
  function CompletePaths(N: nat, H: nat): seq<seq<nat>>
    requires N > 0 && H > 0
  {
    seq(N * H, m requires 0 <= m => RingPath(m / H, H - m % H, N))
  }

  /** The longest path length of the semi rings. */
  function Half(N: nat): nat {
    N / 2 + 1
  }

  function Paths(topo: Topology, N: nat): seq<seq<nat>>
    requires N > 0
  {
    match topo
    case SinkTree => SinkTreePaths(N)
    case Interleaved => InterleavedPaths(N)
    case SourceSink => SourceSinkPaths(N)
    case RingFull => RingPaths(N, N)
    case RingSemi => RingPaths(N, Half(N))
    case CompleteFull => CompletePaths(N, N)
    case CompleteSemi => CompletePaths(N, Half(N))
  }

  /** The `max_flows` each generator passes to `_generic`. */
  function MaxFlows(topo: Topology, N: nat): (r: nat)
    requires N > 0
    ensures r > 0
  {
    match topo
    case SinkTree => N
    case Interleaved => 3
    case SourceSink => N
    case RingFull => N
    case RingSemi => Half(N)
    case CompleteFull => TriangleBound(N); N * (N + 1) / 2
    case CompleteSemi => TriangleBound(Half(N)); Half(N) * (Half(N) + 1) / 2
  }

  lemma TriangleBound(n: nat)
    requires n > 0
    ensures n * (n + 1) / 2 > 0
  {
    Symmetry.MulAtLeast(n, n + 1);
  }

  /** A generator: `generic_arguments` first, then `_generic` on its paths. */
  function Build(R: PyValue, L: PyValue, S: PyValue, N: PyValue, load: PyValue, t: NetworkType, topo: Topology): (r: Result<Network, TopologyError>)
    ensures r.Ok? <==> GenericArguments(R, L, S, N, load).Pass?
    ensures r.Err? ==> r.error == Invalid(GenericArguments(R, L, S, N, load).error)
    ensures r.Ok? ==> r.value.NumServers() == N.i && r.value.flows != []
  {
    var c := GenericArguments(R, L, S, N, load);
    if c.Fail? then Err(Invalid(c.error))
    else Ok(Generic(Num(R), Num(L), Num(S), N.i, load.f, MaxFlows(topo, N.i), Paths(topo, N.i), t))
  }

  // ---------------------------------------------------------------------------
  // Path shapes

  /** Sink tree: flow `i` goes from server `i` to the sink `N - 1`. */
  lemma SinkTreeShape(N: nat)
    ensures |SinkTreePaths(N)| == N
    ensures forall i :: 0 <= i < N ==> SinkTreePaths(N)[i] == Interval(i, N)
    ensures forall i :: 0 <= i < N ==> SinkTreePaths(N)[i][|SinkTreePaths(N)[i]| - 1] == N - 1
  {
  }

  /** Interleaved: the long flow, then `[i, i+1]` for `i` in `0..N-2`. */
  lemma InterleavedShape(N: nat)
    requires N > 0
    ensures |InterleavedPaths(N)| == N
    ensures InterleavedPaths(N)[0] == Interval(0, N)
    ensures forall i :: 1 <= i < N ==> InterleavedPaths(N)[i] == [i - 1, i]
  {
  }

  /** Source-sink: `2N - 1` flows, the long one and then the pairs
      `[0..i-1]`, `[i..N-1]` for `i` in `1..N-1`. */
  lemma SourceSinkShape(N: nat)
    requires N > 0
    ensures |SourceSinkPaths(N)| == 2 * N - 1
    ensures SourceSinkPaths(N)[0] == Interval(0, N)
    ensures forall i :: 1 <= i < N ==>
              SourceSinkPaths(N)[2 * i - 1] == Interval(0, i) && SourceSinkPaths(N)[2 * i] == Interval(i, N)
  {
    var P := SourceSinkPaths(N);
    forall i | 1 <= i < N
      ensures P[2 * i - 1] == Interval(0, i) && P[2 * i] == Interval(i, N)
    {
      assert (2 * i - 2) / 2 == i - 1 && (2 * i - 2) % 2 == 0;
      assert (2 * i - 1) / 2 == i - 1 && (2 * i - 1) % 2 == 1;
    }
  }

  /** A ring path stays on the ring and moves one server forward at each hop. */
  lemma RingPathShape(i: nat, len: nat, N: nat)
    requires N > 0 && i < N
    ensures len > 0 ==> RingPath(i, len, N)[0] == i
    ensures forall k :: 0 <= k < len ==> RingPath(i, len, N)[k] < N
    ensures forall k :: 0 <= k < len - 1 ==> RingPath(i, len, N)[k + 1] == (RingPath(i, len, N)[k] + 1) % N
  {
    var r := RingPath(i, len, N);
    if len > 0 {
      Symmetry.ModUnique(i, 0, i, N);
    }
    forall k | 0 <= k < len - 1
      ensures r[k + 1] == (r[k] + 1) % N
    {
      Symmetry.ModAdd(i + k, 1, N);
    }
  }

  /** Server `j` is the `(j - i) mod N`-th hop of a ring path from `i`. */
  lemma RingPathVisits(i: nat, len: nat, N: nat, j: nat)
    requires N > 0 && i < N && j < N && len > (if j >= i then j - i else j + N - i)
    ensures j in RingPath(i, len, N)
  {
    var k := if j >= i then j - i else j + N - i;
    if j >= i {
      Symmetry.ModUnique(i + k, 0, j, N);
    } else {
      Symmetry.ModUnique(i + k, 1, j, N);
    }
    assert RingPath(i, len, N)[k] == j;
  }

  /** Full ring: every flow visits every server. */
  lemma RingFullVisitsAll(N: nat, i: nat, j: nat)
    requires N > 0 && i < N && j < N
    ensures j in RingPaths(N, N)[i]
  {
    RingPathVisits(i, N, N, j);
  }

  /** `x == i * H + c` with `c < H` determines `x / H` and `x % H`. */
  lemma BlockIndex(i: nat, c: nat, H: nat)
    requires c < H
    ensures (i * H + c) / H == i && (i * H + c) % H == c
  {
    var x := i * H + c;
    Symmetry.ModUnique(x, i, c, H);
    assert x == (x / H) * H + x % H;
  }

  lemma MulMono(a: nat, b: nat, H: nat)
    requires a <= b
    ensures a * H <= b * H
  {
    assert b * H == a * H + (b - a) * H;
  }

  /** Complete rings: the flows from server `i` come in one block, their
      lengths `H`, `H - 1`, ..., `1` in that order. */
  lemma CompleteShape(N: nat, H: nat, i: nat, c: nat)
    requires N > 0 && H > 0 && i < N && c < H
    ensures |CompletePaths(N, H)| == N * H
    ensures i * H + c < N * H
    ensures CompletePaths(N, H)[i * H + c] == RingPath(i, H - c, N)
  {
    BlockIndex(i, c, H);
    assert (i + 1) * H == i * H + H;
    MulMono(i + 1, N, H);
  }

  // ---------------------------------------------------------------------------
  // Server load: `max_flows` bounds the flows crossing any server

  lemma {:induction false} SinkTreeCrossing(N: nat, j: nat, m: nat)
    requires j < N && m <= N
    ensures Crossing(SinkTreePaths(N), j, m) == if m <= j + 1 then m else j + 1
  {
    if m > 0 {
      SinkTreeCrossing(N, j, m - 1);
      assert SinkTreePaths(N)[m - 1] == Interval(m - 1, N);
      IntervalMembers(m - 1, N, j);
    }
  }

  lemma {:induction false} InterleavedCrossing(N: nat, j: nat, m: nat)
    requires j < N && 1 <= m <= N
    ensures Crossing(InterleavedPaths(N), j, m)
            == 1 + (if j < m - 1 then 1 else 0) + (if 1 <= j <= m - 1 then 1 else 0)
  {
    var P := InterleavedPaths(N);
    if m == 1 {
      assert P[0] == Interval(0, N);
      IntervalMembers(0, N, j);
    } else {
      InterleavedCrossing(N, j, m - 1);
      assert P[m - 1] == [m - 2, m - 1];
    }
  }

  /** The pair of source-sink flows cut at server `q`. */
  lemma SourceSinkPair(N: nat, q: nat)
    requires 1 <= q < N
    ensures |SourceSinkPaths(N)| == 2 * N - 1
    ensures SourceSinkPaths(N)[2 * q - 1] == Interval(0, q)
    ensures SourceSinkPaths(N)[2 * q] == Interval(q, N)
  {
    assert (2 * q - 2) / 2 == q - 1 && (2 * q - 2) % 2 == 0;
    assert (2 * q - 1) / 2 == q - 1 && (2 * q - 1) % 2 == 1;
  }

  lemma CrossingTwo(paths: seq<seq<nat>>, j: nat, m: nat)
    requires m + 2 <= |paths|
    ensures Crossing(paths, j, m + 2)
            == Crossing(paths, j, m) + (if j in paths[m] then 1 else 0) + (if j in paths[m + 1] then 1 else 0)
  {
  }

  lemma {:induction false} SourceSinkCrossing(N: nat, j: nat, q: nat)
    requires j < N && q < N
    ensures Crossing(SourceSinkPaths(N), j, 2 * q + 1) == q + 1
  {
    var P := SourceSinkPaths(N);
    if q == 0 {
      assert P[0] == Interval(0, N);
      IntervalMembers(0, N, j);
    } else {
      SourceSinkCrossing(N, j, q - 1);
      SourceSinkPair(N, q);
      IntervalMembers(0, q, j);
      IntervalMembers(q, N, j);
      CrossingTwo(P, j, 2 * q - 1);
    }
  }

  /** Every server of a sink tree is crossed by at most `N` flows, the sink by all `N`. */
  lemma SinkTreeLoad(N: nat, j: nat)
    requires j < N
    ensures Crossing(SinkTreePaths(N), j, N) <= N
    ensures j == N - 1 ==> Crossing(SinkTreePaths(N), j, N) == N
  {
    SinkTreeCrossing(N, j, N);
  }

  /** Every server of an interleaved tandem is crossed by at most 3 flows,
      every inner server by exactly 3. */
  lemma InterleavedLoad(N: nat, j: nat)
    requires j < N
    ensures |InterleavedPaths(N)| == N
    ensures Crossing(InterleavedPaths(N), j, N) <= 3
    ensures 1 <= j < N - 1 ==> Crossing(InterleavedPaths(N), j, N) == 3
  {
    InterleavedCrossing(N, j, N);
  }

  /** Every server of a source-sink tandem is crossed by exactly `N` flows:
      the long one and one flow of each pair. */
  lemma SourceSinkLoad(N: nat, j: nat)
    requires j < N
    ensures |SourceSinkPaths(N)| == 2 * N - 1
    ensures Crossing(SourceSinkPaths(N), j, 2 * N - 1) == N
  {
    SourceSinkCrossing(N, j, N - 1);
  }

  /** For the sink tree, the interleaved and source-sink tandems and the full
      ring, no server is crossed by more than `max_flows` flows. */
  lemma CrossingBound(topo: Topology, N: nat, j: nat)
    requires N > 0 && j < N
    requires topo == SinkTree || topo == Interleaved || topo == SourceSink || topo == RingFull
    ensures Crossing(Paths(topo, N), j, |Paths(topo, N)|) <= MaxFlows(topo, N)
  {
    match topo
    case SinkTree => SinkTreeLoad(N, j);
    case Interleaved => InterleavedLoad(N, j);
    case SourceSink => SourceSinkLoad(N, j);
    case RingFull =>
  }

  /** For these four generators the flows never load a server beyond
      `load` times its service rate. */
  lemma BuildWithinLoad(R: PyValue, L: PyValue, S: PyValue, N: PyValue, load: PyValue, t: NetworkType, topo: Topology, j: nat)
    requires Build(R, L, S, N, load, t, topo).Ok?
    requires topo == SinkTree || topo == Interleaved || topo == SourceSink || topo == RingFull
    requires j < N.i
    ensures WithinLoad(Build(R, L, S, N, load, t, topo).value, load.f, j)
  {
    BuildIsGeneric(R, L, S, N, load, t, topo);
    CrossingBound(topo, N.i, j);
    GenericWithinLoad(Num(R), Num(L), Num(S), N.i, load.f, MaxFlows(topo, N.i), Paths(topo, N.i), t, j);
  }

  /** A successful generator call is `_generic` on accepted arguments. */
  lemma BuildIsGeneric(R: PyValue, L: PyValue, S: PyValue, N: PyValue, load: PyValue, t: NetworkType, topo: Topology)
    requires Build(R, L, S, N, load, t, topo).Ok?
    ensures Num(R) > 0.0 && load.f >= 0.0 && N.i > 0
    ensures Build(R, L, S, N, load, t, topo).value
            == Generic(Num(R), Num(L), Num(S), N.i, load.f, MaxFlows(topo, N.i), Paths(topo, N.i), t)
  {
    assert GenericArguments(R, L, S, N, load).Pass?;
  }

  // ---------------------------------------------------------------------------
  // Mesh.simple

  /** `product((2*lo, 2*lo+1), ..., (2*(N-1), 2*N-1))` in `itertools` order:
      the first position varies slowest. */
  function Choices(lo: nat, N: nat): (r: seq<seq<nat>>)
    decreases N - lo
  {
    if lo >= N then [[]]
    else
      var rest := Choices(lo + 1, N);
      seq(|rest|, m requires 0 <= m < |rest| => [2 * lo] + rest[m])
      + seq(|rest|, m requires 0 <= m < |rest| => [2 * lo + 1] + rest[m])
  }

  function Pow2(n: nat): (r: nat)
    ensures r > 0
  {
    if n == 0 then 1 else 2 * Pow2(n - 1)
  }

  /** A row choice from column `lo` on: position `k` is one of the two
      servers `2(lo+k)`, `2(lo+k)+1` of its column. */
  predicate IsChoice(c: seq<nat>, lo: nat, N: nat) {
    |c| == (if lo <= N then N - lo else 0)
    && forall k :: 0 <= k < |c| ==> c[k] / 2 == lo + k
  }

  lemma {:induction false} ChoicesShape(lo: nat, N: nat)
    ensures |Choices(lo, N)| == Pow2(if lo <= N then N - lo else 0)
    ensures forall m :: 0 <= m < |Choices(lo, N)| ==> IsChoice(Choices(lo, N)[m], lo, N)
    decreases N - lo
  {
    if lo < N {
      ChoicesShape(lo + 1, N);
      var rest := Choices(lo + 1, N);
      var r := Choices(lo, N);
      forall m | 0 <= m < |r|
        ensures IsChoice(r[m], lo, N)
      {
        var c := rest[if m < |rest| then m else m - |rest|];
        assert IsChoice(c, lo + 1, N);
        assert r[m] == [if m < |rest| then 2 * lo else 2 * lo + 1] + c;
      }
    }
  }

  /** Every row choice appears, so the mesh has all `2^N` flows. */
  lemma {:induction false} ChoicesComplete(lo: nat, N: nat, c: seq<nat>)
    requires IsChoice(c, lo, N)
    ensures c in Choices(lo, N)
    decreases N - lo
  {
    if lo < N {
      assert IsChoice(c[1..], lo + 1, N) by {
        forall k | 0 <= k < |c[1..]|
          ensures c[1..][k] / 2 == lo + 1 + k
        {
          assert c[1..][k] == c[k + 1];
        }
      }
      ChoicesComplete(lo + 1, N, c[1..]);
      var rest := Choices(lo + 1, N);
      var m :| 0 <= m < |rest| && rest[m] == c[1..];
      assert c == [c[0]] + c[1..];
      assert c[0] == 2 * lo || c[0] == 2 * lo + 1;
      var r := Choices(lo, N);
      if c[0] == 2 * lo {
        assert r[m] == c;
      } else {
        assert r[|rest| + m] == c;
      }
    } else {
      assert c == [];
    }
  }

  /** No row choice appears twice. */
  lemma {:induction false} ChoicesDistinct(lo: nat, N: nat)
    ensures Seqs.NoDups(Choices(lo, N))
    decreases N - lo
  {
    if lo < N {
      ChoicesDistinct(lo + 1, N);
      ChoicesShape(lo + 1, N);
      var rest := Choices(lo + 1, N);
      var r := Choices(lo, N);
      forall a, b | 0 <= a < b < |r|
        ensures r[a] != r[b]
      {
        var ia := if a < |rest| then a else a - |rest|;
        var ib := if b < |rest| then b else b - |rest|;
        assert r[a] == [r[a][0]] + rest[ia];
        assert r[b] == [r[b][0]] + rest[ib];
        if (a < |rest|) != (b < |rest|) {
          assert r[a][0] != r[b][0];
        } else {
          assert rest[ia] != rest[ib];
          assert r[a][1..] == rest[ia] && r[b][1..] == rest[ib];
        }
      }
    }
  }

  /** The flows of `Mesh.simple`: every row choice followed by the sink `2N`. */
  function MeshPaths(N: nat): seq<seq<nat>> {
    var C := Choices(0, N);
    seq(|C|, m requires 0 <= m < |C| => C[m] + [2 * N])
  }

  /** `Mesh.simple`: `generic_arguments`, then `NotImplementedError` unless
      symmetric, then `2N` row servers and a sink serving at `2R`; each flow
      sends at `load * R / 2^(N-1)`. */
  function Mesh(R: PyValue, L: PyValue, S: PyValue, N: PyValue, load: PyValue, t: NetworkType): (r: Result<Network, TopologyError>)
    ensures GenericArguments(R, L, S, N, load).Fail? ==> r == Err(Invalid(GenericArguments(R, L, S, N, load).error))
    ensures r.Ok? <==> GenericArguments(R, L, S, N, load).Pass? && t == Symmetric
    ensures r.Ok? ==> r.value.NumServers() == 2 * N.i + 1 && r.value.NumFlows() == Pow2(N.i)
  {
    var c := GenericArguments(R, L, S, N, load);
    if c.Fail? then Err(Invalid(c.error))
    else if t != Symmetric then Err(NotImplemented)
    else
      var rate := Num(R);
      var server := Server([RateLatency(rate, Num(L))], [TokenBucket(0.0, rate)]);
      var sink := Server([RateLatency(2.0 * rate, Num(L))], [TokenBucket(0.0, 2.0 * rate)]);
      var paths := MeshPaths(N.i);
      ChoicesShape(0, N.i);
      Ok(Network(seq(2 * N.i, _ => server) + [sink],
                 seq(|paths|, m requires 0 <= m < |paths| => Flow([TokenBucket(Num(S), load.f * rate / Pow2(N.i - 1) as real)], paths[m]))))
  }

  /** The mesh flows are exactly the `2^N` distinct paths that take one
      server of each column and end at the sink. */
  lemma MeshPathsExact(N: nat, p: seq<nat>)
    ensures |MeshPaths(N)| == Pow2(N)
    ensures Seqs.NoDups(MeshPaths(N))
    ensures p in MeshPaths(N) <==> |p| == N + 1 && p[N] == 2 * N && IsChoice(p[..N], 0, N)
  {
    ChoicesShape(0, N);
    MeshPathsDistinct(N);
    if p in MeshPaths(N) {
      MeshPathIsChoice(N, p);
    }
    if |p| == N + 1 && p[N] == 2 * N && IsChoice(p[..N], 0, N) {
      ChoiceIsMeshPath(N, p);
    }
  }

  /** Mesh path `m` is row choice `m` followed by the sink. */
  lemma MeshPathAt(N: nat, m: nat)
    requires m < |Choices(0, N)|
    ensures |MeshPaths(N)| == |Choices(0, N)| && |Choices(0, N)[m]| == N
    ensures MeshPaths(N)[m] == Choices(0, N)[m] + [2 * N] && MeshPaths(N)[m][..N] == Choices(0, N)[m]
  {
    ChoicesShape(0, N);
    assert |Choices(0, N)[m]| == N;
  }

  lemma MeshPathsDistinct(N: nat)
    ensures Seqs.NoDups(MeshPaths(N))
  {
    var C := Choices(0, N);
    var P := MeshPaths(N);
    ChoicesDistinct(0, N);
    forall a, b | 0 <= a < b < |P|
      ensures P[a] != P[b]
    {
      MeshPathAt(N, a);
      MeshPathAt(N, b);
    }
  }

  lemma MeshPathIsChoice(N: nat, p: seq<nat>)
    requires p in MeshPaths(N)
    ensures |p| == N + 1 && p[N] == 2 * N && IsChoice(p[..N], 0, N)
  {
    var P := MeshPaths(N);
    var m :| 0 <= m < |P| && P[m] == p;
    MeshPathAt(N, m);
    ChoicesShape(0, N);
  }

  lemma ChoiceIsMeshPath(N: nat, p: seq<nat>)
    requires |p| == N + 1 && p[N] == 2 * N && IsChoice(p[..N], 0, N)
    ensures p in MeshPaths(N)
  {
    var C := Choices(0, N);
    ChoicesComplete(0, N, p[..N]);
    var m :| 0 <= m < |C| && C[m] == p[..N];
    MeshPathAt(N, m);
    assert p == p[..N] + [2 * N];
  }

  // ---------------------------------------------------------------------------
  // Networks.custom

  function RateLatencies(v: PyValue): (r: seq<RateLatency>)
    requires CurvesOk(v)
    ensures |r| == |v.items|
  {
    seq(|v.items|, k requires 0 <= k < |v.items| => RateLatency(v.items[k].items[0].f, v.items[k].items[1].f))
  }

  function TokenBuckets(v: PyValue): (r: seq<TokenBucket>)
    requires CurvesOk(v)
    ensures |r| == |v.items|
  {
    seq(|v.items|, k requires 0 <= k < |v.items| => TokenBucket(v.items[k].items[0].f, v.items[k].items[1].f))
  }

  function ServerOf(v: PyValue): Server
    requires ServerOk(v)
  {
    Server(RateLatencies(v.items[0]), TokenBuckets(v.items[1]))
  }

  function FlowOf(v: PyValue, bound: int): Flow
    requires FlowOk(v, bound)
  {
    var ids := v.items[1].items;
    Flow(TokenBuckets(v.items[0]), seq(|ids|, k requires 0 <= k < |ids| => ids[k].i as nat))
  }

  /** The network `custom` builds from arguments accepted with the bound
      `bound`: one server per server argument and one flow per flow
      argument, curves and paths copied verbatim. */
  function BuildCustom(servers: PyValue, flows: PyValue, bound: int): (r: Network)
    requires CustomWithBound(servers, flows, bound).Pass?
    ensures r.NumServers() == |servers.items| && r.NumFlows() == |flows.items|
    ensures forall f :: 0 <= f < |flows.items| ==> r.flows[f] == FlowOf(flows.items[f], bound)
  {
    Network(seq(|servers.items|, s requires 0 <= s < |servers.items| => ServerOf(servers.items[s])),
            seq(|flows.items|, f requires 0 <= f < |flows.items| => FlowOf(flows.items[f], bound)))
  }

  /** `Networks.custom` as written: validated with the inclusive bound of
      `custom_network_arguments`, so a path may name the server id
      `len(servers_args)`, which does not exist. */
  function Custom(servers: PyValue, flows: PyValue): (r: Result<Network, TopologyError>)
    ensures r.Ok? <==> CustomNetworkArguments(servers, flows).Pass?
    ensures r.Err? ==> r.error == Invalid(CustomNetworkArguments(servers, flows).error)
    ensures r.Ok? ==> r.value.NumServers() == |servers.items| && r.value.NumFlows() == |flows.items|
    ensures r.Ok? ==> forall f, k :: 0 <= f < |r.value.flows| && 0 <= k < |r.value.flows[f].path| ==>
                        r.value.flows[f].path[k] <= r.value.NumServers()
  {
    var c := CustomNetworkArguments(servers, flows);
    if c.Fail? then Err(Invalid(c.error))
    else
      var bound := |servers.items|;
      assert forall f :: 0 <= f < |flows.items| ==> FlowOk(flows.items[f], bound);
      Ok(BuildCustom(servers, flows, bound))
  }

  /** `Networks.custom` with the corrected server-id bound: every path id
      names an existing server. */
  function CustomFixed(servers: PyValue, flows: PyValue): (r: Result<Network, TopologyError>)
    ensures r.Ok? <==> CustomNetworkArgumentsFixed(servers, flows).Pass?
    ensures r.Ok? ==> r.value.NumServers() == |servers.items| && r.value.NumFlows() == |flows.items|
    ensures r.Ok? ==> forall f, k :: 0 <= f < |r.value.flows| && 0 <= k < |r.value.flows[f].path| ==>
                        r.value.flows[f].path[k] < r.value.NumServers()
  {
    var c := CustomNetworkArgumentsFixed(servers, flows);
    if c.Fail? then Err(Invalid(c.error))
    else
      CustomFixedInRange(servers, flows);
      var bound := |servers.items| - 1;
      assert forall f :: 0 <= f < |flows.items| ==> FlowOk(flows.items[f], bound);
      Ok(BuildCustom(servers, flows, bound))
  }

  /** Where the corrected builder succeeds, the one as written builds the
      same network; it differs only by also accepting a path through the
      missing server `len(servers_args)`. */
  lemma CustomFixedAgrees(servers: PyValue, flows: PyValue)
    ensures CustomFixed(servers, flows).Ok? ==> Custom(servers, flows) == CustomFixed(servers, flows)
  {
    if CustomFixed(servers, flows).Ok? {
      CustomFixedStricter(servers, flows);
      var n := |servers.items|;
      assert forall f :: 0 <= f < |flows.items| ==> FlowOk(flows.items[f], n - 1) && FlowOk(flows.items[f], n);
      var a := Custom(servers, flows).value;
      var b := CustomFixed(servers, flows).value;
      assert a.servers == b.servers;
      forall f | 0 <= f < |flows.items|
        ensures a.flows[f] == b.flows[f]
      {
        assert FlowOf(flows.items[f], n) == FlowOf(flows.items[f], n - 1);
      }
      assert a.flows == b.flows;
    }
  }

  /** As written, one server and a flow with path `[1]` build a network
      whose flow crosses a server that does not exist; the corrected builder
      refuses it. */
  lemma CustomBuildsMissingServer()
    ensures var servers := PyList([PyTuple([PyList([]), PyList([])])]);
            var flows := PyList([PyTuple([PyList([]), PyList([PyInt(1)])])]);
            var r := Custom(servers, flows);
            && r.Ok? && r.value.flows[0].path == [1] && r.value.NumServers() == 1
            && CustomFixed(servers, flows).Err?
  {
    var servers := PyList([PyTuple([PyList([]), PyList([])])]);
    var flows := PyList([PyTuple([PyList([]), PyList([PyInt(1)])])]);
    CustomAcceptsMissingServer();
    var r := Custom(servers, flows);
    assert FlowOk(flows.items[0], 1);
    assert r.value.flows[0] == FlowOf(flows.items[0], 1);
    assert FlowOf(flows.items[0], 1).path == [1];
    assert !FlowOk(flows.items[0], 0);
  }

  /** The argument lists a network is built from: the inverse of `Custom`. */
  function CurveArgs(a: real, b: real): PyValue {
    PyTuple([PyFloat(a), PyFloat(b)])
  }

  function ServerArgs(s: Server): PyValue {
    PyTuple([PyList(seq(|s.serviceCurve|, k requires 0 <= k < |s.serviceCurve| => CurveArgs(s.serviceCurve[k].rate, s.serviceCurve[k].latency))),
             PyList(seq(|s.maxServiceCurve|, k requires 0 <= k < |s.maxServiceCurve| => CurveArgs(s.maxServiceCurve[k].sigma, s.maxServiceCurve[k].rho)))])
  }

  function FlowArgs(f: Flow): PyValue {
    PyTuple([PyList(seq(|f.arrivalCurve|, k requires 0 <= k < |f.arrivalCurve| => CurveArgs(f.arrivalCurve[k].sigma, f.arrivalCurve[k].rho))),
             PyList(seq(|f.path|, k requires 0 <= k < |f.path| => PyInt(f.path[k])))])
  }

  /** Every curve parameter is non-negative and every path names an existing
      server: the networks `custom` can build. */
  predicate WellFormed(net: Network) {
    && (forall s :: 0 <= s < |net.servers| ==> ServerCurvesOk(net.servers[s]))
    && (forall f :: 0 <= f < |net.flows| ==> FlowWellFormed(net.flows[f], |net.servers|))
  }

  predicate ServerCurvesOk(s: Server) {
    && (forall k :: 0 <= k < |s.serviceCurve| ==> s.serviceCurve[k].rate >= 0.0 && s.serviceCurve[k].latency >= 0.0)
    && (forall k :: 0 <= k < |s.maxServiceCurve| ==> s.maxServiceCurve[k].sigma >= 0.0 && s.maxServiceCurve[k].rho >= 0.0)
  }

  predicate FlowWellFormed(f: Flow, n: nat) {
    && (forall k :: 0 <= k < |f.arrivalCurve| ==> f.arrivalCurve[k].sigma >= 0.0 && f.arrivalCurve[k].rho >= 0.0)
    && (forall k :: 0 <= k < |f.path| ==> f.path[k] < n)
  }

  lemma ServerArgsRoundTrip(s: Server)
    requires ServerCurvesOk(s)
    ensures ServerOk(ServerArgs(s)) && ServerOf(ServerArgs(s)) == s
  {
    var v := ServerArgs(s);
    assert CurvesOk(v.items[0]) && CurvesOk(v.items[1]);
    assert RateLatencies(v.items[0]) == s.serviceCurve;
    assert TokenBuckets(v.items[1]) == s.maxServiceCurve;
  }

  lemma FlowArgsRoundTrip(f: Flow, n: nat)
    requires FlowWellFormed(f, n)
    ensures FlowOk(FlowArgs(f), n - 1) && FlowOf(FlowArgs(f), n - 1) == f
  {
    var v := FlowArgs(f);
    assert CurvesOk(v.items[0]);
    assert FlowOk(v, n - 1);
    assert TokenBuckets(v.items[0]) == f.arrivalCurve;
    assert FlowOf(v, n - 1).path == f.path;
  }

  /** Every well-formed network is rebuilt exactly from its own argument
      lists, by the builder as written and by the corrected one. */
  lemma CustomRoundTrip(net: Network)
    requires WellFormed(net)
    ensures var servers := PyList(seq(|net.servers|, s requires 0 <= s < |net.servers| => ServerArgs(net.servers[s])));
      var flows := PyList(seq(|net.flows|, f requires 0 <= f < |net.flows| => FlowArgs(net.flows[f])));
      CustomFixed(servers, flows) == Ok(net) && Custom(servers, flows) == Ok(net)
  {
    var servers := PyList(seq(|net.servers|, s requires 0 <= s < |net.servers| => ServerArgs(net.servers[s])));
    var flows := PyList(seq(|net.flows|, f requires 0 <= f < |net.flows| => FlowArgs(net.flows[f])));
    var n := |net.servers|;
    forall s | 0 <= s < n
      ensures ServerOk(servers.items[s]) && ServerOf(servers.items[s]) == net.servers[s]
    {
      ServerArgsRoundTrip(net.servers[s]);
    }
    forall f | 0 <= f < |net.flows|
      ensures FlowOk(flows.items[f], n - 1) && FlowOf(flows.items[f], n - 1) == net.flows[f]
    {
      FlowArgsRoundTrip(net.flows[f], n);
    }
    assert CustomWithBound(servers, flows, n - 1).Pass?;
    var r := CustomFixed(servers, flows);
    assert r.value.servers == net.servers;
    assert r.value.flows == net.flows;
    CustomFixedAgrees(servers, flows);
  }
}
