/** Network descriptors: servers, flows and the edges between servers.

    Curve parameters are kept as exact reals; no floating-point rounding is
    modelled. */
module Descriptors {
  import opened Sorting

  /** A directed edge (source server, destination server). */
  type Edge = (nat, nat)

  /** A forest is a list of edges; validity is decided by `Graph.IsForest`. */
  type Forest = seq<Edge>

  /** Rate-latency service curve beta(t) = rate * (t - latency)+. */
  datatype RateLatency = RateLatency(rate: real, latency: real)

  /** Token-bucket curve gamma(t) = sigma + rho * t. */
  datatype TokenBucket = TokenBucket(sigma: real, rho: real)

  /** A server: its service curves and its shaping (maximum service) curves. */
  datatype Server = Server(serviceCurve: seq<RateLatency>, maxServiceCurve: seq<TokenBucket>)

  /** A flow: its arrival curves and the servers it crosses, in order. */
  datatype Flow = Flow(arrivalCurve: seq<TokenBucket>, path: seq<nat>) {
    function Length(): nat {
      |path|
    }
  }

  /** An immutable network. */
  datatype Network = Network(servers: seq<Server>, flows: seq<Flow>) {
    function NumServers(): nat {
      |servers|
    }

    function NumFlows(): nat {
      |flows|
    }
  }

  /** The sort key of `sorted(edges, key=lambda x: x[0])`. */
  function SrcKey(e: Edge): ExtReal {
    NatKey(e.0)
  }

  /** Both ends of every edge are servers `0 .. n-1`. */
  predicate EdgesInRange(edges: Forest, n: nat) {
    forall i :: 0 <= i < |edges| ==> edges[i].0 < n && edges[i].1 < n
  }
}
