/** `scale_network` (ecowcdb/util/network.py): multiply every rate and burst
    of a network by one factor, keeping latencies and paths.  Factors are
    exact reals; floating-point rounding is not modelled. */
module Scaling {
  import opened Descriptors

  function ScaleService(c: RateLatency, factor: real): RateLatency {
    RateLatency(c.rate * factor, c.latency)
  }

  function ScaleBucket(c: TokenBucket, factor: real): TokenBucket {
    TokenBucket(c.sigma * factor, c.rho * factor)
  }

  function ScaleServer(s: Server, factor: real): Server {
    Server(seq(|s.serviceCurve|, i requires 0 <= i < |s.serviceCurve| => ScaleService(s.serviceCurve[i], factor)),
           seq(|s.maxServiceCurve|, i requires 0 <= i < |s.maxServiceCurve| => ScaleBucket(s.maxServiceCurve[i], factor)))
  }

  function ScaleFlow(f: Flow, factor: real): Flow {
    Flow(seq(|f.arrivalCurve|, i requires 0 <= i < |f.arrivalCurve| => ScaleBucket(f.arrivalCurve[i], factor)), f.path)
  }

  /** The copy built when the factor is not `1.0`. */
  function ScaleAll(net: Network, factor: real): Network {
    Network(seq(|net.servers|, i requires 0 <= i < |net.servers| => ScaleServer(net.servers[i], factor)),
            seq(|net.flows|, i requires 0 <= i < |net.flows| => ScaleFlow(net.flows[i], factor)))
  }

  /** `scale_network(net, factor)`: `net` itself for `1.0`, otherwise a copy
      with every rate, `sigma` and `rho` multiplied by the factor. */
  function ScaleNetwork(net: Network, factor: real): (r: Network)
    ensures |r.servers| == |net.servers| && |r.flows| == |net.flows|
    ensures forall i :: 0 <= i < |r.flows| ==> r.flows[i].path == net.flows[i].path
    ensures forall i :: 0 <= i < |r.flows| ==>
      |r.flows[i].arrivalCurve| == |net.flows[i].arrivalCurve| &&
      forall j :: 0 <= j < |r.flows[i].arrivalCurve| ==>
        r.flows[i].arrivalCurve[j] == TokenBucket(net.flows[i].arrivalCurve[j].sigma * factor,
                                                  net.flows[i].arrivalCurve[j].rho * factor)
    ensures forall i :: 0 <= i < |r.servers| ==>
      |r.servers[i].serviceCurve| == |net.servers[i].serviceCurve| &&
      |r.servers[i].maxServiceCurve| == |net.servers[i].maxServiceCurve| &&
      (forall j :: 0 <= j < |r.servers[i].serviceCurve| ==>
        r.servers[i].serviceCurve[j] == RateLatency(net.servers[i].serviceCurve[j].rate * factor,
                                                    net.servers[i].serviceCurve[j].latency)) &&
      (forall j :: 0 <= j < |r.servers[i].maxServiceCurve| ==>
        r.servers[i].maxServiceCurve[j] == TokenBucket(net.servers[i].maxServiceCurve[j].sigma * factor,
                                                       net.servers[i].maxServiceCurve[j].rho * factor))
  {
    if factor == 1.0 then net else ScaleAll(net, factor)
  }

  /** The shortcut for `1.0` returns what the copy would have been. */
  lemma ScaleByOne(net: Network)
    ensures ScaleAll(net, 1.0) == net
  {
    var r := ScaleAll(net, 1.0);
    forall i | 0 <= i < |net.servers|
      ensures r.servers[i] == net.servers[i]
    {
      var s := net.servers[i];
      assert r.servers[i].serviceCurve == s.serviceCurve;
      assert r.servers[i].maxServiceCurve == s.maxServiceCurve;
    }
    forall i | 0 <= i < |net.flows|
      ensures r.flows[i] == net.flows[i]
    {
      assert r.flows[i].arrivalCurve == net.flows[i].arrivalCurve;
    }
  }

  /** Scaling by `a` and then by `b` is scaling by `a * b`. */
  lemma ScaleCompose(net: Network, a: real, b: real)
    ensures ScaleNetwork(ScaleNetwork(net, a), b) == ScaleNetwork(net, a * b)
  {
    ScaleByOne(net);
    ScaleByOne(ScaleAll(net, a));
    var lhs := ScaleAll(ScaleAll(net, a), b);
    var rhs := ScaleAll(net, a * b);
    forall i | 0 <= i < |net.servers|
      ensures lhs.servers[i] == rhs.servers[i]
    {
      var s := net.servers[i];
      forall j | 0 <= j < |s.serviceCurve|
        ensures lhs.servers[i].serviceCurve[j] == rhs.servers[i].serviceCurve[j]
      {
        assert s.serviceCurve[j].rate * a * b == s.serviceCurve[j].rate * (a * b);
      }
      forall j | 0 <= j < |s.maxServiceCurve|
        ensures lhs.servers[i].maxServiceCurve[j] == rhs.servers[i].maxServiceCurve[j]
      {
        assert s.maxServiceCurve[j].sigma * a * b == s.maxServiceCurve[j].sigma * (a * b);
        assert s.maxServiceCurve[j].rho * a * b == s.maxServiceCurve[j].rho * (a * b);
      }
    }
    forall i | 0 <= i < |net.flows|
      ensures lhs.flows[i] == rhs.flows[i]
    {
      var f := net.flows[i];
      forall j | 0 <= j < |f.arrivalCurve|
        ensures lhs.flows[i].arrivalCurve[j] == rhs.flows[i].arrivalCurve[j]
      {
        assert f.arrivalCurve[j].sigma * a * b == f.arrivalCurve[j].sigma * (a * b);
        assert f.arrivalCurve[j].rho * a * b == f.arrivalCurve[j].rho * (a * b);
      }
    }
    assert lhs == rhs;
  }

  /** Round trip: scaling by a non-zero factor and then by its inverse gives
      the network back. */
  lemma ScaleRoundTrip(net: Network, factor: real)
    requires factor != 0.0
    ensures ScaleNetwork(ScaleNetwork(net, factor), 1.0 / factor) == net
  {
    ScaleCompose(net, factor, 1.0 / factor);
    assert factor * (1.0 / factor) == 1.0;
  }
}
