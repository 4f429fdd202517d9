/** `is_forest` (ecowcdb/util/network.py): the validity test of a forest.

    The graph is the one induced by the forest's edges on servers `0 .. n-1`
    (panco's `decomposition`, which is not part of this model).  Successor
    lists are taken as sets: an edge listed twice is one successor.  panco's
    depth-first search, which reports a cycle by raising, is modelled by
    following the unique successor from every server: when every server has at
    most one successor, a server lies on or leads into a cycle exactly when
    that walk never reaches a server without successor. */
module Graph {
  import opened Wrappers
  import opened Descriptors
  import opened Seqs

  /** The destinations of the edges leaving `v`. */
  function Successors(edges: Forest, v: nat): set<nat> {
    set i | 0 <= i < |edges| && edges[i].0 == v :: edges[i].1
  }

  /** The destination of the first edge leaving `v`, if any. */
  function Next(edges: Forest, v: nat): (r: Option<nat>)
    ensures r.Some? ==> (v, r.value) in edges
    ensures r.None? <==> forall i :: 0 <= i < |edges| ==> edges[i].0 != v
  {
    if edges == [] then None
    else if edges[0].0 == v then Some(edges[0].1)
    else Next(edges[1..], v)
  }

  /** Following successors from `v` reaches a server with no successor
      within `steps` steps. */
  predicate WalkStops(edges: Forest, v: nat, steps: nat)
    decreases steps
  {
    match Next(edges, v)
    case None => true
    case Some(w) => steps > 0 && WalkStops(edges, w, steps - 1)
  }

  /** `is_forest`: every server has at most one successor, and no walk from a
      server runs into a cycle.  Connectivity is not required. */
  predicate IsForest(edges: Forest, n: nat) {
    && (forall v :: 0 <= v < n ==> |Successors(edges, v)| <= 1)
    && (forall v :: 0 <= v < n ==> WalkStops(edges, v, n))
  }

  /** No server is the source of two edges with different destinations. */
  predicate UniqueSuccessor(edges: Forest) {
    forall i, j :: 0 <= i < |edges| && 0 <= j < |edges| && edges[i].0 == edges[j].0 ==> edges[i].1 == edges[j].1
  }

  /** A closed walk of at least one edge. */
  ghost predicate IsCycle(edges: Forest, c: seq<nat>) {
    && |c| >= 2
    && c[0] == c[|c| - 1]
    && forall i :: 0 <= i < |c| - 1 ==> (c[i], c[i + 1]) in edges
  }

  ghost predicate HasCycle(edges: Forest) {
    exists c :: IsCycle(edges, c)
  }

  lemma TwoElements(s: set<nat>, a: nat, b: nat)
    requires a in s && b in s && a != b
    ensures |s| >= 2
  {
    assert {a, b} <= s;
    Subset({a, b}, s);
  }

  /** The out-degree test is the pairwise "same source, same destination". */
  lemma OutDegreeUnique(edges: Forest, n: nat)
    requires EdgesInRange(edges, n)
    ensures (forall v :: 0 <= v < n ==> |Successors(edges, v)| <= 1) <==> UniqueSuccessor(edges)
  {
    if forall v :: 0 <= v < n ==> |Successors(edges, v)| <= 1 {
      forall i, j | 0 <= i < |edges| && 0 <= j < |edges| && edges[i].0 == edges[j].0
        ensures edges[i].1 == edges[j].1
      {
        var v := edges[i].0;
        assert edges[i].1 in Successors(edges, v) && edges[j].1 in Successors(edges, v);
        if edges[i].1 != edges[j].1 {
          TwoElements(Successors(edges, v), edges[i].1, edges[j].1);
        }
      }
    }
    if UniqueSuccessor(edges) {
      forall v | 0 <= v < n
        ensures |Successors(edges, v)| <= 1
      {
        var s := Successors(edges, v);
        if s != {} {
          var w :| w in s;
          assert s == {w};
        }
      }
    }
  }

  /** With unique successors, `Next` finds the one successor of a source. */
  lemma NextOfEdge(edges: Forest, v: nat, w: nat)
    requires UniqueSuccessor(edges)
    requires (v, w) in edges
    ensures Next(edges, v) == Some(w)
  {
    var r := Next(edges, v);
    var i :| 0 <= i < |edges| && edges[i] == (v, w);
    var j :| 0 <= j < |edges| && edges[j] == (v, r.value);
  }

  /** A walk started on a cycle never stops. */
  lemma {:induction false} CycleNeverStops(edges: Forest, c: seq<nat>, i: nat, steps: nat)
    requires UniqueSuccessor(edges)
    requires IsCycle(edges, c)
    requires i < |c| - 1
    ensures !WalkStops(edges, c[i], steps)
    decreases steps
  {
    NextOfEdge(edges, c[i], c[i + 1]);
    if steps > 0 {
      var k := if i + 1 == |c| - 1 then 0 else i + 1;
      assert c[k] == c[i + 1];
      CycleNeverStops(edges, c, k, steps - 1);
    }
  }

  /** The first `k + 1` servers of a walk from `v` that does not stop within
      `k` steps. */
  function Walk(edges: Forest, v: nat, k: nat): (p: seq<nat>)
    requires !WalkStops(edges, v, k)
    ensures |p| == k + 1 && p[0] == v
    ensures forall i :: 0 <= i < k ==> (p[i], p[i + 1]) in edges
    decreases k
  {
    var w := Next(edges, v).value;
    if k == 0 then [v]
    else
      var rest := Walk(edges, w, k - 1);
      var p := [v] + rest;
      assert forall i :: 1 <= i < k ==> p[i] == rest[i - 1] && p[i + 1] == rest[i];
      p
  }

  /** A walk that does not stop within `n` steps repeats a server, so it
      contains a cycle. */
  lemma LongWalkHasCycle(edges: Forest, n: nat, v: nat)
    requires EdgesInRange(edges, n)
    requires v < n
    requires !WalkStops(edges, v, n)
    ensures HasCycle(edges)
  {
    var p := Walk(edges, v, n);
    forall i | 0 <= i < |p|
      ensures p[i] < n
    {
      if i > 0 {
        var e := (p[i - 1], p[i]);
        assert e in edges;
        var j :| 0 <= j < |edges| && edges[j] == e;
      }
    }
    Pigeonhole(p, n);
    var i, j :| 0 <= i < j < |p| && p[i] == p[j];
    var c := p[i..j + 1];
    assert forall m :: 0 <= m < |c| ==> c[m] == p[i + m];
    assert IsCycle(edges, c);
  }

  /** `is_forest` decides exactly: unique successors and no cycle. */
  lemma IsForestIff(edges: Forest, n: nat)
    requires EdgesInRange(edges, n)
    ensures IsForest(edges, n) <==> UniqueSuccessor(edges) && !HasCycle(edges)
  {
    OutDegreeUnique(edges, n);
    if IsForest(edges, n) && HasCycle(edges) {
      var c :| IsCycle(edges, c);
      var e := (c[0], c[1]);
      assert e in edges;
      var j :| 0 <= j < |edges| && edges[j] == e;
      CycleNeverStops(edges, c, 0, n);
    }
    if UniqueSuccessor(edges) && !HasCycle(edges) {
      forall v | 0 <= v < n
        ensures WalkStops(edges, v, n)
      {
        if !WalkStops(edges, v, n) {
          LongWalkHasCycle(edges, n, v);
        }
      }
    }
  }

  /** The empty forest is valid on any number of servers. */
  lemma EmptyIsForest(n: nat)
    ensures IsForest([], n)
  {
    forall v | 0 <= v < n
      ensures Successors([], v) == {}
    {
    }
  }

  /** The empty forest is valid, and so is a single edge between two distinct
      servers; a self-loop is not. */
  lemma SmallForests(n: nat, u: nat, v: nat)
    requires u < n && v < n
    ensures IsForest([], n)
    ensures IsForest([(u, v)], n) <==> u != v
  {
    EmptyIsForest(n);
    IsForestIff([(u, v)], n);
    if u == v {
      assert IsCycle([(u, v)], [u, u]);
    } else {
      forall c
        ensures !IsCycle([(u, v)], c)
      {
        if |c| > 2 {
          assert (c[1], c[2]) in [(u, v)] ==> c[1] == u;
        }
      }
    }
  }
}
