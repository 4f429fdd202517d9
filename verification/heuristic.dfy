/** `flow_preserving_min_depth_max_forest` (ecowcdb/util/network.py) and its
    helpers `__path_to_edges` and `__edges_to_reverse_adj_list`: the forest
    that keeps a flow's path and then grows by breadth-first search against
    the edge direction, the shallowest server first, cutting below
    `max_depth`. */
module Heuristic {
  import opened Wrappers
  import opened Sorting
  import opened Seqs
  import opened Descriptors
  import opened Graph

  /** The Python `IndexError`s the function can raise. */
  datatype HeuristicError =
    | FlowPathTooShort   // `flow_edges[-1]` on a path of fewer than two servers
    | ServerOutOfRange   // a server index at or beyond `N` in the adjacency list

  // ---------------------------------------------------------------------------
  // Path edges

  /** `__path_to_edges(path)`: the consecutive pairs of the path. */
  function PathToEdges(path: seq<nat>): (r: Forest)
    ensures |r| == if |path| == 0 then 0 else |path| - 1
    ensures forall i :: 0 <= i < |r| ==> r[i] == (path[i], path[i + 1])
  {
    if |path| == 0 then [] else seq(|path| - 1, i requires 0 <= i < |path| - 1 => (path[i], path[i + 1]))
  }

  /** The path an edge chain describes, starting at `start`. */
  function EdgesToPath(start: nat, es: Forest): seq<nat> {
    [start] + seq(|es|, i requires 0 <= i < |es| => es[i].1)
  }

  /** Round trip: the path is recovered from its first server and its edges. */
  lemma PathEdgesRoundTrip(path: seq<nat>)
    requires |path| >= 1
    ensures EdgesToPath(path[0], PathToEdges(path)) == path
  {
    var r := EdgesToPath(path[0], PathToEdges(path));
    forall i | 0 <= i < |path|
      ensures r[i] == path[i]
    {
    }
  }

  // ---------------------------------------------------------------------------
  // Reverse adjacency list

  /** The sources of the edges into `v`, in edge order. */
  function InNeighbours(edges: Forest, v: nat): seq<nat> {
    if edges == [] then []
    else InNeighbours(edges[..|edges| - 1], v)
         + (if edges[|edges| - 1].1 == v then [edges[|edges| - 1].0] else [])
  }

  lemma {:induction false} InNeighboursMembers(edges: Forest, v: nat, u: nat)
    ensures u in InNeighbours(edges, v) <==> (u, v) in edges
  {
    if edges != [] {
      var init := edges[..|edges| - 1];
      InNeighboursMembers(init, v, u);
      assert edges == init + [edges[|edges| - 1]];
    }
  }

  /** The loop of `__edges_to_reverse_adj_list` from edge `k` on. */
  function AdjFold(edges: Forest, N: nat, k: nat, adj: seq<seq<nat>>): Result<seq<seq<nat>>, HeuristicError>
    requires k <= |edges| && |adj| == N
    decreases |edges| - k
  {
    if k == |edges| then Ok(adj)
    else if edges[k].1 >= N then Err(ServerOutOfRange)
    else AdjFold(edges, N, k + 1, adj[edges[k].1 := adj[edges[k].1] + [edges[k].0]])
  }

  /** `__edges_to_reverse_adj_list(edges, N)`. */
  function ReverseAdjList(edges: Forest, N: nat): Result<seq<seq<nat>>, HeuristicError> {
    AdjFold(edges, N, 0, seq(N, _ => []))
  }

  /** Every destination is a server `0 .. N-1`. */
  predicate DestinationsBelow(edges: Forest, N: nat) {
    forall i :: 0 <= i < |edges| ==> edges[i].1 < N
  }

  lemma {:induction false} AdjFoldSpec(edges: Forest, N: nat, k: nat, adj: seq<seq<nat>>)
    requires k <= |edges| && |adj| == N
    requires forall v :: 0 <= v < N ==> adj[v] == InNeighbours(edges[..k], v)
    ensures var r := AdjFold(edges, N, k, adj);
      && (r.Ok? <==> forall i :: k <= i < |edges| ==> edges[i].1 < N)
      && (r.Err? ==> r.error == ServerOutOfRange)
      && (r.Ok? ==> |r.value| == N && forall v :: 0 <= v < N ==> r.value[v] == InNeighbours(edges, v))
    decreases |edges| - k
  {
    if k == |edges| {
      assert edges[..k] == edges;
    } else if edges[k].1 < N {
      var adj' := adj[edges[k].1 := adj[edges[k].1] + [edges[k].0]];
      forall v | 0 <= v < N
        ensures adj'[v] == InNeighbours(edges[..k + 1], v)
      {
        assert edges[..k + 1][..k] == edges[..k];
      }
      AdjFoldSpec(edges, N, k + 1, adj');
    }
  }

  /** The reverse adjacency list succeeds exactly when every destination is
      below `N`, and then lists for each server the sources of the edges into
      it, in edge order. */
  lemma ReverseAdjListSpec(edges: Forest, N: nat)
    ensures var r := ReverseAdjList(edges, N);
      && (r.Ok? <==> DestinationsBelow(edges, N))
      && (r.Err? ==> r.error == ServerOutOfRange)
      && (r.Ok? ==> |r.value| == N && forall v :: 0 <= v < N ==> r.value[v] == InNeighbours(edges, v))
  {
    AdjFoldSpec(edges, N, 0, seq(N, _ => []));
  }

  // ---------------------------------------------------------------------------
  // The search

  /** A server with its depth, as held in `node_depth_list`. */
  type Entry = (nat, nat)

  /** The search state: `log` lists every server in the order it entered
      `visited`, with the depth it was given; `frontier` is
      `node_depth_list`; `forest` is the list of kept edges. */
  datatype Search = Search(log: seq<Entry>, frontier: seq<Entry>, forest: Forest)

  /** The `visited` set. */
  function Nodes(log: seq<Entry>): set<nat> {
    set e | e in log :: e.0
  }

  /** The sort key of `sorted(node_depth_list, key=lambda x: x[1])`. */
  function DepthKey(e: Entry): ExtReal {
    NatKey(e.1)
  }

  /** The depth given to a server entered below a server at depth `d`:
      zero after a cut, one more otherwise. */
  function ChildDepth(d: nat, maxDepth: int): nat {
    if d == maxDepth then 0 else d + 1
  }

  /** Server `u` enters `visited` at depth `d`, below `parent` unless cut. */
  function Visit(st: Search, u: nat, d: nat, parent: Option<nat>): (r: Search)
  {
    Search(st.log + [(u, d)], st.frontier + [(u, d)],
           if parent.Some? then st.forest + [(u, parent.value)] else st.forest)
  }

  lemma VisitNodes(st: Search, u: nat, d: nat, parent: Option<nat>)
    ensures Nodes(Visit(st, u, d, parent).log) == Nodes(st.log) + {u}
  {
    assert forall e :: e in st.log + [(u, d)] <==> e in st.log || e == (u, d);
  }

  /** The seed loop over `flow_edges[::-1]`: edge `i - 1`, then the ones
      before it. */
  function SeedLoop(path: seq<nat>, maxDepth: int, i: nat, st: Search): Search
    requires i < |path| && st.frontier != []
    decreases i
  {
    if i == 0 then st
    else SeedLoop(path, maxDepth, i - 1, SeedStep(path, maxDepth, i, st))
  }

  /** The state after the first phase: the path's last server at depth 0,
      then the path walked backwards. */
  function Seed(path: seq<nat>, maxDepth: int): Search
    requires |path| >= 2
  {
    var root := path[|path| - 1];
    SeedLoop(path, maxDepth, |path| - 1, Search([(root, 0)], [(root, 0)], []))
  }

  /** The `for neighbour in reverse_adjacency_list[x]` loop, for the popped
      entry `(x, d)`. */
  function Expand(nbrs: seq<nat>, x: nat, d: nat, maxDepth: int, st: Search): (r: Search)
    ensures Nodes(st.log) <= Nodes(r.log)
    ensures forall u :: u in Nodes(r.log) ==> u in Nodes(st.log) || u in nbrs
    ensures Nodes(r.log) == Nodes(st.log) ==> r == st
    decreases |nbrs|
  {
    if nbrs == [] then st
    else
      var u := nbrs[0];
      var next :=
        if u in Nodes(st.log) then st
        else Visit(st, u, ChildDepth(d, maxDepth), if d == maxDepth then None else Some(x));
      var r := Expand(nbrs[1..], x, d, maxDepth, next);
      assert forall w :: w in nbrs[1..] ==> w in nbrs;
      r
  }

  lemma StrictShrink(U: set<nat>, A: set<nat>, B: set<nat>)
    requires A <= B <= U && A != B
    ensures |U - B| < |U - A|
  {
    var x :| x in B && x !in A;
    assert U - A == (U - B) + (B - A);
    assert x in B - A;
  }

  /** The `while` loop: sort the frontier stably by depth, pop its head and
      expand it; `U` bounds every server the search can reach. */
  function ExpandLoop(adj: seq<seq<nat>>, maxDepth: int, U: set<nat>, st: Search): Result<Search, HeuristicError>
    requires Nodes(st.log) <= U
    requires forall v, k :: 0 <= v < |adj| && 0 <= k < |adj[v]| ==> adj[v][k] in U
    decreases |U - Nodes(st.log)|, |st.frontier|
  {
    if st.frontier == [] then Ok(st)
    else
      var sorted := SortBy(st.frontier, DepthKey);
      var top := sorted[0];
      if top.0 >= |adj| then Err(ServerOutOfRange)
      else
        var popped := Search(st.log, sorted[1..], st.forest);
        var next := Expand(adj[top.0], top.0, top.1, maxDepth, popped);
        assert Nodes(next.log) <= U;
        if Nodes(next.log) != Nodes(st.log) then
          StrictShrink(U, Nodes(st.log), Nodes(next.log));
          ExpandLoop(adj, maxDepth, U, next)
        else
          ExpandLoop(adj, maxDepth, U, next)
  }

  /** Each iteration pops the frontier's first entry of least depth: the
      shallowest server, earliest queued among equals. */
  lemma PopOrder(frontier: seq<Entry>, i: nat)
    requires i < |frontier|
    requires forall j :: 0 <= j < |frontier| ==> frontier[i].1 <= frontier[j].1
    requires forall j :: 0 <= j < i ==> frontier[j].1 != frontier[i].1
    ensures SortBy(frontier, DepthKey)[0] == frontier[i]
  {
    SortByHead(frontier, DepthKey, i);
  }

  /** Every server of the path. */
  function PathNodes(path: seq<nat>): set<nat> {
    set x | x in path
  }

  /** Every server the search can reach: the path's and the edges' sources. */
  function Reachable(path: seq<nat>, edges: Forest): set<nat> {
    PathNodes(path) + set e | e in edges :: e.0
  }

  /** `u in visited`, by a walk over the log. */
  predicate InLog(log: seq<Entry>, u: nat) {
    log != [] && (log[0].0 == u || InLog(log[1..], u))
  }

  lemma {:induction false} InLogNodes(log: seq<Entry>, u: nat)
    ensures InLog(log, u) <==> u in Nodes(log)
  {
    if log != [] {
      InLogNodes(log[1..], u);
      assert log == [log[0]] + log[1..];
      assert Nodes(log) == {log[0].0} + Nodes(log[1..]);
    }
  }

  /** One step of the seed loop. */
  function SeedStep(path: seq<nat>, maxDepth: int, i: nat, st: Search): Search
    requires 0 < i < |path| && st.frontier != []
  {
    var u := path[i - 1];
    var last := st.frontier[|st.frontier| - 1].1;
    var d := ChildDepth(last, maxDepth);
    var parent := if last == maxDepth then None else Some(path[i]);
    if InLog(st.log, u) then
      Search(st.log, st.frontier + [(u, d)], if parent.Some? then st.forest + [(u, path[i])] else st.forest)
    else Visit(st, u, d, parent)
  }

  /** One seed step keeps the edges it had and the frontier non-empty. */
  lemma SeedStepKeeps(path: seq<nat>, maxDepth: int, i: nat, st: Search)
    requires 0 < i < |path| && st.frontier != []
    ensures SeedStep(path, maxDepth, i, st).frontier != []
    ensures Keeps(st.forest, SeedStep(path, maxDepth, i, st).forest)
  {
  }

  /** One seed step adds at most the path edge into `path[i]`. */
  lemma SeedStepWithin(path: seq<nat>, maxDepth: int, i: nat, st: Search)
    requires 0 < i < |path| && st.frontier != []
    ensures Within(SeedStep(path, maxDepth, i, st).forest, st.forest, [(path[i - 1], path[i])])
  {
  }

  /** With unlimited depth, one seed step keeps the path edge into `path[i]`. */
  lemma SeedStepAddsEdge(path: seq<nat>, maxDepth: int, i: nat, st: Search)
    requires 0 < i < |path| && st.frontier != [] && maxDepth < 0
    ensures (path[i - 1], path[i]) in SeedStep(path, maxDepth, i, st).forest
  {
  }

  lemma SeedStepNodes(path: seq<nat>, maxDepth: int, i: nat, st: Search)
    requires 0 < i < |path| && st.frontier != []
    ensures Nodes(SeedStep(path, maxDepth, i, st).log) == Nodes(st.log) + {path[i - 1]}
  {
    InLogNodes(st.log, path[i - 1]);
    var last := st.frontier[|st.frontier| - 1].1;
    VisitNodes(st, path[i - 1], ChildDepth(last, maxDepth), if last == maxDepth then None else Some(path[i]));
  }

  lemma SeedStepInPath(path: seq<nat>, maxDepth: int, i: nat, st: Search)
    requires 0 < i < |path| && st.frontier != []
    requires Nodes(st.log) <= PathNodes(path)
    ensures SeedStep(path, maxDepth, i, st).frontier != []
    ensures Nodes(SeedStep(path, maxDepth, i, st).log) <= PathNodes(path)
  {
    SeedStepNodes(path, maxDepth, i, st);
    assert path[i - 1] in PathNodes(path);
  }

  lemma {:induction false} SeedLoopNodes(path: seq<nat>, maxDepth: int, i: nat, st: Search)
    requires i < |path| && st.frontier != []
    requires Nodes(st.log) <= PathNodes(path)
    ensures Nodes(SeedLoop(path, maxDepth, i, st).log) <= PathNodes(path)
    decreases i
  {
    if i > 0 {
      var next := SeedStep(path, maxDepth, i, st);
      assert SeedLoop(path, maxDepth, i, st) == SeedLoop(path, maxDepth, i - 1, next);
      SeedStepInPath(path, maxDepth, i, st);
      SeedLoopNodes(path, maxDepth, i - 1, next);
    }
  }

  lemma AdjInReach(edges: Forest, N: nat, adj: seq<seq<nat>>, path: seq<nat>)
    requires ReverseAdjList(edges, N) == Ok(adj)
    ensures forall v, k :: 0 <= v < |adj| && 0 <= k < |adj[v]| ==> adj[v][k] in Reachable(path, edges)
  {
    ReverseAdjListSpec(edges, N);
    forall v, k | 0 <= v < |adj| && 0 <= k < |adj[v]|
      ensures adj[v][k] in Reachable(path, edges)
    {
      InNeighboursMembers(edges, v, adj[v][k]);
    }
  }

  /** The search state at the end of `flow_preserving_min_depth_max_forest`,
      before the final sort. */
  function FinalSearch(edges: Forest, N: nat, path: seq<nat>, maxDepth: int): Result<Search, HeuristicError> {
    var adj :- ReverseAdjList(edges, N);
    if |path| < 2 then Err(FlowPathTooShort)
    else
      var seed := Seed(path, maxDepth);
      var root := path[|path| - 1];
      assert Nodes([(root, 0)]) == {root};
      SeedLoopNodes(path, maxDepth, |path| - 1, Search([(root, 0)], [(root, 0)], []));
      AdjInReach(edges, N, adj, path);
      ExpandLoop(adj, maxDepth, Reachable(path, edges), seed)
  }

  /** `flow_preserving_min_depth_max_forest(edges, N, flow_path, max_depth)`;
      a negative `max_depth` means unlimited depth. */
  function MinDepthMaxForest(edges: Forest, N: nat, path: seq<nat>, maxDepth: int): (r: Result<Forest, HeuristicError>)
    ensures r.Ok? ==> SortedBy(r.value, SrcKey)
  {
    var st :- FinalSearch(edges, N, path, maxDepth);
    Ok(SortBy(st.forest, SrcKey))
  }

  // ---------------------------------------------------------------------------
  // Visit order and depth

  /** The position at which `x` entered `visited`. */
  function Rank(log: seq<Entry>, x: nat): (r: nat)
    requires x in Nodes(log)
    ensures r < |log| && log[r].0 == x
    ensures forall j :: 0 <= j < r ==> log[j].0 != x
  {
    if log[0].0 == x then 0
    else
      assert x in Nodes(log[1..]) by {
        var e :| e in log && e.0 == x;
      }
      1 + Rank(log[1..], x)
  }

  /** The depth `x` was given when it entered `visited`. */
  function Depth(log: seq<Entry>, x: nat): nat
    requires x in Nodes(log)
  {
    log[Rank(log, x)].1
  }

  /** Every server enters `visited` once. */
  predicate Logged(log: seq<Entry>) {
    forall i, j :: 0 <= i < j < |log| ==> log[i].0 != log[j].0
  }

  lemma LoggedDepth(log: seq<Entry>, e: Entry)
    requires Logged(log) && e in log
    ensures e.0 in Nodes(log) && Depth(log, e.0) == e.1
  {
    var i :| 0 <= i < |log| && log[i] == e;
    var r := Rank(log, e.0);
    assert r == i;
  }

  lemma RankAppend(log: seq<Entry>, x: nat, y: Entry)
    requires x in Nodes(log)
    ensures x in Nodes(log + [y]) && Rank(log + [y], x) == Rank(log, x) && Depth(log + [y], x) == Depth(log, x)
  {
    var r := Rank(log, x);
    var l := log + [y];
    assert l[r] == log[r];
    assert x in Nodes(l) by {
      assert log[r] in l;
    }
    var r' := Rank(l, x);
    assert forall j :: 0 <= j < r ==> l[j] == log[j];
    assert !(r' < r) && !(r < r');
  }

  lemma RankNew(log: seq<Entry>, u: nat, d: nat)
    requires u !in Nodes(log)
    ensures u in Nodes(log + [(u, d)]) && Rank(log + [(u, d)], u) == |log| && Depth(log + [(u, d)], u) == d
  {
    var l := log + [(u, d)];
    assert l[|log|] == (u, d);
    assert u in Nodes(l);
    forall j | 0 <= j < |log|
      ensures l[j].0 != u
    {
      assert l[j] == log[j] && log[j] in log;
    }
  }

  /** Every frontier entry is the entry its server entered `visited` with. */
  predicate FrontierLogged(st: Search) {
    forall e :: e in st.frontier ==> e in st.log
  }

  /** Every kept edge leads from a later-visited server to an earlier one,
      one level up. */
  predicate ForestRanked(log: seq<Entry>, forest: Forest) {
    forall k :: 0 <= k < |forest| ==>
      && forest[k].0 in Nodes(log) && forest[k].1 in Nodes(log)
      && Rank(log, forest[k].1) < Rank(log, forest[k].0)
      && Depth(log, forest[k].0) == Depth(log, forest[k].1) + 1
  }

  /** No two kept edges share a source. */
  predicate SourcesDistinct(forest: Forest) {
    forall i, j :: 0 <= i < j < |forest| ==> forest[i].0 != forest[j].0
  }

  /** No depth exceeds a non-negative `max_depth`. */
  predicate DepthBounded(log: seq<Entry>, maxDepth: int) {
    maxDepth >= 0 ==> forall k :: 0 <= k < |log| ==> log[k].1 <= maxDepth
  }

  /** Every visited server has been checked against `N` once popped. */
  predicate Checked(st: Search, N: nat) {
    forall k :: 0 <= k < |st.log| ==> st.log[k] in st.frontier || st.log[k].0 < N
  }

  /** What the search keeps true, for a path without repeated servers. */
  predicate Inv(st: Search, maxDepth: int, N: nat) {
    && Logged(st.log) && FrontierLogged(st) && ForestRanked(st.log, st.forest)
    && SourcesDistinct(st.forest) && DepthBounded(st.log, maxDepth) && Checked(st, N)
  }

  lemma VisitRanked(st: Search, u: nat, d: nat, parent: Option<nat>)
    requires ForestRanked(st.log, st.forest) && u !in Nodes(st.log)
    requires parent.Some? ==> parent.value in Nodes(st.log) && d == Depth(st.log, parent.value) + 1
    ensures ForestRanked(Visit(st, u, d, parent).log, Visit(st, u, d, parent).forest)
  {
    var r := Visit(st, u, d, parent);
    var l := r.log;
    RankNew(st.log, u, d);
    forall x | x in Nodes(st.log)
      ensures x in Nodes(l) && Rank(l, x) == Rank(st.log, x) && Depth(l, x) == Depth(st.log, x)
    {
      RankAppend(st.log, x, (u, d));
    }
    forall k | 0 <= k < |r.forest|
      ensures && r.forest[k].0 in Nodes(l) && r.forest[k].1 in Nodes(l)
              && Rank(l, r.forest[k].1) < Rank(l, r.forest[k].0)
              && Depth(l, r.forest[k].0) == Depth(l, r.forest[k].1) + 1
    {
      if k == |st.forest| {
        assert r.forest[k] == (u, parent.value);
      } else {
        assert r.forest[k] == st.forest[k];
      }
    }
  }

  lemma VisitDistinct(st: Search, u: nat, d: nat, parent: Option<nat>)
    requires ForestRanked(st.log, st.forest) && SourcesDistinct(st.forest) && u !in Nodes(st.log)
    ensures SourcesDistinct(Visit(st, u, d, parent).forest)
  {
    var f := Visit(st, u, d, parent).forest;
    forall i, j | 0 <= i < j < |f|
      ensures f[i].0 != f[j].0
    {
      assert f[i] == st.forest[i];
      if j < |st.forest| {
        assert f[j] == st.forest[j];
      }
    }
  }

  lemma VisitLogged(st: Search, u: nat, d: nat, parent: Option<nat>, maxDepth: int, N: nat)
    requires Logged(st.log) && FrontierLogged(st) && DepthBounded(st.log, maxDepth) && Checked(st, N)
    requires u !in Nodes(st.log)
    requires maxDepth >= 0 ==> d <= maxDepth
    ensures var r := Visit(st, u, d, parent);
      Logged(r.log) && FrontierLogged(r) && DepthBounded(r.log, maxDepth) && Checked(r, N)
  {
    var r := Visit(st, u, d, parent);
    var l := r.log;
    forall i, j | 0 <= i < j < |l|
      ensures l[i].0 != l[j].0
    {
      assert l[i] == st.log[i];
      if j == |st.log| {
        assert l[i] in st.log;
      } else {
        assert l[j] == st.log[j];
      }
    }
    forall k | 0 <= k < |l|
      ensures l[k] in r.frontier || l[k].0 < N
    {
      if k < |st.log| {
        assert l[k] == st.log[k];
      }
    }
  }

  /** Entering a new server keeps the invariant when its edge goes to an
      earlier server one level up. */
  lemma VisitInv(st: Search, u: nat, d: nat, parent: Option<nat>, maxDepth: int, N: nat)
    requires Inv(st, maxDepth, N) && u !in Nodes(st.log)
    requires parent.Some? ==> parent.value in Nodes(st.log) && d == Depth(st.log, parent.value) + 1
    requires maxDepth >= 0 ==> d <= maxDepth
    ensures Inv(Visit(st, u, d, parent), maxDepth, N)
  {
    VisitRanked(st, u, d, parent);
    VisitDistinct(st, u, d, parent);
    VisitLogged(st, u, d, parent, maxDepth, N);
  }

  lemma BoundedEntry(log: seq<Entry>, e: Entry, maxDepth: int)
    requires DepthBounded(log, maxDepth) && e in log && maxDepth >= 0
    ensures e.1 <= maxDepth
  {
    var k :| 0 <= k < |log| && log[k] == e;
  }

  lemma PathNodesSuffix(path: seq<nat>, i: nat)
    requires 0 < i < |path|
    ensures PathNodes(path[i - 1..]) == PathNodes(path[i..]) + {path[i - 1]}
  {
    assert path[i - 1..] == [path[i - 1]] + path[i..];
  }

  /** The seed loop keeps the invariant on a path without repeats. */
  lemma {:induction false} SeedLoopInv(path: seq<nat>, maxDepth: int, N: nat, i: nat, st: Search)
    requires NoDups(path) && i < |path| && st.frontier != []
    requires Inv(st, maxDepth, N)
    requires Nodes(st.log) == PathNodes(path[i..])
    requires st.frontier[|st.frontier| - 1].0 == path[i]
    ensures Inv(SeedLoop(path, maxDepth, i, st), maxDepth, N)
    decreases i
  {
    if i > 0 {
      var u := path[i - 1];
      var e := st.frontier[|st.frontier| - 1];
      var last := e.1;
      var d := ChildDepth(last, maxDepth);
      var parent := if last == maxDepth then None else Some(path[i]);
      assert u !in PathNodes(path[i..]) by {
        forall j | i <= j < |path|
          ensures path[j] != u
        {
        }
      }
      assert e in st.frontier;
      LoggedDepth(st.log, e);
      if maxDepth >= 0 {
        BoundedEntry(st.log, e, maxDepth);
      }
      VisitInv(st, u, d, parent, maxDepth, N);
      var next := Visit(st, u, d, parent);
      InLogNodes(st.log, u);
      assert next == SeedStep(path, maxDepth, i, st);
      PathNodesSuffix(path, i);
      SeedLoopInv(path, maxDepth, N, i - 1, next);
    }
  }

  /** Expanding a visited server keeps the invariant. */
  lemma {:induction false} ExpandInv(nbrs: seq<nat>, x: nat, d: nat, maxDepth: int, N: nat, st: Search)
    requires Inv(st, maxDepth, N) && x in Nodes(st.log) && Depth(st.log, x) == d
    requires maxDepth >= 0 ==> d <= maxDepth
    ensures Inv(Expand(nbrs, x, d, maxDepth, st), maxDepth, N)
    decreases |nbrs|
  {
    if nbrs != [] {
      var u := nbrs[0];
      if u in Nodes(st.log) {
        ExpandInv(nbrs[1..], x, d, maxDepth, N, st);
      } else {
        var d' := ChildDepth(d, maxDepth);
        var parent := if d == maxDepth then None else Some(x);
        VisitInv(st, u, d', parent, maxDepth, N);
        RankAppend(st.log, x, (u, d'));
        ExpandInv(nbrs[1..], x, d, maxDepth, N, Visit(st, u, d', parent));
      }
    }
  }

  /** Popping the frontier's head keeps the invariant once the head's server
      is known to be below `N`. */
  lemma PopInv(st: Search, sorted: seq<Entry>, maxDepth: int, N: nat)
    requires Inv(st, maxDepth, N) && sorted != [] && multiset(sorted) == multiset(st.frontier)
    requires sorted[0].0 < N
    ensures Inv(Search(st.log, sorted[1..], st.forest), maxDepth, N)
    ensures sorted[0].0 in Nodes(st.log) && Depth(st.log, sorted[0].0) == sorted[0].1
    ensures maxDepth >= 0 ==> sorted[0].1 <= maxDepth
  {
    var popped := Search(st.log, sorted[1..], st.forest);
    forall e | e in sorted[1..]
      ensures e in st.log
    {
      assert e in multiset(sorted);
    }
    forall k | 0 <= k < |st.log|
      ensures st.log[k] in sorted[1..] || st.log[k].0 < N
    {
      if st.log[k] in st.frontier {
        assert st.log[k] in multiset(sorted);
        if st.log[k] != sorted[0] {
          var j :| 0 <= j < |sorted| && sorted[j] == st.log[k];
          assert sorted[1..][j - 1] == st.log[k];
        }
      }
    }
    assert sorted[0] in multiset(st.frontier);
    LoggedDepth(st.log, sorted[0]);
    if maxDepth >= 0 {
      BoundedEntry(st.log, sorted[0], maxDepth);
    }
  }

  /** The main loop keeps the invariant and ends with an empty frontier. */
  lemma {:induction false} ExpandLoopInv(adj: seq<seq<nat>>, maxDepth: int, U: set<nat>, st: Search)
    requires Nodes(st.log) <= U
    requires forall v, k :: 0 <= v < |adj| && 0 <= k < |adj[v]| ==> adj[v][k] in U
    requires Inv(st, maxDepth, |adj|)
    ensures var r := ExpandLoop(adj, maxDepth, U, st);
      r.Ok? ==> Inv(r.value, maxDepth, |adj|) && r.value.frontier == []
    decreases |U - Nodes(st.log)|, |st.frontier|
  {
    if st.frontier != [] {
      var sorted := SortBy(st.frontier, DepthKey);
      var top := sorted[0];
      if top.0 < |adj| {
        var popped := Search(st.log, sorted[1..], st.forest);
        PopInv(st, sorted, maxDepth, |adj|);
        var next := Expand(adj[top.0], top.0, top.1, maxDepth, popped);
        ExpandInv(adj[top.0], top.0, top.1, maxDepth, |adj|, popped);
        if Nodes(next.log) != Nodes(st.log) {
          StrictShrink(U, Nodes(st.log), Nodes(next.log));
        }
        ExpandLoopInv(adj, maxDepth, U, next);
      }
    }
  }

  // ---------------------------------------------------------------------------
  // The result is a forest of bounded depth

  lemma InitialInv(path: seq<nat>, maxDepth: int, N: nat)
    requires |path| >= 2
    ensures var root := path[|path| - 1];
      && Inv(Search([(root, 0)], [(root, 0)], []), maxDepth, N)
      && Nodes([(root, 0)]) == PathNodes(path[|path| - 1..])
  {
    var root := path[|path| - 1];
    assert path[|path| - 1..] == [root];
    assert Nodes([(root, 0)]) == {root};
  }

  lemma FinalSearchInv(edges: Forest, N: nat, path: seq<nat>, maxDepth: int)
    requires NoDups(path)
    ensures var r := FinalSearch(edges, N, path, maxDepth);
      r.Ok? ==> Inv(r.value, maxDepth, N) && r.value.frontier == []
  {
    ReverseAdjListSpec(edges, N);
    var a := ReverseAdjList(edges, N);
    if a.Ok? && |path| >= 2 {
      SeedInv(path, maxDepth, N);
      AdjInReach(edges, N, a.value, path);
      FinalSearchExpands(edges, N, path, maxDepth);
      ExpandLoopInv(a.value, maxDepth, Reachable(path, edges), Seed(path, maxDepth));
    }
  }

  /** The seed keeps the invariant and logs only servers of the path. */
  lemma SeedInv(path: seq<nat>, maxDepth: int, N: nat)
    requires NoDups(path) && |path| >= 2
    ensures Inv(Seed(path, maxDepth), maxDepth, N)
    ensures Nodes(Seed(path, maxDepth).log) <= PathNodes(path)
  {
    var root := path[|path| - 1];
    var init := Search([(root, 0)], [(root, 0)], []);
    InitialInv(path, maxDepth, N);
    SeedLoopInv(path, maxDepth, N, |path| - 1, init);
    SeedLoopNodes(path, maxDepth, |path| - 1, init);
  }

  /** Past the two error checks, the search is the expansion of the seed. */
  lemma FinalSearchExpands(edges: Forest, N: nat, path: seq<nat>, maxDepth: int)
    requires ReverseAdjList(edges, N).Ok? && |path| >= 2
    requires Nodes(Seed(path, maxDepth).log) <= Reachable(path, edges)
    requires var adj := ReverseAdjList(edges, N).value;
      forall v, k :: 0 <= v < |adj| && 0 <= k < |adj[v]| ==> adj[v][k] in Reachable(path, edges)
    ensures FinalSearch(edges, N, path, maxDepth)
            == ExpandLoop(ReverseAdjList(edges, N).value, maxDepth, Reachable(path, edges), Seed(path, maxDepth))
  {
  }

  lemma {:induction false} RankDescent(log: seq<Entry>, F: Forest, c: seq<nat>, k: nat)
    requires ForestRanked(log, F)
    requires forall i :: 0 <= i < |c| - 1 ==> (c[i], c[i + 1]) in F
    requires 1 <= k < |c|
    ensures c[0] in Nodes(log) && c[k] in Nodes(log) && Rank(log, c[k]) < Rank(log, c[0])
  {
    assert (c[k - 1], c[(k - 1) + 1]) in F;
    var j :| 0 <= j < |F| && F[j] == (c[k - 1], c[k]);
    if k > 1 {
      RankDescent(log, F, c, k - 1);
    }
  }

  lemma NoCycle(log: seq<Entry>, F: Forest, f: Forest, c: seq<nat>)
    requires ForestRanked(log, F) && multiset(f) == multiset(F)
    ensures !IsCycle(f, c)
  {
    if IsCycle(f, c) {
      forall i | 0 <= i < |c| - 1
        ensures (c[i], c[i + 1]) in F
      {
        assert (c[i], c[i + 1]) in multiset(f);
      }
      RankDescent(log, F, c, |c| - 1);
    }
  }

  /** A walk along kept edges. */
  predicate Chain(f: Forest, w: seq<nat>) {
    |w| >= 1 && forall i :: 0 <= i < |w| - 1 ==> (w[i], w[i + 1]) in f
  }

  lemma {:induction false} DepthDescent(log: seq<Entry>, F: Forest, w: seq<nat>, k: nat)
    requires ForestRanked(log, F) && Chain(F, w)
    requires 1 <= k < |w|
    ensures w[0] in Nodes(log) && w[k] in Nodes(log) && Depth(log, w[k]) + k == Depth(log, w[0])
  {
    assert (w[k - 1], w[(k - 1) + 1]) in F;
    var j :| 0 <= j < |F| && F[j] == (w[k - 1], w[k]);
    if k > 1 {
      DepthDescent(log, F, w, k - 1);
    }
  }

  lemma SortedMembers(F: Forest, f: Forest)
    requires multiset(f) == multiset(F)
    ensures forall i :: 0 <= i < |f| ==> f[i] in F
  {
    forall i | 0 <= i < |f|
      ensures f[i] in F
    {
      assert f[i] in multiset(F);
    }
  }

  lemma FinalInRange(st: Search, N: nat, maxDepth: int, f: Forest)
    requires Inv(st, maxDepth, N) && st.frontier == []
    requires forall i :: 0 <= i < |f| ==> f[i] in st.forest
    ensures EdgesInRange(f, N)
  {
    forall x | x in Nodes(st.log)
      ensures x < N
    {
      var e :| e in st.log && e.0 == x;
      var k :| 0 <= k < |st.log| && st.log[k] == e;
    }
    forall i | 0 <= i < |f|
      ensures f[i].0 < N && f[i].1 < N
    {
      var k :| 0 <= k < |st.forest| && st.forest[k] == f[i];
    }
  }

  lemma FinalUnique(F: Forest, f: Forest)
    requires SourcesDistinct(F)
    requires forall i :: 0 <= i < |f| ==> f[i] in F
    ensures UniqueSuccessor(f)
  {
    forall i, j | 0 <= i < |f| && 0 <= j < |f| && f[i].0 == f[j].0
      ensures f[i].1 == f[j].1
    {
      var a :| 0 <= a < |F| && F[a] == f[i];
      var b :| 0 <= b < |F| && F[b] == f[j];
      assert !(a < b) && !(b < a);
    }
  }

  lemma FinalAcyclic(log: seq<Entry>, F: Forest, f: Forest)
    requires ForestRanked(log, F) && multiset(f) == multiset(F)
    ensures !HasCycle(f)
  {
    forall c
      ensures !IsCycle(f, c)
    {
      NoCycle(log, F, f, c);
    }
  }

  /** On a path without repeated servers the result is a valid forest: no
      server keeps two successors, no kept edges form a cycle, and every
      kept edge joins servers below `N`. */
  lemma HeuristicIsForest(edges: Forest, N: nat, path: seq<nat>, maxDepth: int)
    requires NoDups(path)
    ensures var r := MinDepthMaxForest(edges, N, path, maxDepth);
      r.Ok? ==> UniqueSuccessor(r.value) && !HasCycle(r.value) && EdgesInRange(r.value, N) && IsForest(r.value, N)
  {
    var s := FinalSearch(edges, N, path, maxDepth);
    if s.Ok? {
      FinalSearchInv(edges, N, path, maxDepth);
      var st := s.value;
      var f := SortBy(st.forest, SrcKey);
      SortedMembers(st.forest, f);
      FinalInRange(st, N, maxDepth, f);
      FinalUnique(st.forest, f);
      FinalAcyclic(st.log, st.forest, f);
      IsForestIff(f, N);
    }
  }

  /** With a non-negative `max_depth`, no walk along the result's edges is
      longer than `max_depth` edges. */
  lemma HeuristicDepthBound(edges: Forest, N: nat, path: seq<nat>, maxDepth: int, w: seq<nat>)
    requires NoDups(path) && maxDepth >= 0
    ensures var r := MinDepthMaxForest(edges, N, path, maxDepth);
      r.Ok? && Chain(r.value, w) ==> |w| - 1 <= maxDepth
  {
    var s := FinalSearch(edges, N, path, maxDepth);
    if s.Ok? && Chain(SortBy(s.value.forest, SrcKey), w) && |w| >= 2 {
      FinalSearchInv(edges, N, path, maxDepth);
      var st := s.value;
      var F := st.forest;
      var f := SortBy(F, SrcKey);
      forall i | 0 <= i < |w| - 1
        ensures (w[i], w[i + 1]) in F
      {
        assert (w[i], w[i + 1]) in multiset(f);
      }
      DepthDescent(st.log, F, w, |w| - 1);
      var r := Rank(st.log, w[0]);
      assert st.log[r].1 <= maxDepth;
    }
  }

  // ---------------------------------------------------------------------------
  // Kept edges, the flow's path and the error cases

  /** A seed step keeps every logged entry either queued or below `N`. */
  lemma SeedStepChecked(path: seq<nat>, maxDepth: int, N: nat, i: nat, st: Search)
    requires 0 < i < |path| && st.frontier != [] && Checked(st, N)
    ensures Checked(SeedStep(path, maxDepth, i, st), N)
  {
    var next := SeedStep(path, maxDepth, i, st);
    forall k | 0 <= k < |next.log|
      ensures next.log[k] in next.frontier || next.log[k].0 < N
    {
      if k < |st.log| {
        assert next.log[k] == st.log[k];
      }
    }
  }

  lemma {:induction false} SeedCovers(path: seq<nat>, maxDepth: int, N: nat, i: nat, st: Search)
    requires i < |path| && st.frontier != []
    requires Nodes(st.log) == PathNodes(path[i..]) && Checked(st, N)
    requires forall e :: e in st.frontier ==> e.0 in PathNodes(path)
    ensures var r := SeedLoop(path, maxDepth, i, st);
      && Nodes(r.log) == PathNodes(path) && Checked(r, N)
      && (forall e :: e in r.frontier ==> e.0 in PathNodes(path))
    decreases i
  {
    if i == 0 {
      assert path[0..] == path;
    } else {
      var next := SeedStep(path, maxDepth, i, st);
      assert SeedLoop(path, maxDepth, i, st) == SeedLoop(path, maxDepth, i - 1, next);
      PathNodesSuffix(path, i);
      SeedStepNodes(path, maxDepth, i, st);
      assert path[i - 1] in PathNodes(path);
      SeedStepChecked(path, maxDepth, N, i, st);
      SeedCovers(path, maxDepth, N, i - 1, next);
    }
  }

  /** Every edge of `a` is an edge of `b`. */
  predicate Keeps(a: Forest, b: Forest) {
    forall e :: e in a ==> e in b
  }

  /** Every edge of `f` is an edge of `a` or of `b`. */
  predicate Within(f: Forest, a: Forest, b: Forest) {
    forall e :: e in f ==> e in a || e in b
  }

  /** The seed only appends edges: the starting forest is a prefix of the result. */
  lemma {:induction false} SeedPrefix(path: seq<nat>, maxDepth: int, i: nat, st: Search)
    requires i < |path| && st.frontier != []
    ensures st.forest <= SeedLoop(path, maxDepth, i, st).forest
    decreases i
  {
    if i > 0 {
      var next := SeedStep(path, maxDepth, i, st);
      assert SeedLoop(path, maxDepth, i, st) == SeedLoop(path, maxDepth, i - 1, next);
      SeedStepPrefix(path, maxDepth, i, st);
      SeedPrefix(path, maxDepth, i - 1, next);
      PrefixTrans(st.forest, next.forest, SeedLoop(path, maxDepth, i - 1, next).forest);
    }
  }

  lemma SeedStepPrefix(path: seq<nat>, maxDepth: int, i: nat, st: Search)
    requires 0 < i < |path| && st.frontier != []
    ensures SeedStep(path, maxDepth, i, st).frontier != []
    ensures st.forest <= SeedStep(path, maxDepth, i, st).forest
  {
  }

  lemma PrefixTrans(a: Forest, b: Forest, c: Forest)
    requires a <= b && b <= c
    ensures a <= c
  {
    assert a == b[..|a|] && b == c[..|b|];
    assert a == c[..|a|];
  }

  lemma SeedKeeps(path: seq<nat>, maxDepth: int, i: nat, st: Search)
    requires i < |path| && st.frontier != []
    ensures Keeps(st.forest, SeedLoop(path, maxDepth, i, st).forest)
  {
    var r := SeedLoop(path, maxDepth, i, st).forest;
    SeedPrefix(path, maxDepth, i, st);
    forall e | e in st.forest
      ensures e in r
    {
      var k :| 0 <= k < |st.forest| && st.forest[k] == e;
      assert r[k] == e;
    }
  }

  lemma {:induction false} SeedWithin(path: seq<nat>, maxDepth: int, i: nat, st: Search)
    requires i < |path| && st.frontier != []
    ensures Within(SeedLoop(path, maxDepth, i, st).forest, st.forest, PathToEdges(path))
    decreases i
  {
    if i > 0 {
      var next := SeedStep(path, maxDepth, i, st);
      assert SeedLoop(path, maxDepth, i, st) == SeedLoop(path, maxDepth, i - 1, next);
      SeedStepKeeps(path, maxDepth, i, st);
      SeedStepWithin(path, maxDepth, i, st);
      var edge := PathToEdges(path)[i - 1];
      assert edge == (path[i - 1], path[i]);
      SeedWithin(path, maxDepth, i - 1, next);
      WithinTrans(SeedLoop(path, maxDepth, i - 1, next).forest, next.forest, st.forest, edge, PathToEdges(path));
    }
  }

  lemma WithinTrans(r: Forest, b: Forest, a: Forest, edge: Edge, p: Forest)
    requires Within(r, b, p) && Within(b, a, [edge]) && edge in p
    ensures Within(r, a, p)
  {
    forall e | e in r
      ensures e in a || e in p
    {
      if e !in p {
        assert e in b;
      }
    }
  }

  /** The path edges `(path[j], path[j + 1])` for `j < i` are all in `f`. */
  predicate PathKept(path: seq<nat>, i: nat, f: Forest) {
    forall j :: 0 <= j < i && j < |PathToEdges(path)| ==> PathToEdges(path)[j] in f
  }

  lemma {:induction false} SeedPathKept(path: seq<nat>, maxDepth: int, i: nat, st: Search)
    requires i < |path| && st.frontier != [] && maxDepth < 0
    ensures PathKept(path, i, SeedLoop(path, maxDepth, i, st).forest)
    decreases i
  {
    if i > 0 {
      var next := SeedStep(path, maxDepth, i, st);
      assert SeedLoop(path, maxDepth, i, st) == SeedLoop(path, maxDepth, i - 1, next);
      SeedStepKeeps(path, maxDepth, i, st);
      SeedStepAddsEdge(path, maxDepth, i, st);
      SeedPathKept(path, maxDepth, i - 1, next);
      SeedKeeps(path, maxDepth, i - 1, next);
      var r := SeedLoop(path, maxDepth, i - 1, next);
      KeepsHas(next.forest, r.forest, (path[i - 1], path[i]));
      PathKeptStep(path, i, r.forest);
    }
  }

  lemma KeepsHas(a: Forest, b: Forest, e: Edge)
    requires Keeps(a, b) && e in a
    ensures e in b
  {
  }

  lemma PathKeptStep(path: seq<nat>, i: nat, f: Forest)
    requires 0 < i < |path| && PathKept(path, i - 1, f) && (path[i - 1], path[i]) in f
    ensures PathKept(path, i, f)
  {
  }

  /** The seed keeps the edges it starts with, adds only path edges, and
      with unlimited depth keeps every path edge before `i`. */
  lemma SeedForest(path: seq<nat>, maxDepth: int, i: nat, st: Search)
    requires i < |path| && st.frontier != []
    ensures var r := SeedLoop(path, maxDepth, i, st);
      && (forall e :: e in st.forest ==> e in r.forest)
      && (forall e :: e in r.forest ==> e in st.forest || e in PathToEdges(path))
      && (maxDepth < 0 ==> forall j :: 0 <= j < i ==> PathToEdges(path)[j] in r.forest)
  {
    SeedKeeps(path, maxDepth, i, st);
    SeedWithin(path, maxDepth, i, st);
    if maxDepth < 0 {
      SeedPathKept(path, maxDepth, i, st);
    }
  }

  lemma {:induction false} ExpandFacts(nbrs: seq<nat>, x: nat, d: nat, maxDepth: int, N: nat, st: Search)
    requires Checked(st, N)
    ensures var r := Expand(nbrs, x, d, maxDepth, st);
      && Checked(r, N)
      && (forall e :: e in r.frontier ==> e in st.frontier || e.0 in nbrs)
      && (forall e :: e in st.forest ==> e in r.forest)
      && (forall e :: e in r.forest ==> e in st.forest || (e.0 in nbrs && e.1 == x))
    decreases |nbrs|
  {
    if nbrs != [] {
      var u := nbrs[0];
      if u in Nodes(st.log) {
        ExpandFacts(nbrs[1..], x, d, maxDepth, N, st);
      } else {
        var next := Visit(st, u, ChildDepth(d, maxDepth), if d == maxDepth then None else Some(x));
        assert Checked(next, N) by {
          forall k | 0 <= k < |next.log|
            ensures next.log[k] in next.frontier || next.log[k].0 < N
          {
            if k < |st.log| {
              assert next.log[k] == st.log[k];
            }
          }
        }
        ExpandFacts(nbrs[1..], x, d, maxDepth, N, next);
      }
    }
  }

  lemma PopChecked(st: Search, sorted: seq<Entry>, N: nat)
    requires Checked(st, N) && sorted != [] && multiset(sorted) == multiset(st.frontier)
    requires sorted[0].0 < N
    ensures Checked(Search(st.log, sorted[1..], st.forest), N)
  {
    forall k | 0 <= k < |st.log|
      ensures st.log[k] in sorted[1..] || st.log[k].0 < N
    {
      if st.log[k] in st.frontier {
        assert st.log[k] in multiset(sorted);
        if st.log[k] != sorted[0] {
          var j :| 0 <= j < |sorted| && sorted[j] == st.log[k];
          assert sorted[1..][j - 1] == st.log[k];
        }
      }
    }
  }

  lemma {:induction false} ExpandLoopFacts(adj: seq<seq<nat>>, maxDepth: int, U: set<nat>, st: Search, edges: Forest)
    requires Nodes(st.log) <= U
    requires forall v, k :: 0 <= v < |adj| && 0 <= k < |adj[v]| ==> adj[v][k] in U && (adj[v][k], v) in edges
    requires Checked(st, |adj|)
    ensures var r := ExpandLoop(adj, maxDepth, U, st);
      && (r.Ok? ==> Checked(r.value, |adj|) && r.value.frontier == [] && Nodes(st.log) <= Nodes(r.value.log))
      && (r.Ok? ==> forall e :: e in st.forest ==> e in r.value.forest)
      && (r.Ok? ==> forall e :: e in r.value.forest ==> e in st.forest || e in edges)
      && ((forall x :: x in U ==> x < |adj|) && (forall e :: e in st.frontier ==> e.0 in U) ==> r.Ok?)
    decreases |U - Nodes(st.log)|, |st.frontier|
  {
    if st.frontier != [] {
      var sorted := SortBy(st.frontier, DepthKey);
      var top := sorted[0];
      assert top in multiset(st.frontier);
      if top.0 < |adj| {
        var popped := Search(st.log, sorted[1..], st.forest);
        PopChecked(st, sorted, |adj|);
        var next := Expand(adj[top.0], top.0, top.1, maxDepth, popped);
        ExpandFacts(adj[top.0], top.0, top.1, maxDepth, |adj|, popped);
        if Nodes(next.log) != Nodes(st.log) {
          StrictShrink(U, Nodes(st.log), Nodes(next.log));
        }
        forall e | e in sorted[1..]
          ensures e in st.frontier
        {
          assert e in multiset(sorted);
        }
        forall e | e in next.forest && e !in st.forest
          ensures e in edges
        {
          var k :| 0 <= k < |adj[top.0]| && adj[top.0][k] == e.0;
        }
        ExpandLoopFacts(adj, maxDepth, U, next, edges);
      }
    }
  }

  /** The search before the final sort keeps only path and network edges,
      and with unlimited depth keeps every edge of the path. */
  lemma FinalSearchKeepsFlow(edges: Forest, N: nat, path: seq<nat>, maxDepth: int)
    ensures var s := FinalSearch(edges, N, path, maxDepth);
      && (s.Ok? ==> Within(s.value.forest, PathToEdges(path), edges))
      && (s.Ok? && maxDepth < 0 ==> Keeps(PathToEdges(path), s.value.forest))
  {
    ReverseAdjListSpec(edges, N);
    var a := ReverseAdjList(edges, N);
    if a.Ok? && |path| >= 2 {
      var adj := a.value;
      var root := path[|path| - 1];
      var init := Search([(root, 0)], [(root, 0)], []);
      InitialInv(path, maxDepth, N);
      assert root in PathNodes(path);
      SeedCovers(path, maxDepth, N, |path| - 1, init);
      SeedForest(path, maxDepth, |path| - 1, init);
      AdjInReach(edges, N, adj, path);
      forall v, k | 0 <= v < |adj| && 0 <= k < |adj[v]|
        ensures (adj[v][k], v) in edges
      {
        InNeighboursMembers(edges, v, adj[v][k]);
      }
      ExpandLoopFacts(adj, maxDepth, Reachable(path, edges), Seed(path, maxDepth), edges);
    }
  }

  /** Every kept edge is an edge of the flow's path or of the network, and
      with unlimited depth (a negative `max_depth`) every edge of the flow's
      path is kept: the flow is not cut. */
  lemma HeuristicKeepsFlow(edges: Forest, N: nat, path: seq<nat>, maxDepth: int)
    ensures var r := MinDepthMaxForest(edges, N, path, maxDepth);
      && (r.Ok? ==> forall e :: e in r.value ==> e in PathToEdges(path) || e in edges)
      && (r.Ok? && maxDepth < 0 ==> forall e :: e in PathToEdges(path) ==> e in r.value)
  {
    var s := FinalSearch(edges, N, path, maxDepth);
    if s.Ok? {
      FinalSearchKeepsFlow(edges, N, path, maxDepth);
      var f := SortBy(s.value.forest, SrcKey);
      assert Keeps(f, s.value.forest) by {
        SortedMembers(s.value.forest, f);
      }
      assert Keeps(s.value.forest, f) by {
        forall e | e in s.value.forest
          ensures e in f
        {
          assert e in multiset(f);
        }
      }
    }
  }

  /** The error cases: a destination at or beyond `N` fails first, then a
      flow path of fewer than two servers. */
  lemma HeuristicErrorOrder(edges: Forest, N: nat, path: seq<nat>, maxDepth: int)
    ensures var r := MinDepthMaxForest(edges, N, path, maxDepth);
      && (!DestinationsBelow(edges, N) ==> r == Err(ServerOutOfRange))
      && (DestinationsBelow(edges, N) && |path| < 2 ==> r == Err(FlowPathTooShort))
  {
    ReverseAdjListSpec(edges, N);
  }

  /** The expansion after the seed, when the adjacency list was built and
      the path is long enough: a success visited the whole path, and with
      every named server below `N` it cannot fail. */
  lemma SeededLoop(edges: Forest, N: nat, path: seq<nat>, maxDepth: int)
    requires DestinationsBelow(edges, N) && |path| >= 2
    ensures var s := FinalSearch(edges, N, path, maxDepth);
      && (s.Ok? ==> forall x :: x in path ==> x < N)
      && ((forall x :: x in path ==> x < N) && (forall e :: e in edges ==> e.0 < N) ==> s.Ok?)
  {
    ReverseAdjListSpec(edges, N);
    var adj := ReverseAdjList(edges, N).value;
    var root := path[|path| - 1];
    var init := Search([(root, 0)], [(root, 0)], []);
    InitialInv(path, maxDepth, N);
    assert root in PathNodes(path);
    SeedCovers(path, maxDepth, N, |path| - 1, init);
    SeedLoopNodes(path, maxDepth, |path| - 1, init);
    AdjInReach(edges, N, adj, path);
    forall v, k | 0 <= v < |adj| && 0 <= k < |adj[v]|
      ensures (adj[v][k], v) in edges
    {
      InNeighboursMembers(edges, v, adj[v][k]);
    }
    ExpandLoopFacts(adj, maxDepth, Reachable(path, edges), Seed(path, maxDepth), edges);
    var s := FinalSearch(edges, N, path, maxDepth);
    if s.Ok? {
      forall x | x in path
        ensures x < N
      {
        assert x in PathNodes(path);
        var e :| e in s.value.log && e.0 == x;
        var k :| 0 <= k < |s.value.log| && s.value.log[k] == e;
      }
    }
  }

  /** A success visited every server of the path, so all of them are below `N`. */
  lemma HeuristicOkPathBelow(edges: Forest, N: nat, path: seq<nat>, maxDepth: int)
    ensures var r := MinDepthMaxForest(edges, N, path, maxDepth);
      r.Ok? ==> DestinationsBelow(edges, N) && |path| >= 2 && forall x :: x in path ==> x < N
  {
    HeuristicErrorOrder(edges, N, path, maxDepth);
    if DestinationsBelow(edges, N) && |path| >= 2 {
      SeededLoop(edges, N, path, maxDepth);
    }
  }

  /** When every server named is below `N` there is no error. */
  lemma HeuristicNoError(edges: Forest, N: nat, path: seq<nat>, maxDepth: int)
    requires DestinationsBelow(edges, N) && |path| >= 2 && (forall x :: x in path ==> x < N)
    requires forall e :: e in edges ==> e.0 < N
    ensures MinDepthMaxForest(edges, N, path, maxDepth).Ok?
  {
    SeededLoop(edges, N, path, maxDepth);
  }

  /** The error cases together: a destination at or beyond `N` fails first,
      then a flow path of fewer than two servers; a success visited every
      server of the path, so all of them are below `N`; and when every server
      is below `N` there is no error. */
  lemma HeuristicErrors(edges: Forest, N: nat, path: seq<nat>, maxDepth: int)
    ensures var r := MinDepthMaxForest(edges, N, path, maxDepth);
      && (!DestinationsBelow(edges, N) ==> r == Err(ServerOutOfRange))
      && (DestinationsBelow(edges, N) && |path| < 2 ==> r == Err(FlowPathTooShort))
      && (r.Ok? ==> DestinationsBelow(edges, N) && |path| >= 2 && forall x :: x in path ==> x < N)
      && ((DestinationsBelow(edges, N) && |path| >= 2 && (forall x :: x in path ==> x < N)
           && (forall e :: e in edges ==> e.0 < N)) ==> r.Ok?)
  {
    HeuristicErrorOrder(edges, N, path, maxDepth);
    HeuristicOkPathBelow(edges, N, path, maxDepth);
    if DestinationsBelow(edges, N) && |path| >= 2 && (forall x :: x in path ==> x < N)
       && (forall e :: e in edges ==> e.0 < N) {
      HeuristicNoError(edges, N, path, maxDepth);
    }
  }
}
