/** `generate_symmetric_forests` (ecowcdb/util/network.py): the distinct
    rotations of a forest on a ring of `N` servers. */
module Symmetry {
  import opened Sorting
  import opened Seqs
  import opened Descriptors

  /** Server `x` turned `i` places around a ring of `N` servers. */
  function Turn(x: nat, i: nat, N: nat): (r: nat)
    requires N > 0
    ensures r < N
  {
    (x + i) % N
  }

  /** The edge `e` turned `i` places around a ring of `N` servers. */
  function Rotate(e: Edge, i: nat, N: nat): (r: Edge)
    requires N > 0
    ensures r.0 < N && r.1 < N
  {
    (Turn(e.0, i, N), Turn(e.1, i, N))
  }

  /** `set(forest)`. */
  function EdgeSet(forest: Forest): set<Edge> {
    set e | e in forest
  }

  /** The edges of `S`, each turned `i` places. */
  function RotateSet(S: set<Edge>, i: nat, N: nat): set<Edge>
    requires N > 0
  {
    set e | e in S :: Rotate(e, i, N)
  }

  /** The set built by the `i`-th iteration of the loop. */
  function RotSet(forest: Forest, i: nat, N: nat): set<Edge>
    requires N > 0
  {
    RotateSet(EdgeSet(forest), i, N)
  }

  // ---------------------------------------------------------------------------
  // Rotation arithmetic

  lemma {:induction false} MulAtLeast(a: nat, N: nat)
    requires a >= 1
    ensures a * N >= N
  {
    if a > 1 {
      MulAtLeast(a - 1, N);
      assert a * N == (a - 1) * N + N;
    }
  }

  /** `x % N` is the remainder of any decomposition `x == q * N + b` with
      `0 <= b < N`. */
  lemma ModUnique(x: nat, q: nat, b: nat, N: nat)
    requires N > 0 && b < N && x == q * N + b
    ensures x % N == b
  {
    var q', b' := x / N, x % N;
    assert x == q' * N + b';
    if q > q' {
      assert q * N == (q - q') * N + q' * N;
      MulAtLeast(q - q', N);
    } else if q < q' {
      assert q' * N == (q' - q) * N + q * N;
      MulAtLeast(q' - q, N);
    }
  }

  lemma ModAdd(x: nat, b: nat, N: nat)
    requires N > 0
    ensures (x % N + b) % N == (x + b) % N
  {
    var q, y := x / N, x % N + b;
    assert x + b == q * N + y;
    var q2, r := y / N, y % N;
    assert y == q2 * N + r;
    assert x + b == (q + q2) * N + r;
    ModUnique(x + b, q + q2, r, N);
  }

  lemma ModShift(y: nat, q: nat, N: nat)
    requires N > 0
    ensures (y + q * N) % N == y % N
  {
    var q2, r := y / N, y % N;
    assert y + q * N == (q + q2) * N + r;
    ModUnique(y + q * N, q + q2, r, N);
  }

  /** Turning `a` places and then `b` places is turning `a + b` places. */
  lemma RotateCompose(e: Edge, a: nat, b: nat, N: nat)
    requires N > 0
    ensures Rotate(Rotate(e, a, N), b, N) == Rotate(e, a + b, N)
  {
    TurnTwice(e.0, a, b, N);
    TurnTwice(e.1, a, b, N);
  }

  lemma TurnTwice(x: nat, a: nat, b: nat, N: nat)
    requires N > 0
    ensures Turn(Turn(x, a, N), b, N) == Turn(x, a + b, N)
  {
    ModAdd(x + a, b, N);
    assert x + a + b == x + (a + b);
  }

  /** A whole turn brings every edge between servers `0 .. N-1` back. */
  lemma RotateFull(e: Edge, N: nat)
    requires N > 0 && e.0 < N && e.1 < N
    ensures Rotate(e, N, N) == e
  {
    ModUnique(e.0 + N, 1, e.0, N);
    ModUnique(e.1 + N, 1, e.1, N);
  }

  lemma RotateSetCompose(S: set<Edge>, a: nat, b: nat, c: nat, N: nat)
    requires N > 0 && c == a + b
    ensures RotateSet(RotateSet(S, a, N), b, N) == RotateSet(S, c, N)
  {
    forall e | e in S
      ensures Rotate(Rotate(e, a, N), b, N) == Rotate(e, a + b, N)
    {
      RotateCompose(e, a, b, N);
    }
    var lhs := RotateSet(RotateSet(S, a, N), b, N);
    forall x | x in lhs
      ensures x in RotateSet(S, a + b, N)
    {
      var y :| y in RotateSet(S, a, N) && x == Rotate(y, b, N);
      var e :| e in S && y == Rotate(e, a, N);
    }
    forall x | x in RotateSet(S, a + b, N)
      ensures x in lhs
    {
      var e :| e in S && x == Rotate(e, a + b, N);
      assert Rotate(e, a, N) in RotateSet(S, a, N);
    }
  }

  /** A whole turn brings an in-range forest back to itself. */
  lemma RotSetFull(forest: Forest, N: nat)
    requires N > 0 && EdgesInRange(forest, N)
    ensures RotSet(forest, N, N) == EdgeSet(forest)
  {
    var S := EdgeSet(forest);
    forall x | x in RotateSet(S, N, N)
      ensures x in S
    {
      var e :| e in S && x == Rotate(e, N, N);
      var i :| 0 <= i < |forest| && forest[i] == e;
      RotateFull(e, N);
    }
    forall x | x in S
      ensures x in RotateSet(S, N, N)
    {
      var i :| 0 <= i < |forest| && forest[i] == x;
      RotateFull(x, N);
    }
  }

  /** The rotations of an in-range forest are periodic in `N`. */
  lemma RotSetPeriodic(forest: Forest, a: nat, N: nat)
    requires N > 0 && EdgesInRange(forest, N)
    ensures RotSet(forest, a + N, N) == RotSet(forest, a, N)
  {
    var S := EdgeSet(forest);
    RotSetFull(forest, N);
    RotateSetCompose(S, N, a, a + N, N);
  }

  /** Rotation round trip: turning an in-range forest `i` places and then the
      rest of the way round gives the forest back. */
  lemma RotationRoundTrip(forest: Forest, i: nat, N: nat)
    requires 0 < N && i <= N && EdgesInRange(forest, N)
    ensures RotateSet(RotSet(forest, i, N), N - i, N) == EdgeSet(forest)
  {
    var S := EdgeSet(forest);
    var T := RotSet(forest, i, N);
    assert T == RotateSet(S, i, N);
    RotateSetCompose(S, i, N - i, N, N);
    assert RotateSet(T, N - i, N) == RotateSet(S, N, N);
    RotSetFull(forest, N);
    assert RotateSet(S, N, N) == RotSet(forest, N, N);
  }

  // ---------------------------------------------------------------------------
  // The loop

  /** `range(i, N)` of the loop with the orientations `acc` found so far. */
  function SymLoop(forest: Forest, N: nat, i: nat, acc: seq<set<Edge>>): seq<set<Edge>>
    decreases N - i
  {
    if i >= N then acc
    else
      var s := RotSet(forest, i, N);
      if s in acc then acc
      else SymLoop(forest, N, i + 1, acc + [s])
  }

  /** The distinct orientations as sets, the forest's own first. */
  function SymmetricSets(forest: Forest, N: nat): seq<set<Edge>> {
    SymLoop(forest, N, 1, [EdgeSet(forest)])
  }

  /** `acc[k]` is the `k`-th orientation. */
  predicate Orientations(acc: seq<set<Edge>>, forest: Forest, N: nat) {
    && |acc| >= 1
    && acc[0] == EdgeSet(forest)
    && forall k :: 1 <= k < |acc| ==> N > 0 && acc[k] == RotSet(forest, k, N)
  }

  lemma {:induction false} SymLoopFacts(forest: Forest, N: nat, i: nat, acc: seq<set<Edge>>)
    requires i >= 1 && |acc| == i && Orientations(acc, forest, N) && NoDups(acc)
    ensures var r := SymLoop(forest, N, i, acc);
      && Orientations(r, forest, N) && NoDups(r)
      && i <= |r| <= (if N > i then N else i)
      && (|r| < N ==> RotSet(forest, |r|, N) in r)
    decreases N - i
  {
    if i < N {
      var s := RotSet(forest, i, N);
      if s !in acc {
        var next := acc + [s];
        assert NoDups(next) by {
          forall a, b | 0 <= a < b < |next|
            ensures next[a] != next[b]
          {
            if b == |acc| {
              assert next[a] in acc;
            }
          }
        }
        assert Orientations(next, forest, N) by {
          forall k | 1 <= k < |next|
            ensures next[k] == RotSet(forest, k, N)
          {
            if k < |acc| {
              assert next[k] == acc[k];
            }
          }
        }
        SymLoopFacts(forest, N, i + 1, next);
      }
    }
  }

  /** The orientations found are pairwise distinct, start with the forest
      itself, the `k`-th is the forest turned `k` places, there are at most
      `N` of them (one when `N <= 1`), and the loop stops early only at an
      orientation seen before. */
  lemma SymmetricSetsShape(forest: Forest, N: nat)
    ensures var r := SymmetricSets(forest, N);
      && Orientations(r, forest, N) && NoDups(r)
      && 1 <= |r| <= (if N > 1 then N else 1)
      && (|r| < N ==> RotSet(forest, |r|, N) in r)
  {
    SymLoopFacts(forest, N, 1, [EdgeSet(forest)]);
  }

  /** For an in-range forest on a ring of `N > 0` servers the number of
      orientations is the forest's rotational period: the smallest `p >= 1`
      with the forest turned `p` places equal to itself. */
  lemma SymmetricPeriod(forest: Forest, N: nat)
    requires N > 0 && EdgesInRange(forest, N)
    ensures var p := |SymmetricSets(forest, N)|;
      && RotSet(forest, p, N) == EdgeSet(forest)
      && forall k :: 1 <= k < p ==> RotSet(forest, k, N) != EdgeSet(forest)
  {
    var r := SymmetricSets(forest, N);
    var p := |r|;
    SymmetricSetsShape(forest, N);
    forall k | 1 <= k < p
      ensures RotSet(forest, k, N) != EdgeSet(forest)
    {
      assert r[k] == RotSet(forest, k, N) && r[0] == EdgeSet(forest);
    }
    if p < N {
      var j :| 0 <= j < p && r[j] == RotSet(forest, p, N);
      if j > 0 {
        // Turning both equal orientations the rest of the way round from `j`.
        var S := EdgeSet(forest);
        var A := RotateSet(RotSet(forest, p, N), N - j, N);
        var B := RotateSet(RotSet(forest, j, N), N - j, N);
        assert A == B;
        RotateSetCompose(S, p, N - j, (p - j) + N, N);
        RotSetPeriodic(forest, p - j, N);
        assert A == RotSet(forest, p - j, N) == r[p - j];
        RotationRoundTrip(forest, j, N);
      }
    } else {
      RotSetFull(forest, N);
    }
  }

  // ---------------------------------------------------------------------------
  // Sets back to edge lists

  /** Lexicographic order on edges. */
  predicate EdgeLeq(a: Edge, b: Edge) {
    a.0 < b.0 || (a.0 == b.0 && a.1 <= b.1)
  }

  lemma {:induction false} MinExists(s: set<Edge>)
    requires s != {}
    ensures exists m :: m in s && forall y :: y in s ==> EdgeLeq(m, y)
    decreases |s|
  {
    var x :| x in s;
    if s - {x} == {} {
      assert s == {x};
    } else {
      MinExists(s - {x});
      var m :| m in s - {x} && forall y :: y in s - {x} ==> EdgeLeq(m, y);
      if EdgeLeq(m, x) {
        assert forall y :: y in s ==> EdgeLeq(m, y);
      } else {
        forall y | y in s
          ensures EdgeLeq(x, y)
        {
          if y != x {
            assert EdgeLeq(m, y);
          }
        }
      }
    }
  }

  /** `sorted(list(s), key=lambda x: x[0])`: the edges of `s`, each once,
      sorted by source.  Edges sharing a source come out in the set's
      iteration order in Python; here they come out by destination. */
  function SortedList(s: set<Edge>): seq<Edge>
    decreases |s|
  {
    if s == {} then []
    else
      MinExists(s);
      var m :| m in s && forall y :: y in s ==> EdgeLeq(m, y);
      [m] + SortedList(s - {m})
  }

  lemma ConsSorted(m: Edge, t: seq<Edge>)
    requires SortedBy(t, SrcKey)
    requires forall i :: 0 <= i < |t| ==> m.0 <= t[i].0
    ensures SortedBy([m] + t, SrcKey)
  {
    var r := [m] + t;
    forall i, j | 0 <= i < j < |r|
      ensures Leq(SrcKey(r[i]), SrcKey(r[j]))
    {
      if i > 0 {
        assert r[i] == t[i - 1] && r[j] == t[j - 1];
      } else {
        assert r[j] == t[j - 1];
      }
    }
  }

  lemma ConsDistinct(m: Edge, t: seq<Edge>)
    requires NoDups(t) && m !in t
    ensures NoDups([m] + t) && EdgeSet([m] + t) == {m} + EdgeSet(t)
  {
    var r := [m] + t;
    forall i, j | 0 <= i < j < |r|
      ensures r[i] != r[j]
    {
      assert r[j] == t[j - 1];
      if i > 0 {
        assert r[i] == t[i - 1];
      }
    }
    forall x | x in EdgeSet(r)
      ensures x in {m} + EdgeSet(t)
    {
      var i :| 0 <= i < |r| && r[i] == x;
      if i > 0 {
        assert x == t[i - 1];
      }
    }
  }

  /** The list holds exactly the edges of the set, each once, sorted by
      source. */
  lemma {:induction false} SortedListFacts(s: set<Edge>)
    ensures var r := SortedList(s);
      EdgeSet(r) == s && NoDups(r) && SortedBy(r, SrcKey)
    decreases |s|
  {
    if s != {} {
      MinExists(s);
      var m :| m in s && forall y :: y in s ==> EdgeLeq(m, y);
      var t := SortedList(s - {m});
      SortedListFacts(s - {m});
      assert SortedList(s) == [m] + t;
      forall i | 0 <= i < |t|
        ensures m.0 <= t[i].0
      {
        assert t[i] in EdgeSet(t);
      }
      assert m !in EdgeSet(t);
      ConsSorted(m, t);
      ConsDistinct(m, t);
    }
  }

  /** `generate_symmetric_forests(forest, N)`. */
  function SymmetricForests(forest: Forest, N: nat): (r: seq<Forest>)
    ensures |r| == |SymmetricSets(forest, N)|
    ensures forall k :: 0 <= k < |r| ==>
      EdgeSet(r[k]) == SymmetricSets(forest, N)[k] && NoDups(r[k]) && SortedBy(r[k], SrcKey)
  {
    var sets := SymmetricSets(forest, N);
    forall k | 0 <= k < |sets|
      ensures var l := SortedList(sets[k]); EdgeSet(l) == sets[k] && NoDups(l) && SortedBy(l, SrcKey)
    {
      SortedListFacts(sets[k]);
    }
    seq(|sets|, k requires 0 <= k < |sets| => SortedList(sets[k]))
  }
}
