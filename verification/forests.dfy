/** Forest generation (ecowcdb/util/network.py): exhaustive enumeration of the
    valid edge subsets, sampled enumeration, and the dispatch between them. */
module ForestGen {
  import opened Wrappers
  import opened Sorting
  import opened Seqs
  import opened Descriptors
  import opened Graph
  import opened Options

  // ---------------------------------------------------------------------------
  // Combinations and their count

  /** `math.comb(n, k)`: zero when `k > n`. */
  function Choose(n: nat, k: nat): nat {
    if k == 0 then 1
    else if n == 0 then 0
    else Choose(n - 1, k - 1) + Choose(n - 1, k)
  }

  /** `2 ** m`. */
  function Pow2(m: nat): nat {
    if m == 0 then 1 else 2 * Pow2(m - 1)
  }

  /** `x` followed by each of `cs`. */
  function Prepend(x: Edge, cs: seq<Forest>): (r: seq<Forest>)
    ensures |r| == |cs|
    ensures forall i :: 0 <= i < |r| ==> r[i] == [x] + cs[i]
  {
    seq(|cs|, i requires 0 <= i < |cs| => [x] + cs[i])
  }

  /** `itertools.combinations(s, k)`: every `k`-element selection of `s`,
      positions in increasing order, in lexicographic order of positions. */
  function Combinations(s: Forest, k: nat): (r: seq<Forest>)
    decreases |s|
  {
    if k == 0 then [[]]
    else if |s| < k then []
    else Prepend(s[0], Combinations(s[1..], k - 1)) + Combinations(s[1..], k)
  }

  /** There are `comb(|s|, k)` combinations. */
  lemma {:induction false} CombinationsCount(s: Forest, k: nat)
    ensures |Combinations(s, k)| == Choose(|s|, k)
    decreases |s|
  {
    if k > 0 {
      if |s| < k {
        ChooseBeyond(|s|, k);
      } else {
        CombinationsCount(s[1..], k - 1);
        CombinationsCount(s[1..], k);
      }
    }
  }

  lemma {:induction false} ChooseBeyond(n: nat, k: nat)
    requires k > n
    ensures Choose(n, k) == 0
  {
    if n > 0 {
      ChooseBeyond(n - 1, k - 1);
      ChooseBeyond(n - 1, k);
    }
  }

  /** A list is among those prefixed with `y` iff it starts with `y` and its rest is listed. */
  lemma PrependMember(y: Edge, cs: seq<Forest>, x: Forest)
    ensures x in Prepend(y, cs) <==> x != [] && x[0] == y && x[1..] in cs
  {
    if x in Prepend(y, cs) {
      var i :| 0 <= i < |cs| && Prepend(y, cs)[i] == x;
      assert x[1..] == cs[i];
    }
    if x != [] && x[0] == y && x[1..] in cs {
      var i :| 0 <= i < |cs| && cs[i] == x[1..];
      assert x == [y] + x[1..];
      assert Prepend(y, cs)[i] == x;
    }
  }

  /** The combinations of size `k` are exactly the subsequences of length `k`. */
  lemma {:induction false} CombinationsMembers(s: Forest, k: nat, x: Forest)
    ensures x in Combinations(s, k) <==> |x| == k && IsSubseq(x, s)
    decreases |s|
  {
    if k == 0 {
    } else if |s| < k {
      if IsSubseq(x, s) {
        SubseqElements(x, s);
      }
    } else {
      assert Combinations(s, k) == Prepend(s[0], Combinations(s[1..], k - 1)) + Combinations(s[1..], k);
      PrependMember(s[0], Combinations(s[1..], k - 1), x);
      CombinationsMembers(s[1..], k, x);
      if x != [] {
        CombinationsMembers(s[1..], k - 1, x[1..]);
      }
    }
  }

  /** Over distinct edges the combinations are pairwise distinct. */
  lemma {:induction false} CombinationsNoDups(s: Forest, k: nat)
    requires NoDups(s)
    ensures NoDups(Combinations(s, k))
    decreases |s|
  {
    if k > 0 && |s| >= k {
      assert NoDups(s[1..]);
      CombinationsNoDups(s[1..], k - 1);
      CombinationsNoDups(s[1..], k);
      var head := Prepend(s[0], Combinations(s[1..], k - 1));
      var tail := Combinations(s[1..], k);
      var r := head + tail;
      forall i, j | 0 <= i < j < |r|
        ensures r[i] != r[j]
      {
        if j < |head| {
          assert r[i][1..] == Combinations(s[1..], k - 1)[i];
          assert r[j][1..] == Combinations(s[1..], k - 1)[j];
        } else if i >= |head| {
          assert r[i] == tail[i - |head|] && r[j] == tail[j - |head|];
        } else {
          assert r[j] == tail[j - |head|];
          CombinationsMembers(s[1..], k, r[j]);
          SubseqElements(r[j], s[1..]);
          assert r[j][0] in s[1..];
          assert r[i][0] == s[0];
        }
      }
    }
  }

  // ---------------------------------------------------------------------------
  // Exhaustive enumeration

  /** The valid forests among `cs`, in order. */
  function FilterForests(cs: seq<Forest>, n: nat): (r: seq<Forest>)
    ensures IsSubseq(r, cs)
    ensures forall x :: x in r <==> x in cs && IsForest(x, n)
  {
    if cs == [] then []
    else if IsForest(cs[0], n) then
      var t := FilterForests(cs[1..], n);
      var r := [cs[0]] + t;
      assert r[1..] == t;
      r
    else FilterForests(cs[1..], n)
  }

  /** The loop of `__all_forests` from subset size `i` on. */
  function AllForestsFrom(edges: Forest, n: nat, i: nat): seq<Forest>
    decreases |edges| + 1 - i
  {
    if i > |edges| then []
    else FilterForests(Combinations(edges, i), n) + AllForestsFrom(edges, n, i + 1)
  }

  /** `__all_forests(net, min_edges)`: every valid forest with at least
      `min_edges` edges, by increasing size, each size in combination order. */
  function AllForests(edges: Forest, n: nat, minEdges: nat): (r: seq<Forest>)
    ensures forall j, l :: 0 <= j < l < |r| ==> |r[j]| <= |r[l]|
  {
    AllForestsFromSizes(edges, n, minEdges);
    var r := AllForestsFrom(edges, n, minEdges);
    assert SizesFrom(r, minEdges);
    r
  }

  lemma BlockSizes(edges: Forest, n: nat, i: nat)
    ensures forall x :: x in FilterForests(Combinations(edges, i), n) ==> |x| == i
  {
    forall x | x in FilterForests(Combinations(edges, i), n)
      ensures |x| == i
    {
      CombinationsMembers(edges, i, x);
    }
  }

  /** Sizes never decrease along `s`, and none is below `i`. */
  predicate SizesFrom(s: seq<Forest>, i: nat) {
    && (forall j :: 0 <= j < |s| ==> |s[j]| >= i)
    && (forall j, l :: 0 <= j < l < |s| ==> |s[j]| <= |s[l]|)
  }

  lemma ConcatSizes(block: seq<Forest>, rest: seq<Forest>, i: nat)
    requires forall x :: x in block ==> |x| == i
    requires SizesFrom(rest, i + 1)
    ensures SizesFrom(block + rest, i)
  {
    var r := block + rest;
    forall j | 0 <= j < |r|
      ensures |r[j]| >= i
    {
      if j < |block| {
        assert r[j] in block;
      } else {
        assert r[j] == rest[j - |block|];
      }
    }
    forall j, l | 0 <= j < l < |r|
      ensures |r[j]| <= |r[l]|
    {
      if l < |block| {
        assert r[j] in block && r[l] in block;
      } else if j >= |block| {
        assert r[j] == rest[j - |block|] && r[l] == rest[l - |block|];
      } else {
        assert r[j] in block;
        assert r[l] == rest[l - |block|];
      }
    }
  }

  lemma {:induction false} AllForestsFromSizes(edges: Forest, n: nat, i: nat)
    ensures SizesFrom(AllForestsFrom(edges, n, i), i)
    decreases |edges| + 1 - i
  {
    if i <= |edges| {
      BlockSizes(edges, n, i);
      AllForestsFromSizes(edges, n, i + 1);
      ConcatSizes(FilterForests(Combinations(edges, i), n), AllForestsFrom(edges, n, i + 1), i);
    }
  }

  lemma {:induction false} AllForestsFromMembers(edges: Forest, n: nat, i: nat, x: Forest)
    ensures x in AllForestsFrom(edges, n, i) <==> IsSubseq(x, edges) && |x| >= i && IsForest(x, n)
    decreases |edges| + 1 - i
  {
    if i <= |edges| {
      var block := FilterForests(Combinations(edges, i), n);
      var rest := AllForestsFrom(edges, n, i + 1);
      assert AllForestsFrom(edges, n, i) == block + rest;
      assert x in block + rest <==> x in block || x in rest;
      AllForestsFromMembers(edges, n, i + 1, x);
      CombinationsMembers(edges, i, x);
    } else if IsSubseq(x, edges) {
      SubseqElements(x, edges);
    }
  }

  lemma ConcatNoDups(block: seq<Forest>, rest: seq<Forest>, i: nat)
    requires NoDups(block) && NoDups(rest)
    requires forall x :: x in block ==> |x| == i
    requires SizesFrom(rest, i + 1)
    ensures NoDups(block + rest)
  {
    var r := block + rest;
    forall j, l | 0 <= j < l < |r|
      ensures r[j] != r[l]
    {
      if l < |block| {
        assert r[j] == block[j] && r[l] == block[l];
      } else if j >= |block| {
        assert r[j] == rest[j - |block|] && r[l] == rest[l - |block|];
      } else {
        assert r[j] in block;
        assert r[l] == rest[l - |block|];
      }
    }
  }

  lemma BlockNoDups(edges: Forest, n: nat, i: nat)
    requires NoDups(edges)
    ensures NoDups(FilterForests(Combinations(edges, i), n))
  {
    CombinationsNoDups(edges, i);
    SubseqNoDups(FilterForests(Combinations(edges, i), n), Combinations(edges, i));
  }

  lemma {:induction false} AllForestsFromNoDups(edges: Forest, n: nat, i: nat)
    requires NoDups(edges)
    ensures NoDups(AllForestsFrom(edges, n, i))
    decreases |edges| + 1 - i
  {
    if i <= |edges| {
      var block := FilterForests(Combinations(edges, i), n);
      BlockNoDups(edges, n, i);
      AllForestsFromNoDups(edges, n, i + 1);
      AllForestsFromSizes(edges, n, i + 1);
      BlockSizes(edges, n, i);
      ConcatNoDups(block, AllForestsFrom(edges, n, i + 1), i);
      assert AllForestsFrom(edges, n, i) == block + AllForestsFrom(edges, n, i + 1);
    }
  }

  /** The exhaustive enumeration holds exactly the valid forests that are
      selections of the network's edges with at least `min_edges` edges, and
      over distinct edges it has no duplicates. */
  lemma AllForestsExact(edges: Forest, n: nat, minEdges: nat, x: Forest)
    ensures x in AllForests(edges, n, minEdges) <==> IsSubseq(x, edges) && |x| >= minEdges && IsForest(x, n)
    ensures NoDups(edges) ==> NoDups(AllForests(edges, n, minEdges))
  {
    AllForestsFromMembers(edges, n, minEdges, x);
    if NoDups(edges) {
      AllForestsFromNoDups(edges, n, minEdges);
    }
  }

  /** With `min_edges == 0` the empty forest is enumerated, and the whole edge
      list is enumerated exactly when it is itself a valid forest. */
  lemma AllForestsEnds(edges: Forest, n: nat)
    ensures [] in AllForests(edges, n, 0)
    ensures edges in AllForests(edges, n, 0) <==> IsForest(edges, n)
  {
    AllForestsExact(edges, n, 0, []);
    AllForestsExact(edges, n, 0, edges);
    SubseqRefl(edges);
    EmptyIsForest(n);
  }

  lemma {:induction false} SubseqRefl(s: Forest)
    ensures IsSubseq(s, s)
  {
    if s != [] {
      SubseqRefl(s[1..]);
    }
  }

  // ---------------------------------------------------------------------------
  // Number of combinations examined

  /** How many combinations the loop of `__all_forests` examines from size
      `i` on. */
  function Examined(edges: Forest, i: nat): nat
    decreases |edges| + 1 - i
  {
    if i > |edges| then 0 else |Combinations(edges, i)| + Examined(edges, i + 1)
  }

  /** `sum(comb(m, i) for i in range(lo, hi))`. */
  function SumChoose(m: nat, lo: nat, hi: nat): nat
    decreases hi - lo
  {
    if lo >= hi then 0 else Choose(m, lo) + SumChoose(m, lo + 1, hi)
  }

  /** `num_cuts` of `__all_forests`: `2**m` minus the combinations smaller
      than `min_edges`. */
  function NumCuts(m: nat, minEdges: nat): int {
    Pow2(m) - SumChoose(m, 0, minEdges)
  }

  lemma {:induction false} SumChooseSplit(m: nat, lo: nat, mid: nat, hi: nat)
    requires lo <= mid <= hi
    ensures SumChoose(m, lo, hi) == SumChoose(m, lo, mid) + SumChoose(m, mid, hi)
    decreases mid - lo
  {
    if lo < mid {
      SumChooseSplit(m, lo + 1, mid, hi);
    }
  }

  lemma {:induction false} SumChooseBeyond(m: nat, lo: nat, hi: nat)
    requires lo > m
    ensures SumChoose(m, lo, hi) == 0
    decreases hi - lo
  {
    if lo < hi {
      ChooseBeyond(m, lo);
      SumChooseBeyond(m, lo + 1, hi);
    }
  }

  /** Pascal's rule, summed. */
  lemma {:induction false} SumChoosePascal(m: nat, lo: nat, hi: nat)
    ensures SumChoose(m + 1, lo + 1, hi + 1) == SumChoose(m, lo, hi) + SumChoose(m, lo + 1, hi + 1)
    decreases hi - lo
  {
    if lo < hi {
      SumChoosePascal(m, lo + 1, hi);
    }
  }

  /** The binomial theorem at `x = y = 1`. */
  lemma {:induction false} SumChooseAll(m: nat)
    ensures SumChoose(m, 0, m + 1) == Pow2(m)
  {
    if m > 0 {
      var k := m - 1;
      SumChooseAll(k);
      SumChoosePascal(k, 0, k + 1);
      SumChooseSplit(k, 0, 1, k + 2);
      SumChooseSplit(k, 0, k + 1, k + 2);
      ChooseBeyond(k, k + 1);
    }
  }

  lemma {:induction false} ExaminedSum(edges: Forest, i: nat)
    ensures Examined(edges, i) == SumChoose(|edges|, i, |edges| + 1)
    decreases |edges| + 1 - i
  {
    if i <= |edges| {
      ExaminedSum(edges, i + 1);
      CombinationsCount(edges, i);
    }
  }

  /** The progress total `num_cuts` equals the number of combinations the
      enumeration examines, for every `min_edges`. */
  lemma NumCutsExamined(edges: Forest, minEdges: nat)
    ensures NumCuts(|edges|, minEdges) == Examined(edges, minEdges)
  {
    var m := |edges|;
    ExaminedSum(edges, minEdges);
    SumChooseAll(m);
    if minEdges <= m + 1 {
      SumChooseSplit(m, 0, minEdges, m + 1);
    } else {
      SumChooseSplit(m, 0, m + 1, minEdges);
      SumChooseBeyond(m, m + 1, minEdges);
    }
  }

  // ---------------------------------------------------------------------------
  // Sampled enumeration

  /** `FAIL_LIMIT` of `__subset_forests`. */
  const FailLimit: nat := 10000

  /** Why sampling stopped without a result.  `NotEnoughForests` is the
      source's `ValueError`; `CandidatesExhausted` marks the end of the finite
      candidate stream that stands for `random.sample`. */
  datatype SampleError = NotEnoughForests | CandidatesExhausted

  /** The key of `sorted(forests, key=lambda x: len(x))`. */
  function LenKey(f: Forest): ExtReal {
    NatKey(|f|)
  }

  /** A sample is rejected when, sorted by source, it was already chosen or is
      not a valid forest. */
  predicate Rejected(sample: Forest, chosen: seq<Forest>, n: nat) {
    var c := SortBy(sample, SrcKey);
    c in chosen || !IsForest(c, n)
  }

  /** The `while` loop of `__subset_forests`, consuming one candidate sample
      per iteration. */
  function SampleLoop(n: nat, numForests: nat, chosen: seq<Forest>, fails: nat, candidates: seq<Forest>)
    : Result<seq<Forest>, SampleError>
    decreases |candidates|
  {
    if |chosen| >= numForests then Ok(chosen)
    else if candidates == [] then Err(CandidatesExhausted)
    else
      var c := SortBy(candidates[0], SrcKey);
      if c !in chosen && IsForest(c, n) then SampleLoop(n, numForests, chosen + [c], 0, candidates[1..])
      else if fails + 1 > FailLimit then Err(NotEnoughForests)
      else SampleLoop(n, numForests, chosen, fails + 1, candidates[1..])
  }

  /** Every entry of `s` from position `from` on is a valid forest sorted by
      source. */
  predicate GoodFrom(s: seq<Forest>, from: nat, n: nat) {
    forall i :: from <= i < |s| ==> IsForest(s[i], n) && SortedBy(s[i], SrcKey)
  }

  lemma AppendFresh(chosen: seq<Forest>, c: Forest)
    requires NoDups(chosen) && c !in chosen
    ensures NoDups(chosen + [c])
  {
    var next := chosen + [c];
    forall i, j | 0 <= i < j < |next|
      ensures next[i] != next[j]
    {
      if j == |chosen| {
        assert next[i] in chosen;
      }
    }
  }

  lemma ExtendsPrefix(r: seq<Forest>, chosen: seq<Forest>, c: Forest, n: nat)
    requires |chosen| < |r| && r[..|chosen| + 1] == chosen + [c]
    requires GoodFrom(r, |chosen| + 1, n) && IsForest(c, n) && SortedBy(c, SrcKey)
    ensures r[..|chosen|] == chosen && GoodFrom(r, |chosen|, n)
  {
    assert r[..|chosen|] == r[..|chosen| + 1][..|chosen|];
    assert r[|chosen|] == (chosen + [c])[|chosen|];
  }

  /** A rejected sample counts one more failure and moves on, or raises. */
  lemma RejectedStep(n: nat, numForests: nat, chosen: seq<Forest>, fails: nat, candidates: seq<Forest>)
    requires |chosen| < numForests && candidates != [] && Rejected(candidates[0], chosen, n)
    ensures SampleLoop(n, numForests, chosen, fails, candidates)
            == if fails + 1 > FailLimit then Err(NotEnoughForests)
               else SampleLoop(n, numForests, chosen, fails + 1, candidates[1..])
  {
  }

  /** An accepted sample, sorted by source, joins the chosen forests. */
  lemma AcceptedStep(n: nat, numForests: nat, chosen: seq<Forest>, fails: nat, candidates: seq<Forest>)
    requires |chosen| < numForests && candidates != [] && !Rejected(candidates[0], chosen, n)
    ensures SampleLoop(n, numForests, chosen, fails, candidates)
            == SampleLoop(n, numForests, chosen + [SortBy(candidates[0], SrcKey)], 0, candidates[1..])
  {
  }

  lemma {:induction false} SampleLoopLength(n: nat, numForests: nat, chosen: seq<Forest>, fails: nat, candidates: seq<Forest>)
    ensures var r := SampleLoop(n, numForests, chosen, fails, candidates);
      r.Ok? ==> |r.value| == (if |chosen| >= numForests then |chosen| else numForests)
    decreases |candidates|
  {
    if |chosen| < numForests && candidates != [] {
      if Rejected(candidates[0], chosen, n) {
        RejectedStep(n, numForests, chosen, fails, candidates);
        if fails + 1 <= FailLimit {
          SampleLoopLength(n, numForests, chosen, fails + 1, candidates[1..]);
        }
      } else {
        AcceptedStep(n, numForests, chosen, fails, candidates);
        SampleLoopLength(n, numForests, chosen + [SortBy(candidates[0], SrcKey)], 0, candidates[1..]);
      }
    }
  }

  /** What the loop returns extends `chosen` by new, valid, source-sorted forests. */
  predicate GoodResult(n: nat, numForests: nat, chosen: seq<Forest>, fails: nat, candidates: seq<Forest>) {
    var r := SampleLoop(n, numForests, chosen, fails, candidates);
    r.Ok? ==> |chosen| <= |r.value| && NoDups(r.value) && r.value[..|chosen|] == chosen && GoodFrom(r.value, |chosen|, n)
  }

  lemma GoodRejected(n: nat, numForests: nat, chosen: seq<Forest>, fails: nat, candidates: seq<Forest>)
    requires |chosen| < numForests && candidates != [] && Rejected(candidates[0], chosen, n) && fails + 1 <= FailLimit
    requires GoodResult(n, numForests, chosen, fails + 1, candidates[1..])
    ensures GoodResult(n, numForests, chosen, fails, candidates)
  {
    RejectedStep(n, numForests, chosen, fails, candidates);
  }

  lemma GoodAccepted(n: nat, numForests: nat, chosen: seq<Forest>, fails: nat, candidates: seq<Forest>)
    requires NoDups(chosen)
    requires |chosen| < numForests && candidates != [] && !Rejected(candidates[0], chosen, n)
    requires GoodResult(n, numForests, chosen + [SortBy(candidates[0], SrcKey)], 0, candidates[1..])
    ensures GoodResult(n, numForests, chosen, fails, candidates)
  {
    AcceptedStep(n, numForests, chosen, fails, candidates);
    var c := SortBy(candidates[0], SrcKey);
    var r := SampleLoop(n, numForests, chosen + [c], 0, candidates[1..]);
    if r.Ok? {
      ExtendsPrefix(r.value, chosen, c, n);
    }
  }

  lemma {:induction false} SampleLoopGood(n: nat, numForests: nat, chosen: seq<Forest>, fails: nat, candidates: seq<Forest>)
    requires NoDups(chosen)
    ensures GoodResult(n, numForests, chosen, fails, candidates)
    decreases |candidates|
  {
    if |chosen| < numForests && candidates != [] {
      if Rejected(candidates[0], chosen, n) {
        if fails + 1 <= FailLimit {
          SampleLoopGood(n, numForests, chosen, fails + 1, candidates[1..]);
          GoodRejected(n, numForests, chosen, fails, candidates);
        } else {
          RejectedStep(n, numForests, chosen, fails, candidates);
        }
      } else {
        AppendFresh(chosen, SortBy(candidates[0], SrcKey));
        SampleLoopGood(n, numForests, chosen + [SortBy(candidates[0], SrcKey)], 0, candidates[1..]);
        GoodAccepted(n, numForests, chosen, fails, candidates);
      }
    }
  }

  lemma {:induction false} SampleLoopGivesUp(n: nat, numForests: nat, chosen: seq<Forest>, fails: nat, candidates: seq<Forest>)
    ensures SampleLoop(n, numForests, chosen, fails, candidates) == Err(NotEnoughForests) ==> fails + |candidates| > FailLimit
    decreases |candidates|
  {
    if |chosen| < numForests && candidates != [] {
      var c := SortBy(candidates[0], SrcKey);
      if c !in chosen && IsForest(c, n) {
        SampleLoopGivesUp(n, numForests, chosen + [c], 0, candidates[1..]);
      } else if fails + 1 <= FailLimit {
        assert SampleLoop(n, numForests, chosen, fails, candidates) == SampleLoop(n, numForests, chosen, fails + 1, candidates[1..]);
        SampleLoopGivesUp(n, numForests, chosen, fails + 1, candidates[1..]);
      }
    }
  }

  /** The candidates sorted by source: the forests the loop may append, in
      the order it meets them. */
  function BySource(candidates: seq<Forest>): (r: seq<Forest>)
    ensures |r| == |candidates| && forall j :: 0 <= j < |r| ==> r[j] == SortBy(candidates[j], SrcKey)
  {
    seq(|candidates|, j requires 0 <= j < |candidates| => SortBy(candidates[j], SrcKey))
  }

  lemma BySourceTail(candidates: seq<Forest>)
    requires candidates != []
    ensures BySource(candidates[1..]) == BySource(candidates)[1..]
    ensures BySource(candidates)[0] == SortBy(candidates[0], SrcKey)
  {
  }

  /** A subsequence of the tail is a subsequence of the whole. */
  lemma SubseqDrop(a: seq<Forest>, s: seq<Forest>)
    requires s != [] && IsSubseq(a, s[1..])
    ensures IsSubseq(a, s)
  {
  }

  /** The forest appended first is the head of `bs`, the rest come from its tail. */
  lemma AppendedFromHead(rv: seq<Forest>, chosen: seq<Forest>, bs: seq<Forest>)
    requires bs != [] && |chosen| < |rv| && rv[..|chosen| + 1] == chosen + [bs[0]]
    requires IsSubseq(rv[|chosen| + 1..], bs[1..])
    ensures rv[..|chosen|] == chosen && IsSubseq(rv[|chosen|..], bs)
  {
    var tail := rv[|chosen|..];
    assert rv[..|chosen|] == rv[..|chosen| + 1][..|chosen|];
    assert tail[0] == rv[..|chosen| + 1][|chosen|] == bs[0];
    assert tail[1..] == rv[|chosen| + 1..];
  }

  /** The forests the loop appends to `chosen` are candidates, sorted by
      source, taken in the order they were sampled. */
  predicate FromCandidates(n: nat, numForests: nat, chosen: seq<Forest>, fails: nat, candidates: seq<Forest>) {
    var r := SampleLoop(n, numForests, chosen, fails, candidates);
    r.Ok? ==> |chosen| <= |r.value| && r.value[..|chosen|] == chosen && IsSubseq(r.value[|chosen|..], BySource(candidates))
  }

  lemma FromCandidatesRejected(n: nat, numForests: nat, chosen: seq<Forest>, fails: nat, candidates: seq<Forest>)
    requires |chosen| < numForests && candidates != [] && Rejected(candidates[0], chosen, n) && fails + 1 <= FailLimit
    requires FromCandidates(n, numForests, chosen, fails + 1, candidates[1..])
    ensures FromCandidates(n, numForests, chosen, fails, candidates)
  {
    RejectedStep(n, numForests, chosen, fails, candidates);
    BySourceTail(candidates);
    var r := SampleLoop(n, numForests, chosen, fails + 1, candidates[1..]);
    if r.Ok? {
      SubseqDrop(r.value[|chosen|..], BySource(candidates));
    }
  }

  lemma FromCandidatesAccepted(n: nat, numForests: nat, chosen: seq<Forest>, fails: nat, candidates: seq<Forest>)
    requires |chosen| < numForests && candidates != [] && !Rejected(candidates[0], chosen, n)
    requires FromCandidates(n, numForests, chosen + [SortBy(candidates[0], SrcKey)], 0, candidates[1..])
    ensures FromCandidates(n, numForests, chosen, fails, candidates)
  {
    AcceptedStep(n, numForests, chosen, fails, candidates);
    BySourceTail(candidates);
    var r := SampleLoop(n, numForests, chosen + [SortBy(candidates[0], SrcKey)], 0, candidates[1..]);
    if r.Ok? {
      AppendedFromHead(r.value, chosen, BySource(candidates));
    }
  }

  lemma {:induction false} SampleLoopFromCandidates(n: nat, numForests: nat, chosen: seq<Forest>, fails: nat, candidates: seq<Forest>)
    ensures FromCandidates(n, numForests, chosen, fails, candidates)
    decreases |candidates|
  {
    if |chosen| < numForests && candidates != [] {
      if Rejected(candidates[0], chosen, n) {
        if fails + 1 <= FailLimit {
          SampleLoopFromCandidates(n, numForests, chosen, fails + 1, candidates[1..]);
          FromCandidatesRejected(n, numForests, chosen, fails, candidates);
        } else {
          RejectedStep(n, numForests, chosen, fails, candidates);
        }
      } else {
        SampleLoopFromCandidates(n, numForests, chosen + [SortBy(candidates[0], SrcKey)], 0, candidates[1..]);
        FromCandidatesAccepted(n, numForests, chosen, fails, candidates);
      }
    }
  }

  /** Candidates `lo .. m-1` are all rejected against the chosen list `final`. */
  predicate RejectedRun(candidates: seq<Forest>, lo: nat, m: nat, final: seq<Forest>, n: nat)
    requires lo <= m <= |candidates|
  {
    forall i :: lo <= i < m ==> Rejected(candidates[i], final, n)
  }

  /** Sampling gave up after the candidates `lo .. m-1` were rejected in a
      row, against a chosen list `final` that extends `chosen` and is still
      short of `num_forests`: more than `FailLimit` rejections, where a run
      from the first candidate also counts the `fails` before it. */
  predicate GaveUpAfter(candidates: seq<Forest>, numForests: nat, chosen: seq<Forest>, fails: nat,
                        final: seq<Forest>, lo: nat, m: nat, n: nat)
  {
    && lo <= m <= |candidates|
    && |chosen| <= |final| < numForests && final[..|chosen|] == chosen
    && RejectedRun(candidates, lo, m, final, n)
    && (m - lo > FailLimit || (lo == 0 && final == chosen && m + fails > FailLimit))
  }

  lemma ShiftRun(candidates: seq<Forest>, lo: nat, m: nat, final: seq<Forest>, n: nat)
    requires candidates != [] && lo <= m <= |candidates| - 1
    requires RejectedRun(candidates[1..], lo, m, final, n)
    ensures RejectedRun(candidates, lo + 1, m + 1, final, n)
    ensures Rejected(candidates[0], final, n) ==> RejectedRun(candidates, 0, m + 1, final, n) || lo > 0
  {
    forall i | lo + 1 <= i < m + 1
      ensures Rejected(candidates[i], final, n)
    {
      assert candidates[i] == candidates[1..][i - 1];
    }
    if lo == 0 && Rejected(candidates[0], final, n) {
      forall i | 0 <= i < m + 1
        ensures Rejected(candidates[i], final, n)
      {
        if i > 0 {
          assert candidates[i] == candidates[1..][i - 1];
        }
      }
    }
  }

  /** Sampling raises only after more than `FailLimit` consecutive
      rejections (counting the `fails` already made). */
  ghost predicate RaisesAfterStreak(n: nat, numForests: nat, chosen: seq<Forest>, fails: nat, candidates: seq<Forest>) {
    SampleLoop(n, numForests, chosen, fails, candidates) == Err(NotEnoughForests) ==>
      exists final: seq<Forest>, lo: nat, m: nat :: GaveUpAfter(candidates, numForests, chosen, fails, final, lo, m, n)
  }

  lemma StreakLast(n: nat, numForests: nat, chosen: seq<Forest>, fails: nat, candidates: seq<Forest>)
    requires |chosen| < numForests && candidates != [] && Rejected(candidates[0], chosen, n) && fails + 1 > FailLimit
    ensures RaisesAfterStreak(n, numForests, chosen, fails, candidates)
  {
    assert RejectedRun(candidates, 0, 1, chosen, n);
    assert chosen[..|chosen|] == chosen;
    assert GaveUpAfter(candidates, numForests, chosen, fails, chosen, 0, 1, n);
  }

  /** A rejected first candidate extends a run that starts the tail. */
  lemma GaveUpShiftRejected(candidates: seq<Forest>, numForests: nat, chosen: seq<Forest>, fails: nat,
                            final: seq<Forest>, lo: nat, m: nat, n: nat)
    requires candidates != [] && Rejected(candidates[0], chosen, n)
    requires GaveUpAfter(candidates[1..], numForests, chosen, fails + 1, final, lo, m, n)
    ensures GaveUpAfter(candidates, numForests, chosen, fails, final, if m - lo > FailLimit then lo + 1 else 0, m + 1, n)
  {
    ShiftRun(candidates, lo, m, final, n);
  }

  /** After an accepted first candidate the run lies wholly in the tail. */
  lemma GaveUpShiftAccepted(candidates: seq<Forest>, numForests: nat, chosen: seq<Forest>, fails: nat, c: Forest,
                            final: seq<Forest>, lo: nat, m: nat, n: nat)
    requires candidates != []
    requires GaveUpAfter(candidates[1..], numForests, chosen + [c], 0, final, lo, m, n)
    ensures GaveUpAfter(candidates, numForests, chosen, fails, final, lo + 1, m + 1, n)
  {
    ShiftRun(candidates, lo, m, final, n);
    assert final[..|chosen|] == final[..|chosen| + 1][..|chosen|];
  }

  lemma StreakRejected(n: nat, numForests: nat, chosen: seq<Forest>, fails: nat, candidates: seq<Forest>)
    requires |chosen| < numForests && candidates != [] && Rejected(candidates[0], chosen, n) && fails + 1 <= FailLimit
    requires RaisesAfterStreak(n, numForests, chosen, fails + 1, candidates[1..])
    ensures RaisesAfterStreak(n, numForests, chosen, fails, candidates)
  {
    RejectedStep(n, numForests, chosen, fails, candidates);
    if SampleLoop(n, numForests, chosen, fails, candidates) == Err(NotEnoughForests) {
      var final: seq<Forest>, lo: nat, m: nat :| GaveUpAfter(candidates[1..], numForests, chosen, fails + 1, final, lo, m, n);
      GaveUpShiftRejected(candidates, numForests, chosen, fails, final, lo, m, n);
    }
  }

  lemma StreakAccepted(n: nat, numForests: nat, chosen: seq<Forest>, fails: nat, candidates: seq<Forest>)
    requires |chosen| < numForests && candidates != [] && !Rejected(candidates[0], chosen, n)
    requires RaisesAfterStreak(n, numForests, chosen + [SortBy(candidates[0], SrcKey)], 0, candidates[1..])
    ensures RaisesAfterStreak(n, numForests, chosen, fails, candidates)
  {
    AcceptedStep(n, numForests, chosen, fails, candidates);
    var c := SortBy(candidates[0], SrcKey);
    if SampleLoop(n, numForests, chosen, fails, candidates) == Err(NotEnoughForests) {
      var final: seq<Forest>, lo: nat, m: nat :| GaveUpAfter(candidates[1..], numForests, chosen + [c], 0, final, lo, m, n);
      GaveUpShiftAccepted(candidates, numForests, chosen, fails, c, final, lo, m, n);
    }
  }

  lemma {:induction false} SampleLoopStreak(n: nat, numForests: nat, chosen: seq<Forest>, fails: nat, candidates: seq<Forest>)
    ensures RaisesAfterStreak(n, numForests, chosen, fails, candidates)
    decreases |candidates|
  {
    if |chosen| < numForests && candidates != [] {
      if Rejected(candidates[0], chosen, n) {
        if fails + 1 > FailLimit {
          StreakLast(n, numForests, chosen, fails, candidates);
        } else {
          SampleLoopStreak(n, numForests, chosen, fails + 1, candidates[1..]);
          StreakRejected(n, numForests, chosen, fails, candidates);
        }
      } else {
        SampleLoopStreak(n, numForests, chosen + [SortBy(candidates[0], SrcKey)], 0, candidates[1..]);
        StreakAccepted(n, numForests, chosen, fails, candidates);
      }
    }
  }

  /** The loop only appends new, valid, source-sorted forests taken from the
      candidates in sampling order, stops at `num_forests`, and gives up only
      after more than `FailLimit` rejections in a row. */
  lemma SampleLoopFacts(n: nat, numForests: nat, chosen: seq<Forest>, fails: nat, candidates: seq<Forest>)
    requires NoDups(chosen)
    ensures var r := SampleLoop(n, numForests, chosen, fails, candidates);
      && (r.Ok? ==> |r.value| == (if |chosen| >= numForests then |chosen| else numForests))
      && (r.Ok? ==> NoDups(r.value) && r.value[..|chosen|] == chosen && GoodFrom(r.value, |chosen|, n))
      && (r.Ok? ==> IsSubseq(r.value[|chosen|..], BySource(candidates)))
      && (r == Err(NotEnoughForests) ==> fails + |candidates| > FailLimit)
      && (r == Err(NotEnoughForests) ==> exists final: seq<Forest>, lo: nat, m: nat :: GaveUpAfter(candidates, numForests, chosen, fails, final, lo, m, n))
  {
    SampleLoopLength(n, numForests, chosen, fails, candidates);
    SampleLoopGood(n, numForests, chosen, fails, candidates);
    SampleLoopGivesUp(n, numForests, chosen, fails, candidates);
    SampleLoopFromCandidates(n, numForests, chosen, fails, candidates);
    SampleLoopStreak(n, numForests, chosen, fails, candidates);
  }

  /** Once `FailLimit + 1 - fails` consecutive samples are rejected, sampling
      gives up with the source's `ValueError`. */
  lemma {:induction false} RejectionsRaise(n: nat, numForests: nat, chosen: seq<Forest>, fails: nat, candidates: seq<Forest>)
    requires NoDups(chosen) && |chosen| < numForests
    requires fails <= FailLimit
    requires |candidates| >= FailLimit + 1 - fails
    requires forall i :: 0 <= i < FailLimit + 1 - fails ==> Rejected(candidates[i], chosen, n)
    ensures SampleLoop(n, numForests, chosen, fails, candidates) == Err(NotEnoughForests)
    decreases FailLimit - fails
  {
    RejectedStep(n, numForests, chosen, fails, candidates);
    if fails + 1 <= FailLimit {
      forall i | 0 <= i < FailLimit + 1 - (fails + 1)
        ensures Rejected(candidates[1..][i], chosen, n)
      {
        assert candidates[1..][i] == candidates[i + 1];
      }
      RejectionsRaise(n, numForests, chosen, fails + 1, candidates[1..]);
    }
  }

  /** `__subset_forests(net, min_edges, num_forests)`, with `candidates` the
      successive results of `sample(edges, randint(min_edges, len(edges)))`.
      The result always holds the empty forest, has no duplicates, holds only
      valid forests sorted by source, and is the list `[[]]` plus the
      accepted candidates, stably sorted by size. */
  function SubsetForests(n: nat, numForests: nat, candidates: seq<Forest>): (r: Result<seq<Forest>, SampleError>)
    ensures numForests == 0 ==> r == Ok([])
    ensures r.Ok? && numForests > 0 ==> |r.value| == numForests && [] in r.value
    ensures r.Ok? ==> NoDups(r.value) && SortedBy(r.value, LenKey)
    ensures r.Ok? ==> GoodFrom(r.value, 0, n)
    ensures numForests > 0 ==>
      var s := SampleLoop(n, numForests, [[]], 0, candidates);
      && (r.Err? <==> s.Err?)
      && (r.Err? ==> r.error == s.error)
      && (r.Ok? ==> |s.value| >= 1 && s.value[..1] == [[]] && IsSubseq(s.value[1..], BySource(candidates)))
      && (r.Ok? ==> multiset(r.value) == multiset(s.value))
      && (r.Ok? ==> forall d :: KeyFilter(r.value, LenKey, d) == KeyFilter(s.value, LenKey, d))
    ensures numForests > 0 && r == Err(NotEnoughForests) ==>
      exists final: seq<Forest>, lo: nat, m: nat :: GaveUpAfter(candidates, numForests, [[]], 0, final, lo, m, n)
  {
    if numForests == 0 then Ok([])
    else
      var sampled := SampleLoop(n, numForests, [[]], 0, candidates);
      SampleLoopFacts(n, numForests, [[]], 0, candidates);
      if sampled.Err? then Err(sampled.error)
      else
        SortedSampleFacts(sampled.value, n);
        Ok(SortBy(sampled.value, LenKey))
  }

  lemma SortedSampleFacts(s: seq<Forest>, n: nat)
    requires |s| >= 1 && s[..1] == [[]] && NoDups(s) && GoodFrom(s, 1, n)
    ensures var r := SortBy(s, LenKey);
      [] in r && NoDups(r) && GoodFrom(r, 0, n)
  {
    var r := SortBy(s, LenKey);
    assert s[0] == s[..1][0] == [];
    EmptyIsForest(n);
    assert GoodFrom(s, 0, n);
    assert [] in multiset(r);
    GoodPermutation(s, r, n);
    MultisetNoDups(s, r);
  }

  lemma GoodPermutation(s: seq<Forest>, r: seq<Forest>, n: nat)
    requires multiset(r) == multiset(s) && GoodFrom(s, 0, n)
    ensures GoodFrom(r, 0, n)
  {
    forall i | 0 <= i < |r|
      ensures IsForest(r[i], n) && SortedBy(r[i], SrcKey)
    {
      assert r[i] in multiset(s);
    }
  }

  /** A permutation of a sequence without repetitions has none either. */
  lemma MultisetNoDups(s: seq<Forest>, r: seq<Forest>)
    requires NoDups(s) && multiset(r) == multiset(s)
    ensures NoDups(r)
  {
    forall x | x in multiset(s)
      ensures multiset(s)[x] == 1
    {
      NoDupsCount(s, x);
    }
    forall i, j | 0 <= i < j < |r|
      ensures r[i] != r[j]
    {
      TwiceCounted(r, i, j);
    }
  }

  lemma TwiceCounted(r: seq<Forest>, i: nat, j: nat)
    requires i < j < |r|
    ensures r[i] == r[j] ==> multiset(r)[r[i]] >= 2
  {
    var x := r[i];
    assert r == r[..i] + [x] + r[i + 1..j] + [r[j]] + r[j + 1..];
  }

  lemma {:induction false} NoDupsCount(s: seq<Forest>, x: Forest)
    requires NoDups(s) && x in s
    ensures multiset(s)[x] == 1
  {
    if s[0] == x {
      assert s == [x] + s[1..];
      assert x !in s[1..];
    } else {
      assert s == [s[0]] + s[1..];
      NoDupsCount(s[1..], x);
    }
  }

  /** `generate_forests(net, forest_generation, min_edges, num_forests)`. */
  function GenerateForests(mode: ForestGeneration, edges: Forest, n: nat, minEdges: nat, numForests: nat,
                           candidates: seq<Forest>): (r: Result<seq<Forest>, SampleError>)
    ensures mode == Empty ==> r == Ok([])
    ensures mode == All ==> r.Ok? && forall x :: x in r.value <==> IsSubseq(x, edges) && |x| >= minEdges && IsForest(x, n)
    ensures mode == Partial ==> r == SubsetForests(n, numForests, candidates)
  {
    match mode
    case Empty => Ok([])
    case Partial => SubsetForests(n, numForests, candidates)
    case All =>
      var r := AllForests(edges, n, minEdges);
      assert forall x :: x in r <==> IsSubseq(x, edges) && |x| >= minEdges && IsForest(x, n) by {
        forall x
          ensures x in r <==> IsSubseq(x, edges) && |x| >= minEdges && IsForest(x, n)
        {
          AllForestsExact(edges, n, minEdges, x);
        }
      }
      Ok(r)
  }
}
