/** Sequence and set facts used across the model. */
module Seqs {

  /** No element occurs twice. */
  predicate NoDups<T(==)>(s: seq<T>) {
    forall i, j :: 0 <= i < j < |s| ==> s[i] != s[j]
  }

  /** `a` is obtained from `s` by deleting elements (order kept). */
  predicate IsSubseq<T(==)>(a: seq<T>, s: seq<T>)
    decreases |s|
  {
    if a == [] then true
    else if s == [] then false
    else (a[0] == s[0] && IsSubseq(a[1..], s[1..])) || IsSubseq(a, s[1..])
  }

  lemma {:induction false} SubseqElements<T>(a: seq<T>, s: seq<T>)
    requires IsSubseq(a, s)
    ensures |a| <= |s|
    ensures forall x :: x in a ==> x in s
    decreases |s|
  {
    if a != [] {
      if a[0] == s[0] && IsSubseq(a[1..], s[1..]) {
        SubseqElements(a[1..], s[1..]);
        assert a == [a[0]] + a[1..];
      } else {
        SubseqElements(a, s[1..]);
      }
    }
  }

  /** The naturals below `n`. */
  function Below(n: nat): (r: set<nat>)
    ensures forall x: nat :: x in r <==> x < n
  {
    if n == 0 then {} else Below(n - 1) + {n - 1}
  }

  lemma {:induction false} BelowCard(n: nat)
    ensures |Below(n)| == n
  {
    if n > 0 {
      BelowCard(n - 1);
      assert Below(n) == Below(n - 1) + {n - 1};
    }
  }

  /** A set of naturals below `n` has at most `n` elements. */
  lemma BoundedSetCard(s: set<nat>, n: nat)
    requires forall x :: x in s ==> x < n
    ensures |s| <= n
  {
    assert s <= Below(n);
    BelowCard(n);
    Subset(s, Below(n));
  }

  lemma Subset<T>(a: set<T>, b: set<T>)
    requires a <= b
    ensures |a| <= |b|
  {
    assert b == a + (b - a);
  }

  /** Without repetitions, a sequence has as many distinct elements as positions. */
  lemma {:induction false} NoDupsCard<T>(s: seq<T>)
    requires NoDups(s)
    ensures |set x | x in s| == |s|
  {
    if s != [] {
      NoDupsCard(s[1..]);
      assert (set x | x in s) == (set x | x in s[1..]) + {s[0]};
      assert s[0] !in (set x | x in s[1..]);
    }
  }

  /** More than `n` naturals below `n` contain a repetition. */
  lemma Pigeonhole(s: seq<nat>, n: nat)
    requires |s| > n
    requires forall i :: 0 <= i < |s| ==> s[i] < n
    ensures exists i, j :: 0 <= i < j < |s| && s[i] == s[j]
  {
    if NoDups(s) {
      NoDupsCard(s);
      BoundedSetCard((set x | x in s), n);
    }
  }

  /** `s` with repeated elements removed, keeping first occurrences. */
  function Dedup<T(==)>(s: seq<T>): (r: seq<T>)
    ensures NoDups(r)
    ensures forall i :: 0 <= i < |s| ==> s[i] in r
    ensures IsSubseq(r, s)
    ensures NoDups(s) ==> r == s
  {
    DedupAfter(s, [])
  }

  /** The elements of `s` not already `seen`, first occurrences, in order. */
  function DedupAfter<T(==)>(s: seq<T>, seen: seq<T>): (r: seq<T>)
    ensures NoDups(r)
    ensures forall i :: 0 <= i < |r| ==> r[i] !in seen
    ensures forall i :: 0 <= i < |s| ==> s[i] in r || s[i] in seen
    ensures IsSubseq(r, s)
    ensures NoDups(s) && (forall i :: 0 <= i < |s| ==> s[i] !in seen) ==> r == s
    decreases |s|
  {
    if s == [] then []
    else if s[0] in seen then
      var r := DedupAfter(s[1..], seen);
      assert IsSubseq(r, s) by { assert s[1..] == s[1..]; }
      r
    else
      var t := DedupAfter(s[1..], seen + [s[0]]);
      var r := [s[0]] + t;
      assert r[1..] == t;
      r
  }

  /** A subsequence of a sequence without repetitions has none either. */
  lemma {:induction false} SubseqNoDups<T>(a: seq<T>, s: seq<T>)
    requires IsSubseq(a, s) && NoDups(s)
    ensures NoDups(a)
    decreases |s|
  {
    if a != [] {
      assert NoDups(s[1..]);
      if a[0] == s[0] && IsSubseq(a[1..], s[1..]) {
        SubseqNoDups(a[1..], s[1..]);
        SubseqElements(a[1..], s[1..]);
        forall j | 0 < j < |a|
          ensures a[0] != a[j]
        {
          assert a[j] == a[1..][j - 1];
          assert a[j] in s[1..];
        }
      } else {
        SubseqNoDups(a, s[1..]);
      }
    }
  }
}
