/** Extended reals and Python's stable `sorted(..., key=...)`.

    Every sort in the modelled code uses a numeric key: a delay (a float that
    may be `inf`), an edge's source index, or a forest's length.  All of them
    are represented by `ExtReal`, and one stable insertion sort serves them all. */
module Sorting {

  /** A real number or positive infinity; `Inf` is greater than every `Fin`. */
  datatype ExtReal = Fin(value: real) | Inf

  /** Python's `<=` on numbers, extended with `inf` as the greatest value. */
  predicate Leq(a: ExtReal, b: ExtReal) {
    match (a, b)
    case (Fin(x), Fin(y)) => x <= y
    case (_, Inf) => true
    case (Inf, Fin(_)) => false
  }

  lemma LeqTotal(a: ExtReal, b: ExtReal)
    ensures Leq(a, b) || Leq(b, a)
    ensures Leq(a, b) && Leq(b, a) ==> a == b
  {
  }

  /** A natural number (a length, an index) used as a sort key. */
  function NatKey(n: nat): (k: ExtReal)
    ensures k.Fin? && k.value >= 0.0
  {
    Fin(n as real)
  }

  /** `s` is non-decreasing by `key`. */
  predicate SortedBy<T>(s: seq<T>, key: T -> ExtReal) {
    forall i, j :: 0 <= i < j < |s| ==> Leq(key(s[i]), key(s[j]))
  }

  /** The elements of `s` whose key equals `k`, in their order in `s`.
      A sort is stable iff it leaves every such subsequence unchanged. */
  function KeyFilter<T>(s: seq<T>, key: T -> ExtReal, k: ExtReal): seq<T>
  {
    if s == [] then []
    else (if key(s[0]) == k then [s[0]] else []) + KeyFilter(s[1..], key, k)
  }

  lemma {:induction false} KeyFilterAppend<T>(a: seq<T>, b: seq<T>, key: T -> ExtReal, k: ExtReal)
    ensures KeyFilter(a + b, key, k) == KeyFilter(a, key, k) + KeyFilter(b, key, k)
  {
    if a != [] {
      assert (a + b)[1..] == a[1..] + b;
      KeyFilterAppend(a[1..], b, key, k);
    } else {
      assert a + b == b;
    }
  }

  /** Every key in `s` is at least `b`. */
  predicate BoundedBelow<T>(b: ExtReal, s: seq<T>, key: T -> ExtReal) {
    forall i :: 0 <= i < |s| ==> Leq(b, key(s[i]))
  }

  /** Inserts `x` in front of the first element whose key is not smaller. */
  function Insert<T>(x: T, s: seq<T>, key: T -> ExtReal): (r: seq<T>)
    ensures |r| == |s| + 1
    ensures multiset(r) == multiset(s) + multiset{x}
  {
    if s == [] then [x]
    else if Leq(key(x), key(s[0])) then [x] + s
    else
      assert s == [s[0]] + s[1..];
      [s[0]] + Insert(x, s[1..], key)
  }

  lemma {:induction false} InsertBoundedBelow<T>(b: ExtReal, x: T, s: seq<T>, key: T -> ExtReal)
    requires BoundedBelow(b, s, key) && Leq(b, key(x))
    ensures BoundedBelow(b, Insert(x, s, key), key)
  {
    if s != [] && !Leq(key(x), key(s[0])) {
      InsertBoundedBelow(b, x, s[1..], key);
      var t := Insert(x, s[1..], key);
      assert Insert(x, s, key) == [s[0]] + t;
    }
  }

  lemma {:induction false} InsertSorted<T>(x: T, s: seq<T>, key: T -> ExtReal)
    requires SortedBy(s, key)
    ensures SortedBy(Insert(x, s, key), key)
  {
    var r := Insert(x, s, key);
    if s == [] {
    } else if Leq(key(x), key(s[0])) {
      assert r[1..] == s;
      forall i, j | 0 <= i < j < |r|
        ensures Leq(key(r[i]), key(r[j]))
      {
        if i > 0 {
          assert r[i] == s[i - 1] && r[j] == s[j - 1];
        } else if j > 1 {
          assert Leq(key(s[0]), key(s[j - 1]));
        }
      }
    } else {
      LeqTotal(key(x), key(s[0]));
      var t := Insert(x, s[1..], key);
      assert SortedBy(s[1..], key);
      InsertSorted(x, s[1..], key);
      InsertBoundedBelow(key(s[0]), x, s[1..], key);
      assert r == [s[0]] + t;
      forall i, j | 0 <= i < j < |r|
        ensures Leq(key(r[i]), key(r[j]))
      {
        if i > 0 {
          assert r[i] == t[i - 1] && r[j] == t[j - 1];
        } else {
          assert r[j] == t[j - 1];
        }
      }
    }
  }

  lemma {:induction false} InsertKeyFilter<T>(x: T, s: seq<T>, key: T -> ExtReal, k: ExtReal)
    ensures KeyFilter(Insert(x, s, key), key, k) == (if key(x) == k then [x] else []) + KeyFilter(s, key, k)
  {
    if s == [] {
      assert Insert(x, s, key) == [x];
    } else if Leq(key(x), key(s[0])) {
      assert Insert(x, s, key)[1..] == s;
    } else {
      InsertKeyFilter(x, s[1..], key, k);
      var t := Insert(x, s[1..], key);
      assert Insert(x, s, key)[1..] == t;
      assert key(s[0]) != key(x);
    }
  }

  /** Python's `sorted(s, key=key)`: a stable sort. */
  function SortBy<T>(s: seq<T>, key: T -> ExtReal): (r: seq<T>)
    ensures |r| == |s|
    ensures multiset(r) == multiset(s)
    ensures SortedBy(r, key)
    ensures forall k :: KeyFilter(r, key, k) == KeyFilter(s, key, k)
  {
    if s == [] then []
    else
      var t := SortBy(s[1..], key);
      assert s == [s[0]] + s[1..];
      var r := Insert(s[0], t, key);
      InsertSorted(s[0], t, key);
      forall k
        ensures KeyFilter(r, key, k) == KeyFilter(s, key, k)
      {
        InsertKeyFilter(s[0], t, key, k);
      }
      r
  }

  /** A sorted sequence is left as it is. */
  lemma {:induction false} SortBySorted<T>(s: seq<T>, key: T -> ExtReal)
    requires SortedBy(s, key)
    ensures SortBy(s, key) == s
  {
    if s != [] {
      assert SortedBy(s[1..], key);
      SortBySorted(s[1..], key);
    }
  }

  lemma {:induction false} KeyFilterFirst<T>(s: seq<T>, key: T -> ExtReal, i: nat)
    requires i < |s|
    requires forall j :: 0 <= j < i ==> key(s[j]) != key(s[i])
    ensures KeyFilter(s, key, key(s[i])) != [] && KeyFilter(s, key, key(s[i]))[0] == s[i]
  {
    if i > 0 {
      forall j | 0 <= j < i - 1
        ensures key(s[1..][j]) != key(s[1..][i - 1])
      {
        assert s[1..][j] == s[j + 1];
      }
      KeyFilterFirst(s[1..], key, i - 1);
    }
  }

  /** The head of the sorted sequence is the first element of least key. */
  lemma SortByHead<T>(s: seq<T>, key: T -> ExtReal, i: nat)
    requires i < |s|
    requires forall j :: 0 <= j < |s| ==> Leq(key(s[i]), key(s[j]))
    requires forall j :: 0 <= j < i ==> key(s[j]) != key(s[i])
    ensures SortBy(s, key)[0] == s[i]
  {
    var r := SortBy(s, key);
    var k := key(s[i]);
    assert s[i] in multiset(r);
    var m :| 0 <= m < |r| && r[m] == s[i];
    assert r[0] in multiset(s);
    var n :| 0 <= n < |s| && s[n] == r[0];
    if m > 0 {
      assert Leq(key(r[0]), key(r[m]));
    }
    LeqTotal(key(r[0]), k);
    assert key(r[0]) == k;
    KeyFilterFirst(s, key, i);
    KeyFilterFirst(r, key, 0);
  }
}
