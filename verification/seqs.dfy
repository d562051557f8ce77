/**
 * Sequence operations the client code performs through `Array.prototype`:
 * `filter`, `some`, and the first-occurrence de-duplication idiom
 * `xs.filter((v, i, a) => a.findIndex(w => key(w) === key(v)) === i)`.
 */
module Seqs {

  /** `s.filter(p)`: the elements satisfying `p`, in their original order. */
  function Filter<T(!new)>(p: T -> bool, s: seq<T>): (r: seq<T>)
    ensures |r| <= |s|
    ensures forall x :: x in r <==> x in s && p(x)
    ensures forall i :: 0 <= i < |r| ==> p(r[i])
  {
    if |s| == 0 then []
    else (if p(s[0]) then [s[0]] else []) + Filter(p, s[1..])
  }

  /** Filtering distributes over concatenation, which is what "keeps the order" means. */
  lemma {:induction false} FilterConcat<T(!new)>(p: T -> bool, a: seq<T>, b: seq<T>)
    ensures Filter(p, a + b) == Filter(p, a) + Filter(p, b)
  {
    if |a| == 0 {
      assert a + b == b;
    } else {
      assert (a + b)[1..] == a[1..] + b;
      FilterConcat(p, a[1..], b);
    }
  }

  /** A filter that rejects nothing is the identity. */
  lemma {:induction false} FilterKeepsAll<T(!new)>(p: T -> bool, s: seq<T>)
    requires forall i :: 0 <= i < |s| ==> p(s[i])
    ensures Filter(p, s) == s
  {
    if |s| > 0 {
      FilterKeepsAll(p, s[1..]);
    }
  }

  /** `key` applied to every element, in order (`xs.map(key)`). */
  function Keys<T, K>(key: T -> K, xs: seq<T>): (r: seq<K>)
    ensures |r| == |xs|
    ensures forall i :: 0 <= i < |xs| ==> r[i] == key(xs[i])
  {
    seq(|xs|, i requires 0 <= i < |xs| => key(xs[i]))
  }

  /** No two elements share a key. */
  predicate DistinctKeys<T, K(==)>(key: T -> K, xs: seq<T>) {
    forall i, j :: 0 <= i < j < |xs| ==> key(xs[i]) != key(xs[j])
  }

  /**
   * Keeps the first element of each key and drops every later one; the
   * survivors stay in their original order.
   */
  function DedupeBy<T(!new), K(==,!new)>(key: T -> K, xs: seq<T>): (r: seq<T>)
    ensures |r| <= |xs|
    ensures forall x :: x in r ==> x in xs
    ensures forall k :: k in Keys(key, r) <==> k in Keys(key, xs)
    ensures DistinctKeys(key, r)
  {
    if |xs| == 0 then []
    else
      var init := xs[..|xs| - 1];
      var last := xs[|xs| - 1];
      var p := DedupeBy(key, init);
      assert xs == init + [last];
      assert forall k :: k in Keys(key, xs) <==> k in Keys(key, init) || k == key(last) by {
        assert Keys(key, xs) == Keys(key, init) + [key(last)];
      }
      if key(last) in Keys(key, init) then p
      else
        assert Keys(key, p + [last]) == Keys(key, p) + [key(last)];
        p + [last]
  }

  /** On input that already has distinct keys the de-duplication changes nothing. */
  lemma {:induction false} DedupeByDistinct<T(!new), K(!new)>(key: T -> K, xs: seq<T>)
    requires DistinctKeys(key, xs)
    ensures DedupeBy(key, xs) == xs
  {
    if |xs| > 0 {
      var init := xs[..|xs| - 1];
      assert DistinctKeys(key, init);
      DedupeByDistinct(key, init);
      assert xs == init + [xs[|xs| - 1]];
      forall i | 0 <= i < |init| ensures Keys(key, init)[i] != key(xs[|xs| - 1]) {
        assert init[i] == xs[i];
      }
    }
  }

  /**
   * Appending one element to a duplicate-free list and de-duplicating keeps
   * the list as it was when the key is already present, and appends the
   * element otherwise.
   */
  lemma DedupeByAppend<T(!new), K(!new)>(key: T -> K, xs: seq<T>, x: T)
    requires DistinctKeys(key, xs)
    ensures DedupeBy(key, xs + [x]) == if key(x) in Keys(key, xs) then xs else xs + [x]
  {
    assert (xs + [x])[..|xs|] == xs;
    DedupeByDistinct(key, xs);
  }

  /**
   * Appending one element and de-duplicating keeps the de-duplicated list
   * when the key is already present, and appends the element otherwise,
   * whether or not the list had duplicates.
   */
  lemma DedupeBySnoc<T(!new), K(!new)>(key: T -> K, xs: seq<T>, x: T)
    ensures DedupeBy(key, xs + [x]) == if key(x) in Keys(key, xs) then DedupeBy(key, xs) else DedupeBy(key, xs) + [x]
  {
    assert (xs + [x])[..|xs|] == xs;
  }

  /** The idiom's test on position `i`: no earlier element has the same key (`a.findIndex(...) === i`). */
  predicate FirstOfKey<T, K(==)>(key: T -> K, xs: seq<T>, i: int)
    requires 0 <= i < |xs|
  {
    forall j :: 0 <= j < i ==> key(xs[j]) != key(xs[i])
  }

  /** The idiom itself over the first `n` positions: the elements that pass the test, in position order. */
  function FirstOccurrences<T, K(==)>(key: T -> K, xs: seq<T>, n: nat): seq<T>
    requires n <= |xs|
  {
    if n == 0 then []
    else FirstOccurrences(key, xs, n - 1) + (if FirstOfKey(key, xs, n - 1) then [xs[n - 1]] else [])
  }

  /** The first `n` positions of a list and of any longer list it starts have the same first occurrences. */
  lemma {:induction false} FirstOccurrencesOfPrefix<T, K>(key: T -> K, xs: seq<T>, m: nat, n: nat)
    requires n <= m <= |xs|
    ensures FirstOccurrences(key, xs[..m], n) == FirstOccurrences(key, xs, n)
  {
    if n > 0 {
      FirstOccurrencesOfPrefix(key, xs, m, n - 1);
      assert FirstOfKey(key, xs[..m], n - 1) == FirstOfKey(key, xs, n - 1) by {
        forall j | 0 <= j < n - 1 ensures xs[..m][j] == xs[j] {}
      }
    }
  }

  /**
   * The de-duplication is the index-based filter of the idiom: exactly the
   * elements whose key occurs at no earlier position, in their order.
   */
  lemma {:induction false} DedupeByFirstOccurrences<T(!new), K(!new)>(key: T -> K, xs: seq<T>)
    ensures DedupeBy(key, xs) == FirstOccurrences(key, xs, |xs|)
  {
    if |xs| > 0 {
      var n := |xs|;
      var init := xs[..n - 1];
      DedupeByFirstOccurrences(key, init);
      FirstOccurrencesOfPrefix(key, xs, n - 1, n - 1);
      assert init[..n - 1] == init;
      assert key(xs[n - 1]) in Keys(key, init) <==> !FirstOfKey(key, xs, n - 1) by {
        if key(xs[n - 1]) in Keys(key, init) {
          var j :| 0 <= j < |init| && Keys(key, init)[j] == key(xs[n - 1]);
          assert key(xs[j]) == key(xs[n - 1]);
        }
        if !FirstOfKey(key, xs, n - 1) {
          var j :| 0 <= j < n - 1 && key(xs[j]) == key(xs[n - 1]);
          assert Keys(key, init)[j] == key(xs[n - 1]);
        }
      }
    }
  }

  /** The identity, for de-duplicating plain values. */
  function Self<T>(): T -> T {
    x => x
  }

  /** Distinct values of a plain list, in terms of membership and position. */
  lemma DistinctSelf<T>(xs: seq<T>)
    requires DistinctKeys(Self(), xs)
    ensures forall i, j :: 0 <= i < j < |xs| ==> xs[i] != xs[j]
  {
    forall i, j | 0 <= i < j < |xs| ensures xs[i] != xs[j] {
      assert Self<T>()(xs[i]) != Self<T>()(xs[j]);
    }
  }

  /** With the identity as key, the keys are the list itself. */
  lemma KeysSelf<T>(xs: seq<T>)
    ensures Keys(Self(), xs) == xs
  {
  }
}
