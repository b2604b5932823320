/** Small generic vocabulary shared by every other module: an optional value
    (the source's `null`/`undefined`) and order-preserving filtering of
    sequences (the source's `Array.prototype.filter`). */
module Base {

  /** A value that may be absent, as a nullable column or a missing form field is. */
  datatype Option<+T> = None | Some(value: T) {

    /** The value when present, otherwise `default`. */
    function GetOr(default: T): T {
      match this
      case Some(v) => v
      case None => default
    }
  }

  /** Keeps, in their original order, exactly the elements that satisfy `p`. */
  function Filter<T>(s: seq<T>, p: T -> bool): (r: seq<T>)
    ensures |r| <= |s|
    ensures forall i :: 0 <= i < |r| ==> p(r[i])
  {
    if |s| == 0 then []
    else if p(s[0]) then [s[0]] + Filter(s[1..], p)
    else Filter(s[1..], p)
  }

  /** An element is kept exactly when it occurs in `s` and satisfies `p`. */
  lemma {:induction false} FilterMembers<T>(s: seq<T>, p: T -> bool)
    ensures forall x :: x in Filter(s, p) ==> x in s && p(x)
    ensures forall x :: x in s && p(x) ==> x in Filter(s, p)
  {
    if |s| > 0 {
      FilterMembers(s[1..], p);
      assert s == [s[0]] + s[1..];
    }
  }

  /** The number of elements of `s` that satisfy `p`. */
  function Count<T>(s: seq<T>, p: T -> bool): (n: nat)
    ensures n <= |s|
  {
    if |s| == 0 then 0
    else (if p(s[0]) then 1 else 0) + Count(s[1..], p)
  }

  /** Filtering a concatenation filters each part. */
  lemma {:induction false} FilterAppend<T>(a: seq<T>, b: seq<T>, p: T -> bool)
    ensures Filter(a + b, p) == Filter(a, p) + Filter(b, p)
  {
    if |a| == 0 {
      assert a + b == b;
    } else {
      assert (a + b)[1..] == a[1..] + b;
      FilterAppend(a[1..], b, p);
    }
  }

  /** A filter that rejects nothing is the identity. */
  lemma {:induction false} FilterKeepsAll<T>(s: seq<T>, p: T -> bool)
    requires forall i :: 0 <= i < |s| ==> p(s[i])
    ensures Filter(s, p) == s
  {
    if |s| > 0 {
      FilterKeepsAll(s[1..], p);
    }
  }

  /** The filtered sequence is as long as the number of elements kept. */
  lemma {:induction false} FilterLength<T>(s: seq<T>, p: T -> bool)
    ensures |Filter(s, p)| == Count(s, p)
  {
    if |s| > 0 {
      FilterLength(s[1..], p);
    }
  }

  /** A sequence with an element that fails `p` has fewer passing elements
      than elements. */
  lemma {:induction false} CountMissing<T>(s: seq<T>, p: T -> bool, k: nat)
    requires k < |s| && !p(s[k])
    ensures Count(s, p) < |s|
  {
    if k > 0 {
      CountMissing(s[1..], p, k - 1);
    }
  }

  /** `f` applied to every element. */
  function Map<T, U>(s: seq<T>, f: T -> U): (r: seq<U>)
    ensures |r| == |s| && forall i :: 0 <= i < |s| ==> r[i] == f(s[i])
  {
    seq(|s|, i requires 0 <= i < |s| => f(s[i]))
  }

  /** Mapping then filtering is filtering by the composed test then mapping. */
  lemma {:induction false} FilterMap<T, U>(s: seq<T>, f: T -> U, p: U -> bool, q: T -> bool)
    requires forall x :: q(x) == p(f(x))
    ensures Filter(Map(s, f), p) == Map(Filter(s, q), f)
  {
    if |s| > 0 {
      FilterMap(s[1..], f, p, q);
      assert Map(s, f) == [f(s[0])] + Map(s[1..], f);
      if q(s[0]) {
        assert Filter(s, q) == [s[0]] + Filter(s[1..], q);
        assert Map([s[0]] + Filter(s[1..], q), f) == [f(s[0])] + Map(Filter(s[1..], q), f);
      }
    }
  }

  function Min(a: nat, b: nat): nat {
    if a <= b then a else b
  }

  /** `a` is `b` with some elements left out, the rest in their order. */
  predicate IsSubsequence<T(==)>(a: seq<T>, b: seq<T>)
    decreases |b|
  {
    || |a| == 0
    || (&& |b| > 0
        && ((a[0] == b[0] && IsSubsequence(a[1..], b[1..])) || IsSubsequence(a, b[1..])))
  }

  /** Filtering keeps the order of the elements it keeps. */
  lemma {:induction false} FilterIsSubsequence<T>(s: seq<T>, p: T -> bool)
    ensures IsSubsequence(Filter(s, p), s)
  {
    if |s| > 0 {
      FilterIsSubsequence(s[1..], p);
      if p(s[0]) {
        assert Filter(s, p) == [s[0]] + Filter(s[1..], p);
        assert Filter(s, p)[1..] == Filter(s[1..], p);
      }
    }
  }

  /** A subsequence of a prefix is a subsequence of the whole. */
  lemma {:induction false} SubsequenceOfPrefix<T>(a: seq<T>, b: seq<T>, k: nat)
    requires k <= |b| && IsSubsequence(a, b[..k])
    ensures IsSubsequence(a, b)
  {
    if |a| > 0 {
      assert b[..k][1..] == b[1..][..k - 1];
      if a[0] == b[0] && IsSubsequence(a[1..], b[..k][1..]) {
        SubsequenceOfPrefix(a[1..], b[1..], k - 1);
      } else {
        SubsequenceOfPrefix(a, b[1..], k - 1);
      }
    }
  }

  /** Whatever holds of every element of `s` holds of every kept one. */
  lemma FilterKeepsProperty<T>(s: seq<T>, p: T -> bool, q: T -> bool)
    requires forall i :: 0 <= i < |s| ==> q(s[i])
    ensures forall k :: 0 <= k < |Filter(s, p)| ==> q(Filter(s, p)[k])
  {
    forall k | 0 <= k < |Filter(s, p)|
      ensures q(Filter(s, p)[k])
    {
      var x := Filter(s, p)[k];
      FilterMembers(s, p);
      assert x in Filter(s, p);
      assert x in s;
      var m :| 0 <= m < |s| && s[m] == x;
    }
  }

  /** Filtering keeps a lower bound on `key`. */
  lemma FilterKeepsBound<T>(s: seq<T>, p: T -> bool, key: T -> int, b: int)
    requires forall i :: 0 <= i < |s| ==> b < key(s[i])
    ensures forall k :: 0 <= k < |Filter(s, p)| ==> b < key(Filter(s, p)[k])
  {
    forall k | 0 <= k < |Filter(s, p)|
      ensures b < key(Filter(s, p)[k])
    {
      var x := Filter(s, p)[k];
      FilterMembers(s, p);
      assert x in Filter(s, p);
      assert x in s;
      var m :| 0 <= m < |s| && s[m] == x;
    }
  }

  /** `key` strictly increases along `s`. */
  predicate Increasing<T>(s: seq<T>, key: T -> int) {
    forall i, j :: 0 <= i < j < |s| ==> key(s[i]) < key(s[j])
  }

  /** Filtering keeps a sequence that is strictly increasing in `key`
      strictly increasing. */
  lemma {:induction false} FilterKeepsSorted<T>(s: seq<T>, p: T -> bool, key: T -> int)
    requires Increasing(s, key)
    ensures Increasing(Filter(s, p), key)
  {
    if |s| > 0 {
      var tail := s[1..];
      TailIncreasing(s, key);
      FilterKeepsSorted(tail, p, key);
      if p(s[0]) {
        FilterKeepsBound(tail, p, key, key(s[0]));
        ConsIncreasing(s[0], Filter(tail, p), key);
      }
    }
  }

  lemma TailIncreasing<T>(s: seq<T>, key: T -> int)
    requires |s| > 0 && Increasing(s, key)
    ensures Increasing(s[1..], key)
    ensures forall i :: 0 <= i < |s[1..]| ==> key(s[0]) < key(s[1..][i])
  {
    assert forall i :: 0 <= i < |s[1..]| ==> s[1..][i] == s[i + 1];
  }

  lemma ConsIncreasing<T>(x: T, rest: seq<T>, key: T -> int)
    requires Increasing(rest, key)
    requires forall k :: 0 <= k < |rest| ==> key(x) < key(rest[k])
    ensures Increasing([x] + rest, key)
  {
    var r := [x] + rest;
    forall i, j | 0 <= i < j < |r|
      ensures key(r[i]) < key(r[j])
    {
      assert r[j] == rest[j - 1];
      if i > 0 {
        assert r[i] == rest[i - 1];
      }
    }
  }
}
