/** Small value types and arithmetic shared by every component. */
module Prelude {

  datatype Option<+T> = None | Some(value: T)

  datatype Result<+T, +E> = Ok(value: T) | Err(error: E)

  function Min(x: int, y: int): int {
    if x <= y then x else y
  }

  function Max(x: int, y: int): int {
    if x >= y then x else y
  }

  /** Go's math.Round: to the nearest integer, halves away from zero. */
  function RoundHalfAway(x: real): (n: int)
    ensures -0.5 <= n as real - x <= 0.5
    ensures x >= 0.0 ==> n >= 0
    ensures x <= 0.0 ==> n <= 0
  {
    if x >= 0.0 then (x + 0.5).Floor else -((0.5 - x).Floor)
  }

  lemma RoundingMonotone(x: real, y: real)
    requires x <= y
    ensures RoundHalfAway(x) <= RoundHalfAway(y)
  {
  }

  lemma RoundingNegated(x: real)
    ensures RoundHalfAway(-x) == -RoundHalfAway(x)
  {
  }

  lemma MulCommutes(x: real, y: real)
    ensures x * y == y * x
  {
  }

  lemma MulNegated(x: real, y: real)
    ensures x * -y == -(x * y)
  {
  }

  lemma MulNonNegative(x: real, y: real)
    requires x >= 0.0 && y >= 0.0
    ensures x * y >= 0.0
  {
  }

  lemma MulDistributes(x: real, y: real, z: real)
    ensures x * (z - y) == x * z - x * y
  {
  }

  lemma MulGrows(x: real, y: real, z: real)
    requires x >= 0.0 && y <= z
    ensures x * y <= x * z
  {
    MulNonNegative(x, z - y);
    MulDistributes(x, y, z);
  }

  lemma MulMonotone(a: nat, b: nat, c: nat)
    requires a <= b
    ensures a * c <= b * c
  {
    assert (b - a) * c >= 0;
  }

  /** A sequence without repetitions. */
  ghost predicate Distinct<T(!new)>(s: seq<T>) {
    forall i, j :: 0 <= i < j < |s| ==> s[i] != s[j]
  }

  lemma {:induction false} DistinctCount<T(!new)>(s: seq<T>, x: T)
    requires Distinct(s)
    ensures multiset(s)[x] == if x in s then 1 else 0
  {
    if s != [] {
      var n := |s| - 1;
      assert s == s[..n] + [s[n]];
      DistinctCount(s[..n], x);
    }
  }

  /** Sequences without repetitions that have the same elements are permutations of each other. */
  lemma SameDistinctElements<T(!new)>(a: seq<T>, b: seq<T>)
    requires Distinct(a) && Distinct(b) && forall x :: x in a <==> x in b
    ensures multiset(a) == multiset(b)
  {
    forall x
      ensures multiset(a)[x] == multiset(b)[x]
    {
      DistinctCount(a, x);
      DistinctCount(b, x);
    }
  }

  lemma RemovedCount<T(!new)>(s: seq<T>, i: nat, x: T)
    requires i < |s|
    ensures multiset(s[..i] + s[i + 1..])[x] == multiset(s)[x] - if x == s[i] then 1 else 0
  {
    assert s == s[..i] + [s[i]] + s[i + 1..];
  }

  /** Two permutations of each other, without the last element of the one. */
  lemma TakeOut<T(!new)>(xs: seq<T>, ys: seq<T>) returns (i: nat)
    requires multiset(xs) == multiset(ys) && xs != []
    ensures i < |ys| && ys[i] == xs[|xs| - 1]
    ensures multiset(xs[..|xs| - 1]) == multiset(ys[..i] + ys[i + 1..])
  {
    var n := |xs| - 1;
    assert xs[n] in multiset(xs);
    i :| 0 <= i < |ys| && ys[i] == xs[n];
    assert xs[..n] + xs[n + 1..] == xs[..n];
    forall x
      ensures multiset(xs[..n])[x] == multiset(ys[..i] + ys[i + 1..])[x]
    {
      RemovedCount(xs, n, x);
      RemovedCount(ys, i, x);
    }
  }

  lemma SomeMember<T(!new)>(s: seq<T>)
    ensures s == [] || exists x :: x in s
  {
    if s != [] {
      assert s[0] in s;
    }
  }

  /** An element put in between is the only one added. */
  lemma SpliceMembers<T(!new)>(s: seq<T>, k: nat, x: T)
    requires k <= |s|
    ensures forall y :: y in s[..k] + [x] + s[k..] <==> y in s || y == x
  {
    assert s == s[..k] + s[k..];
  }

  lemma NoneMeansEmpty<T(!new)>(s: set<T>)
    requires forall x :: x !in s
    ensures s == {}
  {
  }

  lemma SameElements<T(!new)>(a: set<T>, b: set<T>)
    requires forall x :: x in a <==> x in b
    ensures a == b
  {
  }

  lemma SameMap<K(!new), V>(a: map<K, V>, b: map<K, V>)
    requires forall k :: k in a ==> k in b && a[k] == b[k]
    requires forall k :: k in b ==> k in a
    ensures a == b
  {
  }

  /** A non-empty set has an element to iterate over. */
  lemma SomeElement<T(!new)>(s: set<T>) returns (x: T)
    requires s != {}
    ensures x in s
  {
    if !exists y :: y in s {
      NoneMeansEmpty(s);
      assert false;
    }
    x :| x in s;
  }
}
