/** The array operations the utilities use on fetched rows: a `reduce`
    that sums amounts, `push` in a loop, and the store's `order` by a key. */
module Seqs {

  /** `s.reduce((acc, x) => acc + amount(x), 0)`. */
  function Sum<T>(s: seq<T>, amount: T -> real): real {
    if s == [] then 0.0 else amount(s[0]) + Sum(s[1..], amount)
  }

  /** The sum of a concatenation is the sum of the parts. */
  lemma {:induction false} SumConcat<T>(a: seq<T>, b: seq<T>, amount: T -> real)
    ensures Sum(a + b, amount) == Sum(a, amount) + Sum(b, amount)
  {
    if a == [] {
      assert a + b == b;
    } else {
      assert (a + b)[1..] == a[1..] + b;
      SumConcat(a[1..], b, amount);
    }
  }

  /** Sums of non-negative amounts are non-negative. */
  lemma {:induction false} SumNonNegative<T>(s: seq<T>, amount: T -> real)
    requires forall x :: x in s ==> amount(x) >= 0.0
    ensures Sum(s, amount) >= 0.0
  {
    if s != [] {
      SumNonNegative(s[1..], amount);
    }
  }

  /** Reordering does not change a sum: the total of a query does not depend
      on the order the store returns the rows in. */
  lemma {:induction false} SumPermutation<T>(a: seq<T>, b: seq<T>, amount: T -> real)
    requires multiset(a) == multiset(b)
    ensures Sum(a, amount) == Sum(b, amount)
    decreases |a|
  {
    if a != [] {
      assert a[0] in multiset(b);
      var k :| 0 <= k < |b| && b[k] == a[0];
      var rest := b[..k] + b[k + 1..];
      RemoveOne(a, b, k);
      SumPermutation(a[1..], rest, amount);
      SumWithout(b, k, amount);
    } else {
      assert |b| == |multiset(b)| == 0;
    }
  }

  /** Taking the same element out of two permutations of each other leaves
      permutations of each other. */
  lemma RemoveOne<T>(a: seq<T>, b: seq<T>, k: int)
    requires a != [] && multiset(a) == multiset(b) && 0 <= k < |b| && b[k] == a[0]
    ensures multiset(a[1..]) == multiset(b[..k] + b[k + 1..])
  {
    assert a == [a[0]] + a[1..];
    assert b == b[..k] + [b[k]] + b[k + 1..];
    calc {
      multiset(a[1..]);
      multiset(a) - multiset{a[0]};
      multiset(b) - multiset{b[k]};
      multiset(b[..k]) + multiset(b[k + 1..]);
      multiset(b[..k] + b[k + 1..]);
    }
  }

  /** The sum of a sequence is element `k` plus the sum of the others. */
  lemma SumWithout<T>(b: seq<T>, k: int, amount: T -> real)
    requires 0 <= k < |b|
    ensures Sum(b, amount) == amount(b[k]) + Sum(b[..k] + b[k + 1..], amount)
  {
    assert b == b[..k] + [b[k]] + b[k + 1..];
    SumConcat(b[..k] + [b[k]], b[k + 1..], amount);
    SumConcat(b[..k], [b[k]], amount);
    SumConcat(b[..k], b[k + 1..], amount);
    assert Sum([b[k]], amount) == amount(b[k]) + Sum([], amount);
  }

  /** `f(0), ..., f(n - 1)`, built by pushing one element at a time as a `for` loop does. */
  function Tabulate<U>(n: nat, f: int -> U): (r: seq<U>)
    ensures |r| == n
  {
    if n == 0 then [] else Tabulate(n - 1, f) + [f(n - 1)]
  }

  /** Element `i` of the pushed sequence is `f(i)`. */
  lemma {:induction false} TabulateIndex<U>(n: nat, f: int -> U, i: int)
    requires 0 <= i < n
    ensures Tabulate(n, f)[i] == f(i)
  {
    if i < n - 1 {
      TabulateIndex(n - 1, f, i);
    }
  }

  /** True when the keys never decrease along `s`. */
  predicate SortedBy<T>(s: seq<T>, key: T -> int) {
    forall i, j :: 0 <= i < j < |s| ==> key(s[i]) <= key(s[j])
  }

  /** Inserts `x` before the first element of `s` with a larger key. */
  function InsertBy<T>(x: T, s: seq<T>, key: T -> int): (r: seq<T>)
    ensures multiset(r) == multiset(s) + multiset{x}
    ensures |r| == |s| + 1
  {
    if s == [] then [x]
    else if key(x) <= key(s[0]) then [x] + s
    else
      assert s == [s[0]] + s[1..];
      [s[0]] + InsertBy(x, s[1..], key)
  }

  /** Inserting into a sorted sequence keeps it sorted. */
  lemma {:induction false} InsertBySorted<T>(x: T, s: seq<T>, key: T -> int)
    requires SortedBy(s, key)
    ensures SortedBy(InsertBy(x, s, key), key)
  {
    if s != [] && key(s[0]) < key(x) {
      var rest := InsertBy(x, s[1..], key);
      InsertBySorted(x, s[1..], key);
      forall k | 0 <= k < |rest|
        ensures key(s[0]) <= key(rest[k])
      {
        var y := rest[k];
        assert y in multiset(rest);
        if y != x {
          assert y in multiset(s[1..]);
          assert y in s[1..];
        }
      }
      assert InsertBy(x, s, key) == [s[0]] + rest;
    }
  }

  /** The rows ordered by ascending key: a permutation of `s` that is sorted. */
  function SortBy<T>(s: seq<T>, key: T -> int): (r: seq<T>)
    ensures multiset(r) == multiset(s)
    ensures SortedBy(r, key)
  {
    if s == [] then []
    else
      assert s == [s[0]] + s[1..];
      var rest := SortBy(s[1..], key);
      InsertBySorted(s[0], rest, key);
      InsertBy(s[0], rest, key)
  }
}
