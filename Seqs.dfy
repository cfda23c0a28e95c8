/**
 * Sequence operations the request handlers are built from: Python list
 * comprehensions with an `if` become `Filter`, key lookups in a table become
 * `Lookup`, and the database's insert-or-update on a primary key becomes `Put`.
 */
module Seqs {
  import opened Wrappers

  /** The elements of `xs` that satisfy `p`, in their original order. */
  function Filter<T>(xs: seq<T>, p: T -> bool): (r: seq<T>)
    ensures |r| <= |xs|
    ensures forall i :: 0 <= i < |r| ==> r[i] in xs && p(r[i])
    ensures forall i :: 0 <= i < |xs| && p(xs[i]) ==> xs[i] in r
    decreases |xs|
  {
    if xs == [] then []
    else (if p(xs[0]) then [xs[0]] else []) + Filter(xs[1..], p)
  }

  /** Filtering a concatenation filters each part: relative order is kept. */
  lemma {:induction false} FilterConcat<T>(a: seq<T>, b: seq<T>, p: T -> bool)
    ensures Filter(a + b, p) == Filter(a, p) + Filter(b, p)
    decreases |a|
  {
    if a == [] {
      assert a + b == b;
    } else {
      assert (a + b)[0] == a[0];
      assert (a + b)[1..] == a[1..] + b;
      FilterConcat(a[1..], b, p);
    }
  }

  /** A filter that every element passes changes nothing. */
  lemma {:induction false} FilterKeepsAll<T>(xs: seq<T>, p: T -> bool)
    requires forall i :: 0 <= i < |xs| ==> p(xs[i])
    ensures Filter(xs, p) == xs
    decreases |xs|
  {
    if xs != [] {
      FilterKeepsAll(xs[1..], p);
    }
  }

  /** A filter that no element passes leaves nothing. */
  lemma {:induction false} FilterDropsAll<T>(xs: seq<T>, p: T -> bool)
    requires forall i :: 0 <= i < |xs| ==> !p(xs[i])
    ensures Filter(xs, p) == []
    decreases |xs|
  {
    if xs != [] {
      FilterDropsAll(xs[1..], p);
    }
  }

  /** A weaker predicate keeps at least as many elements. */
  lemma {:induction false} FilterMonotone<T>(xs: seq<T>, p: T -> bool, q: T -> bool)
    requires forall x :: p(x) ==> q(x)
    ensures |Filter(xs, p)| <= |Filter(xs, q)|
    decreases |xs|
  {
    if xs != [] {
      FilterMonotone(xs[1..], p, q);
    }
  }

  /** Filtering by `p` and by its negation splits `xs` into two parts that together hold every element once. */
  lemma {:induction false} FilterPartition<T>(xs: seq<T>, p: T -> bool, q: T -> bool)
    requires forall x :: q(x) == !p(x)
    ensures multiset(Filter(xs, p)) + multiset(Filter(xs, q)) == multiset(xs)
    ensures |Filter(xs, p)| + |Filter(xs, q)| == |xs|
    decreases |xs|
  {
    if xs != [] {
      FilterPartition(xs[1..], p, q);
      assert xs == [xs[0]] + xs[1..];
    }
  }

  /** Applying `f` to every element. */
  function Map<T, U>(xs: seq<T>, f: T -> U): (r: seq<U>)
    ensures |r| == |xs|
  {
    seq(|xs|, i requires 0 <= i < |xs| => f(xs[i]))
  }

  /** Mapping a sequence extended by one element extends the mapped sequence by its image. */
  lemma MapSnoc<T, U>(xs: seq<T>, x: T, f: T -> U)
    ensures Map(xs + [x], f) == Map(xs, f) + [f(x)]
  {
    assert forall i :: 0 <= i < |xs| ==> Map(xs + [x], f)[i] == Map(xs, f)[i];
  }

  /** The first index whose element has key `k`, if any. */
  function IndexOf<T>(xs: seq<T>, key: T -> int, k: int): (r: Option<nat>)
    ensures r.Some? ==> r.value < |xs| && key(xs[r.value]) == k
    ensures r.Some? ==> forall j :: 0 <= j < r.value ==> key(xs[j]) != k
    ensures r.None? ==> forall j :: 0 <= j < |xs| ==> key(xs[j]) != k
    decreases |xs|
  {
    if xs == [] then None
    else if key(xs[0]) == k then Some(0)
    else match IndexOf(xs[1..], key, k)
      case None => None
      case Some(i) => Some(i + 1)
  }

  /** The element with key `k` (a primary-key lookup). */
  function Lookup<T>(xs: seq<T>, key: T -> int, k: int): (r: Option<T>)
    ensures r.Some? ==> r.value in xs && key(r.value) == k
    ensures r.None? ==> forall j :: 0 <= j < |xs| ==> key(xs[j]) != k
  {
    match IndexOf(xs, key, k)
    case None => None
    case Some(i) => Some(xs[i])
  }

  /**
   * Writing `x` into the table `xs`: the row with the same key is replaced in
   * place, and when there is none `x` is appended (an SQL UPDATE or INSERT).
   */
  function Put<T>(xs: seq<T>, x: T, key: T -> int): (r: seq<T>)
  {
    match IndexOf(xs, key, key(x))
    case Some(i) => xs[i := x]
    case None => xs + [x]
  }

  /** No two elements of `xs` share a key. */
  ghost predicate Unique<T, K>(xs: seq<T>, key: T -> K) {
    forall i, j :: 0 <= i < j < |xs| ==> key(xs[i]) != key(xs[j])
  }

  /** A row of `xs` other than `x`'s own (by `pk`) already has `x`'s value under `key`. */
  predicate HeldByOther<T, K(==)>(xs: seq<T>, x: T, pk: T -> int, key: T -> K) {
    exists i | 0 <= i < |xs| :: pk(xs[i]) != pk(x) && key(xs[i]) == key(x)
  }

  /** A row written back with its own key and its own value of `key` clashes with no other row. */
  lemma OwnValueNotHeld<T, K>(xs: seq<T>, i: nat, x: T, pk: T -> int, key: T -> K)
    requires Unique(xs, key) && i < |xs|
    requires pk(x) == pk(xs[i]) && key(x) == key(xs[i])
    ensures !HeldByOther(xs, x, pk, key)
  {
  }

  /** Every row after `Put` is `x` or a row that was there before. */
  lemma PutMembers<T>(xs: seq<T>, x: T, key: T -> int)
    ensures forall j :: 0 <= j < |Put(xs, x, key)| ==> Put(xs, x, key)[j] == x || Put(xs, x, key)[j] in xs
  {
  }

  /** After `Put`, `x` is what the lookup of its key finds and every other key finds what it found before. */
  lemma PutLookup<T>(xs: seq<T>, x: T, key: T -> int, k: int)
    requires Unique(xs, key)
    ensures Unique(Put(xs, x, key), key)
    ensures Lookup(Put(xs, x, key), key, k) == if k == key(x) then Some(x) else Lookup(xs, key, k)
    ensures |Put(xs, x, key)| == if Lookup(xs, key, key(x)).Some? then |xs| else |xs| + 1
  {
    var r := Put(xs, x, key);
    match IndexOf(xs, key, key(x))
    case Some(i) =>
      assert forall j :: 0 <= j < |r| ==> key(r[j]) == key(xs[j]);
      LookupUnique(r, key, k);
      LookupUnique(xs, key, k);
    case None =>
      assert r[|xs|] == x;
      LookupUnique(r, key, k);
      LookupUnique(xs, key, k);
      if k == key(x) {
        assert key(r[|xs|]) == k;
      } else if Lookup(xs, key, k).None? {
        assert forall j :: 0 <= j < |r| ==> key(r[j]) != k;
        assert IndexOf(r, key, k).None?;
      } else {
        var i := IndexOf(xs, key, k).value;
        assert r[i] == xs[i];
      }
  }

  /** Writing back a row that is already stored, unchanged, leaves the table as it was. */
  lemma PutStored<T>(xs: seq<T>, x: T, key: T -> int)
    requires Unique(xs, key) && x in xs
    ensures Put(xs, x, key) == xs
  {
    var j :| 0 <= j < |xs| && xs[j] == x;
    var i := IndexOf(xs, key, key(x)).value;
    assert i == j;
    assert xs[i := x] == xs;
  }

  /** With unique keys, a lookup finds the element at any index that carries the key. */
  lemma LookupUnique<T>(xs: seq<T>, key: T -> int, k: int)
    requires Unique(xs, key)
    ensures forall j :: 0 <= j < |xs| && key(xs[j]) == k ==> Lookup(xs, key, k) == Some(xs[j])
  {
  }

  /** `Put` keeps a second key unique when no other row already holds `x`'s value of it. */
  lemma PutKeepsUnique<T, K>(xs: seq<T>, x: T, pk: T -> int, key: T -> K)
    requires Unique(xs, pk) && Unique(xs, key)
    requires !HeldByOther(xs, x, pk, key)
    ensures Unique(Put(xs, x, pk), key)
  {
    var r := Put(xs, x, pk);
    match IndexOf(xs, pk, pk(x))
    case Some(i) =>
      forall a, b | 0 <= a < b < |r| ensures key(r[a]) != key(r[b]) {
        if a == i {
          assert pk(xs[b]) != pk(x);
        } else if b == i {
          assert pk(xs[a]) != pk(x);
        }
      }
    case None =>
      forall a, b | 0 <= a < b < |r| ensures key(r[a]) != key(r[b]) {
        if b == |xs| {
          assert pk(xs[a]) != pk(x);
        }
      }
  }

  /** One more than the largest stored key, at least 1: a key no stored row has. */
  function NextKey<T>(xs: seq<T>, key: T -> int): (r: int)
    ensures r >= 1
    ensures forall j :: 0 <= j < |xs| ==> key(xs[j]) < r
    decreases |xs|
  {
    if xs == [] then 1
    else
      var rest := NextKey(xs[1..], key);
      if key(xs[0]) < rest then rest else key(xs[0]) + 1
  }
}
