/**
 * Sequence helpers: duplicate removal keeping the first occurrence (what
 * `Array.from(new Set(xs))` produces), filtering, and membership facts.
 */
module Seqs {

  predicate NoDup<T(==)>(xs: seq<T>) {
    forall i, j :: 0 <= i < j < |xs| ==> xs[i] != xs[j]
  }

  /** The index of the first occurrence of `x` in `xs`. */
  function FirstIndex<T(==,!new)>(xs: seq<T>, x: T): (r: nat)
    requires x in xs
    ensures r < |xs| && xs[r] == x
    ensures forall k :: 0 <= k < r ==> xs[k] != x
  {
    if xs[0] == x then 0 else 1 + FirstIndex(xs[1..], x)
  }

  /** `xs.indexOf(x)`: the first index holding `x`, or -1. */
  function IndexOf<T(==,!new)>(xs: seq<T>, x: T): (r: int)
    ensures -1 <= r < |xs|
    ensures r == -1 <==> x !in xs
    ensures r >= 0 ==> xs[r] == x && forall k :: 0 <= k < r ==> xs[k] != x
  {
    if x in xs then FirstIndex(xs, x) else -1
  }

  /** `Array.from(new Set(xs))`: each distinct element once, in order of first occurrence. */
  function Dedup<T(==,!new)>(xs: seq<T>): (r: seq<T>)
    ensures forall x :: x in r <==> x in xs
    ensures NoDup(r)
    ensures |r| <= |xs|
  {
    if xs == [] then []
    else
      var p := Dedup(xs[..|xs| - 1]);
      if xs[|xs| - 1] in p then p else p + [xs[|xs| - 1]]
  }

  lemma FirstIndexPrefix<T(!new)>(xs: seq<T>, n: nat, x: T)
    requires n <= |xs| && x in xs[..n]
    ensures FirstIndex(xs, x) == FirstIndex(xs[..n], x)
  {
    var j := FirstIndex(xs[..n], x);
    assert forall k :: 0 <= k < j ==> xs[k] == xs[..n][k];
  }

  /** Dedup lists elements in the order of their first occurrence in `xs`. */
  lemma {:induction false} DedupFirstOccurrenceOrder<T(!new)>(xs: seq<T>)
    ensures forall i, j :: 0 <= i < j < |Dedup(xs)| ==> FirstIndex(xs, Dedup(xs)[i]) < FirstIndex(xs, Dedup(xs)[j])
  {
    if xs != [] {
      var n := |xs| - 1;
      var pre := xs[..n];
      var p := Dedup(pre);
      var d := Dedup(xs);
      DedupFirstOccurrenceOrder(pre);
      assert d == if xs[n] in p then p else p + [xs[n]];
      forall i, j | 0 <= i < j < |d| ensures FirstIndex(xs, d[i]) < FirstIndex(xs, d[j]) {
        assert d[i] == p[i] && p[i] in pre;
        FirstIndexPrefix(xs, n, p[i]);
        if j < |p| {
          assert d[j] == p[j] && p[j] in pre;
          FirstIndexPrefix(xs, n, p[j]);
        } else {
          assert d[j] == xs[n] && xs[n] !in pre;
          assert FirstIndex(xs, xs[n]) == n;
        }
      }
    }
  }

  /** A list without duplicates is left as it is. */
  lemma {:induction false} DedupOfNoDup<T(!new)>(xs: seq<T>)
    requires NoDup(xs)
    ensures Dedup(xs) == xs
  {
    if xs != [] {
      var n := |xs| - 1;
      DedupOfNoDup(xs[..n]);
      assert xs[n] !in xs[..n];
      assert xs[..n] + [xs[n]] == xs;
    }
  }

  /** Dedup of a prefix is a prefix of the Dedup: elements already seen keep their places. */
  lemma {:induction false} DedupPrefixOfAppend<T(!new)>(a: seq<T>, b: seq<T>)
    ensures |Dedup(a)| <= |Dedup(a + b)| && Dedup(a + b)[..|Dedup(a)|] == Dedup(a)
  {
    if b != [] {
      var n := |b| - 1;
      DedupPrefixOfAppend(a, b[..n]);
      assert (a + b)[..|a + b| - 1] == a + b[..n];
    } else {
      assert a + b == a;
    }
  }

  /** `xs.filter(p)`. */
  function Filter<T(!new)>(xs: seq<T>, p: T -> bool): (r: seq<T>)
    ensures |r| <= |xs|
  {
    if xs == [] then []
    else (if p(xs[0]) then [xs[0]] else []) + Filter(xs[1..], p)
  }

  /** The filtered list holds exactly the elements that pass. */
  lemma {:induction false} FilterMembers<T(!new)>(xs: seq<T>, p: T -> bool)
    ensures forall x :: x in Filter(xs, p) <==> x in xs && p(x)
  {
    if xs != [] {
      FilterMembers(xs[1..], p);
      assert forall x :: x in xs <==> x == xs[0] || x in xs[1..];
    }
  }

  lemma {:induction false} FilterAll<T(!new)>(xs: seq<T>, p: T -> bool)
    requires forall x :: x in xs ==> p(x)
    ensures Filter(xs, p) == xs
  {
    if xs != [] {
      FilterAll(xs[1..], p);
      assert [xs[0]] + xs[1..] == xs;
    }
  }

  lemma {:induction false} FilterNoDup<T(!new)>(xs: seq<T>, p: T -> bool)
    requires NoDup(xs)
    ensures NoDup(Filter(xs, p))
  {
    if xs != [] {
      FilterNoDup(xs[1..], p);
      FilterMembers(xs[1..], p);
      assert xs[0] !in xs[1..];
    }
  }

  /** Filtering a concatenation filters each part. */
  lemma {:induction false} FilterSplit<T(!new)>(a: seq<T>, b: seq<T>, p: T -> bool)
    ensures Filter(a + b, p) == Filter(a, p) + Filter(b, p)
  {
    if a == [] {
      assert a + b == b;
    } else {
      assert (a + b)[1..] == a[1..] + b;
      FilterSplit(a[1..], b, p);
      var h := if p(a[0]) then [a[0]] else [];
      assert Filter(a + b, p) == h + Filter(a[1..] + b, p);
      assert h + (Filter(a[1..], p) + Filter(b, p)) == (h + Filter(a[1..], p)) + Filter(b, p);
    }
  }

  /** Filtering keeps every occurrence of an element that passes and none of one that fails. */
  lemma {:induction false} FilterCount<T(!new)>(xs: seq<T>, p: T -> bool)
    ensures forall x :: multiset(Filter(xs, p))[x] == if p(x) then multiset(xs)[x] else 0
  {
    if xs != [] {
      FilterCount(xs[1..], p);
      assert xs == [xs[0]] + xs[1..];
    }
  }

  /** Filtering keeps keys pairwise distinct. */
  lemma {:induction false} FilterKeysUnique<T(!new), K>(xs: seq<T>, key: T -> K, p: T -> bool)
    requires KeysUnique(xs, key)
    ensures KeysUnique(Filter(xs, p), key)
  {
    if xs != [] {
      var tail := xs[1..];
      assert forall i :: 0 <= i < |tail| ==> tail[i] == xs[i + 1];
      FilterKeysUnique(tail, key, p);
      var rest := Filter(tail, p);
      FilterMembers(tail, p);
      forall y | y in rest ensures key(y) != key(xs[0]) {
        var j :| 0 <= j < |tail| && tail[j] == y;
        assert xs[j + 1] == y;
      }
      var r := Filter(xs, p);
      if p(xs[0]) {
        forall i, j | 0 <= i < j < |r| ensures key(r[i]) != key(r[j]) {
          assert r[j] == rest[j - 1] && rest[j - 1] in rest;
          if i > 0 {
            assert r[i] == rest[i - 1];
          }
        }
      }
    }
  }

  /** `xs.map(f)`. */
  function Map<T, U>(xs: seq<T>, f: T -> U): (r: seq<U>)
    ensures |r| == |xs|
    ensures forall i :: 0 <= i < |xs| ==> r[i] == f(xs[i])
  {
    seq(|xs|, i requires 0 <= i < |xs| => f(xs[i]))
  }

  // Updating records found by their id, as `xs.find(x => x.id === id)` followed by a field update.

  /** The index of the first element whose key is `id`, or -1. */
  function FindById<T>(xs: seq<T>, key: T -> int, id: int): (r: int)
    ensures -1 <= r < |xs|
    ensures r >= 0 ==> key(xs[r]) == id
    ensures forall k :: 0 <= k < |xs| && (r < 0 || k < r) ==> key(xs[k]) != id
  {
    if xs == [] then -1
    else if key(xs[0]) == id then 0
    else
      var k := FindById(xs[1..], key, id);
      if k < 0 then -1 else k + 1
  }

  /** Apply `f` to the first element with key `id`, if there is one. */
  function UpdateById<T>(xs: seq<T>, key: T -> int, id: int, f: T -> T): (r: seq<T>)
    ensures |r| == |xs|
  {
    var k := FindById(xs, key, id);
    if k < 0 then xs else xs[k := f(xs[k])]
  }

  /** `ids.forEach(id => update the element with that id)`. */
  function UpdateAllById<T>(xs: seq<T>, key: T -> int, ids: seq<int>, f: T -> T): (r: seq<T>)
    ensures |r| == |xs|
    decreases |ids|
  {
    if ids == [] then xs
    else UpdateAllById(UpdateById(xs, key, ids[0], f), key, ids[1..], f)
  }

  predicate KeysUnique<T, K(==)>(xs: seq<T>, key: T -> K) {
    forall i, j :: 0 <= i < j < |xs| ==> key(xs[i]) != key(xs[j])
  }

  lemma UpdateByIdSpec<T>(xs: seq<T>, key: T -> int, id: int, f: T -> T)
    requires KeysUnique(xs, key)
    ensures forall k :: 0 <= k < |xs| ==> UpdateById(xs, key, id, f)[k] == if key(xs[k]) == id then f(xs[k]) else xs[k]
  {
  }

  /**
   * With distinct ids, distinct keys and an `f` that keeps the key, every element
   * named in `ids` is updated once and every other element is left alone.
   */
  lemma {:induction false} UpdateAllByIdSpec<T>(xs: seq<T>, key: T -> int, ids: seq<int>, f: T -> T)
    requires NoDup(ids) && KeysUnique(xs, key)
    requires forall x :: key(f(x)) == key(x)
    ensures var r := UpdateAllById(xs, key, ids, f);
      forall k :: 0 <= k < |xs| ==> r[k] == if key(xs[k]) in ids then f(xs[k]) else xs[k]
    decreases |ids|
  {
    if ids != [] {
      var ys := UpdateById(xs, key, ids[0], f);
      UpdateByIdSpec(xs, key, ids[0], f);
      assert forall k :: 0 <= k < |xs| ==> key(ys[k]) == key(xs[k]);
      assert KeysUnique(ys, key);
      assert NoDup(ids[1..]);
      UpdateAllByIdSpec(ys, key, ids[1..], f);
      assert ids[0] !in ids[1..];
      assert forall i :: i in ids <==> i == ids[0] || i in ids[1..];
    }
  }

  /**
   * `ids.forEach(id => { const x = xs.find(x => x.id === id); if (!x) return; ... })`:
   * each id in turn updates the first element that carries it.
   */
  method UpdateEach<T>(xs: seq<T>, key: T -> int, ids: seq<int>, f: T -> T) returns (r: seq<T>)
    ensures r == UpdateAllById(xs, key, ids, f)
  {
    r := xs;
    var i := 0;
    while i < |ids|
      invariant 0 <= i <= |ids|
      invariant UpdateAllById(r, key, ids[i..], f) == UpdateAllById(xs, key, ids, f)
    {
      var k := FindById(r, key, ids[i]);
      if k >= 0 {
        r := r[k := f(r[k])];
      }
      assert ids[i..][1..] == ids[i + 1..];
      i := i + 1;
    }
  }
}
