/** A stable sort by a key, as the standard one is. */
module Sorting {

  function Insert<T>(x: T, xs: seq<T>, key: T -> real): (r: seq<T>)
    ensures |r| == |xs| + 1
  { if xs == [] || key(x) < key(xs[0]) then [x] + xs else [xs[0]] + Insert(x, xs[1..], key) }

  function Sort<T>(xs: seq<T>, key: T -> real): (r: seq<T>)
    ensures |r| == |xs|
  { if xs == [] then [] else Insert(xs[|xs|-1], Sort(xs[..|xs|-1], key), key) }

  ghost predicate Ordered<T>(xs: seq<T>, key: T -> real) {
    forall i, j :: 0 <= i < j < |xs| ==> key(xs[i]) <= key(xs[j])
  }

  /** The elements with one key, in order. */
  function WithKey<T>(xs: seq<T>, key: T -> real, k: real): seq<T> {
    if xs == [] then [] else (if key(xs[0]) == k then [xs[0]] else []) + WithKey(xs[1..], key, k)
  }

  /** An element is inserted behind those with its key and before those with a greater one. */
  lemma {:induction false} InsertAt<T>(x: T, xs: seq<T>, key: T -> real) returns (p: nat)
    ensures p <= |xs| && Insert(x, xs, key) == xs[..p] + [x] + xs[p..]
    ensures (forall i :: 0 <= i < p ==> key(xs[i]) <= key(x)) && (p < |xs| ==> key(x) < key(xs[p]))
  {
    if xs == [] || key(x) < key(xs[0]) {
      p := 0;
    } else {
      var q := InsertAt(x, xs[1..], key);
      p := q + 1;
      assert xs[..p] == [xs[0]] + xs[1..][..q] && xs[1..][q..] == xs[p..];
      assert forall i :: 0 < i < p ==> xs[i] == xs[1..][i-1];
    }
  }

  lemma {:induction false} WithKeyCons<T>(x: T, xs: seq<T>, key: T -> real, k: real)
    ensures WithKey([x] + xs, key, k) == (if key(x) == k then [x] else []) + WithKey(xs, key, k)
  {
    assert ([x] + xs)[1..] == xs;
  }

  lemma {:induction false} WithKeyAppend<T>(a: seq<T>, b: seq<T>, key: T -> real, k: real)
    ensures WithKey(a + b, key, k) == WithKey(a, key, k) + WithKey(b, key, k)
  {
    hide WithKey;
    if a == [] {
      assert a + b == b;
      NoneWithKey(key, k);
      assert [] + WithKey(b, key, k) == WithKey(b, key, k);
    } else {
      var x, rest := a[0], a[1..];
      assert a == [x] + rest && a + b == [x] + (rest + b);
      WithKeyAppend(rest, b, key, k);
      WithKeyCons(x, rest, key, k);
      WithKeyCons(x, rest + b, key, k);
      Associate(if key(x) == k then [x] else [], WithKey(rest, key, k), WithKey(b, key, k));
    }
  }

  lemma {:induction false} NoneWithKey<T>(key: T -> real, k: real)
    ensures WithKey([], key, k) == []
  {}

  lemma {:induction false} Associate<T>(a: seq<T>, b: seq<T>, c: seq<T>)
    ensures a + (b + c) == a + b + c
  {}

  lemma {:induction false} WithKeyNone<T>(xs: seq<T>, key: T -> real, k: real)
    requires forall i :: 0 <= i < |xs| ==> key(xs[i]) != k
    ensures WithKey(xs, key, k) == []
  {
    if xs != [] { WithKeyNone(xs[1..], key, k); }
  }

  lemma {:induction false} InsertOrders<T>(x: T, xs: seq<T>, key: T -> real)
    requires Ordered(xs, key)
    ensures Ordered(Insert(x, xs, key), key)
  {
    hide Insert;
    var p := InsertAt(x, xs, key);
    var r := Insert(x, xs, key);
    assert forall i :: 0 <= i < |r| ==> r[i] == if i < p then xs[i] else if i == p then x else xs[i-1];
    assert forall i :: p <= i < |xs| ==> key(x) < key(xs[i]);
  }

  lemma {:induction false} InsertKeeps<T>(x: T, xs: seq<T>, key: T -> real)
    ensures multiset(Insert(x, xs, key)) == multiset(xs) + multiset{x}
  {
    hide Insert;
    var p := InsertAt(x, xs, key);
    assert xs == xs[..p] + xs[p..];
  }

  lemma {:induction false} InsertIsStable<T>(x: T, xs: seq<T>, key: T -> real, k: real)
    requires Ordered(xs, key)
    ensures WithKey(Insert(x, xs, key), key, k) == WithKey(xs, key, k) + WithKey([x], key, k)
  {
    hide Insert, WithKey, Ordered;
    var p := InsertAt(x, xs, key);
    var before, after := xs[..p], xs[p..];
    assert xs == before + after;
    WithKeyAppend(before + [x], after, key, k);
    WithKeyAppend(before, [x], key, k);
    WithKeyAppend(before, after, key, k);
    OneWithKey(x, key, k);
    if k == key(x) {
      AllAfter(xs, key, p, k);
      WithKeyNone(after, key, k);
    }
  }

  lemma {:induction false} AllAfter<T>(xs: seq<T>, key: T -> real, p: nat, k: real)
    requires Ordered(xs, key) && p <= |xs| && (p < |xs| ==> k < key(xs[p]))
    ensures forall i :: 0 <= i < |xs[p..]| ==> key(xs[p..][i]) != k
  {}

  lemma {:induction false} OneWithKey<T>(x: T, key: T -> real, k: real)
    ensures WithKey([x], key, k) == if key(x) == k then [x] else []
  {}

  /** The sort orders its list, keeps its elements, and keeps those with one key in their order. */
  lemma {:induction false} SortSorts<T>(xs: seq<T>, key: T -> real)
    ensures Ordered(Sort(xs, key), key) && multiset(Sort(xs, key)) == multiset(xs)
    ensures forall k :: WithKey(Sort(xs, key), key, k) == WithKey(xs, key, k)
  {
    hide Insert, WithKey, Ordered;
    if xs == [] {
      NothingIsOrdered(key);
    } else {
      var front, last := xs[..|xs|-1], xs[|xs|-1];
      assert xs == front + [last];
      SortSorts(front, key);
      InsertOrders(last, Sort(front, key), key);
      InsertKeeps(last, Sort(front, key), key);
      forall k ensures WithKey(Sort(xs, key), key, k) == WithKey(xs, key, k) {
        InsertIsStable(last, Sort(front, key), key, k);
        WithKeyAppend(front, [last], key, k);
      }
    }
  }

  lemma {:induction false} NothingIsOrdered<T>(key: T -> real)
    ensures Ordered([], key)
  {}

  /** A list is determined by its keys: the two laws above leave one result. */
  lemma {:induction false} OneResult<T>(xs: seq<T>, ys: seq<T>, key: T -> real)
    requires Ordered(xs, key) && Ordered(ys, key)
    requires forall k :: WithKey(xs, key, k) == WithKey(ys, key, k)
    ensures xs == ys
    decreases |xs|
  {
    hide WithKey;
    if xs == [] {
      if ys != [] { FirstHasKey(ys, key); NoneWithKey(key, key(ys[0])); }
    } else {
      FirstHasKey(xs, key);
      if ys == [] {
        NoneWithKey(key, key(xs[0]));
      } else {
        FirstHasKey(ys, key);
        SameFirst(xs, ys, key);
        forall k ensures WithKey(xs[1..], key, k) == WithKey(ys[1..], key, k) { SameRest(xs, ys, key, k); }
        OneResult(xs[1..], ys[1..], key);
        assert xs == [xs[0]] + xs[1..] && ys == [ys[0]] + ys[1..];
      }
    }
  }

  lemma {:induction false} FirstHasKey<T>(xs: seq<T>, key: T -> real)
    requires xs != []
    ensures WithKey(xs, key, key(xs[0])) != [] && WithKey(xs, key, key(xs[0]))[0] == xs[0]
  {}

  lemma {:induction false} HasKey<T>(xs: seq<T>, key: T -> real, k: real)
    requires WithKey(xs, key, k) != []
    ensures exists i :: 0 <= i < |xs| && key(xs[i]) == k
  {
    if forall i :: 0 <= i < |xs| ==> key(xs[i]) != k { WithKeyNone(xs, key, k); }
  }

  lemma {:induction false} SameFirst<T>(xs: seq<T>, ys: seq<T>, key: T -> real)
    requires xs != [] && ys != [] && Ordered(xs, key) && Ordered(ys, key)
    requires forall k :: WithKey(xs, key, k) == WithKey(ys, key, k)
    ensures xs[0] == ys[0]
  {
    hide WithKey;
    FirstHasKey(xs, key);
    FirstHasKey(ys, key);
    HasKey(xs, key, key(ys[0]));
    HasKey(ys, key, key(xs[0]));
    assert key(xs[0]) == key(ys[0]);
  }

  lemma {:induction false} SameRest<T>(xs: seq<T>, ys: seq<T>, key: T -> real, k: real)
    requires xs != [] && ys != [] && xs[0] == ys[0] && WithKey(xs, key, k) == WithKey(ys, key, k)
    ensures WithKey(xs[1..], key, k) == WithKey(ys[1..], key, k)
  {
    var head := if key(xs[0]) == k then [xs[0]] else [];
    assert WithKey(xs, key, k)[|head|..] == WithKey(xs[1..], key, k);
    assert WithKey(ys, key, k)[|head|..] == WithKey(ys[1..], key, k);
  }
}
