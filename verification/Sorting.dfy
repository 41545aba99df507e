/** Stable sorting of index lists by a real key, standing for Array.prototype.sort with a difference comparator. */
module Sorting {

  /** A list of distinct indices below n. */
  ghost predicate Distinct(xs: seq<nat>) {
    forall a, b :: 0 <= a < b < |xs| ==> xs[a] != xs[b]
  }

  predicate Within(xs: seq<nat>, n: nat) {
    forall a :: 0 <= a < |xs| ==> xs[a] < n
  }

  ghost predicate Sorted(order: seq<nat>, key: seq<real>)
    requires Within(order, |key|)
  {
    forall a, b :: 0 <= a < b < |order| ==> key[order[a]] <= key[order[b]]
  }

  function Indices(n: nat): (s: seq<nat>)
    ensures |s| == n && forall i :: 0 <= i < n ==> s[i] == i
  {
    seq(n, i => i)
  }

  function Insert(i: nat, order: seq<nat>, key: seq<real>): (r: seq<nat>)
    requires i < |key| && Within(order, |key|)
    ensures Within(r, |key|)
  {
    if order == [] || key[i] <= key[order[0]] then [i] + order
    else [order[0]] + Insert(i, order[1..], key)
  }

  /** The indices of xs in ascending key order. */
  function SortBy(xs: seq<nat>, key: seq<real>): (r: seq<nat>)
    requires Within(xs, |key|)
    ensures Within(r, |key|)
  {
    if xs == [] then [] else Insert(xs[0], SortBy(xs[1..], key), key)
  }

  lemma {:induction false} InsertPermutes(i: nat, order: seq<nat>, key: seq<real>)
    requires i < |key| && Within(order, |key|)
    ensures multiset(Insert(i, order, key)) == multiset(order) + multiset{i}
  {
    if order == [] || key[i] <= key[order[0]] {
    } else {
      InsertPermutes(i, order[1..], key);
      assert order == [order[0]] + order[1..];
    }
  }

  ghost predicate Above(order: seq<nat>, key: seq<real>, low: real)
    requires Within(order, |key|)
  {
    forall a :: 0 <= a < |order| ==> low <= key[order[a]]
  }

  lemma {:induction false} InsertAbove(i: nat, order: seq<nat>, key: seq<real>, low: real)
    requires i < |key| && Within(order, |key|) && low <= key[i] && Above(order, key, low)
    ensures Above(Insert(i, order, key), key, low)
  {
    if order == [] || key[i] <= key[order[0]] {
    } else {
      assert Above(order[1..], key, low);
      InsertAbove(i, order[1..], key, low);
    }
  }

  lemma {:induction false} ConsSorts(h: nat, t: seq<nat>, key: seq<real>)
    requires h < |key| && Within(t, |key|) && Sorted(t, key) && Above(t, key, key[h])
    ensures Sorted([h] + t, key)
  {
  }

  lemma {:induction false} InsertSorts(i: nat, order: seq<nat>, key: seq<real>)
    requires i < |key| && Within(order, |key|) && Sorted(order, key)
    ensures Sorted(Insert(i, order, key), key)
  {
    if order == [] || key[i] <= key[order[0]] {
      assert Above(order, key, key[i]);
      ConsSorts(i, order, key);
    } else {
      assert Above(order[1..], key, key[order[0]]);
      InsertSorts(i, order[1..], key);
      InsertAbove(i, order[1..], key, key[order[0]]);
      ConsSorts(order[0], Insert(i, order[1..], key), key);
    }
  }

  /** Sorting permutes the list and orders it by key. */
  lemma {:induction false} SortBySorts(xs: seq<nat>, key: seq<real>)
    requires Within(xs, |key|)
    ensures multiset(SortBy(xs, key)) == multiset(xs)
    ensures Sorted(SortBy(xs, key), key)
    ensures forall j :: j in SortBy(xs, key) <==> j in xs
  {
    SortByPermutes(xs, key);
    SortByAscends(xs, key);
    SameMembers(SortBy(xs, key), xs);
  }

  lemma {:induction false} SortByPermutes(xs: seq<nat>, key: seq<real>)
    requires Within(xs, |key|)
    ensures multiset(SortBy(xs, key)) == multiset(xs)
  {
    if xs != [] {
      SortByPermutes(xs[1..], key);
      InsertPermutes(xs[0], SortBy(xs[1..], key), key);
      assert xs == [xs[0]] + xs[1..];
    }
  }

  lemma {:induction false} SortByAscends(xs: seq<nat>, key: seq<real>)
    requires Within(xs, |key|)
    ensures Sorted(SortBy(xs, key), key)
  {
    if xs != [] {
      SortByAscends(xs[1..], key);
      InsertSorts(xs[0], SortBy(xs[1..], key), key);
    }
  }

  lemma SameMembers(a: seq<nat>, b: seq<nat>)
    requires multiset(a) == multiset(b)
    ensures forall j :: j in a <==> j in b
  {
    forall j ensures j in a <==> j in b {
      assert j in a <==> j in multiset(a);
      assert j in b <==> j in multiset(b);
    }
  }

  lemma {:induction false} DistinctCounts(xs: seq<nat>, j: nat)
    requires Distinct(xs)
    ensures multiset(xs)[j] <= 1
  {
    if xs != [] {
      var n := |xs| - 1;
      assert xs == xs[..n] + [xs[n]];
      DistinctCounts(xs[..n], j);
      assert xs[n] !in xs[..n];
    }
  }

  lemma {:induction false} CountsBoth(ys: seq<nat>, a: nat, b: nat)
    requires a < b < |ys| && ys[a] == ys[b]
    ensures multiset(ys)[ys[a]] >= 2
  {
    assert ys == ys[..b] + ys[b..];
    assert ys[a] in ys[..b] && ys[b] in ys[b..];
  }

  /** A permutation of distinct entries has distinct entries. */
  lemma {:induction false} DistinctPermutes(xs: seq<nat>, ys: seq<nat>)
    requires Distinct(xs) && multiset(xs) == multiset(ys)
    ensures Distinct(ys)
  {
    forall a, b | 0 <= a < b < |ys| ensures ys[a] != ys[b] {
      DistinctCounts(xs, ys[a]);
      if ys[a] == ys[b] { CountsBoth(ys, a, b); }
    }
  }

  // ---------------------------------------------------------------- stability

  ghost predicate Ascending(xs: seq<nat>) {
    forall a, b :: 0 <= a < b < |xs| ==> xs[a] < xs[b]
  }

  /** Among equal keys the indices keep their order. */
  ghost predicate Stable(order: seq<nat>, key: seq<real>)
    requires Within(order, |key|)
  {
    forall a, b :: 0 <= a < b < |order| && key[order[a]] == key[order[b]] ==> order[a] < order[b]
  }

  lemma {:induction false} InsertMembers(i: nat, order: seq<nat>, key: seq<real>)
    requires i < |key| && Within(order, |key|)
    ensures forall j :: j in Insert(i, order, key) ==> j == i || j in order
  {
    if order != [] && key[i] > key[order[0]] { InsertMembers(i, order[1..], key); }
  }

  ghost predicate Leads(i: nat, order: seq<nat>) {
    forall b :: 0 <= b < |order| ==> i < order[b]
  }

  lemma {:induction false} InsertStable(i: nat, order: seq<nat>, key: seq<real>)
    requires i < |key| && Within(order, |key|) && Stable(order, key) && Leads(i, order)
    ensures Stable(Insert(i, order, key), key)
  {
    if order != [] && key[i] > key[order[0]] {
      var h, tail := order[0], order[1..];
      var rest := Insert(i, tail, key);
      assert Stable(tail, key) && Leads(i, tail);
      InsertStable(i, tail, key);
      InsertMembers(i, tail, key);
      forall b | 0 <= b < |rest| && key[h] == key[rest[b]] ensures h < rest[b] {
        assert rest[b] in rest;
        var c :| 0 <= c < |tail| && tail[c] == rest[b];
        assert order[c + 1] == rest[b];
      }
      assert Insert(i, order, key) == [h] + rest;
    } else {
      assert Insert(i, order, key) == [i] + order;
    }
  }

  /** Sorting a rising list keeps the order of entries with equal keys, as a stable sort does. */
  lemma {:induction false} SortByStable(xs: seq<nat>, key: seq<real>)
    requires Within(xs, |key|) && Ascending(xs)
    ensures Stable(SortBy(xs, key), key)
  {
    if xs != [] {
      var tail := xs[1..];
      assert Ascending(tail);
      SortByStable(tail, key);
      SortBySorts(tail, key);
      forall b | 0 <= b < |SortBy(tail, key)| ensures xs[0] < SortBy(tail, key)[b] {
        assert SortBy(tail, key)[b] in SortBy(tail, key);
        var c :| 0 <= c < |tail| && tail[c] == SortBy(tail, key)[b];
        assert xs[c + 1] == tail[c];
      }
      InsertStable(xs[0], SortBy(tail, key), key);
    }
  }
}
