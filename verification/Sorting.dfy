/** The engines rely on `Array.prototype.sort` with a comparator. This module fixes what such a
    sort returns: a sorted permutation, unique whenever no two distinct items compare equal. */
module Sorting {

  ghost predicate TotalPreorder<T(!new)>(le: (T, T) -> bool) {
    && (forall x, y :: le(x, y) || le(y, x))
    && (forall x, y, z :: le(x, y) && le(y, z) ==> le(x, z))
  }

  /** No two distinct items of `xs` compare equal. */
  ghost predicate Separates<T>(le: (T, T) -> bool, xs: seq<T>) {
    forall x, y :: x in xs && y in xs && le(x, y) && le(y, x) ==> x == y
  }

  ghost predicate Sorted<T>(xs: seq<T>, le: (T, T) -> bool) {
    forall i, j :: 0 <= i < j < |xs| ==> le(xs[i], xs[j])
  }

  function Insert<T>(x: T, xs: seq<T>, le: (T, T) -> bool): (r: seq<T>)
    ensures multiset(r) == multiset(xs) + multiset{x}
  {
    if xs == [] then [x]
    else if le(x, xs[0]) then
      assert [x] + xs == [x] + xs[..];
      [x] + xs
    else
      assert xs == [xs[0]] + xs[1..];
      [xs[0]] + Insert(x, xs[1..], le)
  }

  function Sort<T>(xs: seq<T>, le: (T, T) -> bool): (r: seq<T>)
    ensures multiset(r) == multiset(xs)
    ensures |r| == |xs|
  {
    if xs == [] then []
    else
      assert xs == [xs[0]] + xs[1..];
      var r := Insert(xs[0], Sort(xs[1..], le), le);
      assert |multiset(r)| == |r|;
      r
  }

  lemma SameElements<T>(xs: seq<T>, ys: seq<T>)
    requires multiset(xs) == multiset(ys)
    ensures |xs| == |ys|
    ensures forall x :: x in xs <==> x in ys
  {
    assert |multiset(xs)| == |xs| && |multiset(ys)| == |ys|;
    forall x ensures x in xs <==> x in ys {
      assert x in xs <==> x in multiset(xs);
      assert x in ys <==> x in multiset(ys);
    }
  }

  lemma {:induction false} InsertKeepsSorted<T(!new)>(x: T, xs: seq<T>, le: (T, T) -> bool)
    requires TotalPreorder(le) && Sorted(xs, le)
    ensures Sorted(Insert(x, xs, le), le)
  {
    if xs != [] && !le(x, xs[0]) {
      InsertKeepsSorted(x, xs[1..], le);
      var tail := Insert(x, xs[1..], le);
      forall j | 0 <= j < |tail| ensures le(xs[0], tail[j]) {
        assert tail[j] in multiset(tail);
      }
    }
  }

  lemma {:induction false} SortSorts<T(!new)>(xs: seq<T>, le: (T, T) -> bool)
    requires TotalPreorder(le)
    ensures Sorted(Sort(xs, le), le)
  {
    if xs != [] {
      SortSorts(xs[1..], le);
      InsertKeepsSorted(xs[0], Sort(xs[1..], le), le);
    }
  }

  lemma TailMultiset<T>(xs: seq<T>)
    requires xs != []
    ensures multiset(xs[1..]) == multiset(xs) - multiset{xs[0]}
    ensures forall x :: x in xs[1..] ==> x in xs
  {
    assert xs == [xs[0]] + xs[1..];
  }

  /** Whatever algorithm the runtime uses, it cannot return anything else. */
  lemma {:induction false} SortedPermutationIsUnique<T>(xs: seq<T>, ys: seq<T>, le: (T, T) -> bool)
    requires Sorted(xs, le) && Sorted(ys, le)
    requires multiset(xs) == multiset(ys)
    requires Separates(le, xs)
    ensures xs == ys
  {
    SameElements(xs, ys);
    if xs != [] {
      assert xs[0] in ys && ys[0] in xs;
      var i :| 0 <= i < |ys| && ys[i] == xs[0];
      var j :| 0 <= j < |xs| && xs[j] == ys[0];
      assert le(xs[0], xs[j]) || j == 0;
      assert le(ys[0], ys[i]) || i == 0;
      assert xs[0] == ys[0];
      TailMultiset(xs);
      TailMultiset(ys);
      SortedPermutationIsUnique(xs[1..], ys[1..], le);
    }
  }

  // Sorting two lists of linked items by orders that cannot tell linked items apart.

  ghost predicate Parallel<A, B>(rel: (A, B) -> bool, xs: seq<A>, ys: seq<B>) {
    |xs| == |ys| && forall i :: 0 <= i < |xs| ==> rel(xs[i], ys[i])
  }

  ghost predicate OrdersAgree<A(!new), B(!new)>(rel: (A, B) -> bool, le: (A, A) -> bool, le': (B, B) -> bool) {
    forall a, b, c, d :: rel(a, b) && rel(c, d) ==> le(a, c) == le'(b, d)
  }

  lemma PrependParallel<A, B>(rel: (A, B) -> bool, x: A, y: B, xs: seq<A>, ys: seq<B>)
    requires Parallel(rel, xs, ys) && rel(x, y)
    ensures Parallel(rel, [x] + xs, [y] + ys)
  {
  }

  lemma {:induction false} InsertParallel<A(!new), B(!new)>(rel: (A, B) -> bool, le: (A, A) -> bool, le': (B,
      B) -> bool,
                                                            x: A, y: B, xs: seq<A>, ys: seq<B>)
    requires OrdersAgree(rel, le, le') && Parallel(rel, xs, ys) && rel(x, y)
    ensures Parallel(rel, Insert(x, xs, le), Insert(y, ys, le'))
  {
    if xs == [] || le(x, xs[0]) {
      PrependParallel(rel, x, y, xs, ys);
    } else {
      InsertParallel(rel, le, le', x, y, xs[1..], ys[1..]);
      PrependParallel(rel, xs[0], ys[0], Insert(x, xs[1..], le), Insert(y, ys[1..], le'));
    }
  }

  lemma {:induction false} SortParallel<A(!new), B(!new)>(rel: (A, B) -> bool, le: (A, A) -> bool, le': (B, B) -> bool,
                                                          xs: seq<A>, ys: seq<B>)
    requires OrdersAgree(rel, le, le') && Parallel(rel, xs, ys)
    ensures Parallel(rel, Sort(xs, le), Sort(ys, le'))
  {
    if xs != [] {
      SortParallel(rel, le, le', xs[1..], ys[1..]);
      InsertParallel(rel, le, le', xs[0], ys[0], Sort(xs[1..], le), Sort(ys[1..], le'));
    }
  }

  // Record ids in a fixed order.

  function Least(ids: set<nat>): (least: nat)
    requires ids != {}
    ensures least in ids && forall id :: id in ids ==> least <= id
  {
    LeastExists(ids);
    var least :| least in ids && forall id :: id in ids ==> least <= id;
    least
  }

  /** The members of a set of ids, each once, in ascending order. */
  function Ascending(ids: set<nat>): (r: seq<nat>)
    ensures forall i, j :: 0 <= i < j < |r| ==> r[i] < r[j]
    ensures forall id :: id in r <==> id in ids
    decreases |ids|
  {
    if ids == {} then []
    else
      var least := Least(ids);
      var rest := Ascending(ids - {least});
      LeastFirst(ids, least, rest);
      [least] + rest
  }

  lemma LeastFirst(ids: set<nat>, least: nat, rest: seq<nat>)
    requires least in ids && forall id :: id in ids ==> least <= id
    requires forall id :: id in rest <==> id in ids - {least}
    ensures forall id :: id in [least] + rest <==> id in ids
    ensures forall i :: 0 <= i < |rest| ==> least < rest[i]
  {
    forall i | 0 <= i < |rest| ensures least < rest[i] {
      assert rest[i] in rest;
    }
  }

  lemma Unused(ids: set<nat>) returns (k: nat)
    ensures k !in ids
  {
    var r := Ascending(ids);
    k := if r == [] then 0 else r[|r| - 1] + 1;
    forall id | id in ids ensures id < k {
      var i :| 0 <= i < |r| && r[i] == id;
    }
  }

  lemma {:induction false} LeastOf(ids: set<nat>) returns (least: nat)
    requires ids != {}
    ensures least in ids && forall id :: id in ids ==> least <= id
    decreases |ids|
  {
    var x :| x in ids;
    var rest := ids - {x};
    least := x;
    if rest != {} {
      var m := LeastOf(rest);
      if m < x { least := m; }
    }
    forall id | id in ids ensures least <= id {
      assert id == x || id in rest;
    }
  }

  lemma LeastExists(ids: set<nat>)
    requires ids != {}
    ensures exists least :: least in ids && forall id :: id in ids ==> least <= id
  {
    var least := LeastOf(ids);
  }

  // Lists without repetitions.

  ghost predicate Distinct<T>(xs: seq<T>) {
    forall i, j :: 0 <= i < j < |xs| ==> xs[i] != xs[j]
  }

  lemma {:induction false} DistinctCount<T>(xs: seq<T>, x: T)
    requires Distinct(xs)
    ensures multiset(xs)[x] == if x in xs then 1 else 0
  {
    if xs != [] {
      DistinctCount(xs[1..], x);
      assert xs == [xs[0]] + xs[1..];
      assert xs[0] !in xs[1..];
    }
  }

  lemma SameDistinct<T(!new)>(xs: seq<T>, ys: seq<T>)
    requires Distinct(xs) && Distinct(ys) && forall x :: x in xs <==> x in ys
    ensures multiset(xs) == multiset(ys)
  {
    forall x ensures multiset(xs)[x] == multiset(ys)[x] {
      DistinctCount(xs, x);
      DistinctCount(ys, x);
    }
  }

  lemma TwiceCounted<T>(xs: seq<T>, i: nat, j: nat)
    requires i < j < |xs| && xs[i] == xs[j]
    ensures multiset(xs)[xs[i]] >= 2
  {
    assert xs == xs[..j] + xs[j..];
    assert multiset(xs) == multiset(xs[..j]) + multiset(xs[j..]);
    assert xs[..j][i] in multiset(xs[..j]) && xs[j..][0] in multiset(xs[j..]);
  }
}
