/**
 Stable sorting by a total preorder, the meaning of Python's `sorted` and `list.sort`,
 and the small sequence vocabulary the other modules share.
 */
module Sorting {

  ghost predicate TotalPreorder<T(!new)>(leq: (T, T) -> bool) {
    && (forall a, b :: leq(a, b) || leq(b, a))
    && (forall a, b, c :: leq(a, b) && leq(b, c) ==> leq(a, c))
  }

  ghost predicate SortedBy<T>(xs: seq<T>, leq: (T, T) -> bool) {
    forall i, j :: 0 <= i < j < |xs| ==> leq(xs[i], xs[j])
  }

  /** `x` goes in front of the first element it does not have to follow. */
  function Insert<T>(x: T, xs: seq<T>, leq: (T, T) -> bool): (r: seq<T>)
    ensures multiset(r) == multiset{x} + multiset(xs)
    ensures |r| == |xs| + 1
  {
    if xs == [] || leq(x, xs[0]) then [x] + xs
    else
      assert xs == [xs[0]] + xs[1..];
      [xs[0]] + Insert(x, xs[1..], leq)
  }

  function Sort<T>(xs: seq<T>, leq: (T, T) -> bool): (r: seq<T>)
    ensures multiset(r) == multiset(xs)
    ensures |r| == |xs|
  {
    if xs == [] then []
    else
      assert xs == [xs[0]] + xs[1..];
      Insert(xs[0], Sort(xs[1..], leq), leq)
  }

  function Filter<T(!new)>(xs: seq<T>, keep: T -> bool): (r: seq<T>)
    ensures |r| <= |xs|
    ensures forall x :: x in r <==> x in xs && keep(x)
  {
    if xs == [] then []
    else
      assert xs == [xs[0]] + xs[1..];
      (if keep(xs[0]) then [xs[0]] else []) + Filter(xs[1..], keep)
  }

  lemma {:induction false} InsertSorted<T(!new)>(x: T, xs: seq<T>, leq: (T, T) -> bool)
    requires TotalPreorder(leq) && SortedBy(xs, leq)
    ensures SortedBy(Insert(x, xs, leq), leq)
  {
    var r := Insert(x, xs, leq);
    if xs == [] || leq(x, xs[0]) {
    } else {
      InsertSorted(x, xs[1..], leq);
      var rest := Insert(x, xs[1..], leq);
      forall j | 0 <= j < |rest| ensures leq(xs[0], rest[j]) {
        assert rest[j] in multiset(rest);
      }
    }
  }

  lemma {:induction false} SortSorted<T(!new)>(xs: seq<T>, leq: (T, T) -> bool)
    requires TotalPreorder(leq)
    ensures SortedBy(Sort(xs, leq), leq)
  {
    if xs != [] {
      SortSorted(xs[1..], leq);
      InsertSorted(xs[0], Sort(xs[1..], leq), leq);
    }
  }

  function TiesWith<T>(leq: (T, T) -> bool, a: T): T -> bool {
    x => leq(a, x) && leq(x, a)
  }

  /** Sorting is stable: elements that tie with `a` keep their original order. */
  lemma SortStable<T(!new)>(xs: seq<T>, leq: (T, T) -> bool, a: T)
    requires TotalPreorder(leq)
    ensures Filter(Sort(xs, leq), TiesWith(leq, a)) == Filter(xs, TiesWith(leq, a))
  {
    var ties := TiesWith(leq, a);
    forall x, y | ties(x) && ties(y) ensures leq(x, y) {
      assert leq(x, a) && leq(a, y);
    }
    SortKeepsTies(xs, leq, ties);
  }

  lemma {:induction false} SortKeepsTies<T(!new)>(xs: seq<T>, leq: (T, T) -> bool, ties: T -> bool)
    requires forall x, y :: ties(x) && ties(y) ==> leq(x, y)
    ensures Filter(Sort(xs, leq), ties) == Filter(xs, ties)
  {
    if xs != [] {
      SortKeepsTies(xs[1..], leq, ties);
      InsertStable(xs[0], Sort(xs[1..], leq), leq, ties);
      FilterAppend([xs[0]], xs[1..], ties);
      assert xs == [xs[0]] + xs[1..];
    }
  }

  lemma {:induction false} InsertStable<T(!new)>(x: T, xs: seq<T>, leq: (T, T) -> bool, ties: T -> bool)
    requires forall y :: ties(x) && ties(y) ==> leq(x, y)
    ensures Filter(Insert(x, xs, leq), ties) == Filter([x], ties) + Filter(xs, ties)
  {
    if xs == [] || leq(x, xs[0]) {
      FilterAppend([x], xs, ties);
    } else {
      var y, rest := xs[0], xs[1..];
      InsertStable(x, rest, leq, ties);
      FilterAppend([y], Insert(x, rest, leq), ties);
      FilterAppend([y], rest, ties);
      assert xs == [y] + rest;
    }
  }

  /** A list already in order is left as it is. */
  lemma {:induction false} SortIdentity<T(!new)>(xs: seq<T>, leq: (T, T) -> bool)
    requires SortedBy(xs, leq)
    ensures Sort(xs, leq) == xs
  {
    if xs != [] {
      SortIdentity(xs[1..], leq);
      assert |xs| > 1 ==> leq(xs[0], xs[1]);
    }
  }

  lemma Assoc<T>(a: seq<T>, b: seq<T>, c: seq<T>)
    ensures a + b + c == a + (b + c)
  {
  }

  lemma {:induction false} FilterAppend<T(!new)>(xs: seq<T>, ys: seq<T>, keep: T -> bool)
    ensures Filter(xs + ys, keep) == Filter(xs, keep) + Filter(ys, keep)
  {
    if xs == [] {
      assert xs + ys == ys;
    } else {
      FilterAppend(xs[1..], ys, keep);
      assert (xs + ys)[1..] == xs[1..] + ys;
      var head := if keep(xs[0]) then [xs[0]] else [];
      assert Filter(xs + ys, keep) == head + Filter(xs[1..] + ys, keep);
      Assoc(head, Filter(xs[1..], keep), Filter(ys, keep));
    }
  }

  function Not<T>(keep: T -> bool): T -> bool {
    x => !keep(x)
  }

  /** A filter and its complement split a list. */
  lemma {:induction false} FilterCount<T(!new)>(xs: seq<T>, keep: T -> bool)
    ensures multiset(Filter(xs, keep)) <= multiset(xs)
    ensures |Filter(xs, keep)| + |Filter(xs, Not(keep))| == |xs|
  {
    if xs != [] {
      FilterCount(xs[1..], keep);
      assert xs == [xs[0]] + xs[1..];
    }
  }

  lemma SortMembers<T(!new)>(xs: seq<T>, leq: (T, T) -> bool, x: T)
    ensures x in Sort(xs, leq) <==> x in xs
  {
    assert x in multiset(Sort(xs, leq)) <==> x in multiset(xs);
  }

  predicate Distinct<T(==)>(xs: seq<T>) {
    forall i, j :: 0 <= i < j < |xs| ==> xs[i] != xs[j]
  }

  lemma {:induction false} FilterMultiplicity<T(!new)>(xs: seq<T>, keep: T -> bool, x: T)
    ensures multiset(Filter(xs, keep))[x] == if keep(x) then multiset(xs)[x] else 0
  {
    if xs != [] {
      FilterMultiplicity(xs[1..], keep, x);
      assert xs == [xs[0]] + xs[1..];
    }
  }

  /** Filtering two arrangements of the same elements gives two arrangements of the same elements. */
  lemma FilterPermuted<T(!new)>(xs: seq<T>, ys: seq<T>, keep: T -> bool)
    requires multiset(xs) == multiset(ys)
    ensures multiset(Filter(xs, keep)) == multiset(Filter(ys, keep))
    ensures |Filter(xs, keep)| == |Filter(ys, keep)|
  {
    forall x ensures multiset(Filter(xs, keep))[x] == multiset(Filter(ys, keep))[x] {
      FilterMultiplicity(xs, keep, x);
      FilterMultiplicity(ys, keep, x);
    }
    assert |multiset(Filter(xs, keep))| == |Filter(xs, keep)|;
    assert |multiset(Filter(ys, keep))| == |Filter(ys, keep)|;
  }

  /** In a list without repeats every element counts once. */
  lemma {:induction false} DistinctMultiplicity<T(!new)>(xs: seq<T>, x: T)
    requires Distinct(xs)
    ensures multiset(xs)[x] == if x in xs then 1 else 0
  {
    if xs != [] {
      DistinctMultiplicity(xs[1..], x);
      assert xs == [xs[0]] + xs[1..];
    }
  }

  /** Taking some elements out of a list without repeats leaves exactly the others. */
  lemma FilterOut<T(!new)>(xs: seq<T>, out: seq<T>, keep: T -> bool)
    requires Distinct(xs) && multiset(out) <= multiset(xs)
    requires forall x :: keep(x) <==> x !in out
    ensures multiset(Filter(xs, keep)) == multiset(xs) - multiset(out)
    ensures |Filter(xs, keep)| == |xs| - |out|
  {
    forall x ensures multiset(Filter(xs, keep))[x] == (multiset(xs) - multiset(out))[x] {
      FilterMultiplicity(xs, keep, x);
      DistinctMultiplicity(xs, x);
      assert x in out <==> multiset(out)[x] > 0;
    }
    assert |multiset(Filter(xs, keep))| == |Filter(xs, keep)|;
    assert |multiset(xs)| == |xs| && |multiset(out)| == |out|;
  }
}
