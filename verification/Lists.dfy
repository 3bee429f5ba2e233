/** Filters, and the two sorts of Go's sort package: SliceStable as a function, Slice by its contract. */
module Lists {

  function Filter<T(!new)>(p: T -> bool, xs: seq<T>): (r: seq<T>)
    ensures forall x :: x in r <==> x in xs && p(x)
  {
    if xs == [] then []
    else
      var n := |xs| - 1;
      assert xs == xs[..n] + [xs[n]];
      Filter(p, xs[..n]) + if p(xs[n]) then [xs[n]] else []
  }

  lemma FilterSnoc<T(!new)>(p: T -> bool, xs: seq<T>, x: T)
    ensures Filter(p, xs + [x]) == Filter(p, xs) + if p(x) then [x] else []
  {
    assert (xs + [x])[..|xs|] == xs;
  }

  lemma {:induction false} FilterCongruent<T(!new)>(p: T -> bool, q: T -> bool, xs: seq<T>)
    requires forall x <- xs :: p(x) == q(x)
    ensures Filter(p, xs) == Filter(q, xs)
  {
    if xs != [] {
      FilterCongruent(p, q, xs[..|xs| - 1]);
    }
  }

  lemma {:induction false} FilterNone<T(!new)>(p: T -> bool, xs: seq<T>)
    requires forall x <- xs :: !p(x)
    ensures Filter(p, xs) == []
  {
    if xs != [] {
      assert xs[|xs| - 1] in xs;
      FilterNone(p, xs[..|xs| - 1]);
    }
  }

  /** A filter by either of two exclusive conditions collects what the two filters collect. */
  lemma {:induction false} FilterUnion<T(!new)>(p: T -> bool, q: T -> bool, r: T -> bool, xs: seq<T>)
    requires forall x <- xs :: (r(x) <==> p(x) || q(x)) && !(p(x) && q(x))
    ensures multiset(Filter(r, xs)) == multiset(Filter(p, xs)) + multiset(Filter(q, xs))
  {
    if xs != [] {
      FilterUnion(p, q, r, xs[..|xs| - 1]);
    }
  }

  /** A strict weak order, what Go's less callbacks are required to be. */
  ghost predicate Ordering<T(!new)>(lt: (T, T) -> bool) {
    && (forall a :: !lt(a, a))
    && (forall a, b, c :: lt(a, b) && lt(b, c) ==> lt(a, c))
    && (forall a, b, c :: lt(a, c) ==> lt(a, b) || lt(b, c))
  }

  ghost predicate Total<T(!new)>(lt: (T, T) -> bool) {
    forall a, b :: a == b || lt(a, b) || lt(b, a)
  }

  ghost predicate Sorted<T>(lt: (T, T) -> bool, xs: seq<T>) {
    forall i, j :: 0 <= i < j < |xs| ==> !lt(xs[j], xs[i])
  }

  lemma {:induction false} FilterSorted<T(!new)>(lt: (T, T) -> bool, p: T -> bool, xs: seq<T>)
    requires Sorted(lt, xs)
    ensures Sorted(lt, Filter(p, xs))
  {
    if xs != [] {
      var n := |xs| - 1;
      FilterSorted(lt, p, xs[..n]);
      forall x <- Filter(p, xs[..n]) ensures !lt(xs[n], x) {
        var i :| 0 <= i < n && xs[..n][i] == x;
      }
      assert forall i :: 0 <= i < |Filter(p, xs[..n])| ==> Filter(p, xs[..n])[i] in Filter(p, xs[..n]);
    }
  }

  predicate IntLess(a: int, b: int) {
    a < b
  }

  function Insert<T>(lt: (T, T) -> bool, x: T, xs: seq<T>): (r: seq<T>)
    ensures |r| == |xs| + 1
  {
    if xs == [] then [x]
    else
      var n := |xs| - 1;
      if lt(x, xs[n]) then Insert(lt, x, xs[..n]) + [xs[n]] else xs + [x]
  }

  /** sort.SliceStable: insertion sort keeps the order of incomparable elements. */
  function StableSort<T>(lt: (T, T) -> bool, xs: seq<T>): (r: seq<T>)
    ensures |r| == |xs|
  {
    if xs == [] then []
    else
      var n := |xs| - 1;
      Insert(lt, xs[n], StableSort(lt, xs[..n]))
  }

  lemma {:induction false} InsertContents<T>(lt: (T, T) -> bool, x: T, xs: seq<T>)
    ensures multiset(Insert(lt, x, xs)) == multiset(xs) + multiset{x}
  {
    if xs != [] {
      var n := |xs| - 1;
      InsertContents(lt, x, xs[..n]);
      assert xs == xs[..n] + [xs[n]];
    }
  }

  lemma {:induction false} StableSortContents<T>(lt: (T, T) -> bool, xs: seq<T>)
    ensures multiset(StableSort(lt, xs)) == multiset(xs)
  {
    if xs != [] {
      var n := |xs| - 1;
      StableSortContents(lt, xs[..n]);
      InsertContents(lt, xs[n], StableSort(lt, xs[..n]));
      assert xs == xs[..n] + [xs[n]];
    }
  }

  lemma {:induction false} InsertSorted<T(!new)>(lt: (T, T) -> bool, x: T, xs: seq<T>)
    requires Ordering(lt) && Sorted(lt, xs)
    ensures Sorted(lt, Insert(lt, x, xs))
  {
    if xs != [] {
      var n := |xs| - 1;
      if lt(x, xs[n]) {
        InsertSorted(lt, x, xs[..n]);
        var r := Insert(lt, x, xs[..n]);
        InsertContents(lt, x, xs[..n]);
        forall i | 0 <= i < |r|
          ensures !lt(xs[n], r[i])
        {
          assert r[i] in multiset(r);
          assert r[i] == x || r[i] in xs[..n];
        }
      }
    }
  }

  lemma {:induction false} StableSortSorted<T(!new)>(lt: (T, T) -> bool, xs: seq<T>)
    requires Ordering(lt)
    ensures Sorted(lt, StableSort(lt, xs))
  {
    if xs != [] {
      var n := |xs| - 1;
      StableSortSorted(lt, xs[..n]);
      InsertSorted(lt, xs[n], StableSort(lt, xs[..n]));
    }
  }

  /** A class of pairwise incomparable elements. */
  ghost predicate Level<T(!new)>(lt: (T, T) -> bool, q: T -> bool) {
    forall a, b :: q(a) && q(b) ==> !lt(a, b)
  }

  lemma {:induction false} InsertStable<T(!new)>(lt: (T, T) -> bool, q: T -> bool, x: T, xs: seq<T>)
    requires Level(lt, q)
    ensures Filter(q, Insert(lt, x, xs)) == Filter(q, xs + [x])
  {
    if xs == [] {
      assert [] + [x] == [x];
    } else {
      var n := |xs| - 1;
      if lt(x, xs[n]) {
        InsertStable(lt, q, x, xs[..n]);
        FilterSwap(q, xs[..n], x, xs[n], Insert(lt, x, xs[..n]));
        assert xs[..n] + [xs[n], x] == xs + [x];
      }
    }
  }

  /** Exchanging the last two elements goes unnoticed by a filter that keeps at most one of them. */
  lemma FilterSwap<T(!new)>(q: T -> bool, xs: seq<T>, x: T, y: T, zs: seq<T>)
    requires !(q(x) && q(y))
    requires Filter(q, zs) == Filter(q, xs + [x])
    ensures Filter(q, zs + [y]) == Filter(q, xs + [y, x])
  {
    hide Filter;
    FilterSnoc(q, xs, x);
    FilterSnoc(q, zs, y);
    FilterSnoc(q, xs, y);
    FilterSnoc(q, xs + [y], x);
    assert xs + [y] + [x] == xs + [y, x];
  }

  /** Stability: within every level the sort leaves the order of elements alone. */
  lemma {:induction false} StableSortStable<T(!new)>(lt: (T, T) -> bool, q: T -> bool, xs: seq<T>)
    requires Level(lt, q)
    ensures Filter(q, StableSort(lt, xs)) == Filter(q, xs)
  {
    if xs != [] {
      var n := |xs| - 1;
      StableSortStable(lt, q, xs[..n]);
      InsertStable(lt, q, xs[n], StableSort(lt, xs[..n]));
      FilterSnoc(q, StableSort(lt, xs[..n]), xs[n]);
      FilterSnoc(q, xs[..n], xs[n]);
      assert xs == xs[..n] + [xs[n]];
    }
  }

  /** sort.Slice: only sortedness and the contents are promised to callers. */
  method SortSlice<T(!new)>(lt: (T, T) -> bool, xs: seq<T>) returns (ys: seq<T>)
    requires Ordering(lt)
    ensures Sorted(lt, ys) && multiset(ys) == multiset(xs)
  {
    StableSortSorted(lt, xs);
    StableSortContents(lt, xs);
    ys := StableSort(lt, xs);
  }

  /** Under a total order the contents fix the sorted sequence. */
  lemma {:induction false} SortedUnique<T(!new)>(lt: (T, T) -> bool, xs: seq<T>, ys: seq<T>)
    requires Ordering(lt) && Total(lt)
    requires Sorted(lt, xs) && Sorted(lt, ys) && multiset(xs) == multiset(ys)
    ensures xs == ys
  {
    InMultiset(xs, ys);
    if xs != [] {
      var n := |xs| - 1;
      LastIsGreatest(lt, xs, ys);
      LastIsGreatest(lt, ys, xs);
      assert xs[n] == ys[n];
      ButLast(xs, ys);
      SortedUnique(lt, xs[..n], ys[..n]);
      assert xs == xs[..n] + [xs[n]] && ys == ys[..n] + [ys[n]];
    }
  }

  lemma ButLast<T>(xs: seq<T>, ys: seq<T>)
    requires |xs| == |ys| > 0 && multiset(xs) == multiset(ys)
    requires xs[|xs| - 1] == ys[|ys| - 1]
    ensures multiset(xs[..|xs| - 1]) == multiset(ys[..|ys| - 1])
  {
    var n := |xs| - 1;
    assert xs == xs[..n] + [xs[n]] && ys == ys[..n] + [ys[n]];
    assert multiset(xs) == multiset(xs[..n]) + multiset{xs[n]};
    assert multiset(ys) == multiset(ys[..n]) + multiset{xs[n]};
    assert multiset(xs[..n]) == multiset(xs) - multiset{xs[n]};
  }

  lemma LastIsGreatest<T(!new)>(lt: (T, T) -> bool, xs: seq<T>, ys: seq<T>)
    requires Ordering(lt) && Sorted(lt, xs) && xs != [] && |xs| == |ys|
    requires ys[|ys| - 1] in xs
    ensures !lt(xs[|xs| - 1], ys[|ys| - 1])
  {
    var j :| 0 <= j < |xs| && xs[j] == ys[|ys| - 1];
  }

  lemma SortedIntsUnique(xs: seq<int>, ys: seq<int>)
    requires Sorted(IntLess, xs) && Sorted(IntLess, ys) && multiset(xs) == multiset(ys)
    ensures xs == ys
  {
    SortedUnique(IntLess, xs, ys);
  }

  lemma InMultiset<T>(xs: seq<T>, ys: seq<T>)
    requires multiset(xs) == multiset(ys)
    ensures forall x :: x in xs <==> x in ys
    ensures |xs| == |ys|
  {
    forall x ensures x in xs <==> x in ys {
      assert x in xs <==> x in multiset(xs);
    }
    assert |multiset(xs)| == |xs| && |multiset(ys)| == |ys|;
  }

  function Map<T, U>(f: T -> U, xs: seq<T>): (r: seq<U>)
    ensures |r| == |xs|
  {
    seq(|xs|, i requires 0 <= i < |xs| => f(xs[i]))
  }

  lemma MapRemove<T, U>(f: T -> U, xs: seq<T>, i: nat)
    requires i < |xs|
    ensures multiset(Map(f, xs)) == multiset(Map(f, xs[..i] + xs[i + 1..])) + multiset{f(xs[i])}
  {
    var m := Map(f, xs);
    assert m == m[..i] + [f(xs[i])] + m[i + 1..];
    assert Map(f, xs[..i] + xs[i + 1..]) == m[..i] + m[i + 1..];
  }

  lemma Remove<T>(xs: seq<T>, i: nat)
    requires i < |xs|
    ensures multiset(xs[..i] + xs[i + 1..]) == multiset(xs) - multiset{xs[i]}
    ensures |xs[..i] + xs[i + 1..]| == |xs| - 1
  {
    assert xs == xs[..i] + [xs[i]] + xs[i + 1..];
  }

  /** Mapping a rearrangement gives a rearrangement. */
  lemma {:induction false} MapPermutation<T(!new), U>(f: T -> U, xs: seq<T>, ys: seq<T>)
    requires multiset(xs) == multiset(ys)
    ensures multiset(Map(f, xs)) == multiset(Map(f, ys))
    decreases |xs|
  {
    InMultiset(xs, ys);
    if xs != [] {
      var i := |xs| - 1;
      assert xs[i] in ys;
      var j :| 0 <= j < |ys| && ys[j] == xs[i];
      Remove(xs, i);
      Remove(ys, j);
      MapRemove(f, xs, i);
      MapRemove(f, ys, j);
      MapPermutation(f, xs[..i] + xs[i + 1..], ys[..j] + ys[j + 1..]);
    } else {
      assert Map(f, xs) == Map(f, ys);
    }
  }

  lemma {:induction false} FilterCount<T(!new)>(p: T -> bool, xs: seq<T>, x: T)
    ensures multiset(Filter(p, xs))[x] == if p(x) then multiset(xs)[x] else 0
  {
    if xs != [] {
      var n := |xs| - 1;
      FilterCount(p, xs[..n], x);
      assert xs == xs[..n] + [xs[n]];
    }
  }

  /** Filtering a rearrangement gives a rearrangement. */
  lemma FilterPermutation<T(!new)>(p: T -> bool, xs: seq<T>, ys: seq<T>)
    requires multiset(xs) == multiset(ys)
    ensures multiset(Filter(p, xs)) == multiset(Filter(p, ys))
  {
    forall x ensures multiset(Filter(p, xs))[x] == multiset(Filter(p, ys))[x] {
      FilterCount(p, xs, x);
      FilterCount(p, ys, x);
    }
  }
}
