/** Failure-compatible results shared by every model. */
module Wrappers {
  datatype Option<+T> = None | Some(value: T)

  datatype Result<+T, +E> = Ok(value: T) | Err(error: E)
}

/** Duplicate-free sequences, viewed as sets. */
module Sequences {

  ghost predicate Distinct<T>(s: seq<T>) {
    forall i, j :: 0 <= i < j < |s| ==> s[i] != s[j]
  }

  ghost function Elements<T>(s: seq<T>): set<T> {
    set x | x in s
  }

  lemma {:induction false} DistinctCardinality<T>(s: seq<T>)
    requires Distinct(s)
    ensures |Elements(s)| == |s|
  {
    if s != [] {
      var last := |s| - 1;
      DistinctCardinality(s[..last]);
      assert Elements(s) == Elements(s[..last]) + {s[last]};
    }
  }

  lemma {:induction false} ElementsCardinality<T>(s: seq<T>)
    ensures |Elements(s)| <= |s|
  {
    if s != [] {
      var last := |s| - 1;
      ElementsCardinality(s[..last]);
      assert Elements(s) == Elements(s[..last]) + {s[last]};
    }
  }

  lemma ConcatDistinct<T>(a: seq<T>, b: seq<T>)
    ensures Distinct(a + b) <==> Distinct(a) && Distinct(b) && forall x :: x in a ==> x !in b
  {
    var s := a + b;
    if Distinct(s) {
      forall i, j | 0 <= i < j < |a| ensures a[i] != a[j] { assert s[i] != s[j]; }
      forall i, j | 0 <= i < j < |b| ensures b[i] != b[j] { assert s[|a| + i] != s[|a| + j]; }
      forall i, j | 0 <= i < |a| && 0 <= j < |b| ensures a[i] != b[j] { assert s[i] != s[|a| + j]; }
    } else if Distinct(a) && Distinct(b) {
      var i, j :| 0 <= i < j < |s| && s[i] == s[j];
      assert i < |a| <= j && a[i] == b[j - |a|];
      assert a[i] in a;
    }
  }

  /** The naturals below n. */
  ghost function Below(n: nat): (s: set<nat>)
    ensures |s| == n && forall x: nat :: x in s <==> x < n
  {
    if n == 0 then {} else Below(n - 1) + {n - 1}
  }

  /** A duplicate-free list of naturals below n that covers all of them has length n. */
  lemma CoversBelow(s: seq<nat>, n: nat)
    requires Distinct(s)
    requires forall x: nat :: x in s <==> x < n
    ensures |s| == n
  {
    DistinctCardinality(s);
    assert Elements(s) == Below(n);
  }

  // ---------------------------------------------------------------- concatenated images

  function FlatMap<S, T>(f: S -> seq<T>, s: seq<S>): seq<T> {
    if s == [] then [] else FlatMap(f, s[..|s| - 1]) + f(s[|s| - 1])
  }

  lemma {:induction false} FlatMapConcat<S, T>(f: S -> seq<T>, a: seq<S>, b: seq<S>)
    ensures FlatMap(f, a + b) == FlatMap(f, a) + FlatMap(f, b)
  {
    if b == [] {
      assert a + b == a;
    } else {
      var last := |b| - 1;
      assert (a + b)[..|a + b| - 1] == a + b[..last];
      FlatMapConcat(f, a, b[..last]);
    }
  }

  lemma {:induction false} InFlatMap<S, T>(f: S -> seq<T>, s: seq<S>, x: T)
    ensures x in FlatMap(f, s) <==> exists i :: 0 <= i < |s| && x in f(s[i])
  {
    if s != [] {
      var last := |s| - 1;
      InFlatMap(f, s[..last], x);
      if i :| 0 <= i < last && x in f(s[..last][i]) {
        assert x in f(s[i]);
      }
      if i :| 0 <= i < |s| && x in f(s[i]) {
        if i < last { assert x in f(s[..last][i]); }
      }
    }
  }

  /** Rearranging the arguments rearranges the concatenated images. */
  lemma {:induction false} FlatMapPermutes<S, T>(f: S -> seq<T>, a: seq<S>, b: seq<S>)
    requires multiset(a) == multiset(b)
    ensures multiset(FlatMap(f, a)) == multiset(FlatMap(f, b))
  {
    if a == [] {
      assert |multiset(b)| == 0;
      assert b == [];
    } else {
      var last := |a| - 1;
      var x := a[last];
      assert a == a[..last] + [x];
      assert x in multiset(b);
      var i :| 0 <= i < |b| && b[i] == x;
      var rest := b[..i] + b[i + 1..];
      assert b == b[..i] + [x] + b[i + 1..];
      assert multiset(a[..last]) == multiset(a) - multiset{x};
      assert multiset(rest) == multiset(b) - multiset{x};
      FlatMapPermutes(f, a[..last], rest);
      FlatMapConcat(f, b[..i], b[i + 1..]);
      FlatMapConcat(f, b[..i] + [x], b[i + 1..]);
      assert (b[..i] + [x])[..i] == b[..i];
    }
  }

  lemma {:induction false} DistinctByCount<T>(s: seq<T>)
    ensures Distinct(s) <==> forall x :: multiset(s)[x] <= 1
  {
    if s != [] {
      var last := |s| - 1;
      DistinctByCount(s[..last]);
      assert s == s[..last] + [s[last]];
      ConcatDistinct(s[..last], [s[last]]);
      assert multiset(s) == multiset(s[..last]) + multiset{s[last]};
      assert s[last] in s[..last] <==> multiset(s[..last])[s[last]] >= 1;
      if !Distinct(s[..last]) {
        var x :| multiset(s[..last])[x] > 1;
        assert multiset(s)[x] > 1;
      } else if s[last] in s[..last] {
        assert multiset(s)[s[last]] > 1;
      } else {
        forall x ensures multiset(s)[x] <= 1 {
          assert multiset(s[..last])[x] <= 1;
        }
      }
    }
  }

  lemma PermutationKeepsDistinct<T>(a: seq<T>, b: seq<T>)
    requires multiset(a) == multiset(b)
    ensures Distinct(a) <==> Distinct(b)
    ensures |a| == |b| && forall x :: x in a <==> x in b
  {
    DistinctByCount(a);
    DistinctByCount(b);
    assert |multiset(a)| == |a| && |multiset(b)| == |b|;
    forall x ensures x in a <==> x in b {
      assert x in a <==> x in multiset(a);
      assert x in b <==> x in multiset(b);
    }
  }

  // ---------------------------------------------------------------- stable sorting by a comparison

  /** No later element is less than an earlier one. */
  ghost predicate SortedBy<T(!new)>(less: (T, T) -> bool, s: seq<T>) {
    forall i, j :: 0 <= i < j < |s| ==> !less(s[j], s[i])
  }

  ghost predicate Asymmetric<T(!new)>(less: (T, T) -> bool) {
    forall a, b :: less(a, b) ==> !less(b, a)
  }

  ghost predicate WeakOrder<T(!new)>(less: (T, T) -> bool) {
    && Asymmetric(less)
    && (forall a, b, c :: !less(b, a) && !less(c, b) ==> !less(c, a))
  }

  ghost predicate Comparable<T>(less: (T, T) -> bool, s: seq<T>) {
    forall x, y :: x in s && y in s && x != y ==> less(x, y) || less(y, x)
  }

  function InsertBy<T>(less: (T, T) -> bool, s: seq<T>, x: T): seq<T> {
    if s == [] || !less(x, s[|s| - 1]) then s + [x]
    else InsertBy(less, s[..|s| - 1], x) + [s[|s| - 1]]
  }

  function SortBy<T>(less: (T, T) -> bool, s: seq<T>): seq<T> {
    if s == [] then [] else InsertBy(less, SortBy(less, s[..|s| - 1]), s[|s| - 1])
  }

  lemma {:induction false} InsertByPermutes<T>(less: (T, T) -> bool, s: seq<T>, x: T)
    ensures multiset(InsertBy(less, s, x)) == multiset(s) + multiset{x}
  {
    if s != [] && less(x, s[|s| - 1]) {
      InsertByPermutes(less, s[..|s| - 1], x);
      assert s == s[..|s| - 1] + [s[|s| - 1]];
    }
  }

  lemma InsertByElements<T>(less: (T, T) -> bool, s: seq<T>, x: T, y: T)
    requires y in InsertBy(less, s, x)
    ensures y == x || y in s
  {
  }

  lemma SortedLast<T(!new)>(less: (T, T) -> bool, s: seq<T>, y: T)
    requires SortedBy(less, s) && s != [] && y in s[..|s| - 1]
    ensures !less(s[|s| - 1], y)
  {
  }

  lemma SortedAppend<T(!new)>(less: (T, T) -> bool, s: seq<T>, x: T)
    requires SortedBy(less, s) && forall y :: y in s ==> !less(x, y)
    ensures SortedBy(less, s + [x])
  {
  }

  lemma {:induction false} InsertBySorts<T(!new)>(less: (T, T) -> bool, s: seq<T>, x: T)
    requires WeakOrder(less) && SortedBy(less, s)
    ensures SortedBy(less, InsertBy(less, s, x))
  {
    if s == [] || !less(x, s[|s| - 1]) {
      forall y | y in s ensures !less(x, y) {
        if y in s[..|s| - 1] { SortedLast(less, s, y); }
      }
      SortedAppend(less, s, x);
    } else {
      var last, rest := s[|s| - 1], s[..|s| - 1];
      InsertBySorts(less, rest, x);
      forall y | y in InsertBy(less, rest, x) ensures !less(last, y) {
        InsertByElements(less, rest, x, y);
        if y in rest { SortedLast(less, s, y); }
      }
      SortedAppend(less, InsertBy(less, rest, x), last);
    }
  }

  lemma {:induction false} SortBySorts<T(!new)>(less: (T, T) -> bool, s: seq<T>)
    requires WeakOrder(less)
    ensures SortedBy(less, SortBy(less, s)) && multiset(SortBy(less, s)) == multiset(s)
  {
    if s != [] {
      var last := |s| - 1;
      SortBySorts(less, s[..last]);
      InsertBySorts(less, SortBy(less, s[..last]), s[last]);
      InsertByPermutes(less, SortBy(less, s[..last]), s[last]);
      assert s == s[..last] + [s[last]];
    }
  }

  lemma SortedTail<T(!new)>(less: (T, T) -> bool, s: seq<T>)
    requires SortedBy(less, s) && s != []
    ensures SortedBy(less, s[1..])
  {
  }

  lemma SortedHeadsAgree<T(!new)>(less: (T, T) -> bool, a: seq<T>, b: seq<T>)
    requires Asymmetric(less) && SortedBy(less, a) && SortedBy(less, b) && Comparable(less, a)
    requires a != [] && b != [] && a[0] in b && b[0] in a
    ensures a[0] == b[0]
  {
  }

  lemma TailOfPermutation<T>(a: seq<T>, b: seq<T>)
    requires multiset(a) == multiset(b) && a != [] && b != [] && a[0] == b[0]
    ensures multiset(a[1..]) == multiset(b[1..])
  {
    assert a == [a[0]] + a[1..] && b == [b[0]] + b[1..];
    assert multiset(a[1..]) == multiset(a) - multiset{a[0]};
    assert multiset(b[1..]) == multiset(b) - multiset{b[0]};
  }

  /** Where different elements are comparable there is only one sorted arrangement. */
  lemma {:induction false} SortedIsUnique<T(!new)>(less: (T, T) -> bool, a: seq<T>, b: seq<T>)
    requires Asymmetric(less) && SortedBy(less, a) && SortedBy(less, b) && Comparable(less, a)
    requires multiset(a) == multiset(b)
    ensures a == b
    decreases |a|
  {
    PermutationKeepsDistinct(a, b);
    if a != [] {
      assert a[0] in a && b[0] in b;
      SortedHeadsAgree(less, a, b);
      SortedTail(less, a);
      SortedTail(less, b);
      TailOfPermutation(a, b);
      SortedIsUnique(less, a[1..], b[1..]);
      assert a == [a[0]] + a[1..] && b == [b[0]] + b[1..];
    }
  }

  /** Sorting leaves a sorted list as it is. */
  lemma {:induction false} SortOfSorted<T(!new)>(less: (T, T) -> bool, s: seq<T>)
    requires SortedBy(less, s)
    ensures SortBy(less, s) == s
  {
    if s != [] {
      var last := |s| - 1;
      SortOfSorted(less, s[..last]);
      assert s == s[..last] + [s[last]];
    }
  }

  lemma PairIsSorted<T(!new)>(less: (T, T) -> bool, a: T, b: T)
    requires Asymmetric(less) && less(a, b)
    ensures SortedBy(less, [a, b]) && Comparable(less, [a, b])
  {
    assert !less(b, a);
  }

  lemma SortedTwo<T(!new)>(less: (T, T) -> bool, a: T, b: T, t: seq<T>)
    requires Asymmetric(less) && less(a, b) && SortedBy(less, t) && multiset(t) == multiset{a, b}
    ensures t == [a, b]
  {
    PairIsSorted(less, a, b);
    assert multiset([a, b]) == multiset{a, b};
    SortedIsUnique(less, [a, b], t);
  }

  lemma SortOfTwo<T(!new)>(less: (T, T) -> bool, a: T, b: T, s: seq<T>)
    requires WeakOrder(less) && less(a, b) && multiset(s) == multiset{a, b}
    ensures SortBy(less, s) == [a, b]
  {
    SortBySorts(less, s);
    SortedTwo(less, a, b, SortBy(less, s));
  }

  lemma SubsetCardinality<T>(a: set<T>, b: set<T>)
    requires a <= b
    ensures |a| <= |b|
    ensures |a| == |b| ==> a == b
  {
    assert b == a + (b - a);
  }
}
