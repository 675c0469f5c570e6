/** Stable ordering of sequences, and filtering. */
module Sorting {

  ghost predicate TotalOrder<T(!new)>(le: (T, T) -> bool) {
    && (forall a, b :: le(a, b) || le(b, a))
    && (forall a, b, c :: le(a, b) && le(b, c) ==> le(a, c))
  }

  ghost predicate Sorted<T(!new)>(s: seq<T>, le: (T, T) -> bool) {
    forall i, j :: 0 <= i < j < |s| ==> le(s[i], s[j])
  }

  /** `x` placed behind everything that is not greater. */
  function InsertBy<T>(s: seq<T>, x: T, le: (T, T) -> bool): (r: seq<T>)
    ensures multiset(r) == multiset(s) + multiset{x} && |r| == |s| + 1
  {
    if s == [] then [x]
    else
      assert s == [s[0]] + s[1..];
      if le(s[0], x) then [s[0]] + InsertBy(s[1..], x, le) else [x] + s
  }

  /** Stable sort: equal elements keep their order. */
  function SortBy<T>(s: seq<T>, le: (T, T) -> bool): (r: seq<T>)
    ensures multiset(r) == multiset(s) && |r| == |s|
  {
    if s == [] then []
    else
      assert s == s[..|s| - 1] + [s[|s| - 1]];
      InsertBy(SortBy(s[..|s| - 1], le), s[|s| - 1], le)
  }

  lemma {:induction false} InsertKeepsSorted<T(!new)>(s: seq<T>, x: T, le: (T, T) -> bool)
    requires TotalOrder(le) && Sorted(s, le)
    ensures Sorted(InsertBy(s, x, le), le)
  {
    if s != [] && le(s[0], x) {
      var rest := InsertBy(s[1..], x, le);
      InsertKeepsSorted(s[1..], x, le);
      forall j | 0 <= j < |rest| ensures le(s[0], rest[j]) {
        InsertMembers(s[1..], x, le, rest[j]);
      }
    } else if s != [] {
      forall j | 0 <= j < |s| ensures le(x, s[j]) {
        assert le(x, s[0]);
      }
    }
  }

  lemma {:induction false} SortSorts<T(!new)>(s: seq<T>, le: (T, T) -> bool)
    requires TotalOrder(le)
    ensures Sorted(SortBy(s, le), le)
  {
    if s == [] {
    } else {
      SortSorts(s[..|s| - 1], le);
      InsertKeepsSorted(SortBy(s[..|s| - 1], le), s[|s| - 1], le);
    }
  }

  lemma {:induction false} InsertAtEnd<T>(s: seq<T>, x: T, le: (T, T) -> bool)
    requires forall y :: y in s ==> le(y, x)
    ensures InsertBy(s, x, le) == s + [x]
  {
    if s == [] {
    } else {
      InsertAtEnd(s[1..], x, le);
    }
  }

  /** Sorting what is already in order changes nothing. */
  lemma {:induction false} SortOfSorted<T(!new)>(s: seq<T>, le: (T, T) -> bool)
    requires Sorted(s, le)
    ensures SortBy(s, le) == s
  {
    if s == [] {
    } else {
      SortOfSorted(s[..|s| - 1], le);
      InsertAtEnd(s[..|s| - 1], s[|s| - 1], le);
    }
  }

  lemma SortMembers<T>(s: seq<T>, le: (T, T) -> bool, x: T)
    ensures x in SortBy(s, le) <==> x in s
  {
    assert x in SortBy(s, le) <==> x in multiset(SortBy(s, le));
    assert x in s <==> x in multiset(s);
  }

  lemma InsertMembers<T>(s: seq<T>, x: T, le: (T, T) -> bool, y: T)
    ensures y in InsertBy(s, x, le) <==> y in s || y == x
  {
    assert y in InsertBy(s, x, le) <==> y in multiset(InsertBy(s, x, le));
  }

  function Filter<T(!new)>(s: seq<T>, p: T -> bool): (r: seq<T>)
    ensures forall x :: x in r <==> x in s && p(x)
    ensures |r| <= |s|
  {
    if s == [] then []
    else
      assert s == [s[0]] + s[1..];
      if p(s[0]) then [s[0]] + Filter(s[1..], p) else Filter(s[1..], p)
  }

  lemma {:induction false} FilterKeepsSorted<T(!new)>(s: seq<T>, p: T -> bool, le: (T, T) -> bool)
    requires Sorted(s, le)
    ensures Sorted(Filter(s, p), le)
  {
    if s == [] {
    } else {
      FilterKeepsSorted(s[1..], p, le);
      var rest := Filter(s[1..], p);
      assert forall i :: 0 <= i < |rest| ==> rest[i] in rest;
    }
  }

  ghost predicate AllPairs<T(!new)>(s: seq<T>, p: (T, T) -> bool) {
    forall i, j :: 0 <= i < j < |s| ==> p(s[i], s[j])
  }

  lemma {:induction false} InsertKeepsPairs<T(!new)>(s: seq<T>, x: T, le: (T, T) -> bool, p: (T, T) -> bool)
    requires forall a, b :: p(a, b) ==> p(b, a)
    requires AllPairs(s, p) && forall y :: y in s ==> p(y, x)
    ensures AllPairs(InsertBy(s, x, le), p)
  {
    if s == [] || !le(s[0], x) {
    } else {
      var rest := InsertBy(s[1..], x, le);
      InsertKeepsPairs(s[1..], x, le, p);
      forall j | 0 <= j < |rest| ensures p(s[0], rest[j]) {
        InsertMembers(s[1..], x, le, rest[j]);
      }
    }
  }

  /** A symmetric property of all pairs is not lost by sorting. */
  lemma {:induction false} SortKeepsPairs<T(!new)>(s: seq<T>, le: (T, T) -> bool, p: (T, T) -> bool)
    requires forall a, b :: p(a, b) ==> p(b, a)
    requires AllPairs(s, p)
    ensures AllPairs(SortBy(s, le), p)
  {
    if s == [] {
    } else {
      var n := |s| - 1;
      SortKeepsPairs(s[..n], le, p);
      forall y | y in SortBy(s[..n], le) ensures p(y, s[n]) {
        SortMembers(s[..n], le, y);
      }
      InsertKeepsPairs(SortBy(s[..n], le), s[n], le, p);
    }
  }

  /** In order, and equal elements as `p` has them. */
  ghost predicate Stable<T(!new)>(s: seq<T>, le: (T, T) -> bool, p: (T, T) -> bool) {
    forall i, j :: 0 <= i < j < |s| ==> le(s[i], s[j]) && (!le(s[j], s[i]) || p(s[i], s[j]))
  }

  lemma {:induction false} InsertIsStable<T(!new)>(s: seq<T>, x: T, le: (T, T) -> bool, p: (T, T) -> bool)
    requires TotalOrder(le) && Stable(s, le, p) && forall y :: y in s ==> p(y, x)
    ensures Stable(InsertBy(s, x, le), le, p)
  {
    if s == [] {
    } else if le(s[0], x) {
      var rest := InsertBy(s[1..], x, le);
      InsertIsStable(s[1..], x, le, p);
      forall j | 0 <= j < |rest| ensures le(s[0], rest[j]) && (!le(rest[j], s[0]) || p(s[0], rest[j])) {
        InsertMembers(s[1..], x, le, rest[j]);
      }
    } else {
      forall j | 0 <= j < |s| ensures le(x, s[j]) && !le(s[j], x) {
        assert le(x, s[0]);
        assert j > 0 ==> le(s[0], s[j]);
      }
    }
  }

  /** Sorting keeps the order of equal elements. */
  lemma {:induction false} SortIsStable<T(!new)>(s: seq<T>, le: (T, T) -> bool, p: (T, T) -> bool)
    requires TotalOrder(le) && AllPairs(s, p)
    ensures Stable(SortBy(s, le), le, p)
  {
    if s == [] {
    } else {
      var n := |s| - 1;
      SortIsStable(s[..n], le, p);
      forall y | y in SortBy(s[..n], le) ensures p(y, s[n]) {
        SortMembers(s[..n], le, y);
      }
      InsertIsStable(SortBy(s[..n], le), s[n], le, p);
    }
  }

  lemma {:induction false} FilterConcat<T(!new)>(a: seq<T>, b: seq<T>, p: T -> bool)
    ensures Filter(a + b, p) == Filter(a, p) + Filter(b, p)
  {
    if a == [] {
      assert a + b == b;
    } else {
      assert (a + b)[1..] == a[1..] + b;
      FilterConcat(a[1..], b, p);
    }
  }

  lemma {:induction false} FilterAll<T(!new)>(s: seq<T>, p: T -> bool, keep: bool)
    requires forall x :: x in s ==> p(x) == keep
    ensures Filter(s, p) == if keep then s else []
  {
    if s == [] {
    } else {
      FilterAll(s[1..], p, keep);
    }
  }

  lemma {:induction false} FilterOfInsert<T(!new)>(s: seq<T>, x: T, le: (T, T) -> bool, p: T -> bool)
    requires TotalOrder(le) && Sorted(s, le)
    ensures Filter(InsertBy(s, x, le), p) == if p(x) then InsertBy(Filter(s, p), x, le) else Filter(s, p)
  {
    if s == [] {
    } else if le(s[0], x) {
      FilterOfInsert(s[1..], x, le, p);
    } else {
      assert ([x] + s)[1..] == s;
      var f := Filter(s, p);
      if f != [] {
        assert f[0] in f;
        assert !le(f[0], x);
      }
    }
  }

  lemma SortSnoc<T>(s: seq<T>, x: T, le: (T, T) -> bool)
    ensures SortBy(s + [x], le) == InsertBy(SortBy(s, le), x, le)
  {
    assert (s + [x])[..|s|] == s;
  }

  lemma FilterOfSortSnoc<T(!new)>(init: seq<T>, x: T, le: (T, T) -> bool, p: T -> bool)
    requires TotalOrder(le) && Filter(SortBy(init, le), p) == SortBy(Filter(init, p), le)
    ensures Filter(SortBy(init + [x], le), p) == SortBy(Filter(init + [x], p), le)
  {
    SortSorts(init, le);
    FilterOfInsert(SortBy(init, le), x, le, p);
    FilterConcat(init, [x], p);
    FilterAll([x], p, p(x));
    SortSnoc(init, x, le);
    SortSnoc(Filter(init, p), x, le);
    hide SortBy, InsertBy, Filter, TotalOrder, Sorted;
    assert Filter(init, p) + [] == Filter(init, p);
  }

  /** Selecting after sorting is sorting the selection. */
  lemma {:induction false} FilterOfSort<T(!new)>(s: seq<T>, le: (T, T) -> bool, p: T -> bool)
    requires TotalOrder(le)
    ensures Filter(SortBy(s, le), p) == SortBy(Filter(s, p), le)
  {
    if s == [] {
    } else {
      var init, x := s[..|s| - 1], s[|s| - 1];
      assert s == init + [x];
      FilterOfSort(init, le, p);
      FilterOfSortSnoc(init, x, le, p);
    }
  }
}
