/** Facts about duplicate-free lists and order-keeping filters. */
module Lists {

  predicate NoDup<T(==)>(xs: seq<T>) {
    forall i, j :: 0 <= i < j < |xs| ==> xs[i] != xs[j]
  }

  /** lo.Filter: the elements that satisfy p, in order. */
  function Filter<T>(xs: seq<T>, p: T -> bool): (r: seq<T>)
    ensures |r| <= |xs|
  {
    if xs == [] then []
    else if p(xs[0]) then [xs[0]] + Filter(xs[1..], p)
    else Filter(xs[1..], p)
  }

  lemma {:induction false} FilterMember<T>(xs: seq<T>, p: T -> bool, x: T)
    ensures x in Filter(xs, p) <==> x in xs && p(x)
  {
    if xs != [] { FilterMember(xs[1..], p, x); }
  }

  lemma FilterMembers<T>(xs: seq<T>, p: T -> bool)
    ensures forall x :: x in Filter(xs, p) <==> x in xs && p(x)
  {
    forall x ensures x in Filter(xs, p) <==> x in xs && p(x) { FilterMember(xs, p, x); }
  }

  lemma {:induction false} FilterAppend<T>(a: seq<T>, b: seq<T>, p: T -> bool)
    ensures Filter(a + b, p) == Filter(a, p) + Filter(b, p)
  {
    if a == [] {
      assert a + b == b;
    } else {
      assert (a + b)[1..] == a[1..] + b;
      FilterAppend(a[1..], b, p);
    }
  }

  /** Two filters in a row are one filter by the conjunction. */
  lemma {:induction false} FilterFilter<T>(xs: seq<T>, p: T -> bool, q: T -> bool, r: T -> bool)
    requires forall x :: x in xs ==> (r(x) <==> p(x) && q(x))
    ensures Filter(Filter(xs, p), q) == Filter(xs, r)
  {
    if xs != [] {
      FilterFilter(xs[1..], p, q, r);
      if p(xs[0]) {
        assert Filter(xs, p)[1..] == Filter(xs[1..], p);
      }
    }
  }

  lemma {:induction false} FilterSame<T>(xs: seq<T>, p: T -> bool, q: T -> bool)
    requires forall x :: x in xs ==> (p(x) <==> q(x))
    ensures Filter(xs, p) == Filter(xs, q)
  {
    if xs != [] { FilterSame(xs[1..], p, q); }
  }

  lemma {:induction false} FilterAll<T>(xs: seq<T>, p: T -> bool)
    requires forall x :: x in xs ==> p(x)
    ensures Filter(xs, p) == xs
  {
    if xs != [] { FilterAll(xs[1..], p); }
  }

  lemma {:induction false} FilterNone<T>(xs: seq<T>, p: T -> bool)
    requires forall x :: x in xs ==> !p(x)
    ensures Filter(xs, p) == []
  {
    if xs != [] { FilterNone(xs[1..], p); }
  }

  lemma {:induction false} NoDupAppend<T>(a: seq<T>, b: seq<T>)
    requires NoDup(a) && NoDup(b) && forall x :: x in a ==> x !in b
    ensures NoDup(a + b)
  {
    forall i, j | 0 <= i < j < |a + b| ensures (a + b)[i] != (a + b)[j] {
      if i < |a| <= j { assert a[i] in a && b[j - |a|] in b; }
    }
  }

  lemma {:induction false} FilterNoDup<T>(xs: seq<T>, p: T -> bool)
    requires NoDup(xs)
    ensures NoDup(Filter(xs, p))
  {
    if xs != [] {
      FilterNoDup(xs[1..], p);
      FilterMembers(xs[1..], p);
    }
  }

  /** Duplicate-free lists with the same members hold the same things. */
  lemma {:induction false} NoDupSameMembers<T>(a: seq<T>, b: seq<T>)
    requires NoDup(a) && NoDup(b)
    requires forall x :: x in a <==> x in b
    ensures multiset(a) == multiset(b)
  {
    forall x ensures multiset(a)[x] == multiset(b)[x] {
      NoDupCount(a, x);
      NoDupCount(b, x);
    }
  }

  lemma {:induction false} NoDupCount<T>(a: seq<T>, x: T)
    requires NoDup(a)
    ensures multiset(a)[x] == if x in a then 1 else 0
  {
    if a != [] {
      assert a == [a[0]] + a[1..];
      NoDupCount(a[1..], x);
    }
  }

  lemma SomeMember<T>(xs: seq<T>)
    requires xs != []
    ensures exists x :: x in xs
  {
    assert xs[0] in xs;
  }

  /** lo.Uniq: the first occurrence of each element, in order. */
  function Uniq<T(==)>(xs: seq<T>): seq<T> {
    if xs == [] then []
    else
      var front, last := Uniq(xs[..|xs| - 1]), xs[|xs| - 1];
      if last in front then front else front + [last]
  }

  lemma {:induction false} UniqMembers<T>(xs: seq<T>)
    ensures NoDup(Uniq(xs))
    ensures forall x :: x in Uniq(xs) <==> x in xs
  {
    if xs != [] {
      UniqMembers(xs[..|xs| - 1]);
      assert xs == xs[..|xs| - 1] + [xs[|xs| - 1]];
    }
  }

  lemma {:induction false} UniqFixes<T>(xs: seq<T>)
    requires NoDup(xs)
    ensures Uniq(xs) == xs
  {
    if xs != [] {
      UniqFixes(xs[..|xs| - 1]);
      assert xs == xs[..|xs| - 1] + [xs[|xs| - 1]];
    }
  }

  lemma {:induction false} UniqPrefix<T>(a: seq<T>, b: seq<T>)
    requires NoDup(a)
    ensures a <= Uniq(a + b)
  {
    if b == [] {
      assert a + b == a;
      UniqFixes(a);
    } else {
      assert (a + b)[..|a + b| - 1] == a + b[..|b| - 1];
      UniqPrefix(a, b[..|b| - 1]);
    }
  }

  // ----- sorting -----

  function Insert<T(==)>(x: T, xs: seq<T>, less: (T, T) -> bool): seq<T> {
    if xs == [] || less(x, xs[0]) then [x] + xs else [xs[0]] + Insert(x, xs[1..], less)
  }

  function Sort<T(==)>(xs: seq<T>, less: (T, T) -> bool): seq<T> {
    if xs == [] then [] else Insert(xs[0], Sort(xs[1..], less), less)
  }

  predicate Ascends<T>(xs: seq<T>, less: (T, T) -> bool) {
    forall i, j :: 0 <= i < j < |xs| ==> less(xs[i], xs[j])
  }

  ghost predicate StrictOrder<T(!new)>(less: (T, T) -> bool) {
    (forall a, b :: less(a, b) || less(b, a) || a == b)
    && forall a, b, c :: less(a, b) && less(b, c) ==> less(a, c)
  }

  lemma {:induction false} InsertMembers<T>(x: T, xs: seq<T>, less: (T, T) -> bool)
    ensures forall y :: y in Insert(x, xs, less) <==> y == x || y in xs
  {
    if xs != [] && !less(x, xs[0]) { InsertMembers(x, xs[1..], less); }
  }

  lemma AscendsCons<T>(x: T, xs: seq<T>, less: (T, T) -> bool)
    requires Ascends(xs, less) && forall y :: y in xs ==> less(x, y)
    ensures Ascends([x] + xs, less)
  {
  }

  lemma {:induction false} InsertAscends<T(!new)>(x: T, xs: seq<T>, less: (T, T) -> bool)
    requires StrictOrder(less) && Ascends(xs, less) && x !in xs
    ensures Ascends(Insert(x, xs, less), less)
  {
    if xs != [] {
      if less(x, xs[0]) {
        AscendsCons(x, xs, less);
      } else {
        assert less(xs[0], x);
        InsertAscends(x, xs[1..], less);
        InsertMembers(x, xs[1..], less);
        AscendsCons(xs[0], Insert(x, xs[1..], less), less);
      }
    }
  }

  /** Sorting a duplicate-free list gives the ascending list of its members. */
  lemma {:induction false} SortAscends<T(!new)>(xs: seq<T>, less: (T, T) -> bool)
    requires StrictOrder(less) && NoDup(xs)
    ensures Ascends(Sort(xs, less), less) && forall x :: x in Sort(xs, less) <==> x in xs
  {
    if xs != [] {
      SortAscends(xs[1..], less);
      InsertMembers(xs[0], Sort(xs[1..], less), less);
      InsertAscends(xs[0], Sort(xs[1..], less), less);
    }
  }

  /** A list of the members of a set, each once, in some order. */
  ghost predicate Enumerates<T(!new)>(xs: seq<T>, s: set<T>) {
    NoDup(xs) && forall x :: x in xs <==> x in s
  }

  /** What ranging over a Go map gives: its keys in an arbitrary order. */
  method Listed<T(!new)>(s: set<T>) returns (xs: seq<T>)
    ensures Enumerates(xs, s)
  {
    xs := [];
    var todo := s;
    while todo != {}
      invariant todo <= s && NoDup(xs) && forall x :: x in xs <==> x in s && x !in todo
      decreases todo
    {
      var x :| x in todo;
      NoDupAppend(xs, [x]);
      xs, todo := xs + [x], todo - {x};
    }
  }
}
