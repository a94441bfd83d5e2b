/** Python's stable sort, as a function of the comparison. */
module StableSort {

  function Insert<T>(x: T, s: seq<T>, leq: (T, T) -> bool): seq<T> {
    if s == [] || leq(x, s[0]) then [x] + s else [s[0]] + Insert(x, s[1..], leq)
  }

  function Sort<T>(s: seq<T>, leq: (T, T) -> bool): seq<T> {
    if s == [] then [] else Insert(s[0], Sort(s[1..], leq), leq)
  }

  ghost predicate Preorder<T(!new)>(leq: (T, T) -> bool) {
    && (forall a, b :: leq(a, b) || leq(b, a))
    && (forall a, b, c :: leq(a, b) && leq(b, c) ==> leq(a, c))
  }

  ghost predicate Sorted<T>(s: seq<T>, leq: (T, T) -> bool) {
    forall i, j :: 0 <= i < j < |s| ==> leq(s[i], s[j])
  }

  lemma {:induction false} InsertMembers<T>(x: T, s: seq<T>, leq: (T, T) -> bool)
    ensures multiset(Insert(x, s, leq)) == multiset(s) + multiset{x}
  {
    if s != [] && !leq(x, s[0]) {
      InsertMembers(x, s[1..], leq);
      assert s == [s[0]] + s[1..];
    }
  }

  /** Sorting is a permutation. */
  lemma {:induction false} SortMembers<T>(s: seq<T>, leq: (T, T) -> bool)
    ensures multiset(Sort(s, leq)) == multiset(s) && |Sort(s, leq)| == |s|
  {
    if s != [] {
      SortMembers(s[1..], leq);
      InsertMembers(s[0], Sort(s[1..], leq), leq);
      assert s == [s[0]] + s[1..];
    }
    assert |multiset(Sort(s, leq))| == |Sort(s, leq)|;
  }

  lemma {:induction false} InsertSorted<T(!new)>(x: T, s: seq<T>, leq: (T, T) -> bool)
    requires Preorder(leq) && Sorted(s, leq)
    ensures Sorted(Insert(x, s, leq), leq)
  {
    if s != [] && !leq(x, s[0]) {
      InsertSorted(x, s[1..], leq);
      InsertMembers(x, s[1..], leq);
      var rest := Insert(x, s[1..], leq);
      forall j | 0 <= j < |rest|
        ensures leq(s[0], rest[j])
      {
        assert rest[j] in multiset(rest);
        assert rest[j] == x || rest[j] in s[1..];
      }
    }
  }

  lemma {:induction false} SortSorts<T(!new)>(s: seq<T>, leq: (T, T) -> bool)
    requires Preorder(leq)
    ensures Sorted(Sort(s, leq), leq)
  {
    if s != [] {
      SortSorts(s[1..], leq);
      InsertSorted(s[0], Sort(s[1..], leq), leq);
    }
  }

  lemma {:induction false} SortedUnchanged<T>(s: seq<T>, leq: (T, T) -> bool)
    requires Sorted(s, leq)
    ensures Sort(s, leq) == s
  {
    if s != [] {
      SortedUnchanged(s[1..], leq);
      assert s == [s[0]] + s[1..];
    }
  }

  function Filter<T>(s: seq<T>, p: T -> bool): seq<T> {
    if s == [] then [] else (if p(s[0]) then [s[0]] else []) + Filter(s[1..], p)
  }

  lemma FilterCons<T>(x: T, s: seq<T>, p: T -> bool)
    ensures Filter([x] + s, p) == (if p(x) then [x] else []) + Filter(s, p)
  {
    assert ([x] + s)[1..] == s;
  }

  lemma {:induction false} InsertStable<T(!new)>(x: T, s: seq<T>, leq: (T, T) -> bool, p: T -> bool)
    requires forall y :: p(x) && p(y) ==> leq(x, y)
    ensures Filter(Insert(x, s, leq), p) == (if p(x) then [x] else []) + Filter(s, p)
  {
    if s == [] || leq(x, s[0]) {
      FilterCons(x, s, p);
    } else {
      InsertStable(x, s[1..], leq, p);
      FilterCons(s[0], Insert(x, s[1..], leq), p);
      if p(x) {
        assert !p(s[0]);
      }
    }
  }

  /** Elements that compare equal keep their order. */
  lemma {:induction false} SortStable<T(!new)>(s: seq<T>, leq: (T, T) -> bool, p: T -> bool)
    requires forall x, y :: p(x) && p(y) ==> leq(x, y)
    ensures Filter(Sort(s, leq), p) == Filter(s, p)
  {
    if s != [] {
      SortStable(s[1..], leq, p);
      InsertStable(s[0], Sort(s[1..], leq), leq, p);
    }
  }

  function Map<S, T>(s: seq<S>, f: S -> T): (t: seq<T>)
    ensures |t| == |s| && forall i :: 0 <= i < |s| ==> t[i] == f(s[i])
  {
    seq(|s|, i requires 0 <= i < |s| => f(s[i]))
  }

  lemma MapCons<S, T>(x: S, s: seq<S>, f: S -> T)
    ensures Map([x] + s, f) == [f(x)] + Map(s, f)
  {
  }

  lemma {:induction false} InsertMapped<S, T>(x: S, s: seq<S>, f: S -> T, leq: (T, T) -> bool, order: (S, S) -> bool)
    requires order(x, x) <==> leq(f(x), f(x))
    requires forall a :: a in s ==> (order(x, a) <==> leq(f(x), f(a)))
    ensures Map(Insert(x, s, order), f) == Insert(f(x), Map(s, f), leq)
  {
    if s == [] {
      MapCons(x, s, f);
    } else {
      assert s[0] in s;
      var rest := s[1..];
      assert s == [s[0]] + rest;
      MapCons(s[0], rest, f);
      if order(x, s[0]) {
        MapCons(x, s, f);
      } else {
        InsertMapped(x, rest, f, leq, order);
        MapCons(s[0], Insert(x, rest, order), f);
        assert ([f(s[0])] + Map(rest, f))[1..] == Map(rest, f);
      }
    }
  }

  lemma SortIn<T>(s: seq<T>, leq: (T, T) -> bool, x: T)
    requires x in Sort(s, leq)
    ensures x in s
  {
    SortMembers(s, leq);
    assert x in multiset(Sort(s, leq));
    assert x in multiset(s);
  }

  /** Sorting the images is the same as sorting by the image. */
  lemma {:induction false} SortMapped<S, T>(s: seq<S>, f: S -> T, leq: (T, T) -> bool, order: (S, S) -> bool)
    requires forall a, b :: a in s && b in s ==> (order(a, b) <==> leq(f(a), f(b)))
    ensures Map(Sort(s, order), f) == Sort(Map(s, f), leq)
  {
    if s != [] {
      SortMapped(s[1..], f, leq, order);
      assert Map(s, f)[1..] == Map(s[1..], f);
      forall a | a in Sort(s[1..], order)
        ensures a in s
      {
        SortIn(s[1..], order, a);
      }
      InsertMapped(s[0], Sort(s[1..], order), f, leq, order);
    }
  }

  /** Orders that agree on the elements sort alike. */
  lemma SortAgrees<T>(s: seq<T>, a: (T, T) -> bool, b: (T, T) -> bool)
    requires forall x, y :: x in s && y in s ==> (a(x, y) <==> b(x, y))
    ensures Sort(s, a) == Sort(s, b)
  {
    var same := (x: T) => x;
    SortMapped(s, same, b, a);
    assert Map(s, same) == s;
    assert Map(Sort(s, a), same) == Sort(s, a);
  }

  lemma {:induction false} FilterMapped<S, T>(s: seq<S>, f: S -> T, p: T -> bool, q: S -> bool)
    requires forall a :: a in s ==> (q(a) <==> p(f(a)))
    ensures Map(Filter(s, q), f) == Filter(Map(s, f), p)
  {
    if s != [] {
      assert s[0] in s;
      FilterMapped(s[1..], f, p, q);
      assert Map(s, f)[1..] == Map(s[1..], f);
      var head := if q(s[0]) then [s[0]] else [];
      assert Map(head + Filter(s[1..], q), f) == Map(head, f) + Map(Filter(s[1..], q), f);
    }
  }

  function Reverse<T>(s: seq<T>): (r: seq<T>)
    ensures |r| == |s| && forall i :: 0 <= i < |s| ==> r[i] == s[|s| - 1 - i]
  {
    seq(|s|, i requires 0 <= i < |s| => s[|s| - 1 - i])
  }

  /** `sort(reverse=True)`: descending, and still stable. */
  function SortDown<T>(s: seq<T>, leq: (T, T) -> bool): seq<T> {
    Reverse(Sort(Reverse(s), leq))
  }

  lemma HeadLeast<T>(a: seq<T>, leq: (T, T) -> bool, x: T)
    requires Sorted(a, leq) && x in multiset(a)
    ensures a != [] && (a[0] == x || leq(a[0], x))
  {
    var i :| 0 <= i < |a| && a[i] == x;
    assert i == 0 || leq(a[0], a[i]);
  }

  lemma TailMembers<T>(a: seq<T>)
    requires a != []
    ensures multiset(a[1..]) == multiset(a) - multiset{a[0]} && a == [a[0]] + a[1..]
  {
    assert a == [a[0]] + a[1..];
  }

  lemma HeadsMeet<T>(a: seq<T>, b: seq<T>, leq: (T, T) -> bool)
    requires Sorted(a, leq) && Sorted(b, leq) && multiset(a) == multiset(b) && a != []
    requires forall x, y :: x in a && y in a && leq(x, y) && leq(y, x) ==> x == y
    ensures b != [] && a[0] == b[0]
  {
    assert a[0] in multiset(a);
    HeadLeast(b, leq, a[0]);
    assert b[0] in multiset(b);
    HeadLeast(a, leq, b[0]);
    assert a[0] in a && b[0] in a;
  }

  /** When only equal elements compare both ways, there is one sorted arrangement. */
  lemma {:induction false} SortedUnique<T>(a: seq<T>, b: seq<T>, leq: (T, T) -> bool)
    requires Sorted(a, leq) && Sorted(b, leq) && multiset(a) == multiset(b)
    requires forall x, y :: x in a && y in a && leq(x, y) && leq(y, x) ==> x == y
    ensures a == b
  {
    if a == [] {
      assert |multiset(b)| == 0;
    } else {
      HeadsMeet(a, b, leq);
      TailMembers(a);
      TailMembers(b);
      SortedUnique(a[1..], b[1..], leq);
    }
  }

  lemma {:induction false} ReverseMembers<T>(s: seq<T>)
    ensures multiset(Reverse(s)) == multiset(s)
  {
    if s != [] {
      ReverseMembers(s[1..]);
      assert s == [s[0]] + s[1..];
      assert Reverse(s) == Reverse(s[1..]) + [s[0]];
    }
  }

  lemma {:induction false} FilterMembers<T>(s: seq<T>, p: T -> bool, x: T)
    requires x in Filter(s, p)
    ensures x in s && p(x)
  {
    if p(s[0]) && x == s[0] {
    } else {
      FilterMembers(s[1..], p, x);
    }
  }

  /** A filter and its complement together lose nothing. */
  lemma {:induction false} FilterSplit<T>(s: seq<T>, p: T -> bool, q: T -> bool)
    requires forall x :: x in s ==> (q(x) <==> !p(x))
    ensures multiset(Filter(s, p)) + multiset(Filter(s, q)) == multiset(s)
  {
    if s != [] {
      assert s[0] in s;
      FilterSplit(s[1..], p, q);
      assert s == [s[0]] + s[1..];
    }
  }

  lemma {:induction false} FilterAll<T>(s: seq<T>, p: T -> bool)
    requires forall x :: x in s ==> p(x)
    ensures Filter(s, p) == s
  {
    if s != [] {
      assert s[0] in s;
      FilterAll(s[1..], p);
      assert s == [s[0]] + s[1..];
    }
  }

  lemma {:induction false} FilterNone<T>(s: seq<T>, p: T -> bool)
    requires forall x :: x in s ==> !p(x)
    ensures Filter(s, p) == []
  {
    if s != [] {
      assert s[0] in s;
      FilterNone(s[1..], p);
    }
  }

  lemma ReverseMapped<S, T>(s: seq<S>, f: S -> T)
    ensures Map(Reverse(s), f) == Reverse(Map(s, f))
  {
  }

  /** Sorting downwards, too, commutes with taking images. */
  lemma SortDownMapped<S, T>(s: seq<S>, f: S -> T, leq: (T, T) -> bool, order: (S, S) -> bool)
    requires forall a, b :: a in s && b in s ==> (order(a, b) <==> leq(f(a), f(b)))
    ensures Map(SortDown(s, order), f) == SortDown(Map(s, f), leq)
  {
    assert forall a :: a in Reverse(s) ==> a in s;
    SortMapped(Reverse(s), f, leq, order);
    ReverseMapped(s, f);
    ReverseMapped(Sort(Reverse(s), order), f);
  }

  lemma SortDownSorts<T(!new)>(s: seq<T>, leq: (T, T) -> bool)
    requires Preorder(leq)
    ensures forall i, j :: 0 <= i < j < |SortDown(s, leq)| ==> leq(SortDown(s, leq)[j], SortDown(s, leq)[i])
  {
    SortSorts(Reverse(s), leq);
  }

  lemma SortDownMembers<T>(s: seq<T>, leq: (T, T) -> bool)
    ensures multiset(SortDown(s, leq)) == multiset(s)
  {
    ReverseMembers(s);
    SortMembers(Reverse(s), leq);
    ReverseMembers(Sort(Reverse(s), leq));
  }
}
