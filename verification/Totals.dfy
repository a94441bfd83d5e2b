/** Sums over finite maps, and the cardinality facts the other modules count with. */
module Totals {

  /** The sum of all values of `m`. */
  ghost function Total(m: map<string, int>): int
    decreases m.Keys
  {
    if m == map[] then 0
    else
      var k :| k in m;
      m[k] + Total(m - {k})
  }

  /** The sum does not depend on which key is taken out first. */
  lemma {:induction false} TotalRemove(m: map<string, int>, k: string)
    requires k in m
    ensures Total(m) == m[k] + Total(m - {k})
    decreases m.Keys
  {
    var first :| first in m && Total(m) == m[first] + Total(m - {first});
    if first != k {
      TotalRemove(m - {first}, k);
      TotalRemove(m - {k}, first);
      assert m - {first} - {k} == m - {k} - {first};
    }
  }

  lemma TotalUpdate(m: map<string, int>, k: string, v: int)
    requires k !in m
    ensures Total(m[k := v]) == Total(m) + v
  {
    TotalRemove(m[k := v], k);
    assert m[k := v] - {k} == m;
  }

  /** Pointwise comparison bounds the sums; equal sums force equal values. */
  lemma {:induction false} TotalMonotone(a: map<string, int>, b: map<string, int>)
    requires a.Keys == b.Keys
    requires forall k :: k in a ==> a[k] <= b[k]
    ensures Total(a) <= Total(b)
    ensures Total(a) == Total(b) ==> a == b
    decreases a.Keys
  {
    if a.Keys != {} {
      var k :| k in a;
      TotalRemove(a, k);
      TotalRemove(b, k);
      TotalMonotone(a - {k}, b - {k});
      if Total(a) == Total(b) {
        assert a == (a - {k})[k := a[k]];
        assert b == (b - {k})[k := b[k]];
      }
    } else {
      assert a == map[] == b;
    }
  }

  /** Splitting the keys splits the sum. */
  lemma {:induction false} TotalSplit(m: map<string, int>, s: set<string>)
    ensures Total(m) == Total(map k | k in m && k in s :: m[k]) + Total(map k | k in m && k !in s :: m[k])
    decreases m.Keys
  {
    var inside := map k | k in m && k in s :: m[k];
    var outside := map k | k in m && k !in s :: m[k];
    if m.Keys == {} {
      assert m == map[] && inside == map[] && outside == map[];
    } else {
      var k :| k in m;
      var rest := m - {k};
      TotalRemove(m, k);
      TotalSplit(rest, s);
      if k in s {
        TotalRemove(inside, k);
        assert inside - {k} == map x | x in rest && x in s :: rest[x];
        assert outside == map x | x in rest && x !in s :: rest[x];
      } else {
        TotalRemove(outside, k);
        assert outside - {k} == map x | x in rest && x !in s :: rest[x];
        assert inside == map x | x in rest && x in s :: rest[x];
      }
    }
  }

  lemma OneMoreRow(n: int, level: int)
    ensures (n + 1) * level == n * level + level
  {
  }

  /** A constant share for everybody in `w` and one more for the members of `b`. */
  lemma {:induction false} TotalLevel(w: set<string>, b: set<string>, level: int)
    requires b <= w
    ensures Total(map n | n in w :: level + (if n in b then 1 else 0)) == |w| * level + |b|
    decreases w
  {
    var m := map n | n in w :: level + (if n in b then 1 else 0);
    if w == {} {
      assert m == map[];
    } else {
      var k :| k in w;
      TotalRemove(m, k);
      TotalLevel(w - {k}, b - {k}, level);
      assert m - {k} == map n | n in w - {k} :: level + (if n in b - {k} then 1 else 0);
      assert |w| == |w - {k}| + 1;
      OneMoreRow(|w - {k}|, level);
    }
  }

  ghost predicate Distinct<T>(s: seq<T>) {
    forall i, j :: 0 <= i < j < |s| ==> s[i] != s[j]
  }

  ghost function Elements<T>(s: seq<T>): set<T> {
    set x | x in s
  }

  lemma {:induction false} DistinctCardinality<T>(s: seq<T>)
    requires Distinct(s)
    ensures |Elements(s)| == |s|
  {
    if s != [] {
      var front := s[..|s| - 1];
      DistinctCardinality(front);
      assert s == front + [s[|s| - 1]];
      assert Elements(s) == Elements(front) + {s[|s| - 1]};
    }
  }

  lemma SubsetSize<T>(a: set<T>, b: set<T>)
    requires a <= b
    ensures |a| <= |b|
  {
    assert b == a + (b - a);
  }
}
