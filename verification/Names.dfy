/** Python's order on strings, and the sorted listing of a finite set of names. */
module Names {
  import opened Totals

  /** Code-point lexicographic order. */
  predicate Precedes(a: string, b: string) {
    if b == "" then false
    else if a == "" then true
    else if a[0] != b[0] then a[0] < b[0]
    else Precedes(a[1..], b[1..])
  }

  lemma {:induction false} PrecedesTotal(a: string, b: string)
    ensures a == b || Precedes(a, b) || Precedes(b, a)
  {
    if a != "" && b != "" && a[0] == b[0] {
      PrecedesTotal(a[1..], b[1..]);
      assert a[1..] == b[1..] ==> a == [a[0]] + a[1..] == b;
    }
  }

  lemma {:induction false} PrecedesAsymmetric(a: string, b: string)
    requires Precedes(a, b)
    ensures !Precedes(b, a) && a != b
  {
    if a != "" && a[0] == b[0] {
      PrecedesAsymmetric(a[1..], b[1..]);
    }
  }

  lemma {:induction false} PrecedesTransitive(a: string, b: string, c: string)
    requires Precedes(a, b) && Precedes(b, c)
    ensures Precedes(a, c)
  {
    if a != "" && a[0] == b[0] == c[0] {
      PrecedesTransitive(a[1..], b[1..], c[1..]);
    }
  }

  /** The order spelled out: a proper prefix, or a smaller character at the first place where the two differ. */
  ghost predicate FirstDifference(a: string, b: string, k: nat) {
    k < |b| && k <= |a| && a[..k] == b[..k] && (k == |a| || a[k] as int < b[k] as int)
  }

  lemma {:induction false} PrecedesExactly(a: string, b: string)
    ensures Precedes(a, b) <==> exists k: nat :: FirstDifference(a, b, k)
  {
    if a == "" || b == "" {
      assert Precedes(a, b) ==> FirstDifference(a, b, 0);
    } else if a[0] != b[0] {
      assert Precedes(a, b) ==> FirstDifference(a, b, 0);
      assert forall k: nat :: FirstDifference(a, b, k) && k > 0 ==> a[..k][0] == b[..k][0];
    } else {
      PrecedesExactly(a[1..], b[1..]);
      if Precedes(a, b) {
        var k: nat :| FirstDifference(a[1..], b[1..], k);
        assert a[..k + 1] == [a[0]] + a[1..][..k] && b[..k + 1] == [b[0]] + b[1..][..k];
        assert FirstDifference(a, b, k + 1);
      }
      if k: nat :| FirstDifference(a, b, k) {
        assert a[1..][..k - 1] == a[..k][1..] && b[1..][..k - 1] == b[..k][1..];
        assert FirstDifference(a[1..], b[1..], k - 1);
      }
    }
  }

  /** `a` comes before `b` when sorting by the pair (key, name). */
  predicate Before(key: map<string, int>, a: string, b: string)
    requires a in key && b in key
  {
    key[a] < key[b] || (key[a] == key[b] && Precedes(a, b))
  }

  ghost predicate IsSmallest(key: map<string, int>, w: set<string>, m: string)
    requires w <= key.Keys
  {
    m in w && forall x :: x in w && x != m ==> Before(key, m, x)
  }

  lemma {:induction false} SmallestExists(key: map<string, int>, w: set<string>)
    requires w <= key.Keys && w != {}
    ensures exists m :: IsSmallest(key, w, m)
    decreases w
  {
    var k :| k in w;
    if w == {k} {
      assert IsSmallest(key, w, k);
    } else {
      SmallestExists(key, w - {k});
      var m :| IsSmallest(key, w - {k}, m);
      PrecedesTotal(k, m);
      if Before(key, m, k) {
        assert IsSmallest(key, w, m);
      } else {
        forall x | x in w && x != k
          ensures Before(key, k, x)
        {
          if x != m {
            assert x in w - {k} && Before(key, m, x);
            if key[k] == key[m] == key[x] {
              PrecedesTransitive(k, m, x);
            }
          }
        }
        assert IsSmallest(key, w, k);
      }
    }
  }

  lemma SmallestUnique(key: map<string, int>, w: set<string>, a: string, b: string)
    requires w <= key.Keys
    requires IsSmallest(key, w, a) && IsSmallest(key, w, b)
    ensures a == b
  {
    if a != b {
      assert Before(key, a, b) && Before(key, b, a);
      PrecedesAsymmetric(a, b);
    }
  }

  /** The member of `w` that Python's `min(w, key=...)` by (key, name) picks. */
  ghost function Smallest(key: map<string, int>, w: set<string>): (m: string)
    requires w <= key.Keys && w != {}
    ensures IsSmallest(key, w, m)
  {
    SmallestExists(key, w);
    var m :| IsSmallest(key, w, m);
    m
  }

  /** `sorted(w, key=lambda name: (key[name], name))`. */
  ghost function Sorted(key: map<string, int>, w: set<string>): (s: seq<string>)
    requires w <= key.Keys
    decreases w
  {
    if w == {} then [] else
      var m := Smallest(key, w);
      [m] + Sorted(key, w - {m})
  }

  lemma {:induction false} SortedListsAll(key: map<string, int>, w: set<string>)
    requires w <= key.Keys
    ensures Elements(Sorted(key, w)) == w && Distinct(Sorted(key, w)) && |Sorted(key, w)| == |w|
    decreases w
  {
    if w != {} {
      var m := Smallest(key, w);
      var rest := Sorted(key, w - {m});
      SortedListsAll(key, w - {m});
      assert forall x :: x in rest <==> x in Elements(rest);
      assert forall x :: x in [m] + rest <==> x == m || x in rest;
    }
  }

  lemma FrontIsSmallest(key: map<string, int>, w: set<string>)
    requires w <= key.Keys && Sorted(key, w) != []
    ensures w != {} && Elements(Sorted(key, w)) == w && |Sorted(key, w)| == |w|
    ensures Sorted(key, w)[0] == Smallest(key, w)
    ensures Sorted(key, w)[1..] == Sorted(key, w - {Smallest(key, w)})
  {
    SortedListsAll(key, w);
  }

  /** `sorted(w)`: a constant key leaves only the names to compare. */
  ghost function SortedNames(w: set<string>): (s: seq<string>) {
    Sorted(map n | n in w :: 0, w)
  }

  /** Selection sort: repeatedly move the smallest remaining name to the result. */
  method SortBy(key: map<string, int>, w: set<string>) returns (s: seq<string>)
    requires w <= key.Keys
    ensures s == Sorted(key, w)
  {
    s := [];
    var left := w;
    while left != {}
      invariant left <= w
      invariant s + Sorted(key, left) == Sorted(key, w)
      decreases left
    {
      var m := TakeSmallest(key, left);
      assert s + Sorted(key, left) == (s + [m]) + Sorted(key, left - {m}) by {
        assert Sorted(key, left) == [m] + Sorted(key, left - {m});
      }
      s := s + [m];
      left := left - {m};
    }
    assert Sorted(key, left) == [];
  }

  method TakeSmallest(key: map<string, int>, w: set<string>) returns (m: string)
    requires w <= key.Keys && w != {}
    ensures m == Smallest(key, w)
  {
    m :| m in w;
    var seen, left := {m}, w - {m};
    while left != {}
      invariant seen + left == w && seen !! left
      invariant IsSmallest(key, seen, m)
      decreases left
    {
      var k :| k in left;
      PrecedesTotal(k, m);
      if Before(key, k, m) {
        forall x | x in seen
          ensures Before(key, k, x)
        {
          if x != m && key[k] == key[m] == key[x] {
            PrecedesTransitive(k, m, x);
          }
        }
        m := k;
      }
      seen, left := seen + {k}, left - {k};
    }
    assert seen == w;
    SmallestUnique(key, w, m, Smallest(key, w));
  }
}
