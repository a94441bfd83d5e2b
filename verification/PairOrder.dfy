/** Ordering the solver-problem pairs, after `order_jobpairs` in `implementation/slurmy.py`. */
module PairOrder {
  import opened Options
  import opened Names
  import opened StableSort

  /** `settings` holds the columns other than the problem, in column order. */
  datatype Row = Row(problem: string, settings: seq<string>)

  const PAIR_ORDERS := ["problem-major", "solver-major", "random"]

  /** The position of the first pair with these settings. */
  function FirstAt(rows: seq<Row>, settings: seq<string>): nat {
    if rows == [] || rows[0].settings == settings then 0 else 1 + FirstAt(rows[1..], settings)
  }

  lemma {:induction false} FirstAtIs(rows: seq<Row>, settings: seq<string>)
    ensures FirstAt(rows, settings) <= |rows|
    ensures FirstAt(rows, settings) < |rows| ==> rows[FirstAt(rows, settings)].settings == settings
    ensures forall i :: 0 <= i < FirstAt(rows, settings) ==> rows[i].settings != settings
  {
    if rows != [] && rows[0].settings != settings {
      FirstAtIs(rows[1..], settings);
      assert forall i :: 0 < i < |rows| ==> rows[i] == rows[1..][i - 1];
    }
  }

  function SettingsOrder(rows: seq<Row>): (Row, Row) -> bool {
    (a: Row, b: Row) => FirstAt(rows, a.settings) <= FirstAt(rows, b.settings)
  }

  function ProblemOrder(): (Row, Row) -> bool {
    (a: Row, b: Row) => !Precedes(b.problem, a.problem)
  }

  /** Configurations in order of first appearance, the pairs of each in their given order. */
  function SolverMajor(rows: seq<Row>): seq<Row> {
    Sort(rows, SettingsOrder(rows))
  }

  ghost predicate SameOrder<C(!new)>(a: map<C, nat>, b: map<C, nat>) {
    a.Keys == b.Keys && forall c, d :: c in a && d in a ==> (a[c] <= a[d] <==> b[c] <= b[d])
  }

  ghost function Firsts(rows: seq<Row>, ranks: map<seq<string>, nat>): map<seq<string>, nat> {
    map c | c in ranks :: FirstAt(rows, c)
  }

  lemma OrderExtended<C(!new)>(a: map<C, nat>, b: map<C, nat>, c: C, m: nat, n: nat)
    requires SameOrder(a, b) && c !in a
    requires (forall x :: x in a ==> a[x] < m) && forall x :: x in b ==> b[x] < n
    ensures SameOrder(a[c := m], b[c := n])
  {
  }

  /** The configurations before row `j` are ranked, in the order of `first`. */
  ghost predicate RanksBy(rows: seq<Row>, j: nat, ranks: map<seq<string>, nat>, first: map<seq<string>, nat>) {
    && j <= |rows|
    && (forall i :: 0 <= i < j ==> rows[i].settings in ranks)
    && SameOrder(ranks, first)
    && (forall c :: c in ranks ==> first[c] < j && ranks[c] < |ranks|)
  }

  ghost predicate Ranks(rows: seq<Row>, j: nat, ranks: map<seq<string>, nat>) {
    RanksBy(rows, j, ranks, Firsts(rows, ranks))
  }

  lemma FirstHere(rows: seq<Row>, j: nat)
    requires j < |rows| && forall i :: 0 <= i < j ==> rows[i].settings != rows[j].settings
    ensures FirstAt(rows, rows[j].settings) == j
  {
    var k := FirstAt(rows, rows[j].settings);
    FirstAtIs(rows, rows[j].settings);
    assert !(j < k);
  }

  lemma MoreKeys(ranks: map<seq<string>, nat>, c: seq<string>, n: nat)
    requires c !in ranks
    ensures |ranks[c := n]| == |ranks| + 1
  {
    assert ranks[c := n].Keys == ranks.Keys + {c};
  }

  lemma RankByNew(rows: seq<Row>, j: nat, ranks: map<seq<string>, nat>, first: map<seq<string>, nat>)
    requires j < |rows| && RanksBy(rows, j, ranks, first) && rows[j].settings !in ranks
    ensures RanksBy(rows, j + 1, ranks[rows[j].settings := |ranks|], first[rows[j].settings := j])
  {
    MoreKeys(ranks, rows[j].settings, |ranks|);
    OrderExtended(ranks, first, rows[j].settings, |ranks|, j);
  }

  lemma RankByKnown(rows: seq<Row>, j: nat, ranks: map<seq<string>, nat>, first: map<seq<string>, nat>)
    requires j < |rows| && RanksBy(rows, j, ranks, first) && rows[j].settings in ranks
    ensures RanksBy(rows, j + 1, ranks, first)
  {
  }

  lemma RankNone(rows: seq<Row>)
    ensures Ranks(rows, 0, map[])
  {
    assert Firsts(rows, map[]) == map[];
  }

  lemma RankNew(rows: seq<Row>, j: nat, ranks: map<seq<string>, nat>)
    requires j < |rows| && Ranks(rows, j, ranks) && rows[j].settings !in ranks
    ensures Ranks(rows, j + 1, ranks[rows[j].settings := |ranks|])
  {
    var settings := rows[j].settings;
    FirstHere(rows, j);
    RankByNew(rows, j, ranks, Firsts(rows, ranks));
    assert Firsts(rows, ranks[settings := |ranks|]) == Firsts(rows, ranks)[settings := j];
  }

  /** The dictionary filled by `setdefault` numbers the configurations as they first appear. */
  method RankSettings(rows: seq<Row>) returns (ranks: map<seq<string>, nat>)
    ensures Ranks(rows, |rows|, ranks)
  {
    ranks := map[];
    RankNone(rows);
    for j := 0 to |rows|
      invariant Ranks(rows, j, ranks)
    {
      if rows[j].settings in ranks {
        RankByKnown(rows, j, ranks, Firsts(rows, ranks));
      } else {
        RankNew(rows, j, ranks);
        ranks := ranks[rows[j].settings := |ranks|];
      }
    }
  }

  /** Exchanges two rows. */
  function Exchanged(rows: seq<Row>, i: nat, j: nat): (r: seq<Row>)
    requires i < |rows| && j < |rows|
    ensures |r| == |rows| && multiset(r) == multiset(rows)
  {
    rows[i := rows[j]][j := rows[i]]
  }

  /** The generator draws a position for each row, not behind it. */
  ghost predicate Draws(draw: nat -> nat) { forall i :: draw(i) <= i }

  /** The library's shuffle of the first `k` rows: from the back, each is exchanged with a drawn one. */
  function Shuffled(rows: seq<Row>, k: nat, draw: nat -> nat): seq<Row>
    requires k <= |rows| && Draws(draw)
    decreases k
  {
    if k <= 1 then rows else Shuffled(Exchanged(rows, k - 1, draw(k - 1)), k - 1, draw)
  }

  lemma {:induction false} ShuffleKeepsPairs(rows: seq<Row>, k: nat, draw: nat -> nat)
    requires k <= |rows| && Draws(draw)
    ensures multiset(Shuffled(rows, k, draw)) == multiset(rows)
    decreases k
  {
    if k > 1 {
      ShuffleKeepsPairs(Exchanged(rows, k - 1, draw(k - 1)), k - 1, draw);
    }
  }

  lemma {:induction false} ShuffleAgrees(rows: seq<Row>, k: nat, a: nat -> nat, b: nat -> nat)
    requires k <= |rows| && Draws(a) && Draws(b) && forall i :: 0 <= i < k ==> a(i) == b(i)
    ensures Shuffled(rows, k, a) == Shuffled(rows, k, b)
    decreases k
  {
    if k > 1 {
      ShuffleAgrees(Exchanged(rows, k - 1, a(k - 1)), k - 1, a, b);
    }
  }

  lemma CutLast<T>(a: seq<T>, b: seq<T>, x: T)
    requires multiset(a + [x]) == multiset(b + [x])
    ensures multiset(a) == multiset(b)
  {
    assert multiset(a + [x]) == multiset(a) + multiset{x};
    assert multiset(b + [x]) == multiset(b) + multiset{x};
    assert multiset(a) == multiset(a + [x]) - multiset{x};
    assert multiset(b) == multiset(b + [x]) - multiset{x};
  }

  lemma ExchangedFront(rows: seq<Row>, k: nat, p: nat)
    requires p < k <= |rows|
    ensures var next := Exchanged(rows, k - 1, p);
            multiset(next[..k]) == multiset(rows[..k]) && next[k..] == rows[k..] && next[k - 1] == rows[p]
  {
    assert Exchanged(rows[..k], k - 1, p) == Exchanged(rows, k - 1, p)[..k];
  }

  /** The first `k` rows still have to be arranged; the others stand as in the target. */
  ghost predicate ArrangedFrom(rows: seq<Row>, target: seq<Row>, k: nat) {
    k <= |rows| == |target| && multiset(rows[..k]) == multiset(target[..k]) && rows[k..] == target[k..]
  }

  lemma Arranged(rows: seq<Row>, target: seq<Row>, k: nat)
    requires ArrangedFrom(rows, target, k) && k <= 1
    ensures rows == target
  {
    if k == 1 {
      assert rows[..1] == [rows[0]] && target[..1] == [target[0]];
      assert rows[0] in multiset(target[..1]);
    }
    assert rows == rows[..k] + rows[k..] && target == target[..k] + target[k..];
  }

  lemma OneMoreArranged(rows: seq<Row>, target: seq<Row>, k: nat) returns (p: nat)
    requires ArrangedFrom(rows, target, k) && k > 1
    ensures p < k && ArrangedFrom(Exchanged(rows, k - 1, p), target, k - 1)
  {
    var x := target[k - 1];
    assert target[..k] == target[..k - 1] + [x];
    assert x in multiset(target[..k]);
    assert x in multiset(rows[..k]);
    p :| 0 <= p < k && rows[..k][p] == x;
    var next := Exchanged(rows, k - 1, p);
    ExchangedFront(rows, k, p);
    assert next[..k] == next[..k - 1] + [x];
    CutLast(next[..k - 1], target[..k - 1], x);
    assert next[k - 1..] == [x] + next[k..] && target[k - 1..] == [x] + target[k..];
  }

  function DrawFirst(k: nat, p: nat, rest: nat -> nat): nat -> nat { i => if i == k then p else rest(i) }

  lemma DrawnFirst(rows: seq<Row>, k: nat, p: nat, rest: nat -> nat)
    requires 1 < k <= |rows| && p < k && Draws(rest)
    ensures Draws(DrawFirst(k - 1, p, rest))
    ensures Shuffled(rows, k, DrawFirst(k - 1, p, rest)) == Shuffled(Exchanged(rows, k - 1, p), k - 1, rest)
  {
    var draw := DrawFirst(k - 1, p, rest);
    ShuffleStep(rows, k, draw);
    ShuffleAgrees(Exchanged(rows, k - 1, p), k - 1, rest, draw);
  }

  lemma NothingDrawn(rows: seq<Row>, k: nat)
    requires k <= 1 && k <= |rows|
    ensures Draws(DrawFirst(0, 0, i => 0)) && Shuffled(rows, k, DrawFirst(0, 0, i => 0)) == rows
  {
  }

  /** With suitable draws the shuffle gives any arrangement of the pairs. */
  lemma {:induction false} ShuffleReaches(rows: seq<Row>, k: nat, target: seq<Row>) returns (draw: nat -> nat)
    requires ArrangedFrom(rows, target, k)
    ensures Draws(draw) && Shuffled(rows, k, draw) == target
    decreases k
  {
    if k > 1 {
      var p := OneMoreArranged(rows, target, k);
      var rest := ShuffleReaches(Exchanged(rows, k - 1, p), k - 1, target);
      DrawnFirst(rows, k, p, rest);
      return DrawFirst(k - 1, p, rest);
    }
    Arranged(rows, target, k);
    NothingDrawn(rows, k);
    draw := DrawFirst(0, 0, i => 0);
  }

  method Exchange(rows: seq<Row>, i: nat, j: nat) returns (result: seq<Row>)
    requires i < |rows| && j < |rows|
    ensures result == Exchanged(rows, i, j)
  {
    result := rows[i := rows[j]];
    result := result[j := rows[i]];
  }

  lemma ShuffleStep(rows: seq<Row>, k: nat, draw: nat -> nat)
    requires 1 < k <= |rows| && Draws(draw)
    ensures Shuffled(rows, k, draw) == Shuffled(Exchanged(rows, k - 1, draw(k - 1)), k - 1, draw)
  {
  }

  method Shuffle(rows: seq<Row>, draw: nat -> nat) returns (result: seq<Row>)
    requires Draws(draw)
    ensures result == Shuffled(rows, |rows|, draw)
  {
    result := rows;
    var k: nat := |rows|;
    while k > 1
      invariant k <= |rows| == |result|
      invariant Shuffled(result, k, draw) == Shuffled(rows, |rows|, draw)
    {
      ShuffleStep(result, k, draw);
      k := k - 1;
      result := Exchange(result, k, draw(k));
    }
  }

  /** `draw` stands for the seeded generator of the library. */
  method OrderPairs(rows: seq<Row>, order: string, draw: nat -> nat) returns (result: Option<seq<Row>>)
    requires Draws(draw)
    ensures result.None? <==> order !in PAIR_ORDERS
    ensures order == "problem-major" ==> result == Some(Sort(rows, ProblemOrder()))
    ensures order == "solver-major" ==> result == Some(SolverMajor(rows))
    ensures order == "random" ==> result == Some(Shuffled(rows, |rows|, draw))
  {
    if order !in PAIR_ORDERS {
      return None;
    }
    if order == "problem-major" {
      result := Some(Sort(rows, ProblemOrder()));
    } else if order == "solver-major" {
      var ranks := RankSettings(rows);
      var byRank := (a: Row, b: Row) =>
        a.settings in ranks && b.settings in ranks && ranks[a.settings] <= ranks[b.settings];
      assert forall c :: c in ranks ==> Firsts(rows, ranks)[c] == FirstAt(rows, c);
      SortAgrees(rows, byRank, SettingsOrder(rows));
      result := Some(Sort(rows, byRank));
    } else {
      var shuffled := Shuffle(rows, draw);
      result := Some(shuffled);
    }
  }

  lemma SettingsPreorder(rows: seq<Row>)
    ensures Preorder(SettingsOrder(rows))
  {
  }

  lemma ProblemPreorder()
    ensures Preorder(ProblemOrder())
  {
    var leq := ProblemOrder();
    forall a, b
      ensures leq(a, b) || leq(b, a)
    {
      if Precedes(a.problem, b.problem) {
        PrecedesAsymmetric(a.problem, b.problem);
      }
    }
    forall a, b, c | leq(a, b) && leq(b, c)
      ensures leq(a, c)
    {
      PrecedesTotal(a.problem, b.problem);
      PrecedesTotal(b.problem, c.problem);
      if Precedes(c.problem, a.problem) {
        if a.problem != b.problem {
          PrecedesTransitive(c.problem, a.problem, b.problem);
        }
      }
    }
  }

  /** No order loses, adds or changes a pair. */
  lemma OrderKeepsPairs(rows: seq<Row>, draw: nat -> nat)
    requires Draws(draw)
    ensures multiset(SolverMajor(rows)) == multiset(rows)
    ensures multiset(Sort(rows, ProblemOrder())) == multiset(rows)
    ensures multiset(Shuffled(rows, |rows|, draw)) == multiset(rows)
  {
    SortMembers(rows, SettingsOrder(rows));
    SortMembers(rows, ProblemOrder());
    ShuffleKeepsPairs(rows, |rows|, draw);
  }

  /** And the random order leaves no arrangement out. */
  lemma AnyOrderDrawn(rows: seq<Row>, target: seq<Row>) returns (draw: nat -> nat)
    requires multiset(target) == multiset(rows)
    ensures Draws(draw) && Shuffled(rows, |rows|, draw) == target
  {
    assert |multiset(target)| == |target| && |multiset(rows)| == |rows|;
    assert rows[..|rows|] == rows && target[..|rows|] == target;
    draw := ShuffleReaches(rows, |rows|, target);
  }

  lemma Kept(rows: seq<Row>, i: nat)
    requires i < |SolverMajor(rows)|
    ensures FirstAt(rows, SolverMajor(rows)[i].settings) < |rows|
  {
    SortMembers(rows, SettingsOrder(rows));
    var row := SolverMajor(rows)[i];
    assert row in multiset(SolverMajor(rows));
    assert row in multiset(rows);
    var k :| 0 <= k < |rows| && rows[k] == row;
    FirstAtIs(rows, row.settings);
  }

  /** Solver-major order makes every configuration one contiguous run. */
  lemma ConfigurationsContiguous(rows: seq<Row>, i: nat, j: nat, k: nat)
    requires i <= j <= k < |SolverMajor(rows)|
    requires SolverMajor(rows)[i].settings == SolverMajor(rows)[k].settings
    ensures SolverMajor(rows)[j].settings == SolverMajor(rows)[i].settings
  {
    var leq := SettingsOrder(rows);
    SettingsPreorder(rows);
    SortSorts(rows, leq);
    Kept(rows, i);
    Kept(rows, j);
    var result := SolverMajor(rows);
    assert leq(result[i], result[j]) && leq(result[j], result[k]);
    FirstAtIs(rows, result[i].settings);
    FirstAtIs(rows, result[j].settings);
  }

  /** Within a configuration the pairs keep their order. */
  lemma ConfigurationsStable(rows: seq<Row>, settings: seq<string>)
    ensures Filter(SolverMajor(rows), (row: Row) => row.settings == settings)
         == Filter(rows, (row: Row) => row.settings == settings)
  {
    SortStable(rows, SettingsOrder(rows), (row: Row) => row.settings == settings);
  }

  /** Problem-major order is sorted by problem, and stable for each problem. */
  lemma ProblemsSortedStable(rows: seq<Row>, problem: string)
    ensures StableSort.Sorted(Sort(rows, ProblemOrder()), ProblemOrder())
    ensures Filter(Sort(rows, ProblemOrder()), (row: Row) => row.problem == problem)
         == Filter(rows, (row: Row) => row.problem == problem)
  {
    ProblemPreorder();
    SortSorts(rows, ProblemOrder());
    forall x: Row, y: Row | x.problem == problem && y.problem == problem
      ensures ProblemOrder()(x, y)
    {
      if Precedes(y.problem, x.problem) {
        PrecedesAsymmetric(y.problem, x.problem);
      }
    }
    SortStable(rows, ProblemOrder(), (row: Row) => row.problem == problem);
  }

  /** No pair stands before one with an alphabetically smaller problem. */
  lemma ProblemsAlphabetical(rows: seq<Row>, i: nat, j: nat, k: nat)
    requires i < j < |Sort(rows, ProblemOrder())|
    ensures var result := Sort(rows, ProblemOrder());
            !FirstDifference(result[j].problem, result[i].problem, k)
  {
    ProblemPreorder();
    SortSorts(rows, ProblemOrder());
    var result := Sort(rows, ProblemOrder());
    PrecedesExactly(result[j].problem, result[i].problem);
    assert ProblemOrder()(result[i], result[j]);
  }

  /** In solver-major order, of two configurations the one whose first pair came first in the table stands first. */
  lemma ConfigurationsByFirstPair(rows: seq<Row>, i: nat, j: nat, k: nat) returns (first: nat)
    requires i < j < |SolverMajor(rows)| && k < |rows| && rows[k].settings == SolverMajor(rows)[j].settings
    ensures first <= k && rows[first].settings == SolverMajor(rows)[i].settings
  {
    var leq, result := SettingsOrder(rows), SolverMajor(rows);
    SettingsPreorder(rows);
    SortSorts(rows, leq);
    Kept(rows, i);
    assert leq(result[i], result[j]);
    FirstAtIs(rows, result[i].settings);
    FirstAtIs(rows, result[j].settings);
    first := FirstAt(rows, result[i].settings);
  }

  /** Ordering an ordered table changes nothing. */
  lemma OrderIdempotent(rows: seq<Row>)
    ensures SolverMajor(SolverMajor(rows)) == SolverMajor(rows)
    ensures Sort(Sort(rows, ProblemOrder()), ProblemOrder()) == Sort(rows, ProblemOrder())
  {
    var result := SolverMajor(rows);
    var leq := SettingsOrder(result);
    forall i, j | 0 <= i < j < |result|
      ensures leq(result[i], result[j])
    {
      var first := FirstAt(result, result[j].settings);
      FirstAtIs(result, result[i].settings);
      FirstAtIs(result, result[j].settings);
      if first < FirstAt(result, result[i].settings) {
        ConfigurationsContiguous(rows, first, i, j);
        assert false;
      }
    }
    SortedUnchanged(result, leq);
    ProblemPreorder();
    SortSorts(rows, ProblemOrder());
    SortedUnchanged(Sort(rows, ProblemOrder()), ProblemOrder());
  }
}
