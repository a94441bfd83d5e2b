/**
 The integer max-min fair allocator that divides one user's free submission slots
 among the jobs that ask for some.
 */
module FairShare {
  import opened Numbers
  import opened Totals
  import opened Names
  import opened Division

  // ---------------------------------------------------------------- specification

  /** The state at the last round: who still waits, the common level, and how many get one more. */
  datatype Round = Round(waiting: set<string>, level: nat, extra: nat)

  /** Satisfies the smallest demand while it fits the equal share, from the waiting set `w`. */
  ghost function Last(demands: map<string, int>, w: set<string>, remaining: nat): (r: Round)
    requires w <= demands.Keys
    decreases w
  {
    if w == {} then Round({}, 0, 0)
    else
      var s := Smallest(demands, w);
      if demands[s] > Quotient(remaining, |w|) then
        Round(w, Quotient(remaining, |w|), Remainder(remaining, |w|))
      else
        ShareTaken(demands[s], remaining, |w|);
        Last(demands, w - {s}, remaining - demands[s])
  }

  ghost function LastRound(demands: map<string, int>, capacity: int): (r: Round) {
    Last(demands, demands.Keys, Max(0, capacity))
  }

  /** The names in alphabetical order, rotated left by the turn. */
  ghost function Rotated(w: set<string>, turn: int): (r: seq<string>)
    requires w != {}
  {
    var ordered := SortedNames(w);
    RotationInRange(w);
    ordered[Phase(turn, |w|)..] + ordered[..Phase(turn, |w|)]
  }

  lemma RotationInRange(w: set<string>)
    ensures |SortedNames(w)| == |w|
  {
    SortedListsAll(map n | n in w :: 0, w);
  }

  lemma RotationPermutes(s: seq<string>, shift: nat)
    requires shift <= |s| && Distinct(s)
    ensures var r := s[shift..] + s[..shift]; Elements(r) == Elements(s) && Distinct(r)
  {
    var r := s[shift..] + s[..shift];
    assert s == s[..shift] + s[shift..];
    assert forall x :: x in r <==> x in s;
    forall i, j | 0 <= i < j < |r|
      ensures r[i] != r[j]
    {
      var a := if i < |s| - shift then i + shift else i + shift - |s|;
      var b := if j < |s| - shift then j + shift else j + shift - |s|;
      assert r[i] == s[a] && r[j] == s[b] && a != b;
    }
  }

  lemma RotatedListsAll(w: set<string>, turn: int)
    requires w != {}
    ensures Elements(Rotated(w, turn)) == w && Distinct(Rotated(w, turn)) && |Rotated(w, turn)| == |w|
  {
    SortedListsAll(map n | n in w :: 0, w);
    RotationPermutes(SortedNames(w), Phase(turn, |w|));
  }

  /** The names that get one slot more than the common level. */
  ghost function Bonus(w: set<string>, turn: int, extra: nat): (b: set<string>) {
    if w == {} || extra > |w| then {}
    else
      RotatedListsAll(w, turn);
      Elements(Rotated(w, turn)[..extra])
  }

  /** Everybody but the waiting names gets its demand; the waiting ones get the level or one more. */
  ghost function Allocation(demands: map<string, int>, last: Round, bonus: set<string>): (t: map<string, int>)
    ensures t.Keys == demands.Keys
  {
    map n | n in demands ::
      if n in last.waiting then Min(demands[n], last.level + (if n in bonus then 1 else 0)) else demands[n]
  }

  /** The targets of `fair_targets`. */
  ghost function Targets(demands: map<string, int>, capacity: int, turn: int): (t: map<string, int>)
    ensures t.Keys == demands.Keys
  {
    var last := LastRound(demands, capacity);
    Allocation(demands, last, Bonus(last.waiting, turn, last.extra))
  }

  // ---------------------------------------------------------------- the method

  /** The targets while `w` is still to be served: demands outside it are met, the rest is not set yet. */
  ghost predicate Served(demands: map<string, int>, w: set<string>, targets: map<string, int>) {
    && targets.Keys == demands.Keys
    && forall n :: n in demands && n !in w ==> targets[n] == demands[n]
  }

  /** `fair_targets(demands, capacity, turn)`. */
  method FairTargets(demands: map<string, int>, capacity: int, turn: int) returns (targets: map<string, int>)
    ensures targets == Targets(demands, capacity, turn)
  {
    targets := map n | n in demands :: 0;
    var remaining: nat := if capacity > 0 then capacity else 0;
    var waiting := SortBy(demands, demands.Keys);
    ghost var w := demands.Keys;
    ghost var last := LastRound(demands, capacity);
    while waiting != []
      invariant w <= demands.Keys && waiting == Sorted(demands, w)
      invariant Served(demands, w, targets)
      invariant Last(demands, w, remaining) == last
      decreases |waiting|
    {
      Popped(demands, w, waiting, remaining, targets);
      var level, extra := DivMod(remaining, |waiting|);
      var smallest := demands[waiting[0]];
      if smallest > level {
        targets := FinalRound(demands, waiting, w, level, extra, turn, targets);
        return;
      }
      w := w - {waiting[0]};
      targets := targets[waiting[0] := smallest];
      waiting := waiting[1..];
      remaining := remaining - smallest;
    }
    NothingWaiting(demands, w, remaining, targets, Bonus(last.waiting, turn, last.extra));
  }

  /** One turn of the loop: the front is the smallest demand, which ends the loop or is served in full. */
  lemma Popped(demands: map<string, int>, w: set<string>, waiting: seq<string>, remaining: nat,
               targets: map<string, int>)
    requires w <= demands.Keys && waiting == Sorted(demands, w) && waiting != [] && Served(demands, w, targets)
    ensures waiting[0] in w && |waiting| == |w| && Elements(waiting) == w
    ensures var s := waiting[0];
            if demands[s] > Quotient(remaining, |w|) then
              Last(demands, w, remaining) == Round(w, Quotient(remaining, |w|), Remainder(remaining, |w|))
            else
              && demands[s] <= remaining
              && Last(demands, w, remaining) == Last(demands, w - {s}, remaining - demands[s])
              && Sorted(demands, w - {s}) == waiting[1..]
              && Served(demands, w - {s}, targets[s := demands[s]])
  {
    FrontIsSmallest(demands, w);
    LastStep(demands, w, remaining);
  }

  lemma NothingWaiting(demands: map<string, int>, w: set<string>, remaining: nat, targets: map<string, int>,
                       bonus: set<string>)
    requires w <= demands.Keys && Sorted(demands, w) == [] && Served(demands, w, targets)
    ensures targets == Allocation(demands, Last(demands, w, remaining), bonus)
  {
    SortedListsAll(demands, w);
    assert w == {};
  }

  lemma LastStep(demands: map<string, int>, w: set<string>, remaining: nat)
    requires w <= demands.Keys && w != {}
    ensures var s := Smallest(demands, w);
            if demands[s] > Quotient(remaining, |w|) then
              Last(demands, w, remaining) == Round(w, Quotient(remaining, |w|), Remainder(remaining, |w|))
            else
              && demands[s] <= remaining
              && Last(demands, w, remaining) == Last(demands, w - {s}, remaining - demands[s])
  {
    if demands[Smallest(demands, w)] <= Quotient(remaining, |w|) {
      ShareTaken(demands[Smallest(demands, w)], remaining, |w|);
    }
  }

  /** Nobody else fits: share the level among the waiting jobs and rotate the bonus slots. */
  method FinalRound(demands: map<string, int>, waiting: seq<string>, ghost w: set<string>, level: nat, extra: nat,
                    turn: int, before: map<string, int>) returns (targets: map<string, int>)
    requires w <= demands.Keys && Served(demands, w, before)
    requires waiting != [] && Elements(waiting) == w && |w| == |waiting| && extra < |waiting|
    ensures targets == Allocation(demands, Round(w, level, extra), Bonus(w, turn, extra))
  {
    var bonus := BonusNames(waiting, extra, turn, w);
    assert forall n :: n in waiting <==> n in w by {
      assert forall n :: n in waiting <==> n in Elements(waiting);
    }
    targets := ShareLevel(demands, waiting, level, bonus, before);
  }

  /** The final assignments: the level for everybody still waiting, one more for the bonus names. */
  method ShareLevel(demands: map<string, int>, waiting: seq<string>, level: nat, bonus: set<string>,
                    before: map<string, int>) returns (targets: map<string, int>)
    requires before.Keys == demands.Keys && forall n :: n in waiting ==> n in demands
    ensures targets.Keys == demands.Keys
    ensures forall n :: n in demands ==>
      targets[n] == if n in waiting then Min(demands[n], level + (if n in bonus then 1 else 0)) else before[n]
  {
    targets := before;
    for i := 0 to |waiting|
      invariant targets.Keys == demands.Keys
      invariant forall n :: n in demands ==>
        targets[n] == if n in waiting[..i] then Min(demands[n], level + (if n in bonus then 1 else 0)) else before[n]
    {
      assert waiting[..i + 1] == waiting[..i] + [waiting[i]];
      targets := targets[waiting[i] := Min(demands[waiting[i]], level + (if waiting[i] in bonus then 1 else 0))];
    }
    assert waiting[..|waiting|] == waiting;
  }

  /** The first `extra` names after rotating the alphabetical order by the turn. */
  method BonusNames(waiting: seq<string>, extra: nat, turn: int, ghost w: set<string>) returns (bonus: set<string>)
    requires waiting != [] && Elements(waiting) == w && |w| == |waiting| && extra < |waiting|
    ensures bonus == Bonus(w, turn, extra)
  {
    var names := set x | x in waiting;
    assert names == w;
    var ordered := SortBy(map n | n in names :: 0, names);
    RotationInRange(w);
    BuiltinPhase(turn, |ordered|);
    var shift := turn % |ordered|;
    var rotated := ordered[shift..] + ordered[..shift];
    RotatedListsAll(w, turn);
    bonus := set x | x in rotated[..extra];
  }

  // ---------------------------------------------------------------- the last round

  lemma {:induction false} LastAmong(demands: map<string, int>, w: set<string>, remaining: nat)
    requires w <= demands.Keys
    ensures Last(demands, w, remaining).waiting <= w
    ensures Last(demands, w, remaining).waiting != {} ==>
      Last(demands, w, remaining).extra < |Last(demands, w, remaining).waiting|
    decreases w
  {
    if w != {} {
      var s := Smallest(demands, w);
      if demands[s] <= Quotient(remaining, |w|) {
        ShareTaken(demands[s], remaining, |w|);
        LastAmong(demands, w - {s}, remaining - demands[s]);
      }
    }
  }

  /** The equal share never falls from one round to the next. */
  lemma {:induction false} LevelRises(demands: map<string, int>, w: set<string>, remaining: nat)
    requires w <= demands.Keys && w != {}
    ensures var last := Last(demands, w, remaining);
            last.waiting != {} ==> Quotient(remaining, |w|) <= last.level
    decreases w
  {
    var s := Smallest(demands, w);
    if demands[s] <= Quotient(remaining, |w|) {
      ShareTaken(demands[s], remaining, |w|);
      if w - {s} != {} {
        LevelRises(demands, w - {s}, remaining - demands[s]);
      }
    }
  }

  /** The water level: waiting demands are above it, satisfied ones are not. */
  lemma {:induction false} LevelSeparates(demands: map<string, int>, w: set<string>, remaining: nat, n: string)
    requires w <= demands.Keys && n in w
    ensures var last := Last(demands, w, remaining);
            if n in last.waiting then demands[n] > last.level
            else last.waiting != {} ==> demands[n] <= last.level
    decreases w
  {
    var s := Smallest(demands, w);
    if demands[s] <= Quotient(remaining, |w|) {
      ShareTaken(demands[s], remaining, |w|);
      LastAmong(demands, w - {s}, remaining - demands[s]);
      LevelRises(demands, w, remaining);
      if n != s {
        LevelSeparates(demands, w - {s}, remaining - demands[s], n);
      }
    }
  }

  ghost function Restrict(m: map<string, int>, w: set<string>): (r: map<string, int>)
    requires w <= m.Keys
  {
    map n | n in w :: m[n]
  }

  lemma SatisfiedStep(demands: map<string, int>, w: set<string>, s: string, waiting: set<string>)
    requires w <= demands.Keys && s in w && s !in waiting
    ensures Total(Restrict(demands, w - waiting)) == demands[s] + Total(Restrict(demands, w - {s} - waiting))
  {
    var satisfied := Restrict(demands, w - waiting);
    TotalRemove(satisfied, s);
    assert satisfied - {s} == Restrict(demands, w - {s} - waiting);
  }

  /** What is left after satisfying the others is exactly the level for everybody waiting, plus the extras. */
  ghost predicate Accounts(demands: map<string, int>, w: set<string>, remaining: int, last: Round)
    requires w <= demands.Keys
  {
    var satisfied := Total(Restrict(demands, w - last.waiting));
    && last.waiting <= w
    && if last.waiting == {} then satisfied <= remaining
       else remaining == satisfied + |last.waiting| * last.level + last.extra
  }

  lemma NobodySatisfied(demands: map<string, int>, w: set<string>, remaining: nat)
    requires w <= demands.Keys && w != {}
    ensures Accounts(demands, w, remaining, Round(w, Quotient(remaining, |w|), Remainder(remaining, |w|)))
  {
    QuotientExact(remaining, |w|);
    assert Restrict(demands, w - w) == map[];
  }

  lemma OneMoreSatisfied(demands: map<string, int>, w: set<string>, remaining: int, s: string, last: Round)
    requires w <= demands.Keys && s in w && Accounts(demands, w - {s}, remaining - demands[s], last)
    ensures Accounts(demands, w, remaining, last)
  {
    SatisfiedStep(demands, w, s, last.waiting);
  }

  lemma {:induction false} LastExact(demands: map<string, int>, w: set<string>, remaining: nat)
    requires w <= demands.Keys
    ensures Accounts(demands, w, remaining, Last(demands, w, remaining))
    decreases w
  {
    if w == {} {
      assert Restrict(demands, w - {}) == map[];
    } else {
      var s := Smallest(demands, w);
      if demands[s] > Quotient(remaining, |w|) {
        NobodySatisfied(demands, w, remaining);
      } else {
        ShareTaken(demands[s], remaining, |w|);
        LastExact(demands, w - {s}, remaining - demands[s]);
        OneMoreSatisfied(demands, w, remaining, s, Last(demands, w - {s}, remaining - demands[s]));
      }
    }
  }

  lemma BonusSize(w: set<string>, turn: int, extra: nat)
    requires w != {} && extra <= |w|
    ensures Bonus(w, turn, extra) <= w && |Bonus(w, turn, extra)| == extra
  {
    RotatedListsAll(w, turn);
    var r := Rotated(w, turn);
    DistinctCardinality(r[..extra]);
    assert forall x :: x in r[..extra] ==> x in r;
    assert forall x :: x in r ==> x in Elements(r);
  }

  // ---------------------------------------------------------------- exact sum

  lemma AllocationTotal(demands: map<string, int>, last: Round, bonus: set<string>)
    requires last.waiting <= demands.Keys && bonus <= last.waiting
    requires forall n :: n in last.waiting ==> demands[n] > last.level
    ensures Total(Allocation(demands, last, bonus))
      == Total(Restrict(demands, demands.Keys - last.waiting)) + |last.waiting| * last.level + |bonus|
  {
    var t := Allocation(demands, last, bonus);
    TotalSplit(t, last.waiting);
    TotalLevel(last.waiting, bonus, last.level);
    assert (map n | n in t && n in last.waiting :: t[n])
        == map n | n in last.waiting :: last.level + (if n in bonus then 1 else 0);
    assert (map n | n in t && n !in last.waiting :: t[n]) == Restrict(demands, demands.Keys - last.waiting);
  }

  /** What the last round guarantees: the level separates waiting from satisfied demands, and the bonus fits. */
  ghost predicate Sound(demands: map<string, int>, last: Round, bonus: set<string>) {
    && bonus <= last.waiting <= demands.Keys
    && (forall n :: n in last.waiting ==> demands[n] > last.level)
    && (last.waiting != {} ==>
          && |bonus| == last.extra < |last.waiting|
          && forall n :: n in demands && n !in last.waiting ==> demands[n] <= last.level)
  }

  lemma LastRoundSound(demands: map<string, int>, capacity: int, turn: int)
    ensures var last := LastRound(demands, capacity);
            Sound(demands, last, Bonus(last.waiting, turn, last.extra))
  {
    var last := LastRound(demands, capacity);
    LastAmong(demands, demands.Keys, Max(0, capacity));
    forall n | n in demands
      ensures if n in last.waiting then demands[n] > last.level else last.waiting != {} ==> demands[n] <= last.level
    {
      LevelSeparates(demands, demands.Keys, Max(0, capacity), n);
    }
    if last.waiting != {} {
      BonusSize(last.waiting, turn, last.extra);
    }
  }

  lemma WaitingTotal(demands: map<string, int>, last: Round, bonus: set<string>, remaining: nat)
    requires last == Last(demands, demands.Keys, remaining) && Sound(demands, last, bonus) && last.waiting != {}
    ensures Total(Allocation(demands, last, bonus)) == remaining
  {
    LastExact(demands, demands.Keys, remaining);
    AllocationTotal(demands, last, bonus);
  }

  lemma AllSatisfiedTotal(demands: map<string, int>, last: Round, bonus: set<string>, remaining: nat)
    requires last == Last(demands, demands.Keys, remaining) && last.waiting == {}
    ensures Total(Allocation(demands, last, bonus)) == Total(demands) <= remaining
  {
    LastExact(demands, demands.Keys, remaining);
    assert demands.Keys - last.waiting == demands.Keys;
    assert Restrict(demands, demands.Keys) == demands == Allocation(demands, last, bonus);
  }

  lemma LastRoundTotal(demands: map<string, int>, capacity: int, last: Round, bonus: set<string>)
    requires last == LastRound(demands, capacity) && Sound(demands, last, bonus)
    ensures Total(Allocation(demands, last, bonus)) == Min(Max(0, capacity), Total(demands))
  {
    if last.waiting == {} {
      AllSatisfiedTotal(demands, last, bonus, Max(0, capacity));
    } else {
      WaitingTotal(demands, last, bonus, Max(0, capacity));
      TotalMonotone(Allocation(demands, last, bonus), demands);
    }
  }

  /** The targets hand out exactly the capacity, or the whole demand when that is less. */
  lemma TargetsTotal(demands: map<string, int>, capacity: int, turn: int)
    ensures Total(Targets(demands, capacity, turn)) == Min(Max(0, capacity), Total(demands))
  {
    var last := LastRound(demands, capacity);
    LastRoundSound(demands, capacity, turn);
    LastRoundTotal(demands, capacity, last, Bonus(last.waiting, turn, last.extra));
  }

  // ---------------------------------------------------------------- max-min optimality

  ghost predicate Feasible(demands: map<string, int>, capacity: int, x: map<string, int>) {
    && x.Keys == demands.Keys
    && (forall n :: n in x ==> x[n] <= demands[n])
    && Total(x) <= Max(0, capacity)
  }

  /** Nobody who could use another slot is more than one slot behind anybody else. */
  ghost predicate Balanced(demands: map<string, int>, x: map<string, int>)
    requires x.Keys == demands.Keys
  {
    forall i, j :: i in x && j in x && x[i] < demands[i] ==> x[j] <= x[i] + 1
  }

  /** No target exceeds its demand, none is negative, and the allocation is balanced. */
  lemma TargetsFair(demands: map<string, int>, capacity: int, turn: int)
    ensures Feasible(demands, capacity, Targets(demands, capacity, turn))
    ensures Balanced(demands, Targets(demands, capacity, turn))
    ensures forall n :: n in demands && demands[n] >= 0 ==> Targets(demands, capacity, turn)[n] >= 0
  {
    TargetsTotal(demands, capacity, turn);
    LastRoundSound(demands, capacity, turn);
    var last := LastRound(demands, capacity);
    AllocationFair(demands, last, Bonus(last.waiting, turn, last.extra));
  }

  lemma AllocationFair(demands: map<string, int>, last: Round, bonus: set<string>)
    requires Sound(demands, last, bonus)
    ensures forall n :: n in demands ==> Allocation(demands, last, bonus)[n] <= demands[n]
    ensures Balanced(demands, Allocation(demands, last, bonus))
    ensures forall n :: n in demands && demands[n] >= 0 ==> Allocation(demands, last, bonus)[n] >= 0
  {
  }

  /** Giving some job more than its target takes from a job that had at most one slot more than it. */
  lemma MaxMinOptimal(demands: map<string, int>, capacity: int, turn: int, x: map<string, int>, i: string)
    requires Feasible(demands, capacity, x)
    requires i in demands && x[i] > Targets(demands, capacity, turn)[i]
    ensures exists j :: j in demands && x[j] < Targets(demands, capacity, turn)[j]
                     && Targets(demands, capacity, turn)[j] <= Targets(demands, capacity, turn)[i] + 1
  {
    var t := Targets(demands, capacity, turn);
    TargetsFair(demands, capacity, turn);
    TargetsTotal(demands, capacity, turn);
    assert exists j :: j in demands && x[j] < t[j] by {
      if forall j :: j in demands ==> x[j] >= t[j] {
        TotalMonotone(t, x);
        TotalMonotone(x, demands);
        assert false;
      }
    }
    var j :| j in demands && x[j] < t[j];
    assert t[i] < demands[i];
  }

  lemma BalancedNotAhead(demands: map<string, int>, x: map<string, int>, y: map<string, int>, n: string)
    requires x.Keys == y.Keys == demands.Keys && n in demands
    requires forall k :: k in demands ==> x[k] <= demands[k] && y[k] <= demands[k]
    requires Balanced(demands, x) && Balanced(demands, y)
    requires Total(x) == Total(y)
    ensures y[n] <= x[n] + 1
  {
    if y[n] >= x[n] + 2 {
      forall m | m in demands
        ensures x[m] <= y[m]
      {
        if y[m] < demands[m] {
          assert y[n] <= y[m] + 1;
          assert x[m] <= x[n] + 1;
        }
      }
      TotalMonotone(x, y);
      assert false;
    }
  }

  /**
   Balance and the total determine an allocation up to one slot per job: any other balanced
   division of the same total differs from the allocator's by at most one slot for each job.
   */
  lemma FairDivisionUnique(demands: map<string, int>, capacity: int, turn: int, x: map<string, int>, n: string)
    requires Feasible(demands, capacity, x) && Balanced(demands, x) && n in demands
    requires Total(x) == Min(Max(0, capacity), Total(demands))
    ensures -1 <= x[n] - Targets(demands, capacity, turn)[n] <= 1
  {
    var t := Targets(demands, capacity, turn);
    TargetsFair(demands, capacity, turn);
    TargetsTotal(demands, capacity, turn);
    BalancedNotAhead(demands, x, t, n);
    BalancedNotAhead(demands, t, x, n);
  }

  // ---------------------------------------------------------------- monotonicity

  /** More slots either leave the same names waiting at a level no lower, or satisfy more names. */
  ghost predicate NoWorse(low: Round, high: Round) {
    || (high.waiting == low.waiting && (low.level < high.level || (low.level == high.level && low.extra <= high.extra)))
    || (high.waiting < low.waiting && (high.waiting != {} ==> low.level < high.level))
  }

  lemma {:induction false} LastMonotone(demands: map<string, int>, w: set<string>, low: nat, high: nat)
    requires w <= demands.Keys && low <= high
    ensures NoWorse(Last(demands, w, low), Last(demands, w, high))
    decreases w
  {
    if w != {} {
      var s := Smallest(demands, w);
      QuotientMonotone(low, high, |w|);
      if demands[s] <= Quotient(high, |w|) {
        ShareTaken(demands[s], high, |w|);
        LastAmong(demands, w - {s}, high - demands[s]);
        if demands[s] <= Quotient(low, |w|) {
          ShareTaken(demands[s], low, |w|);
          LastMonotone(demands, w - {s}, low - demands[s], high - demands[s]);
        } else {
          LevelRises(demands, w, high);
          assert s in w && s !in Last(demands, w, high).waiting;
        }
      }
    }
  }

  lemma BonusGrows(w: set<string>, turn: int, few: nat, many: nat)
    requires few <= many <= |w|
    ensures Bonus(w, turn, few) <= Bonus(w, turn, many)
  {
    if w != {} {
      RotatedListsAll(w, turn);
      var r := Rotated(w, turn);
      assert r[..few] == r[..many][..few];
    }
  }

  lemma AllocationMonotone(demands: map<string, int>, low: Round, high: Round, few: set<string>, many: set<string>,
                           n: string)
    requires Sound(demands, low, few) && Sound(demands, high, many) && NoWorse(low, high)
    requires low.waiting == high.waiting && low.level == high.level ==> few <= many
    requires n in demands
    ensures Allocation(demands, low, few)[n] <= Allocation(demands, high, many)[n]
  {
  }

  /** For a fixed turn, more capacity never lowers anybody's target. */
  lemma TargetsMonotone(demands: map<string, int>, low: int, high: int, turn: int, n: string)
    requires low <= high && n in demands
    ensures Targets(demands, low, turn)[n] <= Targets(demands, high, turn)[n]
  {
    LastMonotone(demands, demands.Keys, Max(0, low), Max(0, high));
    LastRoundSound(demands, low, turn);
    LastRoundSound(demands, high, turn);
    var few, many := LastRound(demands, low), LastRound(demands, high);
    if few.waiting == many.waiting && few.level == many.level {
      if few.waiting != {} {
        BonusGrows(few.waiting, turn, few.extra, many.extra);
      }
    }
    AllocationMonotone(demands, few, many, Bonus(few.waiting, turn, few.extra),
                       Bonus(many.waiting, turn, many.extra), n);
  }

  // ---------------------------------------------------------------- rotation

  /** Does the name at alphabetical position `k` of `n` get a bonus slot when the rotation starts at `shift`? */
  ghost function Hit(k: nat, n: nat, extra: nat, shift: nat): nat
    requires k < n && shift < n
  {
    if (if k >= shift then k - shift else k - shift + n) < extra then 1 else 0
  }

  lemma BonusByPosition(w: set<string>, turn: int, extra: nat, k: nat)
    requires w != {} && extra <= |w| && k < |w|
    ensures |SortedNames(w)| == |w|
    ensures SortedNames(w)[k] in Bonus(w, turn, extra) <==> Hit(k, |w|, extra, Phase(turn, |w|)) == 1
  {
    RotationInRange(w);
    RotatedListsAll(w, turn);
    var ordered, r, shift := SortedNames(w), Rotated(w, turn), Phase(turn, |w|);
    var i := if k >= shift then k - shift else k - shift + |w|;
    assert r[i] == ordered[k];
    if i < extra {
      assert r[..extra][i] == ordered[k];
    } else {
      assert forall m :: 0 <= m < extra ==> r[m] != r[i];
    }
  }

  ghost function Hits(k: nat, n: nat, extra: nat, start: int, turns: nat): nat
    requires k < n
  {
    if turns == 0 then 0 else Hits(k, n, extra, start, turns - 1) + Hit(k, n, extra, Phase(start + turns - 1, n))
  }

  lemma {:induction false} HitsFromZero(k: nat, n: nat, extra: nat, turns: nat)
    requires k < n && extra <= n && turns <= n
    ensures Hits(k, n, extra, 0, turns) ==
      if turns <= k + 1 then Max(0, Min(extra, k + 1) - (k + 1 - turns))
      else Min(extra, k + 1) + Max(0, extra - (n + k + 1 - turns))
  {
    if turns > 0 {
      HitsFromZero(k, n, extra, turns - 1);
      assert Phase(turns - 1, n) == turns - 1;
    }
  }

  lemma {:induction false} HitsPrepend(k: nat, n: nat, extra: nat, start: int, turns: nat)
    requires k < n
    ensures Hit(k, n, extra, Phase(start, n)) + Hits(k, n, extra, start + 1, turns)
         == Hits(k, n, extra, start, turns + 1)
  {
    if turns > 0 {
      HitsPrepend(k, n, extra, start, turns - 1);
      assert start + 1 + turns - 1 == start + (turns + 1) - 1;
    }
  }

  lemma HitsShift(k: nat, n: nat, extra: nat, start: int)
    requires k < n
    ensures Hits(k, n, extra, start, n) == Hits(k, n, extra, start + 1, n)
  {
    HitsPrepend(k, n, extra, start, n);
    PhasePeriod(start, n);
    assert start + (n + 1) - 1 == start + n;
  }

  /** Over any n consecutive turns, every waiting position is hit exactly `extra` times. */
  lemma {:induction false} HitsPerCycle(k: nat, n: nat, extra: nat, start: int)
    requires k < n && extra <= n
    ensures Hits(k, n, extra, start, n) == extra
    decreases if start < 0 then -start else start
  {
    if start == 0 {
      HitsFromZero(k, n, extra, n);
    } else if start > 0 {
      HitsShift(k, n, extra, start - 1);
      HitsPerCycle(k, n, extra, start - 1);
    } else {
      HitsShift(k, n, extra, start);
      HitsPerCycle(k, n, extra, start + 1);
    }
  }

  /** One job's target at each turn. */
  ghost function Target(demands: map<string, int>, capacity: int, n: string, turn: int): int
    requires n in demands
  {
    Targets(demands, capacity, turn)[n]
  }

  ghost function SumOver(f: int -> int, start: int, turns: nat): int {
    if turns == 0 then 0 else SumOver(f, start, turns - 1) + f(start + turns - 1)
  }

  lemma {:induction false} SumByHits(f: int -> int, level: nat, k: nat, n: nat, extra: nat, start: int, turns: nat)
    requires k < n
    requires forall t :: f(t) == level + Hit(k, n, extra, Phase(t, n))
    ensures SumOver(f, start, turns) == SumOver(_ => level, start, turns) + Hits(k, n, extra, start, turns)
  {
    if turns > 0 {
      SumByHits(f, level, k, n, extra, start, turns - 1);
    }
  }

  lemma {:induction false} SumOfConstant(level: int, start: int, turns: nat)
    ensures SumOver(_ => level, start, turns) == turns * level
  {
    if turns > 0 {
      SumOfConstant(level, start, turns - 1);
      OneMoreRow(turns - 1, level);
    }
  }

  /** What a job is granted in total over `turns` consecutive turns. */
  ghost function Granted(demands: map<string, int>, capacity: int, n: string, start: int, turns: nat): int
    requires n in demands
  {
    SumOver(t => Target(demands, capacity, n, t), start, turns)
  }

  lemma TargetByHit(demands: map<string, int>, capacity: int, last: Round, k: nat, n: string, turn: int)
    requires last == LastRound(demands, capacity) && n in last.waiting && n in demands
    requires k < |SortedNames(last.waiting)| == |last.waiting| && SortedNames(last.waiting)[k] == n
    ensures Target(demands, capacity, n, turn)
         == last.level + Hit(k, |last.waiting|, last.extra, Phase(turn, |last.waiting|))
  {
    LastRoundSound(demands, capacity, turn);
    BonusByPosition(last.waiting, turn, last.extra, k);
  }

  lemma PositionOf(w: set<string>, n: string) returns (k: nat)
    requires n in w
    ensures k < |SortedNames(w)| == |w| && SortedNames(w)[k] == n
  {
    SortedListsAll(map x | x in w :: 0, w);
    assert n in Elements(SortedNames(w));
    k :| 0 <= k < |SortedNames(w)| && SortedNames(w)[k] == n;
  }

  lemma CycleSum(f: int -> int, level: nat, k: nat, n: nat, extra: nat, start: int)
    requires k < n && extra <= n
    requires forall t :: f(t) == level + Hit(k, n, extra, Phase(t, n))
    ensures SumOver(f, start, n) == n * level + extra
  {
    SumByHits(f, level, k, n, extra, start, n);
    SumOfConstant(level, start, n);
    HitsPerCycle(k, n, extra, start);
  }

  /**
   With demands and capacity fixed and n jobs left at the last round, any n consecutive turns
   grant each of them the same total: n times the level plus the number of bonus slots.
   */
  lemma RotationFair(demands: map<string, int>, capacity: int, n: string, start: int)
    requires n in demands
    ensures var last := LastRound(demands, capacity);
            if n in last.waiting then
              Granted(demands, capacity, n, start, |last.waiting|) == |last.waiting| * last.level + last.extra
            else Target(demands, capacity, n, start) == demands[n]
  {
    var last := LastRound(demands, capacity);
    if n in last.waiting {
      LastRoundSound(demands, capacity, start);
      var k := PositionOf(last.waiting, n);
      forall t
        ensures Target(demands, capacity, n, t)
             == last.level + Hit(k, |last.waiting|, last.extra, Phase(t, |last.waiting|))
      {
        TargetByHit(demands, capacity, last, k, n, t);
      }
      CycleSum(t => Target(demands, capacity, n, t), last.level, k, |last.waiting|, last.extra, start);
    }
  }
}
