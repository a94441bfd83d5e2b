/** What a finished plan promises: optimal, complete, and contiguous under solver-major order. */
module PlannerProperties {
  import opened Numbers
  import opened Sequences
  import opened Totals
  import opened Packing
  import opened Planner
  import opened BatchSize

  // ---------------------------------------------------------------- number of batches

  lemma {:induction false} BelowSize(n: nat) returns (s: set<nat>)
    ensures |s| == n && forall x: nat :: x in s <==> x < n
  {
    if n == 0 {
      s := {};
    } else {
      s := BelowSize(n - 1);
      s := s + {n - 1};
    }
  }

  /** Every batch has a member, so the batches are exactly the numbers in use. */
  lemma BatchesUsed(tasks: seq<Task>, ids: seq<nat>, batches: seq<seq<Task>>)
    requires Filed(tasks, ids, batches) && Numbered(ids)
    ensures |Elements(ids)| == |batches|
    ensures forall b: nat :: b in Elements(ids) <==> b < |batches|
  {
    forall b: nat | b < |batches|
      ensures b in Elements(ids)
    {
      var k :| 0 <= k < |ids| && ids[k] == |batches| - 1;
      var i := Downward(ids, k, b);
    }
    var below := BelowSize(|batches|);
    assert Elements(ids) == below;
  }

  /** Every batch is non-empty, within the limit and of one allocation key. */
  lemma BatchesWithinLimit(tasks: seq<Task>, solverMajor: bool, limit: nat, ids: seq<nat>, batches: seq<seq<Task>>)
    requires IsPlan(Keys(tasks, solverMajor), limit, ids) && Filed(tasks, ids, batches)
    ensures forall b :: 0 <= b < |batches| ==> 1 <= |batches[b]| <= limit
  {
    BatchesUsed(tasks, ids, batches);
    forall b | 0 <= b < |batches|
      ensures 1 <= |batches[b]| <= limit
    {
      MembersCount(tasks, ids, b);
      assert b in Elements(ids);
      var i :| 0 <= i < |ids| && ids[i] == b;
      assert i in At(ids, b);
    }
  }

  /** No assignment of the tasks that keeps allocation keys apart within the limit needs fewer batches. */
  lemma FewestBatches(tasks: seq<Task>, solverMajor: bool, limit: nat, ids: seq<nat>, batches: seq<seq<Task>>,
                      other: seq<nat>)
    requires IsPlan(Keys(tasks, solverMajor), limit, ids) && Filed(tasks, ids, batches)
    requires |other| == |tasks| && Homogeneous(Keys(tasks, solverMajor), other) && Limited(other, limit)
    ensures |batches| <= |Elements(other)|
  {
    BatchesUsed(tasks, ids, batches);
    PlanOptimal(Keys(tasks, solverMajor), limit, ids, other);
  }

  // ---------------------------------------------------------------- the suggested batch size

  lemma TooMany(size: nat, batches: int, keys: int, slots: nat)
    requires size >= 1 && keys >= 1 && batches - keys >= slots
    ensures size * (batches - keys) + keys > slots * size
  {
    Scale(size, slots, batches - keys);
  }

  lemma TwiceParallel(size: nat, batches: int, keys: int, slots: nat, total: nat)
    requires size >= 1 && keys >= 1
    requires total >= size * (batches - keys) + keys
    requires slots * size >= total
    ensures batches <= slots + keys - 1
  {
    if batches - keys >= slots {
      TooMany(size, batches, keys, slots);
    }
  }

  lemma TooFew(used: nat, smaller: nat, size: nat, slots: nat)
    requires smaller < size && used <= slots
    ensures smaller * used <= slots * (size - 1)
    ensures size == 1 ==> smaller * used == 0
  {
    Scale(smaller, used, slots);
    Scale(slots, smaller, size - 1);
    assert smaller * slots == slots * smaller;
  }

  lemma SomeKey<K>(keys: seq<K>)
    requires keys != []
    ensures |Elements(keys)| >= 1
  {
    assert keys[0] in Elements(keys);
    assert Elements(keys) != {};
  }

  lemma UsedBound<K>(keys: seq<K>, size: nat, ids: seq<nat>, parallelism: nat)
    requires |ids| == |keys| && Homogeneous(keys, ids) && FullBefore(keys, ids, size)
    requires keys != [] && LeastSufficient(|keys|, parallelism, size)
    ensures |Elements(ids)| <= 2 * parallelism + |Elements(keys)| - 1
  {
    PlanLoad(keys, size, ids);
    SomeKey(keys);
    TwiceParallel(size, |Elements(ids)|, |Elements(keys)|, 2 * parallelism, |keys|);
  }

  /** With the suggested size, at most two batches per parallel slot, plus one per further key. */
  lemma SuggestedSizeBound(tasks: seq<Task>, solverMajor: bool, size: nat, ids: seq<nat>, batches: seq<seq<Task>>,
                           parallelism: nat)
    requires IsPlan(Keys(tasks, solverMajor), size, ids) && Filed(tasks, ids, batches)
    requires tasks != [] && LeastSufficient(|tasks|, parallelism, size)
    ensures |batches| <= 2 * parallelism + |Elements(Keys(tasks, solverMajor))| - 1
  {
    BatchesUsed(tasks, ids, batches);
    UsedBound(Keys(tasks, solverMajor), size, ids, parallelism);
  }

  /** Any smaller size needs more than two batches per slot, however the tasks are distributed. */
  lemma SmallerSizeExceeds(total: nat, parallelism: nat, size: nat, smaller: nat, ids: seq<nat>)
    requires LeastSufficient(total, parallelism, size) && smaller < size
    requires |ids| == total && total > 0 && Limited(ids, smaller)
    ensures |Elements(ids)| > 2 * parallelism
  {
    AnyLoad(ids, smaller);
    if |Elements(ids)| <= 2 * parallelism {
      TooFew(|Elements(ids)|, smaller, size, 2 * parallelism);
    }
  }

  // ---------------------------------------------------------------- solver-major plans

  lemma {:induction false} GroupsRise(tasks: seq<Task>, i: nat, j: nat)
    requires i <= j < |tasks|
    ensures Group(tasks, true, i) <= Group(tasks, true, j)
    ensures Group(tasks, true, i) == Group(tasks, true, j) ==> tasks[i].configuration == tasks[j].configuration
  {
    if i < j {
      GroupsRise(tasks, i, j - 1);
    }
  }

  /** Under solver-major order the batch numbers never go back. */
  lemma BatchesInTaskOrder(tasks: seq<Task>, limit: nat, ids: seq<nat>, i: nat, j: nat)
    requires IsPlan(Keys(tasks, true), limit, ids) && i < j < |tasks|
    ensures ids[i] <= ids[j]
  {
    var keys := Keys(tasks, true);
    GroupsRise(tasks, i, j);
    if keys[i] != keys[j] && ids[j] < ids[i] {
      var k := Downward(ids, i, ids[j]);
      GroupsRise(tasks, k, i);
      assert false;
    }
  }

  /** A solver-major batch never spans two configurations. */
  lemma OneConfigurationEach(tasks: seq<Task>, limit: nat, ids: seq<nat>, i: nat, j: nat)
    requires IsPlan(Keys(tasks, true), limit, ids) && i < j < |tasks| && ids[i] == ids[j]
    ensures forall k :: i <= k <= j ==> tasks[k].configuration == tasks[i].configuration
  {
    var keys := Keys(tasks, true);
    assert keys[i] == keys[j];
    forall k | i <= k <= j
      ensures tasks[k].configuration == tasks[i].configuration
    {
      GroupsRise(tasks, i, k);
      GroupsRise(tasks, k, j);
    }
  }

  /** When configurations are contiguous, as solver-major order makes them, groups are configurations. */
  lemma {:induction false} GroupIsConfiguration(tasks: seq<Task>, i: nat, j: nat)
    requires i <= j < |tasks|
    requires tasks[i].configuration == tasks[j].configuration
    requires forall k :: i <= k <= j ==> tasks[k].configuration == tasks[i].configuration
    ensures Group(tasks, true, i) == Group(tasks, true, j)
  {
    if i < j {
      GroupIsConfiguration(tasks, i, j - 1);
    }
  }

  /** Sequences that repeat at the same places have equally many distinct elements. */
  lemma {:induction false} SameRepeats<A, B>(a: seq<A>, b: seq<B>)
    requires |a| == |b|
    requires forall i, j :: 0 <= i < |a| && 0 <= j < |a| ==> (a[i] == a[j] <==> b[i] == b[j])
    ensures |Elements(a)| == |Elements(b)|
  {
    if a == [] {
      assert Elements(a) == {} && Elements(b) == {};
    } else {
      var k := |a| - 1;
      SameRepeats(a[..k], b[..k]);
      ElementsLast(a);
      ElementsLast(b);
      assert a[k] in a[..k] <==> b[k] in b[..k] by {
        if a[k] in a[..k] {
          var i :| 0 <= i < k && a[i] == a[k];
          assert b[..k][i] == b[k];
        }
        if b[k] in b[..k] {
          var i :| 0 <= i < k && b[i] == b[k];
          assert a[..k][i] == a[k];
        }
      }
    }
  }

  lemma ElementsLast<A>(a: seq<A>)
    requires a != []
    ensures |Elements(a)| == |Elements(a[..|a| - 1])| + if a[|a| - 1] in a[..|a| - 1] then 0 else 1
  {
    assert Elements(a) == Elements(a[..|a| - 1]) + {a[|a| - 1]};
  }

  function Configurations(tasks: seq<Task>): (r: seq<Planner.Configuration>)
    ensures |r| == |tasks|
  {
    seq(|tasks|, i requires 0 <= i < |tasks| => tasks[i].configuration)
  }

  ghost predicate Contiguous(tasks: seq<Task>) {
    forall i, j, k :: 0 <= i <= k <= j < |tasks| && tasks[i].configuration == tasks[j].configuration ==>
      tasks[k].configuration == tasks[i].configuration
  }

  lemma SameKey(tasks: seq<Task>, i: nat, j: nat)
    requires Contiguous(tasks) && i <= j < |tasks|
    ensures KeyOf(tasks, true, i) == KeyOf(tasks, true, j) <==> tasks[i].configuration == tasks[j].configuration
  {
    GroupsRise(tasks, i, j);
    if tasks[i].configuration == tasks[j].configuration {
      GroupIsConfiguration(tasks, i, j);
    }
  }

  /** A solver-major table is planned with as many keys as it has configurations. */
  lemma KeysAreConfigurations(tasks: seq<Task>)
    requires Contiguous(tasks)
    ensures |Elements(Keys(tasks, true))| == |Elements(Configurations(tasks))|
  {
    var keys, configurations := Keys(tasks, true), Configurations(tasks);
    forall i, j | 0 <= i < |tasks| && 0 <= j < |tasks|
      ensures keys[i] == keys[j] <==> configurations[i] == configurations[j]
    {
      if i <= j {
        SameKey(tasks, i, j);
      } else {
        SameKey(tasks, j, i);
      }
    }
    SameRepeats(keys, configurations);
  }

  /** The first `n` batches, one after the other. */
  function Joint<T>(tasks: seq<T>, ids: seq<nat>, n: nat): seq<T>
    requires |ids| == |tasks|
  {
    if n == 0 then [] else Joint(tasks, ids, n - 1) + Members(tasks, ids, n - 1)
  }

  lemma {:induction false} JointUnaffected<T>(tasks: seq<T>, ids: seq<nat>, task: T, b: nat, n: nat)
    requires |ids| == |tasks| && n <= b
    ensures Joint(tasks + [task], ids + [b], n) == Joint(tasks, ids, n)
  {
    if n > 0 {
      JointUnaffected(tasks, ids, task, b, n - 1);
      MembersExtended(tasks, ids, task, b, n - 1);
    }
  }

  lemma {:induction false} JointNone<T>(n: nat)
    ensures Joint<T>([], [], n) == []
  {
    if n > 0 {
      JointNone<T>(n - 1);
    }
  }

  lemma JointEnds<T>(tasks: seq<T>, ids: seq<nat>, task: T, b: nat)
    requires |ids| == |tasks|
    ensures Joint(tasks + [task], ids + [b], b + 1) == Joint(tasks, ids, b + 1) + [task]
  {
    JointUnaffected(tasks, ids, task, b, b);
    MembersExtended(tasks, ids, task, b, b);
    Associate(Joint(tasks, ids, b), Members(tasks, ids, b), [task]);
  }

  lemma {:induction false} JointPast<T>(tasks: seq<T>, ids: seq<nat>, m: nat, n: nat)
    requires |ids| == |tasks| && m <= n
    requires forall i :: 0 <= i < |ids| ==> ids[i] < m
    ensures Joint(tasks, ids, n) == Joint(tasks, ids, m)
  {
    if m < n {
      JointPast(tasks, ids, m, n - 1);
      MembersCount(tasks, ids, n - 1);
      assert At(ids, n - 1) == {};
    }
  }

  /** Batches numbered in task order hold consecutive tasks: laid end to end they are the whole list. */
  lemma {:induction false} JointAll<T>(tasks: seq<T>, ids: seq<nat>, n: nat)
    requires |ids| == |tasks|
    requires forall i, j :: 0 <= i < j < |ids| ==> ids[i] <= ids[j]
    requires forall i :: 0 <= i < |ids| ==> ids[i] < n
    ensures Joint(tasks, ids, n) == tasks
    decreases |tasks|
  {
    if tasks == [] {
      JointNone<T>(n);
    } else {
      var k := |ids| - 1;
      var b := ids[k];
      JointPast(tasks, ids, b + 1, n);
      JointAll(tasks[..k], ids[..k], b + 1);
      JointEnds(tasks[..k], ids[..k], tasks[k], b);
      Split(tasks);
      Split(ids);
    }
  }

  lemma Split<T>(s: seq<T>)
    requires s != []
    ensures s == s[..|s| - 1] + [s[|s| - 1]]
  {
  }

  function Flatten<T>(batches: seq<seq<T>>): seq<T> {
    if batches == [] then [] else Flatten(batches[..|batches| - 1]) + batches[|batches| - 1]
  }

  lemma FlattenStep<T>(batches: seq<seq<T>>, n: nat)
    requires 0 < n <= |batches|
    ensures Flatten(batches[..n]) == Flatten(batches[..n - 1]) + batches[n - 1]
  {
    assert batches[..n][..n - 1] == batches[..n - 1];
  }

  lemma {:induction false} FlattenJoint(tasks: seq<Task>, ids: seq<nat>, batches: seq<seq<Task>>, n: nat)
    requires |ids| == |tasks| && n <= |batches|
    requires forall b :: 0 <= b < |batches| ==> batches[b] == Members(tasks, ids, b)
    ensures Flatten(batches[..n]) == Joint(tasks, ids, n)
  {
    if n == 0 {
      assert batches[..0] == [];
    } else {
      FlattenJoint(tasks, ids, batches, n - 1);
      FlattenStep(batches, n);
    }
  }

  /** Running the solver-major batches in order runs the tasks in order. */
  lemma SolverMajorKeepsOrder(tasks: seq<Task>, limit: nat, ids: seq<nat>, batches: seq<seq<Task>>)
    requires IsPlan(Keys(tasks, true), limit, ids) && Filed(tasks, ids, batches)
    ensures Flatten(batches) == tasks
  {
    forall i, j | 0 <= i < j < |ids|
      ensures ids[i] <= ids[j]
    {
      BatchesInTaskOrder(tasks, limit, ids, i, j);
    }
    JointAll(tasks, ids, |batches|);
    FlattenJoint(tasks, ids, batches, |batches|);
    assert batches[..|batches|] == batches;
  }

  // ---------------------------------------------------------------- which pairs may share a batch

  /** The same cores, threads per core, CPUs and exclusiveness. */
  predicate SameAllocation(a: Task, b: Task) {
    && a.configuration.allocation.cores == b.configuration.allocation.cores
    && a.configuration.allocation.threadsPerCore == b.configuration.allocation.threadsPerCore
    && a.configuration.allocation.cpus == b.configuration.allocation.cpus
    && a.configuration.allocation.exclusiveCpu == b.configuration.allocation.exclusiveCpu
    && a.configuration.allocation.exclusiveNode == b.configuration.allocation.exclusiveNode
  }

  /** Under solver-major order, no other configuration stands between the two. */
  predicate SameRun(tasks: seq<Task>, i: nat, j: nat)
    requires i <= j < |tasks|
  {
    forall k :: i <= k <= j ==> tasks[k].configuration == tasks[i].configuration
  }

  /** What may share a batch: pairs of the same allocation and, under solver-major order, of the same run. */
  predicate MayShare(tasks: seq<Task>, solverMajor: bool, i: nat, j: nat)
    requires i <= j < |tasks|
  {
    SameAllocation(tasks[i], tasks[j]) && (solverMajor ==> SameRun(tasks, i, j))
  }

  lemma KeyIsShared(tasks: seq<Task>, solverMajor: bool, i: nat, j: nat)
    requires i <= j < |tasks|
    ensures Keys(tasks, solverMajor)[i] == Keys(tasks, solverMajor)[j] <==> MayShare(tasks, solverMajor, i, j)
  {
    if solverMajor {
      if SameRun(tasks, i, j) {
        GroupIsConfiguration(tasks, i, j);
      }
      if Group(tasks, true, i) == Group(tasks, true, j) {
        forall k | i <= k <= j
          ensures tasks[k].configuration == tasks[i].configuration
        {
          GroupsRise(tasks, i, k);
          GroupsRise(tasks, k, j);
        }
      }
    } else {
      NoGroups(tasks, i);
      NoGroups(tasks, j);
    }
  }

  lemma NoGroups(tasks: seq<Task>, j: nat)
    requires j < |tasks|
    ensures Group(tasks, false, j) == 0
  {
  }

  /** An assignment of the pairs to batches in which only those share a batch that may. */
  ghost predicate Admissible(tasks: seq<Task>, solverMajor: bool, ids: seq<nat>)
    requires |ids| == |tasks|
  {
    forall i, j :: 0 <= i <= j < |tasks| && ids[i] == ids[j] ==> MayShare(tasks, solverMajor, i, j)
  }

  lemma AdmissibleExactly(tasks: seq<Task>, solverMajor: bool, ids: seq<nat>)
    requires |ids| == |tasks|
    ensures Admissible(tasks, solverMajor, ids) <==> Homogeneous(Keys(tasks, solverMajor), ids)
  {
    forall i, j | 0 <= i <= j < |tasks|
      ensures Keys(tasks, solverMajor)[i] == Keys(tasks, solverMajor)[j] <==> MayShare(tasks, solverMajor, i, j)
    {
      KeyIsShared(tasks, solverMajor, i, j);
    }
  }

  /** A plan mixes no two allocations in a batch, and no admissible assignment within the limit has fewer batches. */
  lemma FewestAdmissible(tasks: seq<Task>, solverMajor: bool, limit: nat, ids: seq<nat>, batches: seq<seq<Task>>,
                         other: seq<nat>)
    requires IsPlan(Keys(tasks, solverMajor), limit, ids) && Filed(tasks, ids, batches)
    requires |other| == |tasks| && Limited(other, limit)
    ensures Admissible(tasks, solverMajor, ids)
    ensures Admissible(tasks, solverMajor, other) ==> |batches| <= |Elements(other)|
  {
    AdmissibleExactly(tasks, solverMajor, ids);
    AdmissibleExactly(tasks, solverMajor, other);
    if Admissible(tasks, solverMajor, other) {
      FewestBatches(tasks, solverMajor, limit, ids, batches, other);
    }
  }

  // ---------------------------------------------------------------- every task exactly once

  /** In any plan, the batches together hold every task exactly once. */
  lemma {:induction false} EveryTaskOnce<T>(tasks: seq<T>, ids: seq<nat>, n: nat)
    requires |ids| == |tasks| && forall i :: 0 <= i < |ids| ==> ids[i] < n
    ensures multiset(Joint(tasks, ids, n)) == multiset(tasks)
  {
    if tasks == [] {
      JointNone<T>(n);
    } else {
      var k := |ids| - 1;
      EveryTaskOnce(tasks[..k], ids[..k], n);
      JointGains(tasks[..k], ids[..k], tasks[k], ids[k], n);
      Split(tasks);
      Split(ids);
    }
  }

  lemma MultisetLast<T>(a: seq<T>, x: T)
    ensures multiset(a + [x]) == multiset(a) + multiset{x}
  {
  }

  lemma MultisetAppend<T>(a: seq<T>, b: seq<T>, a': seq<T>, m: multiset<T>)
    requires multiset(a) == multiset(a') + m
    ensures multiset(a + b) == multiset(a' + b) + m
  {
  }

  lemma {:induction false} JointGains<T>(tasks: seq<T>, ids: seq<nat>, task: T, b: nat, n: nat)
    requires |ids| == |tasks| && b < n
    ensures multiset(Joint(tasks + [task], ids + [b], n)) == multiset(Joint(tasks, ids, n)) + multiset{task}
  {
    MembersExtended(tasks, ids, task, b, n - 1);
    if b == n - 1 {
      JointEnds(tasks, ids, task, b);
      MultisetLast(Joint(tasks, ids, n), task);
    } else {
      JointGains(tasks, ids, task, b, n - 1);
      MultisetAppend(Joint(tasks + [task], ids + [b], n - 1), Members(tasks, ids, n - 1),
                     Joint(tasks, ids, n - 1), multiset{task});
    }
  }

  lemma EveryTaskInOneBatch(tasks: seq<Task>, ids: seq<nat>, batches: seq<seq<Task>>)
    requires Filed(tasks, ids, batches)
    ensures multiset(Flatten(batches)) == multiset(tasks)
  {
    EveryTaskOnce(tasks, ids, |batches|);
    FlattenJoint(tasks, ids, batches, |batches|);
    assert batches[..|batches|] == batches;
  }
}
