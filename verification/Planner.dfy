/** Packing solver-problem pairs into batches, after `generate` in `implementation/slurmy.py`. */
module Planner {
  import opened Options
  import opened Packing

  datatype Allocation = Allocation(cores: nat, threadsPerCore: nat, cpus: nat, exclusiveCpu: bool, exclusiveNode: bool)

  datatype Configuration = Configuration(
    solver: string, solverRoot: string, command: string,
    wallLimit: nat, cpuLimit: nat, memoryLimit: nat, allocation: Allocation)

  datatype Task = Task(id: nat, problem: string, configuration: Configuration)

  /** What the batches of a task are opened under. */
  datatype Key = Key(group: nat, allocation: Allocation)

  /** With solver-major order, one group for every run of equal configurations; otherwise group 0. */
  function Group(tasks: seq<Task>, solverMajor: bool, j: nat): nat
    requires j < |tasks|
  {
    if !solverMajor then 0
    else if j == 0 then 1
    else Group(tasks, solverMajor, j - 1) + if tasks[j].configuration == tasks[j - 1].configuration then 0 else 1
  }

  function KeyOf(tasks: seq<Task>, solverMajor: bool, j: nat): Key
    requires j < |tasks|
  {
    Key(Group(tasks, solverMajor, j), tasks[j].configuration.allocation)
  }

  function Keys(tasks: seq<Task>, solverMajor: bool): (keys: seq<Key>)
    ensures |keys| == |tasks|
  {
    seq(|tasks|, j requires 0 <= j < |tasks| => KeyOf(tasks, solverMajor, j))
  }

  /** The tasks in batch `b`, in task order. */
  function Members<T>(tasks: seq<T>, ids: seq<nat>, b: nat): seq<T>
    requires |ids| == |tasks|
  {
    if ids == [] then []
    else
      Members(tasks[..|ids| - 1], ids[..|ids| - 1], b) +
      if ids[|ids| - 1] == b then [tasks[|ids| - 1]] else []
  }

  lemma MembersExtended<T>(tasks: seq<T>, ids: seq<nat>, task: T, b: nat, x: nat)
    requires |ids| == |tasks|
    ensures Members(tasks + [task], ids + [b], x) == Members(tasks, ids, x) + if x == b then [task] else []
  {
    assert (tasks + [task])[..|tasks|] == tasks && (ids + [b])[..|ids|] == ids;
  }

  /** A batch has as many members as the numbering gives it. */
  lemma {:induction false} MembersCount<T>(tasks: seq<T>, ids: seq<nat>, b: nat)
    requires |ids| == |tasks|
    ensures |Members(tasks, ids, b)| == |At(ids, b)|
  {
    if ids == [] {
      assert At(ids, b) == {};
    } else {
      var k := |ids| - 1;
      MembersCount(tasks[..k], ids[..k], b);
      AtExtended(ids[..k], ids[k], b);
      assert ids == ids[..k] + [ids[k]];
    }
  }

  ghost predicate Filed(tasks: seq<Task>, ids: seq<nat>, batches: seq<seq<Task>>) {
    && |ids| == |tasks|
    && (forall i :: 0 <= i < |ids| ==> ids[i] < |batches|)
    && (forall b :: 0 <= b < |batches| ==> batches[b] == Members(tasks, ids, b))
    && (|batches| > 0 ==> Uses(ids, |ids|, |batches| - 1))
  }

  /** The dictionary of open batches holds the last batch of every key seen so far. */
  ghost predicate Tracks(keys: seq<Key>, ids: seq<nat>, last: map<Key, nat>)
    requires |ids| == |keys|
  {
    && (forall key :: key in last ==> Latest(keys, ids, key, last[key]))
    && (forall i :: 0 <= i < |keys| ==> keys[i] in last)
  }

  lemma TracksExtended(keys: seq<Key>, ids: seq<nat>, last: map<Key, nat>, key: Key, b: nat)
    requires |ids| == |keys| && Tracks(keys, ids, last)
    requires Latest(keys + [key], ids + [b], key, b)
    ensures Tracks(keys + [key], ids + [b], last[key := b])
  {
    forall other | other in last && other != key
      ensures Latest(keys + [key], ids + [b], other, last[other])
    {
      LatestKept(keys, ids, key, b, other, last[other]);
    }
  }

  lemma FiledInLast(tasks: seq<Task>, ids: seq<nat>, batches: seq<seq<Task>>, task: Task, b: nat)
    requires Filed(tasks, ids, batches) && b < |batches|
    ensures Filed(tasks + [task], ids + [b], batches[b := batches[b] + [task]])
  {
    forall x | 0 <= x < |batches|
      ensures batches[b := batches[b] + [task]][x] == Members(tasks + [task], ids + [b], x)
    {
      MembersExtended(tasks, ids, task, b, x);
    }
    UsesExtended(ids, b, |ids|, |batches| - 1);
    assert Uses(ids + [b], |ids| + 1, |batches| - 1);
  }

  lemma FiledEmpty(tasks: seq<Task>, ids: seq<nat>, n: nat)
    requires |ids| == |tasks| && forall i :: 0 <= i < |ids| ==> ids[i] < n
    ensures Members(tasks, ids, n) == []
  {
    MembersCount(tasks, ids, n);
    assert At(ids, n) == {};
  }

  lemma FiledInNew(tasks: seq<Task>, ids: seq<nat>, batches: seq<seq<Task>>, task: Task)
    requires Filed(tasks, ids, batches)
    ensures Filed(tasks + [task], ids + [|batches|], batches + [[task]])
  {
    var n := |batches|;
    FiledEmpty(tasks, ids, n);
    forall x | 0 <= x <= n
      ensures (batches + [[task]])[x] == Members(tasks + [task], ids + [n], x)
    {
      MembersExtended(tasks, ids, task, n, x);
    }
    assert (ids + [n])[|ids|] == n;
  }

  /** Where the next task goes: its key's last batch, or a new one when there is none with room. */
  function Target(batches: seq<seq<Task>>, last: map<Key, nat>, key: Key, limit: nat): nat {
    if key in last && last[key] < |batches| && |batches[last[key]]| < limit then last[key] else |batches|
  }

  function Placed(batches: seq<seq<Task>>, b: nat, task: Task): seq<seq<Task>> {
    if b < |batches| then batches[b := batches[b] + [task]] else batches + [[task]]
  }

  lemma PlanExtended(tasks: seq<Task>, keys: seq<Key>, limit: nat, ids: seq<nat>, batches: seq<seq<Task>>,
                     last: map<Key, nat>, key: Key, b: nat)
    requires limit > 0 && IsPlan(keys, limit, ids) && Filed(tasks, ids, batches) && Tracks(keys, ids, last)
    requires b == Target(batches, last, key, limit)
    ensures IsPlan(keys + [key], limit, ids + [b])
    ensures Latest(keys + [key], ids + [b], key, b)
  {
    if key in last {
      var c := last[key];
      var i :| 0 <= i < |ids| && keys[i] == key && ids[i] == c;
      MembersCount(tasks, ids, c);
      if |batches[c]| < limit {
        Joined(keys, limit, ids, key, c);
      } else {
        AllFull(keys, limit, ids, key, c);
        Begun(keys, limit, ids, key, |batches|);
      }
    } else {
      Begun(keys, limit, ids, key, |batches|);
    }
  }

  /** What the loop has after the tasks in `done`. */
  ghost predicate Packed(done: seq<Task>, keys: seq<Key>, limit: nat,
                         batches: seq<seq<Task>>, ids: seq<nat>, last: map<Key, nat>) {
    && IsPlan(keys, limit, ids)
    && Filed(done, ids, batches)
    && Tracks(keys, ids, last)
  }

  lemma FiledExtended(done: seq<Task>, ids: seq<nat>, batches: seq<seq<Task>>, task: Task, b: nat)
    requires Filed(done, ids, batches) && b <= |batches|
    ensures Filed(done + [task], ids + [b], Placed(batches, b, task))
  {
    if b < |batches| {
      FiledInLast(done, ids, batches, task, b);
    } else {
      FiledInNew(done, ids, batches, task);
    }
  }

  lemma PackedExtended(done: seq<Task>, keys: seq<Key>, limit: nat, batches: seq<seq<Task>>, ids: seq<nat>,
                       last: map<Key, nat>, task: Task, key: Key, b: nat)
    requires limit > 0 && Packed(done, keys, limit, batches, ids, last)
    requires b == Target(batches, last, key, limit)
    ensures Packed(done + [task], keys + [key], limit, Placed(batches, b, task), ids + [b], last[key := b])
  {
    PlanExtended(done, keys, limit, ids, batches, last, key, b);
    TracksExtended(keys, ids, last, key, b);
    FiledExtended(done, ids, batches, task, b);
  }

  lemma LastInRange(done: seq<Task>, keys: seq<Key>, limit: nat, batches: seq<seq<Task>>, ids: seq<nat>,
                    last: map<Key, nat>, key: Key)
    requires Packed(done, keys, limit, batches, ids, last)
    ensures key in last ==> last[key] < |batches|
  {
    if key in last {
      var i :| 0 <= i < |ids| && ids[i] == last[key];
    }
  }

  /** `Packed` for a prefix of the whole list. */
  ghost predicate PackedTo(tasks: seq<Task>, keys: seq<Key>, limit: nat, j: nat,
                           batches: seq<seq<Task>>, ids: seq<nat>, last: map<Key, nat>) {
    j <= |tasks| == |keys| && Packed(tasks[..j], keys[..j], limit, batches, ids, last)
  }

  lemma PackedStart(tasks: seq<Task>, keys: seq<Key>, limit: nat)
    requires |tasks| == |keys|
    ensures PackedTo(tasks, keys, limit, 0, [], [], map[])
  {
    forall b
      ensures |At([], b)| == 0
    {
      assert At([], b) == {};
    }
  }

  lemma PackedStep(tasks: seq<Task>, keys: seq<Key>, limit: nat, j: nat,
                   batches: seq<seq<Task>>, ids: seq<nat>, last: map<Key, nat>, b: nat)
    requires limit > 0 && j < |tasks| && PackedTo(tasks, keys, limit, j, batches, ids, last)
    requires b == Target(batches, last, keys[j], limit)
    ensures PackedTo(tasks, keys, limit, j + 1, Placed(batches, b, tasks[j]), ids + [b], last[keys[j] := b])
    ensures keys[j] in last ==> last[keys[j]] < |batches|
  {
    PackedExtended(tasks[..j], keys[..j], limit, batches, ids, last, tasks[j], keys[j], b);
    LastInRange(tasks[..j], keys[..j], limit, batches, ids, last, keys[j]);
    assert tasks[..j] + [tasks[j]] == tasks[..j + 1];
    assert keys[..j] + [keys[j]] == keys[..j + 1];
  }

  lemma PackedEnd(tasks: seq<Task>, keys: seq<Key>, limit: nat,
                  batches: seq<seq<Task>>, ids: seq<nat>, last: map<Key, nat>)
    requires PackedTo(tasks, keys, limit, |tasks|, batches, ids, last)
    ensures IsPlan(keys, limit, ids) && Filed(tasks, ids, batches)
  {
    assert tasks[..|tasks|] == tasks && keys[..|keys|] == keys;
  }

  /** The packing loop: each task is appended to one batch and remembers which. */
  method Plan(tasks: seq<Task>, limit: nat, solverMajor: bool)
    returns (batches: seq<seq<Task>>, ids: seq<nat>)
    requires limit > 0
    ensures IsPlan(Keys(tasks, solverMajor), limit, ids)
    ensures Filed(tasks, ids, batches)
  {
    batches, ids := [], [];
    var last: map<Key, nat> := map[];
    var previous := None;
    var group := 0;
    var j := 0;
    ghost var all := Keys(tasks, solverMajor);
    PackedStart(tasks, all, limit);
    while j < |tasks|
      invariant 0 <= j <= |tasks|
      invariant Trails(tasks, solverMajor, j, previous, group)
      invariant PackedTo(tasks, all, limit, j, batches, ids, last)
    {
      var key;
      key, previous, group := NextKey(tasks, solverMajor, j, previous, group);
      PackedStep(tasks, all, limit, j, batches, ids, last, Target(batches, last, key, limit));
      var b: nat;
      batches, last, b := File(batches, last, key, tasks[j], limit);
      ids := ids + [b];
      j := j + 1;
    }
    PackedEnd(tasks, all, limit, batches, ids, last);
  }

  ghost predicate Trails(tasks: seq<Task>, solverMajor: bool, j: nat, previous: Option<Configuration>, group: nat) {
    && j <= |tasks|
    && previous == (if j == 0 then None else Some(tasks[j - 1].configuration))
    && group == (if j == 0 then 0 else Group(tasks, solverMajor, j - 1))
  }

  /** The allocation key of the next task; a changed configuration starts a new group. */
  method NextKey(tasks: seq<Task>, solverMajor: bool, j: nat, previous: Option<Configuration>, group: nat)
    returns (key: Key, previous': Option<Configuration>, group': nat)
    requires j < |tasks| && Trails(tasks, solverMajor, j, previous, group)
    ensures key == KeyOf(tasks, solverMajor, j) == Keys(tasks, solverMajor)[j]
    ensures Trails(tasks, solverMajor, j + 1, previous', group')
  {
    var configuration := tasks[j].configuration;
    group' := group;
    if solverMajor && Some(configuration) != previous {
      group' := group' + 1;
    }
    previous' := Some(configuration);
    key := Key(group', configuration.allocation);
  }

  /** One turn: find the batch, opening one if need be, and append. */
  method File(batches: seq<seq<Task>>, last: map<Key, nat>, key: Key, task: Task, limit: nat)
    returns (batches': seq<seq<Task>>, last': map<Key, nat>, b: nat)
    requires key in last ==> last[key] < |batches|
    ensures b == Target(batches, last, key, limit)
    ensures batches' == Placed(batches, b, task)
    ensures last' == last[key := b]
  {
    batches', last' := batches, last;
    if key !in last || |batches[last[key]]| >= limit {
      b := |batches|;
      batches' := batches' + [[]];
      last' := last'[key := b];
    } else {
      b := last[key];
    }
    batches' := batches'[b := batches'[b] + [task]];
    assert [] + [task] == [task];
  }
}
