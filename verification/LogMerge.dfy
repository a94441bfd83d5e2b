/** The three-way merge of summary rows and log archives, after `export` in `starexec_export.py`. */
module LogMerge {
  import opened Sequences
  import opened Options
  import opened StarExec
  import opened StableSort
  import opened Totals

  datatype Part = Part(error: bool, content: Content)

  /** One output file: the logs written for a pair, in order. */
  datatype File = File(task: nat, parts: seq<Part>)

  // ---------------------------------------------------------------- what is written

  function First(stream: seq<Log>, task: nat): Option<Content> {
    if stream == [] then None
    else if stream[0].task == task then Some(stream[0].content)
    else First(stream[1..], task)
  }

  function Found(log: Option<Content>, error: bool): seq<Part> {
    match log
    case Some(content) => [Part(error, content)]
    case None => []
  }

  function Parts(outs: seq<Log>, errs: seq<Log>, task: nat): seq<Part> {
    Found(First(outs, task), false) + Found(First(errs, task), true)
  }

  function FileFor(outs: seq<Log>, errs: seq<Log>, task: nat): seq<File> {
    if Parts(outs, errs, task) == [] then [] else [File(task, Parts(outs, errs, task))]
  }

  /** Log `k` is the first one of the task. */
  predicate IsFirst(stream: seq<Log>, task: nat, k: nat) {
    k < |stream| && stream[k].task == task && forall j :: 0 <= j < k ==> stream[j].task != task
  }

  lemma {:induction false} FirstExactly(stream: seq<Log>, task: nat)
    ensures First(stream, task).Some? <==> exists k: nat :: IsFirst(stream, task, k)
    ensures forall k: nat :: IsFirst(stream, task, k) ==> First(stream, task) == Some(stream[k].content)
  {
    if stream != [] {
      FirstExactly(stream[1..], task);
      if stream[0].task == task {
        assert IsFirst(stream, task, 0);
      } else {
        forall k: nat | IsFirst(stream, task, k)
          ensures IsFirst(stream[1..], task, k - 1)
        {
        }
        forall k: nat | IsFirst(stream[1..], task, k)
          ensures IsFirst(stream, task, k + 1)
        {
          assert forall j :: 0 < j < k + 1 ==> stream[j] == stream[1..][j - 1];
        }
      }
    }
  }

  /** What is written for a pair: its first output, marked as such, and behind that its first error output. */
  lemma PartsExactly(outs: seq<Log>, errs: seq<Log>, task: nat)
    ensures var parts := Parts(outs, errs, task);
            && |parts| == (if exists k: nat :: IsFirst(outs, task, k) then 1 else 0)
                          + (if exists k: nat :: IsFirst(errs, task, k) then 1 else 0)
            && (forall k: nat :: IsFirst(outs, task, k) ==> |parts| > 0 && parts[0] == Part(false, outs[k].content))
            && (forall k: nat :: IsFirst(errs, task, k) ==>
                  |parts| > 0 && parts[|parts| - 1] == Part(true, errs[k].content))
  {
    FirstExactly(outs, task);
    FirstExactly(errs, task);
  }

  /** A file for every row that has a log, in row order. */
  function Files(ids: seq<nat>, outs: seq<Log>, errs: seq<Log>): seq<File> {
    if ids == [] then []
    else Files(ids[..|ids| - 1], outs, errs) + FileFor(outs, errs, ids[|ids| - 1])
  }

  // ---------------------------------------------------------------- the merge loop

  ghost predicate Ordered(stream: seq<Log>) {
    forall i, j :: 0 <= i < j < |stream| ==> stream[i].task <= stream[j].task
  }

  /** Everything before position `p` belongs to tasks below `low`. */
  ghost predicate Behind(stream: seq<Log>, p: nat, low: nat) {
    p <= |stream| && forall k :: 0 <= k < p ==> stream[k].task < low
  }

  lemma {:induction false} FirstNone(stream: seq<Log>, task: nat)
    requires forall k :: 0 <= k < |stream| ==> stream[k].task != task
    ensures First(stream, task) == None
  {
    if stream != [] {
      FirstNone(stream[1..], task);
    }
  }

  /** In an ordered stream the first log of a task is at the position where the iterator stops. */
  lemma {:induction false} FirstAtHead(stream: seq<Log>, p: nat, task: nat)
    requires Ordered(stream) && Behind(stream, p, task)
    requires p < |stream| ==> stream[p].task >= task
    ensures First(stream, task) == if p < |stream| && stream[p].task == task then Some(stream[p].content) else None
  {
    if p > 0 {
      FirstAtHead(stream[1..], p - 1, task);
    } else if stream != [] && stream[0].task != task {
      FirstNone(stream, task);
    }
  }

  method Skip(stream: seq<Log>, p: nat, task: nat) returns (q: nat)
    requires p <= |stream|
    ensures p <= q <= |stream|
    ensures q < |stream| ==> stream[q].task >= task
    ensures Behind(stream, p, task) ==> Behind(stream, q, task)
  {
    q := p;
    while q < |stream| && stream[q].task < task
      invariant p <= q <= |stream|
      invariant Behind(stream, p, task) ==> Behind(stream, q, task)
    {
      q := q + 1;
    }
  }

  /** One row: both iterators are moved up, and matching heads are written and consumed. */
  method Row(task: nat, outs: seq<Log>, errs: seq<Log>, p: nat, q: nat)
    returns (parts: seq<Part>, p': nat, q': nat)
    requires p <= |outs| && q <= |errs|
    ensures p' <= |outs| && q' <= |errs|
    ensures Ordered(outs) && Ordered(errs) && Behind(outs, p, task) && Behind(errs, q, task) ==>
              parts == Parts(outs, errs, task) && Behind(outs, p', task + 1) && Behind(errs, q', task + 1)
  {
    p' := Skip(outs, p, task);
    q' := Skip(errs, q, task);
    if Ordered(outs) && Ordered(errs) && Behind(outs, p, task) && Behind(errs, q, task) {
      FirstAtHead(outs, p', task);
      FirstAtHead(errs, q', task);
    }
    parts := [];
    if p' < |outs| && outs[p'].task == task {
      parts := parts + [Part(false, outs[p'].content)];
      p' := p' + 1;
    }
    if q' < |errs| && errs[q'].task == task {
      parts := parts + [Part(true, errs[q'].content)];
      q' := q' + 1;
    }
  }

  lemma BehindMore(stream: seq<Log>, p: nat, low: nat, high: nat)
    requires Behind(stream, p, low) && low <= high
    ensures Behind(stream, p, high)
  {
  }

  method Merge(ids: seq<nat>, outs: seq<Log>, errs: seq<Log>) returns (files: seq<File>)
    requires Increasing(ids)
    ensures Ordered(outs) && Ordered(errs) ==> files == Files(ids, outs, errs)
  {
    files := [];
    var p: nat, q: nat := 0, 0;
    ghost var low: nat := 0;
    for j := 0 to |ids|
      invariant p <= |outs| && q <= |errs|
      invariant j < |ids| ==> low <= ids[j]
      invariant Ordered(outs) && Ordered(errs) ==>
          Behind(outs, p, low) && Behind(errs, q, low) && files == Files(ids[..j], outs, errs)
    {
      if Ordered(outs) && Ordered(errs) {
        BehindMore(outs, p, low, ids[j]);
        BehindMore(errs, q, low, ids[j]);
      }
      var parts;
      parts, p, q := Row(ids[j], outs, errs, p, q);
      if parts != [] {
        files := files + [File(ids[j], parts)];
      }
      low := ids[j] + 1;
      assert ids[..j + 1][..j] == ids[..j];
    }
    assert ids[..|ids|] == ids;
  }

  lemma {:induction false} ElementsBound<T>(s: seq<T>)
    ensures |Elements(s)| <= |s|
    ensures |Elements(s)| == |s| ==> Distinct(s)
  {
    if s == [] {
      assert Elements(s) == {};
    } else {
      var front := s[..|s| - 1];
      var last := s[|s| - 1];
      ElementsBound(front);
      assert s == front + [last];
      assert Elements(s) == Elements(front) + {last};
      if last in front {
        assert Elements(s) == Elements(front);
      }
    }
  }

  lemma SortedIncreasing(ids: seq<nat>)
    requires Distinct(ids)
    ensures Increasing(Sort(ids, (a: nat, b: nat) => a <= b))
  {
    var leq := (a: nat, b: nat) => a <= b;
    var sorted := Sort(ids, leq);
    SortSorts(ids, leq);
    SortMembers(ids, leq);
    DistinctCardinality(ids);
    assert Elements(sorted) == Elements(ids) by {
      assert forall x :: x in sorted <==> x in multiset(sorted);
      assert forall x :: x in ids <==> x in multiset(ids);
    }
    ElementsBound(sorted);
  }

  method Distinguish(ids: seq<nat>) returns (distinct: bool)
    ensures distinct <==> Distinct(ids)
  {
    var seen := set x | x in ids;
    assert seen == Elements(ids);
    ElementsBound(ids);
    if Distinct(ids) {
      DistinctCardinality(ids);
    }
    distinct := |seen| == |ids|;
  }

  /** The rows are checked for repeated pairs, sorted by number and joined with the logs. */
  method Export(ids: seq<nat>, outs: seq<Entry>, errs: seq<Entry>) returns (files: Option<seq<File>>)
    ensures files.Some? <==> Distinct(ids)
    ensures files.Some? && Ordered(Streams(outs)) && Ordered(Streams(errs)) ==>
              files.value == Files(Sort(ids, (a: nat, b: nat) => a <= b), Streams(outs), Streams(errs))
  {
    var distinct := Distinguish(ids);
    if !distinct {
      return None;
    }
    SortedIncreasing(ids);
    var merged := Merge(Sort(ids, (a: nat, b: nat) => a <= b), Streams(outs), Streams(errs));
    files := Some(merged);
  }

  // ---------------------------------------------------------------- conservation

  lemma {:induction false} StreamTasks(tasks: seq<Task>, error: bool)
    ensures forall i :: 0 <= i < |Stream(tasks, error)| ==> Stream(tasks, error)[i].task < |tasks|
    ensures Ordered(Stream(tasks, error))
  {
    if tasks != [] {
      StreamTasks(tasks[..|tasks| - 1], error);
    }
  }

  lemma {:induction false} FirstJoined(a: seq<Log>, b: seq<Log>, task: nat)
    ensures First(a + b, task) == if First(a, task).Some? then First(a, task) else First(b, task)
  {
    if a == [] {
      assert a + b == b;
    } else {
      FirstJoined(a[1..], b, task);
      assert (a + b)[1..] == a[1..] + b;
    }
  }

  /** The exported archive holds, for every task, the logs of that task. */
  lemma {:induction false} FirstOfStream(tasks: seq<Task>, error: bool, task: nat)
    requires task < |tasks|
    ensures First(Stream(tasks, error), task)
         == if Logs(tasks[task].members, error) == [] then None else Some(Logs(tasks[task].members, error)[0])
  {
    var k := |tasks| - 1;
    var front, logs := tasks[..k], Logs(tasks[k].members, error);
    FirstJoined(Stream(front, error), Numbered(k, logs), task);
    StreamTasks(front, error);
    if task == k {
      FirstNone(Stream(front, error), task);
      if logs != [] {
        assert Numbered(k, logs)[0] == Log(k, logs[0]);
      }
    } else {
      FirstOfStream(front, error, task);
      FirstNone(Numbered(k, logs), task);
    }
  }

  function Tagged(contents: seq<Content>, error: bool): seq<Part> {
    seq(|contents|, i requires 0 <= i < |contents| => Part(error, contents[i]))
  }

  /** All logs of a task, stdout before stderr. */
  function AllLogs(t: Task): seq<Part> {
    Tagged(Logs(t.members, false), false) + Tagged(Logs(t.members, true), true)
  }

  lemma FoundIsTagged(contents: seq<Content>, error: bool)
    ensures Found(if contents == [] then None else Some(contents[0]), error)
         == Tagged(if |contents| <= 1 then contents else [contents[0]], error)
  {
  }

  /** A pair's file holds exactly its own logs if and only if it has at most one log of each kind. */
  lemma EachLogOnce(tasks: seq<Task>, task: nat)
    requires task < |tasks|
    ensures Parts(Stream(tasks, false), Stream(tasks, true), task) == AllLogs(tasks[task]) <==>
            |Logs(tasks[task].members, false)| <= 1 && |Logs(tasks[task].members, true)| <= 1
  {
    var t := tasks[task];
    FirstOfStream(tasks, false, task);
    FirstOfStream(tasks, true, task);
    FoundIsTagged(Logs(t.members, false), false);
    FoundIsTagged(Logs(t.members, true), true);
  }

  lemma {:induction false} FilesHold(ids: seq<nat>, outs: seq<Log>, errs: seq<Log>, i: nat)
    requires Increasing(ids) && i < |ids|
    ensures Parts(outs, errs, ids[i]) != [] ==> File(ids[i], Parts(outs, errs, ids[i])) in Files(ids, outs, errs)
  {
    if i < |ids| - 1 {
      FilesHold(ids[..|ids| - 1], outs, errs, i);
    }
  }

  lemma {:induction false} FilesOnly(ids: seq<nat>, outs: seq<Log>, errs: seq<Log>, f: File)
    requires f in Files(ids, outs, errs)
    ensures f.task in ids && f.parts == Parts(outs, errs, f.task) != []
  {
    if f in Files(ids[..|ids| - 1], outs, errs) {
      FilesOnly(ids[..|ids| - 1], outs, errs, f);
    }
  }

  lemma {:induction false} FilesIncreasing(ids: seq<nat>, outs: seq<Log>, errs: seq<Log>, i: nat, j: nat)
    requires Increasing(ids) && i < j < |Files(ids, outs, errs)|
    ensures Files(ids, outs, errs)[i].task < Files(ids, outs, errs)[j].task
  {
    var front := Files(ids[..|ids| - 1], outs, errs);
    if j < |front| {
      FilesIncreasing(ids[..|ids| - 1], outs, errs, i, j);
    } else {
      FilesOnly(ids[..|ids| - 1], outs, errs, front[i]);
    }
  }

  /**
   The whole pipeline: filed under printed names, read back by number and merged with any list of
   distinct rows, every task's logs end up in its own file, stdout before stderr, and in no other.
   */
  lemma PipelineConservesLogs(tasks: seq<Task>, dirs: (string, string), ids: seq<nat>, task: nat)
    requires AllNameable(tasks) && Increasing(ids) && task in ids && task < |tasks|
    requires |Logs(tasks[task].members, false)| <= 1 && |Logs(tasks[task].members, true)| <= 1
    ensures var files := Files(ids, Streams(Filed(tasks, false, dirs.0)), Streams(Filed(tasks, true, dirs.1)));
            && (AllLogs(tasks[task]) != [] ==> File(task, AllLogs(tasks[task])) in files)
            && (forall f :: f in files && f.task == task ==> f.parts == AllLogs(tasks[task]))
  {
    StreamsOfFiled(tasks, false, dirs.0);
    StreamsOfFiled(tasks, true, dirs.1);
    var outs, errs := Stream(tasks, false), Stream(tasks, true);
    EachLogOnce(tasks, task);
    var i :| 0 <= i < |ids| && ids[i] == task;
    FilesHold(ids, outs, errs, i);
    forall f | f in Files(ids, outs, errs) && f.task == task
      ensures f.parts == AllLogs(tasks[task])
    {
      FilesOnly(ids, outs, errs, f);
    }
  }

  /** A second log of the same kind is never written. */
  lemma SecondLogLost(tasks: seq<Task>, task: nat)
    requires task < |tasks| && |Logs(tasks[task].members, false)| > 1
    ensures |Parts(Stream(tasks, false), Stream(tasks, true), task)| < |AllLogs(tasks[task])|
  {
    FirstOfStream(tasks, false, task);
    FirstOfStream(tasks, true, task);
  }
}
