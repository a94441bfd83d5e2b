/**
 From job archives to StarExec output: `export` in `remote_export.py` files every log under a
 name, `export` in `starexec_export.py` joins the two log archives with the summary rows.
 */
module StarExec {
  import opened Sequences
  import opened Options
  import opened StreamNames

  type Content = seq<string>

  /** A file in a task's result archive. */
  datatype Member = Member(isFile: bool, name: string, content: Content)

  datatype Task = Task(solver: string, problem: string, members: seq<Member>)

  /** A log in one of the two exported archives. */
  datatype Entry = Entry(name: string, content: Content)

  // ---------------------------------------------------------------- filing the logs

  predicate IsLog(m: Member, error: bool) {
    m.isFile && EndsWith(m.name, if error then ".solver-stderr.log" else ".solver.log")
  }

  /** The logs of one kind among the members, in archive order. */
  function Logs(members: seq<Member>, error: bool): seq<Content> {
    if members == [] then []
    else
      var m := members[|members| - 1];
      Logs(members[..|members| - 1], error) + if IsLog(m, error) then [m.content] else []
  }

  function Named(name: string, contents: seq<Content>): seq<Entry> {
    seq(|contents|, i requires 0 <= i < |contents| => Entry(name, contents[i]))
  }

  /** Only tasks that have logs need a usable solver name. */
  predicate Nameable(t: Task, task: nat) {
    forall error | error in {false, true} ::
      Logs(t.members, error) != [] ==> StreamName(t.solver, t.problem, task, error).Some?
  }

  function FiledName(t: Task, task: nat, error: bool, directory: string): string {
    match StreamName(t.solver, t.problem, task, error)
    case Some(name) => directory + name
    case None => directory
  }

  /** One exported archive: the logs of task 0, then those of task 1, and so on. */
  function Filed(tasks: seq<Task>, error: bool, directory: string): seq<Entry> {
    if tasks == [] then []
    else
      var k := |tasks| - 1;
      Filed(tasks[..k], error, directory)
      + Named(FiledName(tasks[k], k, error, directory), Logs(tasks[k].members, error))
  }

  lemma SuffixAt(s: string, suffix: string, k: nat)
    requires EndsWith(s, suffix) && k < |suffix|
    ensures s[|s| - |suffix| + k] == suffix[k]
  {
    assert s[|s| - |suffix|..][k] == suffix[k];
  }

  /** No member is both kinds of log. */
  lemma KindsDiffer(m: Member)
    ensures !(IsLog(m, false) && IsLog(m, true))
  {
    if IsLog(m, false) {
      SuffixAt(m.name, ".solver.log", 4);
    }
    if IsLog(m, true) {
      SuffixAt(m.name, ".solver-stderr.log", 11);
    }
  }

  /** What makes a member a log of the solver's output, or of its error output. */
  lemma KindExactly(m: Member)
    ensures IsLog(m, false) <==> m.isFile && exists front :: m.name == front + ".solver.log"
    ensures IsLog(m, true) <==> m.isFile && exists front :: m.name == front + ".solver-stderr.log"
  {
    SuffixExactly(m.name, ".solver.log");
    SuffixExactly(m.name, ".solver-stderr.log");
  }

  lemma SuffixExactly(s: string, suffix: string)
    ensures EndsWith(s, suffix) <==> exists front :: s == front + suffix
  {
    if EndsWith(s, suffix) {
      assert s == s[..|s| - |suffix|] + suffix;
    }
    forall front | s == front + suffix
      ensures EndsWith(s, suffix)
    {
      SuffixOf(front, suffix);
    }
  }

  method FileMember(m: Member, t: Task, task: nat, outs: seq<Entry>, errs: seq<Entry>, dirs: (string, string))
    returns (ok: bool, outs': seq<Entry>, errs': seq<Entry>)
    ensures ok <==> forall error | error in {false, true} ::
                      IsLog(m, error) ==> StreamName(t.solver, t.problem, task, error).Some?
    ensures ok ==> outs' == outs + Named(FiledName(t, task, false, dirs.0), if IsLog(m, false) then [m.content] else [])
    ensures ok ==> errs' == errs + Named(FiledName(t, task, true, dirs.1), if IsLog(m, true) then [m.content] else [])
  {
    KindsDiffer(m);
    ok, outs', errs' := true, outs, errs;
    if IsLog(m, false) {
      var name := StreamName(t.solver, t.problem, task, false);
      if name.None? {
        return false, outs, errs;
      }
      outs' := outs + [Entry(dirs.0 + name.value, m.content)];
    } else if IsLog(m, true) {
      var name := StreamName(t.solver, t.problem, task, true);
      if name.None? {
        return false, outs, errs;
      }
      errs' := errs + [Entry(dirs.1 + name.value, m.content)];
    }
  }

  lemma NamedJoined(name: string, a: seq<Content>, b: seq<Content>, before: seq<Entry>)
    ensures before + Named(name, a) + Named(name, b) == before + Named(name, a + b)
  {
  }

  lemma LogsStep(members: seq<Member>, i: nat, error: bool)
    requires i < |members|
    ensures Logs(members[..i + 1], error)
         == Logs(members[..i], error) + if IsLog(members[i], error) then [members[i].content] else []
  {
    assert members[..i + 1][..i] == members[..i];
  }

  lemma {:induction false} LogsGrow(members: seq<Member>, i: nat, error: bool)
    requires i <= |members| && Logs(members[..i], error) != []
    ensures Logs(members, error) != []
    decreases |members| - i
  {
    if i == |members| {
      assert members[..i] == members;
    } else {
      LogsStep(members, i, error);
      LogsGrow(members, i + 1, error);
    }
  }

  lemma Unnameable(t: Task, task: nat, i: nat, error: bool)
    requires i < |t.members| && IsLog(t.members[i], error) && StreamName(t.solver, t.problem, task, error).None?
    ensures !Nameable(t, task)
  {
    LogsStep(t.members, i, error);
    LogsGrow(t.members, i + 1, error);
  }

  function LogsFiled(t: Task, task: nat, i: nat, error: bool, directory: string): seq<Entry>
    requires i <= |t.members|
  {
    Named(FiledName(t, task, error, directory), Logs(t.members[..i], error))
  }

  lemma LogsFiledStep(t: Task, task: nat, i: nat, error: bool, directory: string, before: seq<Entry>)
    requires i < |t.members|
    ensures before + LogsFiled(t, task, i + 1, error, directory)
         == before + LogsFiled(t, task, i, error, directory)
            + Named(FiledName(t, task, error, directory),
                    if IsLog(t.members[i], error) then [t.members[i].content] else [])
  {
    LogsStep(t.members, i, error);
    NamedJoined(FiledName(t, task, error, directory), Logs(t.members[..i], error),
                if IsLog(t.members[i], error) then [t.members[i].content] else [], before);
  }

  lemma LogsFiledAll(t: Task, task: nat, error: bool, directory: string)
    ensures LogsFiled(t, task, |t.members|, error, directory)
         == Named(FiledName(t, task, error, directory), Logs(t.members, error))
    ensures LogsFiled(t, task, 0, error, directory) == []
  {
    assert t.members[..|t.members|] == t.members;
  }

  lemma NameableStep(t: Task, task: nat, i: nat)
    requires i < |t.members|
    requires NamesUpTo(t, task, i)
    requires forall error | error in {false, true} ::
               IsLog(t.members[i], error) ==> StreamName(t.solver, t.problem, task, error).Some?
    ensures NamesUpTo(t, task, i + 1)
  {
    LogsStep(t.members, i, false);
    LogsStep(t.members, i, true);
  }

  predicate NamesUpTo(t: Task, task: nat, i: nat)
    requires i <= |t.members|
  {
    forall error | error in {false, true} ::
      Logs(t.members[..i], error) != [] ==> StreamName(t.solver, t.problem, task, error).Some?
  }

  /** The members of one task's archive are copied to the two exported archives. */
  method FileTask(t: Task, task: nat, outs: seq<Entry>, errs: seq<Entry>, dirs: (string, string))
    returns (ok: bool, outs': seq<Entry>, errs': seq<Entry>)
    ensures ok <==> Nameable(t, task)
    ensures ok ==> outs' == outs + Named(FiledName(t, task, false, dirs.0), Logs(t.members, false))
    ensures ok ==> errs' == errs + Named(FiledName(t, task, true, dirs.1), Logs(t.members, true))
  {
    ok, outs', errs' := true, outs, errs;
    LogsFiledAll(t, task, false, dirs.0);
    LogsFiledAll(t, task, true, dirs.1);
    for i := 0 to |t.members|
      invariant ok && NamesUpTo(t, task, i)
      invariant outs' == outs + LogsFiled(t, task, i, false, dirs.0)
      invariant errs' == errs + LogsFiled(t, task, i, true, dirs.1)
    {
      ok, outs', errs' := FileMember(t.members[i], t, task, outs', errs', dirs);
      if !ok {
        ghost var error := !(IsLog(t.members[i], false) && StreamName(t.solver, t.problem, task, false).None?);
        Unnameable(t, task, i, error);
        return;
      }
      NameableStep(t, task, i);
      LogsFiledStep(t, task, i, false, dirs.0, outs);
      LogsFiledStep(t, task, i, true, dirs.1, errs);
    }
    assert t.members[..|t.members|] == t.members;
  }

  predicate AllNameable(tasks: seq<Task>) {
    tasks == [] || (AllNameable(tasks[..|tasks| - 1]) && Nameable(tasks[|tasks| - 1], |tasks| - 1))
  }

  lemma FiledStep(tasks: seq<Task>, k: nat, error: bool, directory: string)
    requires k < |tasks|
    ensures Filed(tasks[..k + 1], error, directory)
         == Filed(tasks[..k], error, directory)
            + Named(FiledName(tasks[k], k, error, directory), Logs(tasks[k].members, error))
    ensures AllNameable(tasks[..k + 1]) <==> AllNameable(tasks[..k]) && Nameable(tasks[k], k)
  {
    assert tasks[..k + 1][..k] == tasks[..k];
  }

  lemma {:induction false} UnnameableStops(tasks: seq<Task>, k: nat)
    requires k <= |tasks| && AllNameable(tasks)
    ensures AllNameable(tasks[..k])
  {
    if k == |tasks| {
      assert tasks[..k] == tasks;
    } else {
      UnnameableStops(tasks[..|tasks| - 1], k);
      assert tasks[..|tasks| - 1][..k] == tasks[..k];
    }
  }

  /** All tasks in order; an unusable name stops the export. */
  method FileAll(tasks: seq<Task>, dirs: (string, string)) returns (ok: bool, outs: seq<Entry>, errs: seq<Entry>)
    ensures ok <==> AllNameable(tasks)
    ensures ok ==> outs == Filed(tasks, false, dirs.0) && errs == Filed(tasks, true, dirs.1)
  {
    ok, outs, errs := true, [], [];
    for k := 0 to |tasks|
      invariant ok && AllNameable(tasks[..k])
      invariant outs == Filed(tasks[..k], false, dirs.0) && errs == Filed(tasks[..k], true, dirs.1)
    {
      ok, outs, errs := FileTask(tasks[k], k, outs, errs, dirs);
      FiledStep(tasks, k, false, dirs.0);
      FiledStep(tasks, k, true, dirs.1);
      if !ok {
        if AllNameable(tasks) {
          UnnameableStops(tasks, k + 1);
        }
        return;
      }
    }
    assert tasks[..|tasks|] == tasks;
  }

  // ---------------------------------------------------------------- reading the archives back

  datatype Log = Log(task: nat, content: Content)

  /** The entries whose names carry a pair number. */
  function Streams(entries: seq<Entry>): seq<Log> {
    if entries == [] then []
    else
      var e := entries[|entries| - 1];
      Streams(entries[..|entries| - 1]) +
      match PairId(e.name) { case Some(id) => [Log(id, e.content)] case None => [] }
  }

  function Numbered(task: nat, contents: seq<Content>): seq<Log> {
    seq(|contents|, i requires 0 <= i < |contents| => Log(task, contents[i]))
  }

  /** The logs of all tasks with their numbers, task by task. */
  function Stream(tasks: seq<Task>, error: bool): seq<Log> {
    if tasks == [] then []
    else
      var k := |tasks| - 1;
      Stream(tasks[..k], error) + Numbered(k, Logs(tasks[k].members, error))
  }

  lemma {:induction false} StreamsNamed(before: seq<Entry>, name: string, task: nat, contents: seq<Content>)
    requires contents == [] || PairId(name) == Some(task)
    ensures Streams(before + Named(name, contents)) == Streams(before) + Numbered(task, contents)
  {
    if contents == [] {
      assert before + Named(name, contents) == before;
      assert Streams(before) + Numbered(task, contents) == Streams(before);
    } else {
      var k := |contents| - 1;
      StreamsNamed(before, name, task, contents[..k]);
      assert (before + Named(name, contents))[..|before| + k] == before + Named(name, contents[..k]);
      assert Numbered(task, contents) == Numbered(task, contents[..k]) + [Log(task, contents[k])];
      Associate(Streams(before), Numbered(task, contents[..k]), [Log(task, contents[k])]);
    }
  }

  /** Every filed log is read back under its own task. */
  lemma {:induction false} StreamsOfFiled(tasks: seq<Task>, error: bool, directory: string)
    requires AllNameable(tasks)
    ensures Streams(Filed(tasks, error, directory)) == Stream(tasks, error)
  {
    if tasks != [] {
      var k := |tasks| - 1;
      var t := tasks[k];
      StreamsOfFiled(tasks[..k], error, directory);
      if Logs(t.members, error) != [] {
        assert Nameable(t, k) && error in {false, true};
        NameGivesTask(directory, t.solver, t.problem, k, error);
      }
      StreamsNamed(Filed(tasks[..k], error, directory), FiledName(t, k, error, directory), k, Logs(t.members, error));
    }
  }

  lemma {:induction false} LogAmong(members: seq<Member>, error: bool, content: Content)
    ensures content in Logs(members, error) <==>
              exists i :: 0 <= i < |members| && IsLog(members[i], error) && members[i].content == content
  {
    if members != [] {
      var n := |members| - 1;
      LogAmong(members[..n], error, content);
      assert forall i :: 0 <= i < n ==> members[..n][i] == members[i];
      if content in Logs(members[..n], error) {
        var i :| 0 <= i < n && IsLog(members[i], error) && members[i].content == content;
      }
    }
  }

  lemma {:induction false} StreamAmong(tasks: seq<Task>, error: bool, log: Log)
    ensures log in Stream(tasks, error) <==>
              log.task < |tasks| && log.content in Logs(tasks[log.task].members, error)
  {
    if tasks != [] {
      var k := |tasks| - 1;
      var last := Numbered(k, Logs(tasks[k].members, error));
      StreamAmong(tasks[..k], error, log);
      assert log in last <==> log.task == k && log.content in Logs(tasks[k].members, error) by {
        if log.task == k && log.content in Logs(tasks[k].members, error) {
          var i :| 0 <= i < |Logs(tasks[k].members, error)| && Logs(tasks[k].members, error)[i] == log.content;
          assert last[i] == log;
        }
      }
    }
  }

  /** The text is a file of the archive whose name ends so. */
  ghost predicate Archived(t: Task, suffix: string, content: Content) {
    exists i, front :: 0 <= i < |t.members| && t.members[i] == Member(true, front + suffix, content)
  }

  lemma ArchivedExactly(t: Task, content: Content)
    ensures content in Logs(t.members, false) <==> Archived(t, ".solver.log", content)
    ensures content in Logs(t.members, true) <==> Archived(t, ".solver-stderr.log", content)
  {
    LogAmong(t.members, false, content);
    LogAmong(t.members, true, content);
    forall i | 0 <= i < |t.members|
      ensures IsLog(t.members[i], false) <==>
                t.members[i].isFile && exists front :: t.members[i].name == front + ".solver.log"
      ensures IsLog(t.members[i], true) <==>
                t.members[i].isFile && exists front :: t.members[i].name == front + ".solver-stderr.log"
    {
      KindExactly(t.members[i]);
    }
    FromArchive(t, ".solver.log", content);
    FromArchive(t, ".solver-stderr.log", content);
  }

  lemma FromArchive(t: Task, suffix: string, content: Content)
    ensures Archived(t, suffix, content) <==>
              exists i :: 0 <= i < |t.members| && t.members[i].content == content
                          && t.members[i].isFile && exists front :: t.members[i].name == front + suffix
  {
    forall i, front | 0 <= i < |t.members| && t.members[i].content == content && t.members[i].isFile
                      && t.members[i].name == front + suffix
      ensures t.members[i] == Member(true, front + suffix, content)
    {
    }
  }

  /** The first archive gives back, under each number, that task's output, the second its error output, and no more. */
  lemma ArchivesHold(tasks: seq<Task>, dirs: (string, string), log: Log)
    requires AllNameable(tasks)
    ensures log in Streams(Filed(tasks, false, dirs.0)) <==>
              log.task < |tasks| && Archived(tasks[log.task], ".solver.log", log.content)
    ensures log in Streams(Filed(tasks, true, dirs.1)) <==>
              log.task < |tasks| && Archived(tasks[log.task], ".solver-stderr.log", log.content)
  {
    StreamsOfFiled(tasks, false, dirs.0);
    StreamsOfFiled(tasks, true, dirs.1);
    StreamAmong(tasks, false, log);
    StreamAmong(tasks, true, log);
    if log.task < |tasks| {
      ArchivedExactly(tasks[log.task], log.content);
    }
  }
}
