/**
 The table of solver-problem pairs, after `task_rows`, `sorted_call_rows` and `task_page`
 in `web-app/slurmy_web/app.py`: full rows are built only for the page that is shown
 unless the sort needs a derived column.
 */
module TaskPage {
  import opened Sequences
  import opened Options
  import opened StableSort
  import opened Decimal
  import Names
  import Division

  type Pos = n: int | n >= 1 witness 1

  datatype Definition = Definition(solver: string, problem: string)

  /** A published result. `outcome` is what the state column shows for it. */
  datatype Result = Result(complete: bool, outcome: string, wall: Option<real>, cpu: Option<real>,
                           memoryKib: Option<nat>)

  datatype Progress = Progress(taskId: nat, running: bool, started: Option<real>)

  /** What the scheduler diagnosis says about an unfinished pair. */
  datatype Diagnosis = Diagnosis(state: string, willRun: string, reason: string)

  datatype Job = Job(tasks: map<nat, Definition>, results: map<nat, Result>,
                     callProgress: map<nat, Progress>, progress: map<nat, Progress>, batchSize: Pos)

  /** Parts taken as given: the diagnosis of unfinished pairs, the running node, the clock, case folding. */
  datatype Context = Context(diagnose: (nat, Option<Progress>) -> Diagnosis, node: nat -> string, now: real,
                             fold: string -> string)

  datatype Row = Row(id: nat, finished: bool, solver: string, problem: string, state: string, willRun: string,
                     reason: string, node: string, wall: Option<real>, cpu: Option<real>, memory: Option<real>)

  datatype Value = Absent | Text(text: string) | Number(number: real)

  const CALL_SORT_FIELDS := {"id", "solver", "problem", "state", "will_run", "node", "reason", "cpu", "wall", "memory"}
  const DERIVED := {"state", "will_run", "node", "reason"}

  function Get<V>(m: map<nat, V>, k: nat): Option<V> {
    if k in m then Some(m[k]) else None
  }

  // ---------------------------------------------------------------- full rows

  /** A pair's own progress record, or the one of its batch when that names the pair. */
  function ProgressOf(job: Job, id: nat): Option<Progress>
  {
    if id in job.callProgress then Some(job.callProgress[id])
    else
      match Get(job.progress, id / job.batchSize)
      case Some(p) => if p.taskId == id then Some(p) else None
      case None => None
  }

  function Elapsed(p: Progress, now: real): Option<real> {
    match p.started
    case None => None
    case Some(t) => if t == 0.0 then None else if now - t > 0.0 then Some(now - t) else Some(0.0)
  }

  function Memory(r: Result): Option<real> {
    match r.memoryKib
    case Some(n) => Some((n * 1024) as real)
    case None => None
  }

  function TaskRow(job: Job, context: Context, id: nat): (row: Row)
    ensures row.id == id
  {
    var definition := Get(job.tasks, id);
    var solver := if definition.Some? then definition.value.solver else "";
    var problem := if definition.Some? then definition.value.problem else "";
    match Get(job.results, id)
    case Some(r) =>
      Row(id, r.complete, solver, problem, r.outcome, "", "", context.node(id), r.wall, r.cpu, Memory(r))
    case None =>
      var p := ProgressOf(job, id);
      var d := context.diagnose(id, p);
      var wall := if p.Some? && p.value.running && d.state == "running" then Elapsed(p.value, context.now) else None;
      Row(id, false, solver, problem, d.state, d.willRun, d.reason, context.node(id), wall, None, None)
  }

  function FromText(s: string): Value { if s == "" then Absent else Text(s) }

  function FromNumber(n: Option<real>): Value { if n.Some? then Number(n.value) else Absent }

  /** The value of a column; a missing measurement and an empty text both count as absent. */
  function Column(row: Row, field: string): Value {
    if field == "id" then Number(row.id as real)
    else if field == "solver" then FromText(row.solver)
    else if field == "problem" then FromText(row.problem)
    else if field == "state" then FromText(row.state)
    else if field == "will_run" then FromText(row.willRun)
    else if field == "node" then FromText(row.node)
    else if field == "reason" then FromText(row.reason)
    else if field == "cpu" then FromNumber(row.cpu)
    else if field == "memory" then FromNumber(row.memory)
    else FromNumber(row.wall)
  }

  // ---------------------------------------------------------------- sorting

  /**
   Texts are compared after case folding, numbers by size. A column never mixes the two, and absent
   values are not compared by the program; here they come first, then numbers, then texts.
   */
  predicate Less(fold: string -> string, a: Value, b: Value) {
    match (a, b)
    case (Text(s), Text(t)) => Names.Precedes(fold(s), fold(t))
    case (Number(m), Number(n)) => m < n
    case (Number(_), Text(_)) => true
    case (Absent, _) => !b.Absent?
    case _ => false
  }

  predicate AtMost(fold: string -> string, a: Value, i: nat, b: Value, j: nat) {
    Less(fold, a, b) || (!Less(fold, b, a) && i <= j)
  }

  function RowOrder(fold: string -> string, field: string): (Row, Row) -> bool {
    (a: Row, b: Row) => AtMost(fold, Column(a, field), a.id, Column(b, field), b.id)
  }

  function Directed<T>(s: seq<T>, leq: (T, T) -> bool, direction: string): seq<T> {
    if direction == "desc" then SortDown(s, leq) else Sort(s, leq)
  }

  predicate ValidSort(field: string, direction: string) {
    field in CALL_SORT_FIELDS && direction in {"asc", "desc"}
  }

  /** Present values sorted, absent ones last in either direction. */
  function SortedRows(rows: seq<Row>, fold: string -> string, field: string, direction: string): seq<Row> {
    Directed(Filter(rows, (row: Row) => Column(row, field) != Absent), RowOrder(fold, field), direction)
    + Filter(rows, (row: Row) => Column(row, field) == Absent)
  }

  function Slice<T>(s: seq<T>, start: nat, end: nat): seq<T>
    requires start <= end
  {
    s[if start < |s| then start else |s|..if end < |s| then end else |s|]
  }

  function Page<T>(s: seq<T>, page: nat, perPage: nat): seq<T> {
    var start: nat := page * perPage;
    Slice(s, start, start + perPage)
  }

  function Rows(job: Job, context: Context, ids: seq<nat>): seq<Row>
  {
    Map(ids, (id: nat) => TaskRow(job, context, id))
  }

  // ---------------------------------------------------------------- the full rows really are sorted

  lemma LessWeakOrder(fold: string -> string, a: Value, b: Value, c: Value)
    ensures Less(fold, a, b) ==> !Less(fold, b, a)
    ensures !Less(fold, b, a) && !Less(fold, c, b) ==> !Less(fold, c, a)
  {
    match (a, b)
    case (Text(s), Text(t)) =>
      Names.PrecedesTotal(fold(s), fold(t));
      if Names.Precedes(fold(s), fold(t)) {
        Names.PrecedesAsymmetric(fold(s), fold(t));
      }
      if c.Text? {
        TextsWeakOrder(fold(s), fold(t), fold(c.text));
      }
    case _ =>
  }

  lemma TextsWeakOrder(a: string, b: string, c: string)
    ensures !Names.Precedes(b, a) && !Names.Precedes(c, b) ==> !Names.Precedes(c, a)
  {
    Names.PrecedesTotal(a, b);
    if Names.Precedes(c, a) && Names.Precedes(a, b) {
      Names.PrecedesTransitive(c, a, b);
    }
  }

  /** Comparing by folded value and then by number is a total preorder of the rows. */
  lemma RowOrderPreorder(fold: string -> string, field: string)
    ensures Preorder(RowOrder(fold, field))
  {
    var leq := RowOrder(fold, field);
    forall a: Row, b: Row
      ensures leq(a, b) || leq(b, a)
    {
      LessWeakOrder(fold, Column(a, field), Column(b, field), Absent);
    }
    forall a: Row, b: Row, c: Row | leq(a, b) && leq(b, c)
      ensures leq(a, c)
    {
      AtMostTransitive(fold, Column(a, field), a.id, Column(b, field), b.id, Column(c, field), c.id);
    }
  }

  lemma AtMostTransitive(fold: string -> string, a: Value, i: nat, b: Value, j: nat, c: Value, k: nat)
    requires AtMost(fold, a, i, b, j) && AtMost(fold, b, j, c, k)
    ensures AtMost(fold, a, i, c, k)
  {
    LessWeakOrder(fold, a, b, c);
    LessWeakOrder(fold, b, c, a);
    LessWeakOrder(fold, c, a, b);
  }

  /** Ascending, or descending for the direction "desc". */
  ghost predicate Ordered<T>(s: seq<T>, leq: (T, T) -> bool, direction: string) {
    forall i, j :: 0 <= i < j < |s| ==> if direction == "desc" then leq(s[j], s[i]) else leq(s[i], s[j])
  }

  lemma DirectedMembers<T>(s: seq<T>, leq: (T, T) -> bool, direction: string)
    ensures multiset(Directed(s, leq, direction)) == multiset(s) && |Directed(s, leq, direction)| == |s|
  {
    SortMembers(s, leq);
    SortDownMembers(s, leq);
    assert |multiset(Directed(s, leq, direction))| == |Directed(s, leq, direction)| && |multiset(s)| == |s|;
  }

  lemma DirectedOrdered<T(!new)>(s: seq<T>, leq: (T, T) -> bool, direction: string)
    requires Preorder(leq)
    ensures Ordered(Directed(s, leq, direction), leq, direction)
  {
    if direction == "desc" {
      SortDownSorts(s, leq);
    } else {
      SortSorts(s, leq);
    }
  }

  lemma DirectedUnique<T(!new)>(s: seq<T>, leq: (T, T) -> bool, direction: string, other: seq<T>)
    requires Preorder(leq) && multiset(other) == multiset(s) && Ordered(other, leq, direction)
    requires forall x, y :: x in other && y in other && leq(x, y) && leq(y, x) ==> x == y
    ensures other == Directed(s, leq, direction)
  {
    DirectedMembers(s, leq, direction);
    DirectedOrdered(s, leq, direction);
    if direction == "desc" {
      SortedUnique(other, Directed(s, leq, direction), (a, b) => leq(b, a));
    } else {
      SortedUnique(other, Directed(s, leq, direction), leq);
    }
  }

  function Present(rows: seq<Row>, field: string): seq<Row> {
    Filter(rows, (row: Row) => Column(row, field) != Absent)
  }

  function Missing(rows: seq<Row>, field: string): seq<Row> {
    Filter(rows, (row: Row) => Column(row, field) == Absent)
  }

  /** The slow page cuts from the rows that have a value, sorted by folded value and number, and then the others. */
  lemma SlowRowsSorted(rows: seq<Row>, fold: string -> string, field: string, direction: string)
    ensures var first := Directed(Present(rows, field), RowOrder(fold, field), direction);
            && SortedRows(rows, fold, field, direction) == first + Missing(rows, field)
            && Ordered(first, RowOrder(fold, field), direction)
            && multiset(first) == multiset(Present(rows, field))
  {
    RowOrderPreorder(fold, field);
    DirectedMembers(Present(rows, field), RowOrder(fold, field), direction);
    DirectedOrdered(Present(rows, field), RowOrder(fold, field), direction);
  }

  lemma RowOrderStrict(fold: string -> string, field: string, a: Row, b: Row)
    requires RowOrder(fold, field)(a, b) && RowOrder(fold, field)(b, a)
    ensures a.id == b.id
  {
    LessWeakOrder(fold, Column(a, field), Column(b, field), Absent);
  }

  /** When no number has two rows, every sorted arrangement of the rows with a value is this one. */
  lemma SortedRowsDetermined(rows: seq<Row>, fold: string -> string, field: string, direction: string, other: seq<Row>)
    requires forall a, b :: a in rows && b in rows && a.id == b.id ==> a == b
    requires multiset(other) == multiset(Present(rows, field)) && Ordered(other, RowOrder(fold, field), direction)
    ensures other + Missing(rows, field) == SortedRows(rows, fold, field, direction)
  {
    var leq := RowOrder(fold, field);
    RowOrderPreorder(fold, field);
    forall x | x in other
      ensures x in rows
    {
      assert x in multiset(other);
      assert x in multiset(Present(rows, field));
      FilterMembers(rows, (row: Row) => Column(row, field) != Absent, x);
    }
    forall x, y | x in other && y in other && leq(x, y) && leq(y, x)
      ensures x == y
    {
      RowOrderStrict(fold, field, x, y);
    }
    DirectedUnique(Present(rows, field), leq, direction, other);
  }

  // ---------------------------------------------------------------- the order spelled out

  /** A row with something to show in the column. */
  predicate HasValue(row: Row, field: string) {
    match field
    case "id" => true
    case "solver" => row.solver != ""
    case "problem" => row.problem != ""
    case "state" => row.state != ""
    case "will_run" => row.willRun != ""
    case "node" => row.node != ""
    case "reason" => row.reason != ""
    case "cpu" => row.cpu.Some?
    case "memory" => row.memory.Some?
    case _ => row.wall.Some?
  }

  ghost predicate TextRanked(fold: string -> string, s: string, i: nat, t: string, j: nat) {
    (exists k: nat :: Names.FirstDifference(fold(s), fold(t), k)) || (fold(s) == fold(t) && i <= j)
  }

  predicate NumberRanked(m: Option<real>, i: nat, n: Option<real>, j: nat) {
    m.Some? && n.Some? && (m.value < n.value || (m.value == n.value && i <= j))
  }

  /** Row `a` comes before row `b` in ascending order of the column; rows that tie are ordered by number. */
  ghost predicate Ranked(fold: string -> string, field: string, a: Row, b: Row) {
    match field
    case "id" => a.id <= b.id
    case "solver" => TextRanked(fold, a.solver, a.id, b.solver, b.id)
    case "problem" => TextRanked(fold, a.problem, a.id, b.problem, b.id)
    case "state" => TextRanked(fold, a.state, a.id, b.state, b.id)
    case "will_run" => TextRanked(fold, a.willRun, a.id, b.willRun, b.id)
    case "node" => TextRanked(fold, a.node, a.id, b.node, b.id)
    case "reason" => TextRanked(fold, a.reason, a.id, b.reason, b.id)
    case "cpu" => NumberRanked(a.cpu, a.id, b.cpu, b.id)
    case "memory" => NumberRanked(a.memory, a.id, b.memory, b.id)
    case _ => NumberRanked(a.wall, a.id, b.wall, b.id)
  }

  lemma ValueExactly(row: Row, field: string)
    requires ValidSort(field, "asc")
    ensures HasValue(row, field) <==> Column(row, field) != Absent
  {
  }

  lemma TextRankedExactly(fold: string -> string, s: string, i: nat, t: string, j: nat)
    requires s != "" && t != ""
    ensures AtMost(fold, FromText(s), i, FromText(t), j) <==> TextRanked(fold, s, i, t, j)
  {
    Names.PrecedesExactly(fold(s), fold(t));
    Names.PrecedesTotal(fold(s), fold(t));
    if Names.Precedes(fold(s), fold(t)) {
      Names.PrecedesAsymmetric(fold(s), fold(t));
    }
    if Names.Precedes(fold(t), fold(s)) {
      Names.PrecedesAsymmetric(fold(t), fold(s));
    }
  }

  lemma TextColumn(fold: string -> string, field: string, a: Row, s: string, b: Row, t: string)
    requires s != "" && t != "" && Column(a, field) == FromText(s) && Column(b, field) == FromText(t)
    requires Ranked(fold, field, a, b) <==> TextRanked(fold, s, a.id, t, b.id)
    ensures RowOrder(fold, field)(a, b) <==> Ranked(fold, field, a, b)
  {
    TextRankedExactly(fold, s, a.id, t, b.id);
  }

  lemma NumberColumn(fold: string -> string, field: string, a: Row, m: Option<real>, b: Row, n: Option<real>)
    requires m.Some? && n.Some? && Column(a, field) == FromNumber(m) && Column(b, field) == FromNumber(n)
    requires Ranked(fold, field, a, b) <==> NumberRanked(m, a.id, n, b.id)
    ensures RowOrder(fold, field)(a, b) <==> Ranked(fold, field, a, b)
  {
  }

  lemma IdColumn(fold: string -> string, a: Row, b: Row)
    ensures RowOrder(fold, "id")(a, b) <==> Ranked(fold, "id", a, b)
  {
    assert Column(a, "id") == Number(a.id as real) && Column(b, "id") == Number(b.id as real);
    assert Ranked(fold, "id", a, b) <==> a.id <= b.id;
  }

  lemma NamesRanked(fold: string -> string, a: Row, b: Row)
    ensures a.solver != "" && b.solver != "" ==> (RowOrder(fold, "solver")(a, b) <==> Ranked(fold, "solver", a, b))
    ensures a.problem != "" && b.problem != "" ==> (RowOrder(fold, "problem")(a, b) <==> Ranked(fold, "problem", a, b))
  {
    if a.solver != "" && b.solver != "" {
      TextColumn(fold, "solver", a, a.solver, b, b.solver);
    }
    if a.problem != "" && b.problem != "" {
      TextColumn(fold, "problem", a, a.problem, b, b.problem);
    }
  }

  lemma StatesRanked(fold: string -> string, a: Row, b: Row)
    ensures a.state != "" && b.state != "" ==> (RowOrder(fold, "state")(a, b) <==> Ranked(fold, "state", a, b))
    ensures a.reason != "" && b.reason != "" ==> (RowOrder(fold, "reason")(a, b) <==> Ranked(fold, "reason", a, b))
  {
    if a.state != "" && b.state != "" {
      TextColumn(fold, "state", a, a.state, b, b.state);
    }
    if a.reason != "" && b.reason != "" {
      TextColumn(fold, "reason", a, a.reason, b, b.reason);
    }
  }

  lemma PlansRanked(fold: string -> string, a: Row, b: Row)
    ensures a.willRun != "" && b.willRun != ""
            ==> (RowOrder(fold, "will_run")(a, b) <==> Ranked(fold, "will_run", a, b))
    ensures a.node != "" && b.node != "" ==> (RowOrder(fold, "node")(a, b) <==> Ranked(fold, "node", a, b))
  {
    if a.willRun != "" && b.willRun != "" {
      TextColumn(fold, "will_run", a, a.willRun, b, b.willRun);
    }
    if a.node != "" && b.node != "" {
      TextColumn(fold, "node", a, a.node, b, b.node);
    }
  }

  lemma MeasuresRanked(fold: string -> string, a: Row, b: Row)
    ensures a.cpu.Some? && b.cpu.Some? ==> (RowOrder(fold, "cpu")(a, b) <==> Ranked(fold, "cpu", a, b))
    ensures a.memory.Some? && b.memory.Some? ==> (RowOrder(fold, "memory")(a, b) <==> Ranked(fold, "memory", a, b))
    ensures a.wall.Some? && b.wall.Some? ==> (RowOrder(fold, "wall")(a, b) <==> Ranked(fold, "wall", a, b))
  {
    if a.cpu.Some? && b.cpu.Some? {
      NumberColumn(fold, "cpu", a, a.cpu, b, b.cpu);
    }
    if a.memory.Some? && b.memory.Some? {
      NumberColumn(fold, "memory", a, a.memory, b, b.memory);
    }
    if a.wall.Some? && b.wall.Some? {
      NumberColumn(fold, "wall", a, a.wall, b, b.wall);
    }
  }

  lemma RankedExactly(fold: string -> string, field: string, a: Row, b: Row)
    requires ValidSort(field, "asc") && HasValue(a, field) && HasValue(b, field)
    ensures RowOrder(fold, field)(a, b) <==> Ranked(fold, field, a, b)
  {
    NamesRanked(fold, a, b);
    StatesRanked(fold, a, b);
    PlansRanked(fold, a, b);
    MeasuresRanked(fold, a, b);
    IdColumn(fold, a, b);
  }

  /** Any two rows of the sorted table: a value never follows a missing one, and two values stand in the asked order. */
  lemma RowsRanked(rows: seq<Row>, fold: string -> string, field: string, direction: string, i: nat, j: nat)
    requires ValidSort(field, direction) && i < j < |SortedRows(rows, fold, field, direction)|
    ensures var a, b := SortedRows(rows, fold, field, direction)[i], SortedRows(rows, fold, field, direction)[j];
            HasValue(b, field) ==>
              && HasValue(a, field)
              && if direction == "asc" then Ranked(fold, field, a, b) else Ranked(fold, field, b, a)
  {
    var sorted := SortedRows(rows, fold, field, direction);
    var first := Directed(Present(rows, field), RowOrder(fold, field), direction);
    ValueExactly(sorted[i], field);
    ValueExactly(sorted[j], field);
    if HasValue(sorted[j], field) {
      if !HasValue(sorted[i], field) {
        AbsentLast(rows, fold, field, direction, i, j);
        assert false;
      }
      SlowRowsSorted(rows, fold, field, direction);
      InFirstPart(rows, fold, field, direction, j);
      RankedExactly(fold, field, sorted[i], sorted[j]);
      RankedExactly(fold, field, sorted[j], sorted[i]);
    }
  }

  lemma InFirstPart(rows: seq<Row>, fold: string -> string, field: string, direction: string, j: nat)
    requires j < |SortedRows(rows, fold, field, direction)|
    requires Column(SortedRows(rows, fold, field, direction)[j], field) != Absent
    ensures var first := Directed(Present(rows, field), RowOrder(fold, field), direction);
            j < |first| && forall k :: 0 <= k <= j ==> SortedRows(rows, fold, field, direction)[k] == first[k]
  {
    var first := Directed(Present(rows, field), RowOrder(fold, field), direction);
    var sorted := SortedRows(rows, fold, field, direction);
    assert sorted == first + Missing(rows, field);
    if j >= |first| {
      JoinedAt(first, Missing(rows, field), j);
      FilterMembers(rows, (row: Row) => Column(row, field) == Absent, sorted[j]);
      assert false;
    }
  }

  /** A request is refused exactly for an unknown column or direction. */
  lemma RefusedExactly(job: Job, context: Context, ids: seq<nat>, page: nat, perPage: nat, field: string,
                       direction: string, search: Option<Row -> bool>)
    ensures ShowPage(job, context, ids, page, perPage, field, direction, search).None? <==>
            || direction !in ["asc", "desc"]
            || field !in ["id", "solver", "problem", "state", "will_run", "node", "reason", "cpu", "wall", "memory"]
  {
  }

  // ---------------------------------------------------------------- what a row shows

  /** A finished pair shows its measurements, the memory in bytes; a running one the time since its start. */
  lemma RowTells(job: Job, context: Context, id: nat)
    ensures var row := TaskRow(job, context, id);
            && row.id == id
            && (id in job.tasks ==> row.solver == job.tasks[id].solver && row.problem == job.tasks[id].problem)
            && (id !in job.tasks ==> row.solver == row.problem == "")
            && (id in job.results ==>
                  var r := job.results[id];
                  && row.finished == r.complete && row.state == r.outcome && row.cpu == r.cpu && row.wall == r.wall
                  && (row.memory.Some? <==> r.memoryKib.Some?)
                  && (row.memory.Some? ==> row.memory.value == 1024.0 * r.memoryKib.value as real))
            && (id !in job.results ==>
                  && !row.finished && row.cpu == None && row.memory == None
                  && (row.wall.Some? <==>
                        && row.state == "running" && ProgressOf(job, id).Some? && ProgressOf(job, id).value.running
                        && ProgressOf(job, id).value.started.Some? && ProgressOf(job, id).value.started != Some(0.0))
                  && (row.wall.Some? ==>
                        var elapsed := context.now - ProgressOf(job, id).value.started.value;
                        row.wall.value == if elapsed < 0.0 then 0.0 else elapsed))
  {
  }

  /** The record of an unfinished pair: its own, or else that of its batch, if that is working on the pair. */
  lemma ProgressExactly(job: Job, id: nat, batch: nat)
    requires batch * job.batchSize <= id < batch * job.batchSize + job.batchSize
    ensures id in job.callProgress ==> ProgressOf(job, id) == Some(job.callProgress[id])
    ensures id !in job.callProgress ==>
              ProgressOf(job, id) == if batch in job.progress && job.progress[batch].taskId == id
                                     then Some(job.progress[batch]) else None
  {
    QuotientIs(id, job.batchSize, batch);
  }

  lemma QuotientIs(a: nat, n: Pos, q: nat)
    requires q * n <= a < q * n + n
    ensures a / n == q
  {
    Division.DivisionUnique(n, a / n, a % n, q, a - q * n);
  }

  // ---------------------------------------------------------------- one page

  /** The sort value read straight from the records, without building the full row. */
  function FastKey(job: Job, context: Context, field: string, id: nat): Value {
    var definition := Get(job.tasks, id);
    var result := Get(job.results, id);
    if field == "solver" then FromText(if definition.Some? then definition.value.solver else "")
    else if field == "problem" then FromText(if definition.Some? then definition.value.problem else "")
    else if field == "cpu" then FromNumber(if result.Some? then result.value.cpu else None)
    else if field == "memory" then FromNumber(if result.Some? then Memory(result.value) else None)
    else if result.Some? then FromNumber(result.value.wall)
    else
      var p := if id in job.callProgress then Some(job.callProgress[id]) else Get(job.progress, id / job.batchSize);
      if p.Some? && p.value.taskId == id && p.value.running then FromNumber(TaskRow(job, context, id).wall) else Absent
  }

  function KeyOrder(job: Job, context: Context, field: string): (nat, nat) -> bool {
    (a: nat, b: nat) =>
      AtMost(context.fold, FastKey(job, context, field, a), a, FastKey(job, context, field, b), b)
  }

  function FastOrder(job: Job, context: Context, ids: seq<nat>, field: string, direction: string): seq<nat> {
    if field == "id" then if direction == "asc" then ids else Reverse(ids)
    else
      Directed(Filter(ids, (id: nat) => FastKey(job, context, field, id) != Absent),
               KeyOrder(job, context, field), direction)
      + Filter(ids, (id: nat) => FastKey(job, context, field, id) == Absent)
  }

  /** Every pair gets its full row, the rows are searched and sorted, and the page is cut out. */
  function SlowPage(job: Job, context: Context, ids: seq<nat>, page: nat, perPage: nat, field: string,
                    direction: string, found: Row -> bool): (seq<Row>, nat)
  {
    var rows := Filter(Rows(job, context, ids), found);
    (Page(SortedRows(rows, context.fold, field, direction), page, perPage), |rows|)
  }

  /** `search` is the test of a non-empty query; `None` stands for the rejected request. */
  function ShowPage(job: Job, context: Context, ids: seq<nat>, page: nat, perPage: nat, field: string,
                    direction: string, search: Option<Row -> bool>): Option<(seq<Row>, nat)>
  {
    if !ValidSort(field, direction) then None
    else if search.Some? then Some(SlowPage(job, context, ids, page, perPage, field, direction, search.value))
    else if field in DERIVED then Some(SlowPage(job, context, ids, page, perPage, field, direction, row => true))
    else
      var ordered := FastOrder(job, context, ids, field, direction);
      Some((Rows(job, context, Page(ordered, page, perPage)), |ids|))
  }

  // ---------------------------------------------------------------- the fast page is the slow page

  /** A progress record filed under a pair but naming another one, while the diagnosis says running. */
  predicate Misfiled(job: Job, context: Context, id: nat) {
    && id !in job.results && id in job.callProgress
    && var p := job.callProgress[id];
       p.taskId != id && p.running && Elapsed(p, context.now).Some?
       && context.diagnose(id, Some(p)).state == "running"
  }

  /** The fast key is the column of the full row, for wall time exactly when no record is misfiled. */
  lemma KeyIsColumn(job: Job, context: Context, field: string, id: nat)
    requires field in CALL_SORT_FIELDS - DERIVED - {"id"}
    ensures FastKey(job, context, field, id) == Column(TaskRow(job, context, id), field) <==>
            !(field == "wall" && Misfiled(job, context, id))
  {
  }

  lemma DirectedMapped<S, T>(s: seq<S>, f: S -> T, leq: (T, T) -> bool, order: (S, S) -> bool, direction: string)
    requires forall a, b :: a in s && b in s ==> (order(a, b) <==> leq(f(a), f(b)))
    ensures Map(Directed(s, order, direction), f) == Directed(Map(s, f), leq, direction)
  {
    if direction == "desc" {
      SortDownMapped(s, f, leq, order);
    } else {
      SortMapped(s, f, leq, order);
    }
  }

  lemma DirectedAgrees<T>(s: seq<T>, a: (T, T) -> bool, b: (T, T) -> bool, direction: string)
    requires forall x, y :: x in s && y in s ==> (a(x, y) <==> b(x, y))
    ensures Directed(s, a, direction) == Directed(s, b, direction)
  {
    if direction == "desc" {
      assert forall x :: x in Reverse(s) ==> x in s;
      SortAgrees(Reverse(s), a, b);
    } else {
      SortAgrees(s, a, b);
    }
  }

  lemma MapJoined<S, T>(a: seq<S>, b: seq<S>, f: S -> T)
    ensures Map(a + b, f) == Map(a, f) + Map(b, f)
  {
  }

  function RowOf(job: Job, context: Context): nat -> Row {
    (id: nat) => TaskRow(job, context, id)
  }

  /** Sorting the numbers by the fast keys and building rows is building rows and sorting them. */
  lemma OrderCommutes(job: Job, context: Context, ids: seq<nat>, key: nat -> Value, order: (nat, nat) -> bool,
                      field: string, direction: string)
    requires forall id :: id in ids ==> key(id) == Column(TaskRow(job, context, id), field)
    requires forall a: nat, b: nat :: order(a, b) == AtMost(context.fold, key(a), a, key(b), b)
    ensures Map(Directed(Filter(ids, (id: nat) => key(id) != Absent), order, direction)
                + Filter(ids, (id: nat) => key(id) == Absent), RowOf(job, context))
         == SortedRows(Rows(job, context, ids), context.fold, field, direction)
  {
    var present := Filter(ids, (id: nat) => key(id) != Absent);
    var absent := Filter(ids, (id: nat) => key(id) == Absent);
    var f := RowOf(job, context);
    MapJoined(Directed(present, order, direction), absent, f);
    assert Rows(job, context, ids) == Map(ids, f);
    FilterMapped(ids, f, (row: Row) => Column(row, field) != Absent, (id: nat) => key(id) != Absent);
    FilterMapped(ids, f, (row: Row) => Column(row, field) == Absent, (id: nat) => key(id) == Absent);
    forall a | a in present
      ensures a in ids
    {
      FilterMembers(ids, (id: nat) => key(id) != Absent, a);
    }
    DirectedMapped(present, f, RowOrder(context.fold, field), order, direction);
  }

  lemma SortedIds(ids: seq<nat>, direction: string)
    requires Increasing(ids)
    ensures Directed(ids, (a: nat, b: nat) => a <= b, direction) == if direction == "desc" then Reverse(ids) else ids
  {
    var leq := (a: nat, b: nat) => a <= b;
    SortedUnchanged(ids, leq);
    var back := Sort(Reverse(ids), leq);
    SortSorts(Reverse(ids), leq);
    SortMembers(Reverse(ids), leq);
    ReverseMembers(ids);
    SortedUnique(back, ids, leq);
  }

  lemma IdsByNumber(fold: string -> string, ids: seq<nat>, order: (nat, nat) -> bool, direction: string)
    requires Increasing(ids)
    requires forall a: nat, b: nat :: order(a, b) == AtMost(fold, Number(a as real), a, Number(b as real), b)
    ensures Directed(ids, order, direction) == if direction == "desc" then Reverse(ids) else ids
  {
    DirectedAgrees(ids, order, (a: nat, b: nat) => a <= b, direction);
    SortedIds(ids, direction);
  }

  lemma NothingAppended<T>(s: seq<T>)
    ensures s + [] == s
  {
  }

  lemma FastOrderById(job: Job, context: Context, ids: seq<nat>, direction: string)
    requires Increasing(ids) && ValidSort("id", direction)
    ensures Map(FastOrder(job, context, ids, "id", direction), RowOf(job, context))
         == SortedRows(Rows(job, context, ids), context.fold, "id", direction)
  {
    var key := (id: nat) => Number(id as real);
    var order := (a: nat, b: nat) => AtMost(context.fold, key(a), a, key(b), b);
    OrderCommutes(job, context, ids, key, order, "id", direction);
    FilterAll(ids, (id: nat) => key(id) != Absent);
    FilterNone(ids, (id: nat) => key(id) == Absent);
    IdsByNumber(context.fold, ids, order, direction);
    NothingAppended(Directed(ids, order, direction));
  }

  lemma FastOrderByKey(job: Job, context: Context, ids: seq<nat>, field: string, direction: string)
    requires field in CALL_SORT_FIELDS - DERIVED - {"id"}
    requires field == "wall" ==> forall id :: id in ids ==> !Misfiled(job, context, id)
    ensures Map(FastOrder(job, context, ids, field, direction), RowOf(job, context))
         == SortedRows(Rows(job, context, ids), context.fold, field, direction)
  {
    var key := (id: nat) => FastKey(job, context, field, id);
    forall id | id in ids
      ensures key(id) == Column(TaskRow(job, context, id), field)
    {
      KeyIsColumn(job, context, field, id);
    }
    OrderCommutes(job, context, ids, key, KeyOrder(job, context, field), field, direction);
    SameFilter(ids, (id: nat) => key(id) != Absent, (id: nat) => FastKey(job, context, field, id) != Absent);
    SameFilter(ids, (id: nat) => key(id) == Absent, (id: nat) => FastKey(job, context, field, id) == Absent);
  }

  lemma {:induction false} SameFilter<T>(s: seq<T>, p: T -> bool, q: T -> bool)
    requires forall x :: x in s ==> p(x) == q(x)
    ensures Filter(s, p) == Filter(s, q)
  {
    if s != [] {
      assert s[0] in s;
      SameFilter(s[1..], p, q);
    }
  }

  lemma MapPage<S, T>(s: seq<S>, f: S -> T, page: nat, perPage: nat)
    ensures Map(Page(s, page, perPage), f) == Page(Map(s, f), page, perPage)
  {
  }

  /** Without a search, every page is the one cut from the sorted full rows. */
  lemma FastEqualsSlow(job: Job, context: Context, ids: seq<nat>, page: nat, perPage: nat, field: string,
                       direction: string)
    requires ValidSort(field, direction) && Increasing(ids)
    requires field == "wall" ==> forall id :: id in ids ==> !Misfiled(job, context, id)
    ensures ShowPage(job, context, ids, page, perPage, field, direction, None)
         == Some(SlowPage(job, context, ids, page, perPage, field, direction, row => true))
  {
    if field !in DERIVED {
      FilterAll(Rows(job, context, ids), row => true);
      if field == "id" {
        FastOrderById(job, context, ids, direction);
      } else {
        FastOrderByKey(job, context, ids, field, direction);
      }
      MapPage(FastOrder(job, context, ids, field, direction), RowOf(job, context), page, perPage);
    }
  }

  /** The shown page is the one cut from any correctly sorted arrangement of the rows. */
  lemma PageIsTheSort(job: Job, context: Context, ids: seq<nat>, page: nat, perPage: nat, field: string,
                      direction: string, other: seq<Row>)
    requires ValidSort(field, direction) && Increasing(ids)
    requires field == "wall" ==> forall id :: id in ids ==> !Misfiled(job, context, id)
    requires multiset(other) == multiset(Present(Rows(job, context, ids), field))
    requires Ordered(other, RowOrder(context.fold, field), direction)
    ensures ShowPage(job, context, ids, page, perPage, field, direction, None)
         == Some((Page(other + Missing(Rows(job, context, ids), field), page, perPage), |ids|))
  {
    FastEqualsSlow(job, context, ids, page, perPage, field, direction);
    FilterAll(Rows(job, context, ids), row => true);
    SortedRowsDetermined(Rows(job, context, ids), context.fold, field, direction, other);
  }

  // ---------------------------------------------------------------- all pages together

  function Pages<T>(s: seq<T>, perPage: nat, n: nat): seq<T> {
    if n == 0 then [] else Pages(s, perPage, n - 1) + Page(s, n - 1, perPage)
  }

  lemma PageAfter<T>(s: seq<T>, start: nat, perPage: nat)
    ensures Slice(s, 0, start) + Slice(s, start, start + perPage) == Slice(s, 0, start + perPage)
  {
  }

  lemma NextStart(n: nat, perPage: nat)
    requires n > 0
    ensures (n - 1) * perPage + perPage == n * perPage
  {
  }

  lemma {:induction false} PagesJoin<T>(s: seq<T>, perPage: nat, n: nat)
    ensures Pages(s, perPage, n) == Slice(s, 0, n * perPage)
  {
    if n > 0 {
      PagesJoin(s, perPage, n - 1);
      PageAfter(s, (n - 1) * perPage, perPage);
      NextStart(n, perPage);
    }
  }

  lemma SortedRowsMembers(rows: seq<Row>, fold: string -> string, field: string, direction: string)
    ensures multiset(SortedRows(rows, fold, field, direction)) == multiset(rows)
  {
    var present := Filter(rows, (row: Row) => Column(row, field) != Absent);
    SortMembers(present, RowOrder(fold, field));
    SortDownMembers(present, RowOrder(fold, field));
    FilterSplit(rows, (row: Row) => Column(row, field) != Absent, (row: Row) => Column(row, field) == Absent);
  }

  /** Enough pages, one after the other, show every matching row exactly once. */
  lemma PagesShowEverythingOnce(rows: seq<Row>, fold: string -> string, field: string, direction: string,
                                perPage: nat, n: nat)
    requires n * perPage >= |rows|
    ensures multiset(Pages(SortedRows(rows, fold, field, direction), perPage, n)) == multiset(rows)
  {
    var sorted := SortedRows(rows, fold, field, direction);
    SortedRowsMembers(rows, fold, field, direction);
    assert |multiset(sorted)| == |sorted| && |multiset(rows)| == |rows|;
    PagesJoin(sorted, perPage, n);
    assert Slice(sorted, 0, n * perPage) == sorted;
  }

  /** The rows of the first `n` pages of a search, one page after the other. */
  function SearchPages(job: Job, context: Context, ids: seq<nat>, perPage: nat, field: string, direction: string,
                       found: Row -> bool, n: nat): seq<Row>
    requires ValidSort(field, direction)
  {
    if n == 0 then []
    else
      SearchPages(job, context, ids, perPage, field, direction, found, n - 1)
      + ShowPage(job, context, ids, n - 1, perPage, field, direction, Some(found)).value.0
  }

  lemma {:induction false} SearchPagesJoin(job: Job, context: Context, ids: seq<nat>, perPage: nat, field: string,
                                           direction: string, found: Row -> bool, n: nat)
    requires ValidSort(field, direction)
    ensures SearchPages(job, context, ids, perPage, field, direction, found, n)
         == Pages(SortedRows(Filter(Rows(job, context, ids), found), context.fold, field, direction), perPage, n)
  {
    if n > 0 {
      SearchPagesJoin(job, context, ids, perPage, field, direction, found, n - 1);
    }
  }

  /** The pages of a search together show exactly the rows it finds, and each tells how many there are. */
  lemma SearchShowsMatches(job: Job, context: Context, ids: seq<nat>, perPage: nat, field: string, direction: string,
                           found: Row -> bool, n: nat, page: nat)
    requires ValidSort(field, direction) && n * perPage >= |Filter(Rows(job, context, ids), found)|
    ensures multiset(SearchPages(job, context, ids, perPage, field, direction, found, n))
         == multiset(Filter(Rows(job, context, ids), found))
    ensures ShowPage(job, context, ids, page, perPage, field, direction, Some(found)).value.1
         == |Filter(Rows(job, context, ids), found)|
  {
    SearchPagesJoin(job, context, ids, perPage, field, direction, found, n);
    PagesShowEverythingOnce(Filter(Rows(job, context, ids), found), context.fold, field, direction, perPage, n);
  }

  lemma DirectedFiltered<T>(s: seq<T>, p: T -> bool, leq: (T, T) -> bool, direction: string, x: T)
    requires x in Directed(Filter(s, p), leq, direction)
    ensures p(x)
  {
    SortMembers(Filter(s, p), leq);
    SortDownMembers(Filter(s, p), leq);
    assert x in multiset(Directed(Filter(s, p), leq, direction));
    assert x in multiset(Filter(s, p));
    FilterMembers(s, p, x);
  }

  lemma JoinedAt<T>(a: seq<T>, b: seq<T>, i: nat)
    requires i < |a + b|
    ensures i < |a| ==> (a + b)[i] in a
    ensures i >= |a| ==> (a + b)[i] in b
  {
  }

  /** Rows without a value come after all rows with one, whichever way the column is sorted. */
  lemma AbsentLast(rows: seq<Row>, fold: string -> string, field: string, direction: string, i: nat, j: nat)
    requires i < j < |SortedRows(rows, fold, field, direction)|
    requires Column(SortedRows(rows, fold, field, direction)[i], field) == Absent
    ensures Column(SortedRows(rows, fold, field, direction)[j], field) == Absent
  {
    var present, absent := (row: Row) => Column(row, field) != Absent, (row: Row) => Column(row, field) == Absent;
    var first := Directed(Filter(rows, present), RowOrder(fold, field), direction);
    var last := Filter(rows, absent);
    var sorted := SortedRows(rows, fold, field, direction);
    assert sorted == first + last;
    JoinedAt(first, last, i);
    JoinedAt(first, last, j);
    if i < |first| {
      DirectedFiltered(rows, present, RowOrder(fold, field), direction, sorted[i]);
      assert false;
    }
    FilterMembers(rows, absent, sorted[j]);
  }

  // ---------------------------------------------------------------- where progress records come from

  /** A line of five fields (state, task, start, update, batch) whose numbers are numerals; `number` reads times. */
  function CallOf(fields: seq<string>, number: string -> Option<real>): Option<Progress> {
    if |fields| == 5 && Numeral(fields[1]) && Numeral(fields[4]) then
      Some(Progress(Parse(fields[1]), fields[0] == "running", number(fields[2])))
    else None
  }

  /** The line that a running call publishes. */
  function CallLine(state: string, task: nat, started: string, updated: string, batch: nat): seq<string> {
    [state, Print(task), started, updated, Print(batch)]
  }

  /** Reading a published line gives back the pair, whether it runs, and its start. */
  lemma CallLineRead(state: string, task: nat, started: string, updated: string, batch: nat,
                     number: string -> Option<real>)
    ensures CallOf(CallLine(state, task, started, updated, batch), number)
         == Some(Progress(task, state == "running", number(started)))
    ensures forall fields :: CallOf(fields, number).Some? <==>
              |fields| == 5 && Numeral(fields[1]) && Numeral(fields[4])
  {
    PrintThenParse(task);
  }

  /** The last well-formed line that names the pair. */
  function LastCall(lines: seq<seq<string>>, number: string -> Option<real>, id: nat): Option<Progress> {
    if lines == [] then None
    else
      var call := CallOf(lines[|lines| - 1], number);
      if call.Some? && call.value.taskId == id then call else LastCall(lines[..|lines| - 1], number, id)
  }

  lemma LastCallStep(lines: seq<seq<string>>, number: string -> Option<real>, k: nat, id: nat)
    requires k < |lines|
    ensures LastCall(lines[..k + 1], number, id)
         == var call := CallOf(lines[k], number);
            if call.Some? && call.value.taskId == id then call else LastCall(lines[..k], number, id)
  {
    assert lines[..k + 1][..k] == lines[..k];
  }

  /** The snapshot parser files each call's progress under the pair it names; a later line replaces an earlier one. */
  method ParseCalls(lines: seq<seq<string>>, number: string -> Option<real>) returns (filed: map<nat, Progress>)
    ensures forall id: nat :: Get(filed, id) == LastCall(lines, number, id)
    ensures forall id :: id in filed ==> filed[id].taskId == id
  {
    filed := map[];
    for k := 0 to |lines|
      invariant forall id: nat :: Get(filed, id) == LastCall(lines[..k], number, id)
      invariant forall id :: id in filed ==> filed[id].taskId == id
    {
      ghost var before := filed;
      var call := CallOf(lines[k], number);
      if call.Some? {
        filed := filed[call.value.taskId := call.value];
      }
      forall id: nat
        ensures Get(filed, id) == LastCall(lines[..k + 1], number, id)
      {
        LastCallStep(lines, number, k, id);
        assert Get(before, id) == LastCall(lines[..k], number, id);
      }
    }
    assert lines[..|lines|] == lines;
  }

  /** So on a parsed snapshot the fast page is the slow page for every column. */
  lemma ParsedPagesAgree(job: Job, context: Context, ids: seq<nat>, page: nat, perPage: nat, field: string,
                         direction: string)
    requires ValidSort(field, direction) && Increasing(ids)
    requires forall id :: id in job.callProgress ==> job.callProgress[id].taskId == id
    ensures ShowPage(job, context, ids, page, perPage, field, direction, None)
         == Some(SlowPage(job, context, ids, page, perPage, field, direction, row => true))
  {
    FastEqualsSlow(job, context, ids, page, perPage, field, direction);
  }

  /** Pair 1 is running, but its progress record names pair 7; pair 0 is waiting. */
  function MisfiledJob(): Job { Job(map[], map[], map[1 := Progress(7, true, Some(1.0))], map[], 1) }

  function MisfiledContext(): Context {
    Context((id: nat, p: Option<Progress>) => Diagnosis(if id == 1 then "running" else "queued", "", ""),
            (id: nat) => "", 3.0, (text: string) => text)
  }

  lemma MisfiledFast()
    ensures FastOrder(MisfiledJob(), MisfiledContext(), [0, 1], "wall", "asc") == [0, 1]
  {
    var key := (id: nat) => FastKey(MisfiledJob(), MisfiledContext(), "wall", id);
    assert key(0) == Absent && key(1) == Absent;
    var ids: seq<nat> := [0, 1];
    FilterNone(ids, (id: nat) => FastKey(MisfiledJob(), MisfiledContext(), "wall", id) != Absent);
    FilterAll(ids, (id: nat) => FastKey(MisfiledJob(), MisfiledContext(), "wall", id) == Absent);
  }

  lemma SecondOnly<T>(x: T, y: T, p: T -> bool)
    requires !p(x) && p(y)
    ensures Filter([x, y], p) == [y]
  {
    assert [x, y][1..] == [y];
    assert Filter([y], p) == [y] + Filter([y][1..], p);
  }

  lemma MisfiledSlow(row0: Row, row1: Row, fold: string -> string)
    requires Column(row0, "wall") == Absent && Column(row1, "wall") != Absent
    ensures SortedRows([row0, row1], fold, "wall", "asc")[0] == row1
  {
    SecondOnly(row0, row1, (row: Row) => Column(row, "wall") != Absent);
    assert Sort([row1], RowOrder(fold, "wall")) == [row1];
  }

  /** A misfiled record can move a row: the pair is shown as running but sorted as if it had no wall time. */
  lemma MisfiledRecordMoves()
    ensures Misfiled(MisfiledJob(), MisfiledContext(), 1)
    ensures FastOrder(MisfiledJob(), MisfiledContext(), [0, 1], "wall", "asc")[0] == 0
    ensures SortedRows(Rows(MisfiledJob(), MisfiledContext(), [0, 1]), MisfiledContext().fold, "wall", "asc")[0].id == 1
  {
    MisfiledFast();
    var row0, row1 := TaskRow(MisfiledJob(), MisfiledContext(), 0), TaskRow(MisfiledJob(), MisfiledContext(), 1);
    assert Elapsed(Progress(7, true, Some(1.0)), 3.0) == Some(2.0);
    assert Rows(MisfiledJob(), MisfiledContext(), [0, 1]) == [row0, row1];
    MisfiledSlow(row0, row1, MisfiledContext().fold);
  }
}
