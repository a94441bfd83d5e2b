/**
 Refreshing a large job from only the result indexes that changed, after `snapshot` in `app.py`,
 the file selection of the collector script in `monitor.py` and the index update in `call.sh`.
 */
module Incremental {
  import opened Options
  import opened Results

  /** A batch's result index: when its content was written, and its rows. */
  datatype File = File(written: real, rows: seq<Record>)

  /** What the page holds: when the last refresh finished by the viewer's clock, and the results. */
  datatype Shown = Shown(fetched: real, results: map<nat, Record>)

  datatype System = System(files: map<nat, File>, clock: real, shown: Option<Shown>)

  // ---------------------------------------------------------------- publishing a result

  function Without(rows: seq<Record>, task: nat): seq<Record> {
    if rows == [] then []
    else Without(rows[..|rows| - 1], task) + if rows[|rows| - 1].task == task then [] else [rows[|rows| - 1]]
  }

  /** The new index: earlier rows of the same task are dropped, the new row goes last. */
  function Replace(rows: seq<Record>, r: Record): seq<Record> {
    Without(rows, r.task) + [r]
  }

  lemma ParseAppended(rows: seq<Record>, r: Record)
    ensures ParseRows(rows + [r]) == ParseRows(rows)[r.task := r]
  {
    assert (rows + [r])[..|rows|] == rows;
  }

  lemma UpdateElsewhere<V>(m: map<nat, V>, k: nat, v: V, x: nat)
    ensures m[k := v] - {x} == if k == x then m - {x} else (m - {x})[k := v]
  {
  }

  lemma {:induction false} ParseWithout(rows: seq<Record>, task: nat)
    ensures ParseRows(Without(rows, task)) == ParseRows(rows) - {task}
  {
    if rows != [] {
      var k := |rows| - 1;
      ParseWithout(rows[..k], task);
      ParseAppended(Without(rows[..k], task), rows[k]);
      UpdateElsewhere(ParseRows(rows[..k]), rows[k].task, rows[k], task);
      assert Without(rows[..k], task) + [] == Without(rows[..k], task);
    }
  }

  /** Publishing changes the parsed content of the batch at one task only. */
  lemma ParseReplace(rows: seq<Record>, r: Record)
    ensures ParseRows(Replace(rows, r)) == ParseRows(rows)[r.task := r]
  {
    ParseWithout(rows, r.task);
    ParseAppended(Without(rows, r.task), r);
  }

  function Published(s: System, batch: nat, r: Record, written: real, moved: real): System {
    var rows := if batch in s.files then s.files[batch].rows else [];
    System(s.files[batch := File(written, Replace(rows, r))], moved, s.shown)
  }

  // ---------------------------------------------------------------- refreshing

  /** The whole second passed to the collector: a minute before the last refresh finished. */
  function Cutoff(fetched: real): int {
    if fetched - 60.0 > 0.0 then (fetched - 60.0).Floor else 0
  }

  predicate Selected(f: File, since: int) {
    f.written > since as real
  }

  function Gather(files: map<nat, File>, order: seq<nat>): seq<Record> {
    if order == [] then []
    else
      var b := order[|order| - 1];
      Gather(files, order[..|order| - 1]) + if b in files then files[b].rows else []
  }

  function Read(files: map<nat, File>, order: seq<nat>): map<nat, Record> {
    NormalizeAll(ParseRows(Gather(files, order)))
  }

  /** `order` names exactly the files in `wanted`. */
  ghost predicate Lists(order: seq<nat>, wanted: set<nat>) {
    forall b :: b in order <==> b in wanted
  }

  ghost function Wanted(s: System, incremental: bool): set<nat> {
    if incremental && s.shown.Some? then
      set b | b in s.files && Selected(s.files[b], Cutoff(s.shown.value.fetched))
    else s.files.Keys
  }

  function Refreshed(s: System, order: seq<nat>, at: real, lag: real, incremental: bool): System {
    var current := Read(s.files, order);
    var results := if incremental && s.shown.Some? then NormalizeAll(s.shown.value.results + current) else current;
    System(s.files, at, Some(Shown(at + lag, results)))
  }

  datatype Event =
    | Publish(batch: nat, record: Record, written: real, moved: real)
    | Refresh(order: seq<nat>, at: real, lag: real, incremental: bool)

  function Apply(s: System, e: Event): System {
    match e
    case Publish(batch, record, written, moved) => Published(s, batch, record, written, moved)
    case Refresh(order, at, lag, incremental) => Refreshed(s, order, at, lag, incremental)
  }

  /**
   The next cutoff lies before everything that may still appear: `lag` is the time from the start of
   reading to the recorded end of the refresh including any difference of the clocks, `delay` the
   longest time between writing an index and moving it into place.
   */
  predicate Safe(at: real, lag: real, delay: real) {
    Cutoff(at + lag) as real < at - delay
  }

  ghost predicate Possible(s: System, e: Event, batchOf: nat -> nat, delay: real) {
    match e
    case Publish(batch, record, written, moved) =>
      moved >= s.clock && moved - delay <= written <= moved && batchOf(record.task) == batch
    case Refresh(order, at, lag, incremental) =>
      at >= s.clock && Lists(order, Wanted(s, incremental)) && Safe(at, lag, delay)
  }

  // ---------------------------------------------------------------- reading in any order

  ghost predicate Separated(files: map<nat, File>, batchOf: nat -> nat) {
    forall b, i :: b in files && 0 <= i < |files[b].rows| ==> batchOf(files[b].rows[i].task) == b
  }

  /** What the files say about a task. */
  ghost function Truth(files: map<nat, File>, b: nat, id: nat): Option<Record> {
    if b in files && id in ParseRows(files[b].rows) then Some(Normalize(ParseRows(files[b].rows)[id])) else None
  }

  lemma ElsewhereAbsent(files: map<nat, File>, batchOf: nat -> nat, b: nat, id: nat)
    requires Separated(files, batchOf) && b in files && batchOf(id) != b
    ensures id !in ParseRows(files[b].rows)
  {
    ParseTasks(files[b].rows, id);
  }

  lemma ReadStep(files: map<nat, File>, order: seq<nat>, b: nat, id: nat)
    ensures Entry(Read(files, order + [b]), id)
         == if Truth(files, b, id).Some? then Truth(files, b, id) else Entry(Read(files, order), id)
  {
    assert (order + [b])[..|order|] == order;
    ParseJoined(Gather(files, order), if b in files then files[b].rows else []);
  }

  /** Whatever the order of the files, a task's entry is what its batch's file says, if that is read. */
  lemma {:induction false} ReadEntry(files: map<nat, File>, batchOf: nat -> nat, order: seq<nat>, id: nat)
    requires Separated(files, batchOf)
    ensures Entry(Read(files, order), id) == if batchOf(id) in order then Truth(files, batchOf(id), id) else None
  {
    if order != [] {
      var k := |order| - 1;
      ReadEntry(files, batchOf, order[..k], id);
      assert order == order[..k] + [order[k]];
      ReadStep(files, order[..k], order[k], id);
      if batchOf(id) != order[k] && order[k] in files {
        ElsewhereAbsent(files, batchOf, order[k], id);
      }
    }
  }

  // ---------------------------------------------------------------- the invariant

  ghost predicate AllNormal(m: map<nat, Record>) {
    forall id :: id in m ==> Normalize(m[id]) == m[id]
  }

  /** Results of files that the next refresh will skip are already right; no others are made up. */
  ghost predicate UpToCutoff(s: System, shown: Shown, batchOf: nat -> nat) {
    forall id: nat ::
      (Entry(shown.results, id) != Truth(s.files, batchOf(id), id) ==>
       batchOf(id) in s.files && Selected(s.files[batchOf(id)], Cutoff(shown.fetched)) &&
       Truth(s.files, batchOf(id), id).Some?)
  }

  ghost predicate Inv(s: System, batchOf: nat -> nat, delay: real) {
    && Separated(s.files, batchOf)
    && (s.shown.Some? ==>
          && UpToCutoff(s, s.shown.value, batchOf)
          && AllNormal(s.shown.value.results)
          && Cutoff(s.shown.value.fetched) as real < s.clock - delay)
  }

  /** The page shows exactly what the files say. */
  ghost predicate Exact(s: System, batchOf: nat -> nat) {
    s.shown.Some? && forall id: nat :: Entry(s.shown.value.results, id) == Truth(s.files, batchOf(id), id)
  }

  lemma {:induction false} WithoutKeeps(rows: seq<Record>, task: nat, i: nat)
    requires i < |Without(rows, task)|
    ensures Without(rows, task)[i] in rows
  {
    var k := |rows| - 1;
    if i < |Without(rows[..k], task)| {
      WithoutKeeps(rows[..k], task, i);
    }
  }

  lemma SeparatedPublish(s: System, batch: nat, r: Record, written: real, moved: real, batchOf: nat -> nat)
    requires Separated(s.files, batchOf) && batchOf(r.task) == batch
    ensures Separated(Published(s, batch, r, written, moved).files, batchOf)
  {
    var rows := if batch in s.files then s.files[batch].rows else [];
    forall i | 0 <= i < |Replace(rows, r)|
      ensures batchOf(Replace(rows, r)[i].task) == batch
    {
      if i < |Without(rows, r.task)| {
        WithoutKeeps(rows, r.task, i);
      }
    }
  }

  lemma TruthAfterPublish(s: System, batch: nat, r: Record, written: real, moved: real, b: nat, id: nat)
    ensures Truth(Published(s, batch, r, written, moved).files, b, id)
         == if b == batch && id == r.task then Some(Normalize(r)) else Truth(s.files, b, id)
  {
    ParseReplace(if batch in s.files then s.files[batch].rows else [], r);
  }

  lemma PublishKeeps(s: System, batch: nat, r: Record, written: real, moved: real, batchOf: nat -> nat, delay: real)
    requires Inv(s, batchOf, delay) && Possible(s, Publish(batch, r, written, moved), batchOf, delay)
    ensures Inv(Published(s, batch, r, written, moved), batchOf, delay)
  {
    SeparatedPublish(s, batch, r, written, moved, batchOf);
    if s.shown.Some? {
      forall id: nat
        ensures Truth(Published(s, batch, r, written, moved).files, batchOf(id), id)
             == if batchOf(id) == batch && id == r.task then Some(Normalize(r)) else Truth(s.files, batchOf(id), id)
      {
        TruthAfterPublish(s, batch, r, written, moved, batchOf(id), id);
      }
    }
  }

  lemma MergedEntry(saved: map<nat, Record>, current: map<nat, Record>, id: nat)
    requires AllNormal(saved) && AllNormal(current)
    ensures Entry(NormalizeAll(saved + current), id) == if id in current then Entry(current, id) else Entry(saved, id)
  {
  }

  lemma ReadNormal(files: map<nat, File>, order: seq<nat>)
    ensures AllNormal(Read(files, order))
  {
    NormalizeAllIdempotent(ParseRows(Gather(files, order)));
    var m := Read(files, order);
    assert forall id :: id in m ==> NormalizeAll(m)[id] == m[id];
  }

  /** Every refresh, full or incremental, leaves the page exact. */
  lemma RefreshExact(s: System, order: seq<nat>, at: real, lag: real, incremental: bool, batchOf: nat -> nat,
                     delay: real)
    requires Inv(s, batchOf, delay) && Possible(s, Refresh(order, at, lag, incremental), batchOf, delay)
    ensures Exact(Refreshed(s, order, at, lag, incremental), batchOf)
    ensures Inv(Refreshed(s, order, at, lag, incremental), batchOf, delay)
  {
    var s' := Refreshed(s, order, at, lag, incremental);
    ReadNormal(s.files, order);
    forall id: nat
      ensures Entry(s'.shown.value.results, id) == Truth(s.files, batchOf(id), id)
    {
      ReadEntry(s.files, batchOf, order, id);
      if incremental && s.shown.Some? {
        MergedEntry(s.shown.value.results, Read(s.files, order), id);
      }
    }
    NormalizeAllNormal(if incremental && s.shown.Some? then s.shown.value.results + Read(s.files, order)
                       else ParseRows(Gather(s.files, order)));
  }

  lemma NormalizeAllNormal(m: map<nat, Record>)
    ensures AllNormal(NormalizeAll(m))
  {
    NormalizeAllIdempotent(m);
    var n := NormalizeAll(m);
    assert forall id :: id in n ==> NormalizeAll(n)[id] == n[id];
  }

  // ---------------------------------------------------------------- whole runs

  ghost predicate Run(start: System, events: seq<Event>, batchOf: nat -> nat, delay: real)
    decreases |events|
  {
    events == [] ||
    (Run(start, events[..|events| - 1], batchOf, delay) &&
     Possible(After(start, events[..|events| - 1]), events[|events| - 1], batchOf, delay))
  }

  function After(start: System, events: seq<Event>): System
    decreases |events|
  {
    if events == [] then start else Apply(After(start, events[..|events| - 1]), events[|events| - 1])
  }

  lemma {:induction false} RunKeeps(start: System, events: seq<Event>, batchOf: nat -> nat, delay: real)
    requires start.files == map[] && start.shown == None && Run(start, events, batchOf, delay)
    ensures Inv(After(start, events), batchOf, delay)
    ensures events != [] && events[|events| - 1].Refresh? ==> Exact(After(start, events), batchOf)
    decreases |events|
  {
    if events != [] {
      var before := After(start, events[..|events| - 1]);
      RunKeeps(start, events[..|events| - 1], batchOf, delay);
      match events[|events| - 1]
      case Publish(batch, r, written, moved) => PublishKeeps(before, batch, r, written, moved, batchOf, delay);
      case Refresh(order, at, lag, incremental) => RefreshExact(before, order, at, lag, incremental, batchOf, delay);
    }
  }

  /** After any refresh of any run, the results are those of reading every file from scratch. */
  lemma IncrementalEqualsFull(start: System, events: seq<Event>, batchOf: nat -> nat, delay: real, all: seq<nat>)
    requires start.files == map[] && start.shown == None && Run(start, events, batchOf, delay)
    requires events != [] && events[|events| - 1].Refresh?
    requires Lists(all, After(start, events).files.Keys)
    ensures After(start, events).shown.value.results == Read(After(start, events).files, all)
  {
    var s := After(start, events);
    RunKeeps(start, events, batchOf, delay);
    forall id: nat
      ensures Entry(s.shown.value.results, id) == Entry(Read(s.files, all), id)
    {
      ReadEntry(s.files, batchOf, all, id);
    }
    SameEntries(s.shown.value.results, Read(s.files, all));
  }

  /** So do the completed count, both status tables and the wall totals of the page. */
  lemma SummariesEqualFull(start: System, events: seq<Event>, batchOf: nat -> nat, delay: real, all: seq<nat>,
                           shown: Job, full: Job)
    requires start.files == map[] && start.shown == None && Run(start, events, batchOf, delay)
    requires events != [] && events[|events| - 1].Refresh?
    requires Lists(all, After(start, events).files.Keys)
    requires shown.results == After(start, events).shown.value.results && shown.Summarized(shown.results)
    requires full.results == Read(After(start, events).files, all) && full.Summarized(full.results)
    ensures shown.results == full.results && shown.completed == full.completed
    ensures shown.statusCounts == full.statusCounts && shown.unresolvedCounts == full.unresolvedCounts
    ensures shown.wallSum == full.wallSum && shown.wallMax == full.wallMax
  {
    IncrementalEqualsFull(start, events, batchOf, delay, all);
    SummaryDetermined(shown, full);
  }

  lemma SameEntries(a: map<nat, Record>, b: map<nat, Record>)
    requires forall id: nat :: Entry(a, id) == Entry(b, id)
    ensures a == b
  {
    forall id: nat
      ensures (id in a <==> id in b) && (id in a ==> a[id] == b[id])
    {
      assert Entry(a, id) == Entry(b, id);
    }
  }

  // ---------------------------------------------------------------- the margin

  /** Less than a minute of lag and delay together is always enough. */
  lemma MinuteSuffices(at: real, lag: real, delay: real)
    requires lag + delay < 60.0 && at > delay
    ensures Safe(at, lag, delay)
  {
  }

  /** Whole seconds of lag and delay: less than sixty is also needed. */
  lemma MinuteNeeded(at: int, lag: int, delay: int)
    requires at + lag > 60 && at > delay
    ensures Safe(at as real, lag as real, delay as real) <==> lag + delay < 60
  {
    var fetched := at as real + lag as real;
    assert fetched == (at + lag) as real;
    assert fetched - 60.0 == (at + lag - 60) as real;
    assert (fetched - 60.0).Floor == at + lag - 60;
  }

  /** A task of a file that is not selected keeps its entry. */
  lemma SkippedKeepsEntry(s: System, order: seq<nat>, at: real, lag: real, batchOf: nat -> nat, id: nat)
    requires Separated(s.files, batchOf) && s.shown.Some? && AllNormal(s.shown.value.results)
    requires Lists(order, Wanted(s, true))
    requires batchOf(id) in s.files && !Selected(s.files[batchOf(id)], Cutoff(s.shown.value.fetched))
    ensures Entry(Refreshed(s, order, at, lag, true).shown.value.results, id) == Entry(s.shown.value.results, id)
  {
    ReadEntry(s.files, batchOf, order, id);
    ReadNormal(s.files, order);
    MergedEntry(s.shown.value.results, Read(s.files, order), id);
  }

  function ReadThenPublished(s: System, order: seq<nat>, at: real, lag: real, b: nat, r: Record, delay: real): System {
    Published(Refreshed(s, order, at, lag, false), b, r, at - delay, at)
  }

  /** Without the margin, a result published right after the reading is skipped by the next refresh. */
  lemma UnsafeLosesResult(s: System, order: seq<nat>, at: real, lag: real, r: Record, batchOf: nat -> nat, delay: real,
                          later: seq<nat>, at': real, lag': real)
    requires Separated(s.files, batchOf) && delay >= 0.0 && !Safe(at, lag, delay)
    requires Lists(order, Wanted(s, false))
    requires Truth(s.files, batchOf(r.task), r.task) != Some(Normalize(r))
    requires Lists(later, Wanted(ReadThenPublished(s, order, at, lag, batchOf(r.task), r, delay), true))
    ensures Possible(Refreshed(s, order, at, lag, false), Publish(batchOf(r.task), r, at - delay, at), batchOf, delay)
    ensures var read := ReadThenPublished(s, order, at, lag, batchOf(r.task), r, delay);
            !Exact(Refreshed(read, later, at', lag', true), batchOf)
  {
    var b := batchOf(r.task);
    var read := Refreshed(s, order, at, lag, false);
    var published := Published(read, b, r, at - delay, at);
    ReadEntry(s.files, batchOf, order, r.task);
    ReadNormal(s.files, order);
    SeparatedPublish(read, b, r, at - delay, at, batchOf);
    SkippedKeepsEntry(published, later, at', lag', batchOf, r.task);
    TruthAfterPublish(read, b, r, at - delay, at, b, r.task);
    var final := Refreshed(published, later, at', lag', true);
    assert final.files == published.files;
    assert Entry(final.shown.value.results, r.task) != Truth(final.files, b, r.task);
  }
}
