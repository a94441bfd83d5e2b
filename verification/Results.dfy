/** Result records and their summary, after `monitor.py`. */
module Results {
  import opened Options
  import opened Decimal

  datatype Record = Record(task: nat, complete: bool, status: string, returnCode: string, szs: string,
                           wall: Option<real>)

  // ---------------------------------------------------------------- normalisation

  function LowerChar(c: char): char {
    if 'A' <= c <= 'Z' then (c as int + 32) as char else c
  }

  function Lower(s: string): (t: string)
    ensures |t| == |s|
  {
    seq(|s|, i requires 0 <= i < |s| => LowerChar(s[i]))
  }

  const SOLVER_ERRORS := {"error", "oserror", "inputerror", "syntaxerror", "semanticerror", "typeerror", "usageerror"}

  /** An SZS answer overrides the status of a solver that exited with an error code. */
  function Normalize(r: Record): Record {
    var szs := Lower(r.szs);
    if r.status != "solver-error" then r
    else if szs == "timeout" then r.(status := "time-limit")
    else if szs == "countersatisfiable" then r.(status := "counter-satisfiable")
    else if szs != "" && r.returnCode != "" && AllDigits(r.returnCode) && Parse(r.returnCode) < 128
            && szs !in SOLVER_ERRORS then r.(status := "ok")
    else r
  }

  lemma NormalizeIdempotent(r: Record)
    ensures Normalize(Normalize(r)) == Normalize(r)
  {
  }

  /** The text is the word, in any mixture of small and capital letters. */
  predicate Reads(text: string, word: string) {
    |text| == |word| && forall i :: 0 <= i < |text| ==>
      text[i] == word[i] || (97 <= word[i] as int <= 122 && text[i] as int == word[i] as int - 32)
  }

  /** A word of small letters. */
  predicate Small(word: string) { forall i :: 0 <= i < |word| ==> 97 <= word[i] as int <= 122 }

  lemma LowerReads(text: string, word: string)
    requires Small(word)
    ensures Lower(text) == word <==> Reads(text, word)
  {
    if Lower(text) == word {
      forall i | 0 <= i < |text|
        ensures text[i] == word[i] || (97 <= word[i] as int <= 122 && text[i] as int == word[i] as int - 32)
      {
        assert Lower(text)[i] == LowerChar(text[i]);
      }
    }
    if Reads(text, word) {
      forall i | 0 <= i < |text|
        ensures Lower(text)[i] == word[i]
      {
      }
    }
  }

  /** An exit code of the solver itself, not of a signal. */
  predicate OrdinaryExit(code: string) { Numeral(code) && Parse(code) < 128 }

  /** The SZS answers that report an error. */
  ghost predicate ReadsError(szs: string) {
    || Reads(szs, "error") || Reads(szs, "oserror") || Reads(szs, "inputerror") || Reads(szs, "syntaxerror")
    || Reads(szs, "semanticerror") || Reads(szs, "typeerror") || Reads(szs, "usageerror")
  }

  /**
   Only the status of a solver error is ever changed. It becomes a time limit or a counter-satisfiable answer if
   the SZS answer says so, in any letter case; and with an ordinary exit code any other answer that reports no
   error makes it ok.
   */
  lemma NormalizeExactly(r: Record)
    ensures Normalize(r).(status := r.status) == r
    ensures Normalize(r).status
         == if r.status != "solver-error" then r.status
            else if Reads(r.szs, "timeout") then "time-limit"
            else if Reads(r.szs, "countersatisfiable") then "counter-satisfiable"
            else if r.szs != "" && !ReadsError(r.szs) && OrdinaryExit(r.returnCode) then "ok"
            else "solver-error"
  {
    LowerReads(r.szs, "timeout");
    LowerReads(r.szs, "countersatisfiable");
    ErrorsRead(r.szs);
  }

  lemma ErrorsRead(szs: string)
    ensures Lower(szs) in SOLVER_ERRORS <==> ReadsError(szs)
  {
    LowerReads(szs, "error");
    LowerReads(szs, "oserror");
    LowerReads(szs, "inputerror");
    LowerReads(szs, "syntaxerror");
    LowerReads(szs, "semanticerror");
    LowerReads(szs, "typeerror");
    LowerReads(szs, "usageerror");
  }

  function NormalizeAll(m: map<nat, Record>): map<nat, Record> {
    map id | id in m :: Normalize(m[id])
  }

  lemma NormalizeAllIdempotent(m: map<nat, Record>)
    ensures NormalizeAll(NormalizeAll(m)) == NormalizeAll(m)
  {
    forall id | id in m
      ensures Normalize(Normalize(m[id])) == Normalize(m[id])
    {
      NormalizeIdempotent(m[id]);
    }
  }

  // ---------------------------------------------------------------- parsing

  /** Rows in reading order; a later row of the same task replaces an earlier one. */
  function ParseRows(rows: seq<Record>): map<nat, Record> {
    if rows == [] then map[]
    else
      var last := rows[|rows| - 1];
      ParseRows(rows[..|rows| - 1])[last.task := last]
  }

  lemma {:induction false} ParseJoined(a: seq<Record>, b: seq<Record>)
    ensures ParseRows(a + b) == ParseRows(a) + ParseRows(b)
  {
    if b == [] {
      assert a + b == a;
    } else {
      var k := |b| - 1;
      ParseJoined(a, b[..k]);
      assert (a + b)[..|a| + k] == a + b[..k];
    }
  }

  lemma {:induction false} ParseTasks(rows: seq<Record>, id: nat)
    ensures id in ParseRows(rows) <==> exists i :: 0 <= i < |rows| && rows[i].task == id
    ensures id in ParseRows(rows) ==> ParseRows(rows)[id].task == id
  {
    if rows != [] {
      ParseTasks(rows[..|rows| - 1], id);
      assert forall i :: 0 <= i < |rows| - 1 ==> rows[..|rows| - 1][i] == rows[i];
      if id in ParseRows(rows[..|rows| - 1]) {
        var i :| 0 <= i < |rows| - 1 && rows[i].task == id;
      }
    }
  }

  /** A row of at least fifteen fields that starts with a numeral; `number` reads times. */
  function RecordOf(fields: seq<string>, number: string -> Option<real>): Option<Record> {
    if |fields| < 15 || !Numeral(fields[0]) then None
    else
      Some(Record(Parse(fields[0]), Lower(fields[1]) == "true", fields[2], fields[3],
                  if |fields| > 15 then fields[15] else "", number(fields[4])))
  }

  /** The records of the readable rows, in order. */
  function Readable(rows: seq<seq<string>>, number: string -> Option<real>): seq<Record> {
    if rows == [] then []
    else
      Readable(rows[..|rows| - 1], number) +
      match RecordOf(rows[|rows| - 1], number) { case Some(r) => [r] case None => [] }
  }

  lemma ReadableStep(rows: seq<seq<string>>, number: string -> Option<real>, i: nat)
    requires i < |rows|
    ensures ParseRows(Readable(rows[..i + 1], number))
         == match RecordOf(rows[i], number)
            case Some(r) => ParseRows(Readable(rows[..i], number))[r.task := r]
            case None => ParseRows(Readable(rows[..i], number))
  {
    assert rows[..i + 1][..i] == rows[..i];
    var done := Readable(rows[..i], number);
    match RecordOf(rows[i], number)
    case Some(r) => assert (done + [r])[..|done|] == done;
    case None => assert done + [] == done;
  }

  /** Rows that are too short or do not start with a number are skipped. */
  method Parsed(rows: seq<seq<string>>, number: string -> Option<real>) returns (results: map<nat, Record>)
    ensures results == ParseRows(Readable(rows, number))
  {
    results := map[];
    for i := 0 to |rows|
      invariant results == ParseRows(Readable(rows[..i], number))
    {
      ReadableStep(rows, number, i);
      var record := RecordOf(rows[i], number);
      if record.Some? {
        results := results[record.value.task := record.value];
      }
    }
    assert rows[..|rows|] == rows;
  }

  /** Does row `j` name the pair? */
  predicate Names(rows: seq<seq<string>>, number: string -> Option<real>, j: nat, task: nat)
    requires j < |rows|
  {
    match RecordOf(rows[j], number)
    case Some(r) => r.task == task
    case None => false
  }

  lemma {:induction false} LastOfFirst(rows: seq<seq<string>>, number: string -> Option<real>, i: nat, r: Record,
                                       m: nat)
    requires i < m <= |rows| && RecordOf(rows[i], number) == Some(r)
    requires forall j :: i < j < m ==> !Names(rows, number, j, r.task)
    ensures Entry(ParseRows(Readable(rows[..m], number)), r.task) == Some(r)
  {
    ReadableStep(rows, number, m - 1);
    if i < m - 1 {
      assert !Names(rows, number, m - 1, r.task);
      LastOfFirst(rows, number, i, r, m - 1);
    }
  }

  function Entry(m: map<nat, Record>, id: nat): Option<Record> {
    if id in m then Some(m[id]) else None
  }

  /** An entry of the result is the last readable row of its pair. */
  lemma LastRowWins(rows: seq<seq<string>>, number: string -> Option<real>, i: nat, r: Record)
    requires i < |rows| && RecordOf(rows[i], number) == Some(r)
    requires forall j :: i < j < |rows| ==> !Names(rows, number, j, r.task)
    ensures Entry(ParseRows(Readable(rows, number)), r.task) == Some(r)
  {
    LastOfFirst(rows, number, i, r, |rows|);
    assert rows[..|rows|] == rows;
  }

  // ---------------------------------------------------------------- a published row is read back

  /** The row that a finished call publishes, with the columns in the order of its header. */
  function PublishedRow(task: nat, complete: bool, status: string, code: string, wall: string, others: seq<string>,
                        szs: string, output: string): seq<string>
    requires |others| == 10
  {
    [Print(task), if complete then "true" else "false", status, code, wall] + others + [szs, output]
  }

  /** A row is read if and only if it has the fifteen oldest columns and the first is a number. */
  lemma ReadExactly(fields: seq<string>, number: string -> Option<real>)
    ensures RecordOf(fields, number).Some? <==> |fields| >= 15 && Numeral(fields[0])
  {
  }

  lemma WordsRead()
    ensures Lower("true") == "true" && Lower("false") != "true"
  {
    LowerReads("true", "true");
    LowerReads("false", "true");
  }

  /**
   Reading a published row gives back the pair, completeness, status, exit code, SZS answer and wall time. So it does
   for a row without the last two columns, except for the answer.
   */
  lemma PublishedRead(task: nat, complete: bool, status: string, code: string, wall: string, others: seq<string>,
                      szs: string, output: string, number: string -> Option<real>)
    requires |others| == 10
    ensures RecordOf(PublishedRow(task, complete, status, code, wall, others, szs, output), number)
         == Some(Record(task, complete, status, code, szs, number(wall)))
    ensures RecordOf(PublishedRow(task, complete, status, code, wall, others, szs, output)[..15], number)
         == Some(Record(task, complete, status, code, "", number(wall)))
  {
    var row := PublishedRow(task, complete, status, code, wall, others, szs, output);
    PrintThenParse(task);
    WordsRead();
    assert |row| == 17 && row[15] == szs;
  }

  // ---------------------------------------------------------------- the summary

  function Wall(r: Record): real {
    if r.wall.Some? then r.wall.value else 0.0
  }

  ghost function Having(m: map<nat, Record>, p: Record -> bool): set<nat> {
    set id | id in m && p(m[id])
  }

  lemma HavingExtended(m: map<nat, Record>, p: Record -> bool, id: nat, r: Record)
    requires id !in m
    ensures Having(m[id := r], p) == Having(m, p) + if p(r) then {id} else {}
    ensures |Having(m[id := r], p)| == |Having(m, p)| + if p(r) then 1 else 0
  {
    assert Having(m[id := r], p) == Having(m, p) + if p(r) then {id} else {};
  }

  ghost function Completed(m: map<nat, Record>): set<nat> {
    Having(m, (r: Record) => r.complete)
  }

  /** The tasks that a status count counts. */
  ghost function WithStatus(m: map<nat, Record>, complete: bool, status: string): set<nat> {
    Having(m, (r: Record) => r.complete == complete && r.status == status)
  }

  ghost function WallSum(m: map<nat, Record>): real
    decreases m.Keys
  {
    if m == map[] then 0.0
    else
      var id :| id in m;
      (if m[id].complete then Wall(m[id]) else 0.0) + WallSum(m - {id})
  }

  lemma {:induction false} WallSumRemove(m: map<nat, Record>, id: nat)
    requires id in m
    ensures WallSum(m) == (if m[id].complete then Wall(m[id]) else 0.0) + WallSum(m - {id})
    decreases m.Keys
  {
    var first :| first in m && WallSum(m) == (if m[first].complete then Wall(m[first]) else 0.0) + WallSum(m - {first});
    if first != id {
      WallSumRemove(m - {first}, id);
      WallSumRemove(m - {id}, first);
      assert m - {first} - {id} == m - {id} - {first};
    }
  }

  /** The largest wall time of a completed pair; zero when none is completed. */
  ghost predicate IsWallMax(m: map<nat, Record>, x: real) {
    IsMaxOf(Completed(m), m, x)
  }

  /** Exactly the statuses that occur, each with the number of tasks that have it. */
  ghost predicate AreCounts(m: map<nat, Record>, complete: bool, counts: map<string, nat>) {
    && (forall id :: id in m && m[id].complete == complete ==> m[id].status in counts)
    && (forall s :: s in counts ==> counts[s] == |WithStatus(m, complete, s)| > 0)
  }

  /** Without results there is nothing to count. */
  lemma CountsEmpty(complete: bool)
    ensures AreCounts(map[], complete, map[])
  {
  }

  function Raised(counts: map<string, nat>, status: string): map<string, nat> {
    counts[status := (if status in counts then counts[status] else 0) + 1]
  }

  lemma WithStatusExtended(m: map<nat, Record>, complete: bool, id: nat, r: Record, status: string)
    requires id !in m
    ensures |WithStatus(m[id := r], complete, status)| ==
            |WithStatus(m, complete, status)| + if r.complete == complete && r.status == status then 1 else 0
  {
    HavingExtended(m, (q: Record) => q.complete == complete && q.status == status, id, r);
  }

  lemma CountsExtended(m: map<nat, Record>, complete: bool, counts: map<string, nat>, id: nat, r: Record)
    requires AreCounts(m, complete, counts) && id !in m
    ensures AreCounts(m[id := r], complete, if r.complete == complete then Raised(counts, r.status) else counts)
  {
    var counts' := if r.complete == complete then Raised(counts, r.status) else counts;
    var m' := m[id := r];
    forall s | s in counts'
      ensures counts'[s] == |WithStatus(m', complete, s)| > 0
    {
      WithStatusExtended(m, complete, id, r, s);
      if s !in counts {
        assert WithStatus(m, complete, s) == {};
      }
    }
  }

  /** The summary fields are determined by the results. */
  lemma CountsUnique(m: map<nat, Record>, complete: bool, a: map<string, nat>, b: map<string, nat>)
    requires AreCounts(m, complete, a) && AreCounts(m, complete, b)
    ensures a == b
  {
    forall s | s in a
      ensures s in b && a[s] == b[s]
    {
      SomeTask(m, complete, s);
    }
    forall s | s in b
      ensures s in a
    {
      SomeTask(m, complete, s);
    }
  }

  lemma SomeTask(m: map<nat, Record>, complete: bool, s: string)
    requires |WithStatus(m, complete, s)| > 0
    ensures exists id :: id in m && m[id].complete == complete && m[id].status == s
  {
    assert WithStatus(m, complete, s) != {};
    var id :| id in WithStatus(m, complete, s);
  }

  ghost function Partly(m: map<nat, Record>, todo: set<nat>): map<nat, Record> {
    map id | id in m :: if id in todo then m[id] else Normalize(m[id])
  }

  ghost function Done(m: map<nat, Record>, todo: set<nat>): map<nat, Record> {
    map id | id in m && id !in todo :: Normalize(m[id])
  }

  lemma PartlyStep(m: map<nat, Record>, todo: set<nat>, id: nat)
    requires id in todo && todo <= m.Keys
    ensures Partly(m, todo)[id] == m[id] && id !in Done(m, todo)
    ensures Partly(m, todo - {id}) == Partly(m, todo)[id := Normalize(m[id])]
    ensures Done(m, todo - {id}) == Done(m, todo)[id := Normalize(m[id])]
  {
  }

  lemma PartlyAll(m: map<nat, Record>)
    ensures Partly(m, {}) == Done(m, {}) == NormalizeAll(m)
    ensures Partly(m, m.Keys) == m && Done(m, m.Keys) == map[]
  {
  }

  ghost function Rest(m: map<nat, Record>, todo: set<nat>): map<nat, Record> {
    map id | id in m && id !in todo :: m[id]
  }

  lemma RestStep(m: map<nat, Record>, todo: set<nat>, id: nat)
    requires id in todo && todo <= m.Keys
    ensures id !in Rest(m, todo) && Rest(m, todo - {id}) == Rest(m, todo)[id := m[id]]
  {
  }

  lemma RestAll(m: map<nat, Record>)
    ensures Rest(m, m.Keys) == map[] && Rest(m, {}) == m
  {
  }

  datatype Sums = Sums(completed: nat, wallSum: real, wallMax: real)

  function Added(t: Sums, r: Record): Sums {
    if !r.complete then t
    else Sums(t.completed + 1, t.wallSum + Wall(r),
              if t.completed == 0 || Wall(r) > t.wallMax then Wall(r) else t.wallMax)
  }

  ghost predicate AreSums(m: map<nat, Record>, t: Sums) {
    t.completed == |Completed(m)| && t.wallSum == WallSum(m) && IsWallMax(m, t.wallMax)
  }

  class Job {
    var results: map<nat, Record>
    var completed: nat
    var wallSum: real
    var wallMax: real
    var statusCounts: map<string, nat>
    var unresolvedCounts: map<string, nat>

    constructor (results: map<nat, Record>)
      ensures this.results == results
    {
      this.results := results;
      completed, wallSum, wallMax := 0, 0.0, 0.0;
      statusCounts, unresolvedCounts := map[], map[];
    }

    ghost predicate Summarized(m: map<nat, Record>)
      reads this
    {
      && completed == |Completed(m)|
      && wallSum == WallSum(m)
      && IsWallMax(m, wallMax)
      && AreCounts(m, true, statusCounts)
      && AreCounts(m, false, unresolvedCounts)
    }

    /** Normalises every record in place and recomputes all totals. */
    method Summarize()
      modifies this
      ensures results == NormalizeAll(old(results))
      ensures Summarized(results)
    {
      Totals();
      CountStatuses();
      TotalsUnaffected(old(results), wallMax);
    }

    method CountStatuses()
      modifies `results, `statusCounts, `unresolvedCounts
      ensures results == NormalizeAll(old(results))
      ensures AreCounts(results, true, statusCounts) && AreCounts(results, false, unresolvedCounts)
    {
      ghost var raw := results;
      ghost var done: map<nat, Record> := map[];
      var todo := results.Keys;
      PartlyAll(raw);
      CountsEmpty(true);
      CountsEmpty(false);
      statusCounts, unresolvedCounts := map[], map[];
      while todo != {}
        invariant todo <= raw.Keys
        invariant results == Partly(raw, todo) && done == Done(raw, todo)
        invariant AreCounts(done, true, statusCounts) && AreCounts(done, false, unresolvedCounts)
        decreases |todo|
      {
        var id :| id in todo;
        var r := Normalize(results[id]);
        CountsExtended(done, true, statusCounts, id, r);
        CountsExtended(done, false, unresolvedCounts, id, r);
        PartlyStep(raw, todo, id);
        results := results[id := r];
        if r.complete {
          statusCounts := Raised(statusCounts, r.status);
        } else {
          unresolvedCounts := Raised(unresolvedCounts, r.status);
        }
        done := done[id := r];
        todo := todo - {id};
      }
      PartlyAll(raw);
    }

    /** The number of completed pairs, and the sum and maximum of their wall times. */
    method Totals()
      modifies this
      ensures results == old(results)
      ensures completed == |Completed(results)| && wallSum == WallSum(results) && IsWallMax(results, wallMax)
    {
      var todo := results.Keys;
      var t := Sums(0, 0.0, 0.0);
      RestAll(results);
      while todo != {}
        invariant todo <= results.Keys && results == old(results)
        invariant AreSums(Rest(results, todo), t)
        decreases |todo|
      {
        var id :| id in todo;
        RestStep(results, todo, id);
        SumsExtended(Rest(results, todo), id, results[id], t);
        t := Added(t, results[id]);
        todo := todo - {id};
      }
      completed, wallSum, wallMax := t.completed, t.wallSum, t.wallMax;
    }
  }

  lemma CompletedExtended(m: map<nat, Record>, id: nat, r: Record)
    requires id !in m
    ensures Completed(m[id := r]) == Completed(m) + if r.complete then {id} else {}
    ensures |Completed(m[id := r])| == |Completed(m)| + if r.complete then 1 else 0
  {
    HavingExtended(m, (q: Record) => q.complete, id, r);
  }

  lemma WallMaxExtended(m: map<nat, Record>, id: nat, r: Record, x: real)
    requires id !in m && IsWallMax(m, x)
    ensures IsWallMax(m[id := r], if r.complete && (Completed(m) == {} || Wall(r) > x) then Wall(r) else x)
  {
    CompletedExtended(m, id, r);
    MaxExtended(Completed(m), m, id, r, x);
  }

  /** `x` bounds the wall times of `some` and is one of them. */
  ghost predicate IsMaxOf(some: set<nat>, m: map<nat, Record>, x: real)
    requires some <= m.Keys
  {
    if some == {} then x == 0.0
    else (exists id :: id in some && Wall(m[id]) == x) && (forall id :: id in some ==> Wall(m[id]) <= x)
  }

  lemma MaxExtended(some: set<nat>, m: map<nat, Record>, id: nat, r: Record, x: real)
    requires id !in m && some <= m.Keys && IsMaxOf(some, m, x)
    ensures IsMaxOf(some, m[id := r], x)
    ensures IsMaxOf(some + {id}, m[id := r], if some == {} || Wall(r) > x then Wall(r) else x)
  {
    if some != {} {
      var k :| k in some && Wall(m[k]) == x;
      assert k in some + {id} && Wall(m[id := r][k]) == x;
    }
    assert id in some + {id};
  }

  lemma SumsExtended(m: map<nat, Record>, id: nat, r: Record, t: Sums)
    requires id !in m && AreSums(m, t)
    ensures AreSums(m[id := r], Added(t, r))
  {
    CompletedExtended(m, id, r);
    WallSumRemove(m[id := r], id);
    assert m[id := r] - {id} == m;
    WallMaxExtended(m, id, r, t.wallMax);
    assert t.completed == 0 <==> Completed(m) == {};
  }

  /** Normalisation changes statuses only. */
  lemma TotalsUnaffected(m: map<nat, Record>, x: real)
    requires IsWallMax(m, x)
    ensures Completed(NormalizeAll(m)) == Completed(m)
    ensures WallSum(NormalizeAll(m)) == WallSum(m)
    ensures IsWallMax(NormalizeAll(m), x)
  {
    var n := NormalizeAll(m);
    assert Completed(n) == Completed(m);
    assert forall id :: id in Completed(m) ==> Wall(n[id]) == Wall(m[id]);
    WallSumNormalized(m);
  }

  lemma {:induction false} WallSumNormalized(m: map<nat, Record>)
    ensures WallSum(NormalizeAll(m)) == WallSum(m)
    decreases m.Keys
  {
    if m.Keys == {} {
      assert m == map[] && NormalizeAll(m) == map[];
    } else {
      var id :| id in m;
      WallSumRemove(m, id);
      WallSumRemove(NormalizeAll(m), id);
      WallSumNormalized(m - {id});
      assert NormalizeAll(m - {id}) == NormalizeAll(m) - {id};
    }
  }

  /**
   What one more result changes: a completed one adds its wall time, if it has one, and the largest wall time is
   that of a completed result, a missing one counting as zero.
   */
  lemma SummedByResult(m: map<nat, Record>, id: nat, r: Record, x: real)
    requires id !in m
    ensures WallSum(map[]) == 0.0
    ensures WallSum(m[id := r]) == WallSum(m) + if r.complete && r.wall.Some? then r.wall.value else 0.0
    ensures IsWallMax(m, x) <==>
              if forall k :: k in m ==> !m[k].complete then x == 0.0
              else
                && (exists k :: k in m && m[k].complete && x == if m[k].wall.Some? then m[k].wall.value else 0.0)
                && (forall k :: k in m && m[k].complete ==> x >= if m[k].wall.Some? then m[k].wall.value else 0.0)
  {
    WallSumRemove(m[id := r], id);
    assert m[id := r] - {id} == m;
    assert forall k :: k in Completed(m) <==> k in m && m[k].complete;
  }

  /** Two summaries of the same results agree in every field. */
  lemma SummaryDetermined(a: Job, b: Job)
    requires a.results == b.results && a.Summarized(a.results) && b.Summarized(b.results)
    ensures a.completed == b.completed && a.wallSum == b.wallSum && a.wallMax == b.wallMax
    ensures a.statusCounts == b.statusCounts && a.unresolvedCounts == b.unresolvedCounts
  {
    CountsUnique(a.results, true, a.statusCounts, b.statusCounts);
    CountsUnique(a.results, false, a.unresolvedCounts, b.unresolvedCounts);
  }
}
