/** The log names printed by `remote_export.py` and read back by `starexec_export.py`. */
module StreamNames {
  import opened Options
  import opened Decimal

  const MARK := "___"
  const LOG := ".log"
  const STDERR := ".stderr"

  // ---------------------------------------------------------------- printing

  function Dashed(s: string): (t: string)
    ensures |t| == |s|
  {
    seq(|s|, i requires 0 <= i < |s| => if s[i] == '/' then '-' else s[i])
  }

  /** `problem` is the last component of the problem's path; no name for an unusable solver name. */
  function StreamName(solver: string, problem: string, task: nat, error: bool): Option<string> {
    var name := Dashed(if solver == "" then "solver" else solver);
    if name == "." || name == ".." || '\0' in name then None
    else Some(name + MARK + problem + Tail(task, error))
  }

  /** What follows the problem name. */
  function Tail(task: nat, error: bool): string {
    MARK + PrintPadded(task, 9) + (if error then STDERR else "") + LOG
  }

  // ---------------------------------------------------------------- parsing

  function EndsWith(s: string, suffix: string): bool {
    |s| >= |suffix| && s[|s| - |suffix|..] == suffix
  }

  /** The digits of a text that is the mark, digits, perhaps `.stderr`, and `.log`. */
  function Inside(s: string): Option<string> {
    if |s| < 3 || s[..3] != MARK then None
    else
      var rest := s[3..];
      if EndsWith(rest, STDERR + LOG) && Numeral(rest[..|rest| - 11]) then Some(rest[..|rest| - 11])
      else if EndsWith(rest, LOG) && Numeral(rest[..|rest| - 4]) then Some(rest[..|rest| - 4])
      else None
  }

  /** The leftmost place where the pattern matches up to the end. */
  function Search(s: string): Option<string> {
    if Inside(s).Some? then Inside(s)
    else if s == "" then None
    else Search(s[1..])
  }

  function PairId(s: string): Option<nat> {
    match Search(s)
    case Some(digits) => if AllDigits(digits) then Some(Parse(digits)) else None
    case None => None
  }

  // ---------------------------------------------------------------- round trip

  lemma SuffixOf(a: string, suffix: string)
    ensures EndsWith(a + suffix, suffix)
    ensures (a + suffix)[..|a|] == a
  {
  }

  lemma NotStderr(rest: string)
    requires |rest| >= 5 && IsDigit(rest[|rest| - 5])
    ensures !EndsWith(rest, STDERR + LOG)
  {
    assert (STDERR + LOG)[6] == 'r';
    assert |rest| >= 11 ==> rest[|rest| - 11..][6] == rest[|rest| - 5];
  }

  /** The printed tail matches, and gives back the number. */
  lemma TailInside(task: nat, error: bool)
    ensures Inside(Tail(task, error)) == Some(PrintPadded(task, 9))
  {
    var digits := PrintPadded(task, 9);
    var suffix := (if error then STDERR else "") + LOG;
    var rest := digits + suffix;
    assert Tail(task, error) == MARK + rest;
    assert Tail(task, error)[3..] == rest;
    SuffixOf(digits, suffix);
    if error {
      assert suffix == STDERR + LOG;
    } else {
      assert suffix == LOG;
      assert rest[|rest| - 5] == digits[|digits| - 1];
      NotStderr(rest);
    }
  }

  /** A match has no underscore after its mark. */
  lemma NoMarkInside(s: string, k: nat)
    requires Inside(s).Some? && 3 <= k < |s|
    ensures s[k] != '_'
  {
    var digits := Inside(s).value;
    var suffix := InsideIs(s);
    assert s[3..] == digits + suffix;
    assert s[k] == (digits + suffix)[k - 3];
    if k - 3 >= |digits| {
      NoUnderscore(suffix, k - 3 - |digits|);
    }
  }

  lemma NoUnderscore(suffix: string, i: nat)
    requires (suffix == ".log" || suffix == ".stderr.log") && i < |suffix|
    ensures suffix[i] != '_'
  {
  }

  /** No earlier place matches: there is a mark further on. */
  lemma NoEarlierMatch(front: string, tail: string)
    requires front != "" && Inside(tail).Some?
    ensures Inside(front + tail) == None
  {
    var s := front + tail;
    assert s[|front| + 2] == tail[2] == '_';
    if Inside(s).Some? {
      NoMarkInside(s, |front| + 2);
    }
  }

  lemma SearchSkips(s: string)
    requires s != "" && Inside(s) == None
    ensures Search(s) == Search(s[1..])
  {
  }

  /** A text that ends in a match has no other. */
  lemma {:induction false} SearchFinds(front: string, tail: string)
    requires Inside(tail).Some?
    ensures Search(front + tail) == Inside(tail)
  {
    if front == "" {
      assert front + tail == tail;
    } else {
      NoEarlierMatch(front, tail);
      SearchSkips(front + tail);
      assert (front + tail)[1..] == front[1..] + tail;
      SearchFinds(front[1..], tail);
    }
  }

  /** Whatever the solver, the problem and the archive directory are called, the number comes back. */
  lemma NameGivesTask(directory: string, solver: string, problem: string, task: nat, error: bool)
    requires StreamName(solver, problem, task, error).Some?
    ensures PairId(directory + StreamName(solver, problem, task, error).value) == Some(task)
  {
    var name := Dashed(if solver == "" then "solver" else solver);
    var front := directory + (name + MARK + problem);
    assert directory + StreamName(solver, problem, task, error).value == front + Tail(task, error);
    TailInside(task, error);
    SearchFinds(front, Tail(task, error));
    PaddedThenParse(task, 9);
  }

  // ---------------------------------------------------------------- names and numbers spelled out

  /**
   The printed name: the solver with dashes for slashes, the problem, and the number padded to nine digits, each
   behind three underscores. There is none for a solver called `.` or `..` or with a NUL in its name.
   */
  lemma NamePrinted(solver: string, problem: string, task: nat, error: bool) returns (name: string, digits: string)
    ensures |name| == if solver == "" then 6 else |solver|
    ensures if solver == "" then name == "solver"
            else forall i :: 0 <= i < |solver| ==> name[i] == if solver[i] == '/' then '-' else solver[i]
    ensures Numeral(digits) && Parse(digits) == task && |digits| >= 9 && (|digits| > 9 ==> digits[0] != '0')
    ensures StreamName(solver, problem, task, error)
         == if name == "." || name == ".." || '\0' in name then None
            else Some(name + "___" + problem + "___" + digits + (if error then ".stderr.log" else ".log"))
  {
    name := Dashed(if solver == "" then "solver" else solver);
    digits := PrintPadded(task, 9);
    PaddedThenParse(task, 9);
    PaddedLeading(task, 9);
    assert Dashed("solver") == "solver";
    TailIs(task, error);
    TailJoined(name, problem, digits, if error then ".stderr.log" else ".log");
  }

  lemma TailIs(task: nat, error: bool)
    ensures Tail(task, error) == "___" + PrintPadded(task, 9) + (if error then ".stderr.log" else ".log")
  {
    var digits := PrintPadded(task, 9);
    assert (if error then STDERR else "") + LOG == if error then ".stderr.log" else ".log";
    assert MARK + digits + (if error then STDERR else "") + LOG
        == MARK + digits + ((if error then STDERR else "") + LOG);
  }

  lemma TailJoined(name: string, problem: string, digits: string, suffix: string)
    ensures name + "___" + problem + ("___" + digits + suffix) == name + "___" + problem + "___" + digits + suffix
  {
  }

  /** A log name: anything, three underscores, digits, perhaps `.stderr`, and `.log`. */
  ghost predicate LogName(s: string, digits: string) {
    Numeral(digits) && exists front, suffix :: Written(s, front, digits, suffix)
  }

  predicate Written(s: string, front: string, digits: string, suffix: string) {
    s == front + "___" + digits + suffix && (suffix == ".log" || suffix == ".stderr.log")
  }

  lemma InsideMatches(digits: string, error: bool)
    requires Numeral(digits)
    ensures Inside("___" + digits + if error then ".stderr.log" else ".log") == Some(digits)
  {
    var suffix := if error then STDERR + LOG else LOG;
    var s := "___" + digits + suffix;
    assert s[3..] == digits + suffix && s[..3] == MARK;
    SuffixOf(digits, suffix);
    if !error {
      var rest := digits + suffix;
      assert rest[|rest| - 5] == digits[|digits| - 1];
      NotStderr(rest);
    }
  }

  lemma InsideIs(s: string) returns (suffix: string)
    requires Inside(s).Some?
    ensures Numeral(Inside(s).value) && Written(s, "", Inside(s).value, suffix)
  {
    var rest, digits := s[3..], Inside(s).value;
    suffix := rest[|digits|..];
    assert STDERR + LOG == ".stderr.log";
    AfterMark(s, rest, digits, suffix);
  }

  lemma AfterMark(s: string, rest: string, digits: string, suffix: string)
    requires |s| >= 3 && s[..3] == "___" && s[3..] == rest && |digits| <= |rest|
    requires digits == rest[..|digits|] && suffix == rest[|digits|..]
    ensures s == "" + "___" + digits + suffix
  {
    assert s == s[..3] + rest && rest == digits + suffix;
  }

  lemma Prepended(c: char, s: string, front: string, digits: string, suffix: string)
    requires Written(s, front, digits, suffix)
    ensures Written([c] + s, [c] + front, digits, suffix)
  {
  }

  lemma {:induction false} SearchIs(s: string) returns (front: string, suffix: string)
    requires Search(s).Some?
    ensures Numeral(Search(s).value) && Written(s, front, Search(s).value, suffix)
  {
    if Inside(s).Some? {
      suffix := InsideIs(s);
      front := "";
    } else {
      front, suffix := SearchIs(s[1..]);
      Prepended(s[0], s[1..], front, Search(s).value, suffix);
      assert s == [s[0]] + s[1..];
      front := [s[0]] + front;
    }
  }

  lemma SearchOf(front: string, digits: string, error: bool)
    requires Numeral(digits)
    ensures Search(front + "___" + digits + if error then ".stderr.log" else ".log") == Some(digits)
  {
    var suffix := if error then ".stderr.log" else ".log";
    InsideMatches(digits, error);
    SearchFinds(front, "___" + digits + suffix);
    Regroup(front, "___", digits, suffix);
  }

  lemma Regroup(a: string, b: string, c: string, d: string)
    ensures a + b + c + d == a + (b + c + d)
  {
  }

  /** The number of a name is the one its log name ends in; a name that is not a log name has none. */
  lemma PairIdExactly(s: string, task: nat)
    ensures PairId(s) == Some(task) <==> exists digits :: LogName(s, digits) && Parse(digits) == task
  {
    if Search(s).Some? {
      var front, suffix := SearchIs(s);
      assert LogName(s, Search(s).value);
    }
    forall digits | LogName(s, digits)
      ensures Search(s) == Some(digits)
    {
      var front, suffix :| Written(s, front, digits, suffix);
      SearchOf(front, digits, false);
      SearchOf(front, digits, true);
    }
  }
}
