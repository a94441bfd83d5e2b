/** Counting the user's queue: which squeue lines belong to which Slurmy job. */
module QueueListing {
  import opened Text
  import opened Options
  import opened Totals
  import Coordinator

  predicate Blank(line: string) { forall i :: 0 <= i < |line| ==> IsSpace(line[i]) }

  predicate IdChar(c: char) {
    'a' <= c <= 'z' || 'A' <= c <= 'Z' || '0' <= c <= '9' || c == '.' || c == '_' || c == '-'
  }

  predicate IsId(name: string) { name != "" && forall i :: 0 <= i < |name| ==> IdChar(name[i]) }

  /** The working directory: everything after the first bar. */
  function Directory(line: string): string {
    if line == "" then "" else if line[0] == '|' then line[1..] else Directory(line[1..])
  }

  /** The job whose directory lies directly below the jobs root, if the name is a job ID. */
  function Owner(line: string, prefix: string): Option<string> {
    var directory := Directory(line);
    var name := if prefix <= directory then directory[|prefix|..] else "";
    if IsId(name) then Some(name) else None
  }

  lemma {:induction false} DirectoryExactly(line: string, before: string)
    requires '|' !in before
    ensures Directory(before + "|" + line) == line
  {
    if before == "" {
      assert before + "|" + line == "|" + line;
    } else {
      DirectoryExactly(line, before[1..]);
      assert (before + "|" + line)[1..] == before[1..] + "|" + line;
    }
  }

  lemma {:induction false} DirectoryFound(line: string) returns (before: string)
    requires Directory(line) != ""
    ensures '|' !in before && line == before + "|" + Directory(line)
  {
    if line[0] == '|' {
      before := "";
    } else {
      before := DirectoryFound(line[1..]);
      assert line == [line[0]] + line[1..];
      before := [line[0]] + before;
    }
  }

  /** A line that belongs to the job `name`: the text behind its first bar is the prefix and then the name. */
  ghost predicate Lists(line: string, prefix: string, name: string) {
    exists before :: '|' !in before && line == before + "|" + (prefix + name)
  }

  /** Some ASCII letters, digits, dots, underscores and hyphens, by their codes. */
  predicate IsJobId(name: string) {
    name != "" && forall i :: 0 <= i < |name| ==>
      var code := name[i] as int;
      65 <= code <= 90 || 97 <= code <= 122 || 48 <= code <= 57 || code in {45, 46, 95}
  }

  lemma IdExactly(name: string)
    ensures IsId(name) <==> IsJobId(name)
  {
  }

  /** A line belongs to the job whose directory lies directly below the root, and to no other. */
  lemma OwnerExactly(line: string, prefix: string, name: string)
    ensures Owner(line, prefix) == Some(name) <==> Lists(line, prefix, name) && IsJobId(name)
  {
    IdExactly(name);
    if Owner(line, prefix) == Some(name) {
      var before := DirectoryFound(line);
      assert Directory(line) == prefix + name;
      assert Lists(line, prefix, name);
    }
    if Lists(line, prefix, name) && IsJobId(name) {
      var before :| '|' !in before && line == before + "|" + (prefix + name);
      DirectoryExactly(prefix + name, before);
      assert (prefix + name)[|prefix|..] == name;
    }
  }

  /** The number of lines that satisfy the classification `owner`; `None` counts everything else in the queue. */
  function Lines(lines: seq<string>, prefix: string, owner: Option<string>): nat {
    if lines == [] then 0
    else
      var last := lines[|lines| - 1];
      Lines(lines[..|lines| - 1], prefix, owner) + (if !Blank(last) && Owner(last, prefix) == owner then 1 else 0)
  }

  ghost predicate BelongsTo(line: string, prefix: string, name: string) {
    IsJobId(name) && Lists(line, prefix, name)
  }

  /** Something is on the line, but it belongs to no job. */
  ghost predicate BelongsToNone(line: string, prefix: string) {
    !Spaces(line) && forall name :: !BelongsTo(line, prefix, name)
  }

  lemma OwnerNotBlank(line: string, prefix: string, name: string)
    requires Lists(line, prefix, name)
    ensures !Spaces(line)
  {
    var before :| '|' !in before && line == before + "|" + (prefix + name);
    assert line[|before|] == '|' && !SpaceCode('|');
  }

  lemma BlankExactly(line: string)
    ensures Blank(line) <==> Spaces(line)
  {
    forall i | 0 <= i < |line|
      ensures IsSpace(line[i]) <==> SpaceCode(line[i])
    {
      SpaceExactly(line[i]);
    }
  }

  lemma LineOfJob(line: string, prefix: string, name: string)
    ensures !Blank(line) && Owner(line, prefix) == Some(name) <==> BelongsTo(line, prefix, name)
  {
    BlankExactly(line);
    OwnerExactly(line, prefix, name);
    if Lists(line, prefix, name) {
      OwnerNotBlank(line, prefix, name);
    }
  }

  lemma LineOfNone(line: string, prefix: string)
    ensures !Blank(line) && Owner(line, prefix) == None <==> BelongsToNone(line, prefix)
  {
    BlankExactly(line);
    forall name
      ensures Owner(line, prefix) == Some(name) <==> BelongsTo(line, prefix, name)
    {
      OwnerExactly(line, prefix, name);
    }
    if Owner(line, prefix).Some? {
      assert BelongsTo(line, prefix, Owner(line, prefix).value);
    }
  }

  /** The places of the lines of one job. */
  ghost function PlacesOf(lines: seq<string>, prefix: string, name: string): set<nat> {
    set i: nat | i < |lines| && BelongsTo(lines[i], prefix, name)
  }

  ghost function OtherPlaces(lines: seq<string>, prefix: string): set<nat> {
    set i: nat | i < |lines| && BelongsToNone(lines[i], prefix)
  }

  lemma OneMorePlace(all: set<nat>, front: set<nat>, k: nat, counts: bool)
    requires k !in front && forall i :: i in all <==> i in front || (counts && i == k)
    ensures |all| == |front| + if counts then 1 else 0
  {
    assert all == front + if counts then {k} else {};
  }

  /** The count of a job is the number of lines that belong to it. */
  lemma {:induction false} JobCounted(lines: seq<string>, prefix: string, name: string)
    ensures Lines(lines, prefix, Some(name)) == |PlacesOf(lines, prefix, name)|
  {
    if lines != [] {
      var k := |lines| - 1;
      JobCounted(lines[..k], prefix, name);
      LineOfJob(lines[k], prefix, name);
      OneMorePlace(PlacesOf(lines, prefix, name), PlacesOf(lines[..k], prefix, name), k,
                   BelongsTo(lines[k], prefix, name));
    } else {
      assert PlacesOf(lines, prefix, name) == {};
    }
  }

  /** Every other line is counted once if it is not blank. */
  lemma {:induction false} OtherCounted(lines: seq<string>, prefix: string)
    ensures Lines(lines, prefix, None) == |OtherPlaces(lines, prefix)|
  {
    if lines != [] {
      var k := |lines| - 1;
      OtherCounted(lines[..k], prefix);
      LineOfNone(lines[k], prefix);
      OneMorePlace(OtherPlaces(lines, prefix), OtherPlaces(lines[..k], prefix), k, BelongsToNone(lines[k], prefix));
    } else {
      assert OtherPlaces(lines, prefix) == {};
    }
  }

  /** `queue_snapshot`: one pass over the lines of squeue. */
  method Snapshot(lines: seq<string>, jobsRoot: string) returns (total: nat, queue: Coordinator.Queue)
    ensures queue.Valid() && total == queue.Size()
    ensures queue.other == Lines(lines, jobsRoot + "/", None)
    ensures forall name :: queue.Count(name) == Lines(lines, jobsRoot + "/", Some(name))
    ensures forall name :: name in queue.own ==> queue.own[name] > 0
  {
    total := 0;
    var prefix := jobsRoot + "/";
    queue := Coordinator.Queue(map[], 0);
    for i := 0 to |lines|
      invariant queue.Valid() && total == queue.Size()
      invariant queue.other == Lines(lines[..i], prefix, None)
      invariant forall name :: queue.Count(name) == Lines(lines[..i], prefix, Some(name))
      invariant forall name :: name in queue.own ==> queue.own[name] > 0
    {
      assert lines[..i + 1][..i] == lines[..i];
      if !Blank(lines[i]) {
        total := total + 1;
        var owner := Owner(lines[i], prefix);
        match owner
        case Some(name) =>
          Coordinator.AddSize(queue, name);
          queue := queue.Add(name);
        case None =>
          queue := queue.(other := queue.other + 1);
      }
    }
    assert lines[..|lines|] == lines;
  }
}
