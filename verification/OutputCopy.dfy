/** Copying a log into the StarExec output, after `copy_output` in `starexec_export.py`. */
module OutputCopy {
  import opened Sequences
  import opened Decimal

  /** Digits, perhaps a point and more digits. */
  predicate Amount(s: string) {
    Numeral(s) || exists i :: 0 <= i < |s| && s[i] == '.' && Numeral(s[..i]) && Numeral(s[i + 1..])
  }

  /** The line begins with two amounts, separated by the slash at `i` and followed by the tab at `j`. */
  predicate StampAt(line: string, i: nat, j: nat) {
    i < j < |line| && line[i] == '/' && line[j] == '\t' && Amount(line[..i]) && Amount(line[i + 1..j])
  }

  predicate Stamped(line: string) {
    exists i, j :: 0 <= i < j < |line| && StampAt(line, i, j)
  }

  predicate Ends(line: string) {
    line != "" && line[|line| - 1] == '\n'
  }

  /** Timestamps are kept, other lines get the prefix, and a missing final newline is added. */
  function CopyLine(line: string, prefix: string): string {
    (if Stamped(line) then line else prefix + line) + if Ends(line) then "" else "\n"
  }

  function CopyLines(lines: seq<string>, prefix: string): seq<string> {
    seq(|lines|, i requires 0 <= i < |lines| => CopyLine(lines[i], prefix))
  }

  lemma AmountExactly(s: string)
    ensures Amount(s) <==> Numeral(s) || exists a, b :: s == a + "." + b && Numeral(a) && Numeral(b)
  {
    if Amount(s) && !Numeral(s) {
      var i :| 0 <= i < |s| && s[i] == '.' && Numeral(s[..i]) && Numeral(s[i + 1..]);
      assert s == s[..i] + "." + s[i + 1..];
    }
    forall a, b | s == a + "." + b && Numeral(a) && Numeral(b)
      ensures Amount(s)
    {
      assert s[..|a|] == a && s[|a|] == '.' && s[|a| + 1..] == b;
    }
  }

  /** A stamped line is two amounts with a slash between and a tab behind them, and any text. */
  lemma StampedExactly(line: string)
    ensures Stamped(line) <==>
              exists cpu, wall, rest :: line == cpu + "/" + wall + "\t" + rest && Amount(cpu) && Amount(wall)
  {
    if Stamped(line) {
      var i, j :| 0 <= i < j < |line| && StampAt(line, i, j);
      assert line == line[..i] + "/" + line[i + 1..j] + "\t" + line[j + 1..];
    }
    forall cpu, wall, rest | line == cpu + "/" + wall + "\t" + rest && Amount(cpu) && Amount(wall)
      ensures Stamped(line)
    {
      var i, j := |cpu|, |cpu| + 1 + |wall|;
      assert line[..i] == cpu && line[i + 1..j] == wall && line[i] == '/' && line[j] == '\t';
      assert StampAt(line, i, j);
    }
  }

  /** Nothing of a line is lost: it stands behind the prefix, if it gets one, and before an added newline. */
  lemma LineKept(line: string, prefix: string) returns (before: string, after: string)
    ensures CopyLine(line, prefix) == before + line + after
    ensures before == if Stamped(line) then "" else prefix
    ensures after == if line != "" && line[|line| - 1] == '\n' then "" else "\n"
  {
    before := if Stamped(line) then "" else prefix;
    after := if Ends(line) then "" else "\n";
    assert "" + line == line;
  }

  function Joined(lines: seq<string>): string {
    if lines == [] then "" else Joined(lines[..|lines| - 1]) + lines[|lines| - 1]
  }

  lemma JoinedStep(lines: seq<string>, i: nat, written: string, ending: string)
    requires i < |lines| && lines[i] == written + ending
    ensures Joined(lines[..i + 1]) == Joined(lines[..i]) + written + ending
  {
    assert lines[..i + 1][..i] == lines[..i];
  }

  method CopyOutput(lines: seq<string>, prefix: string) returns (output: string)
    ensures output == Joined(CopyLines(lines, prefix))
  {
    output := "";
    ghost var copied := CopyLines(lines, prefix);
    for i := 0 to |lines|
      invariant output == Joined(copied[..i])
    {
      var line := lines[i];
      var written := if Stamped(line) then line else prefix + line;
      JoinedStep(copied, i, written, if Ends(line) then "" else "\n");
      output := output + written;
      if !Ends(line) {
        output := output + "\n";
      }
    }
    assert copied[..|lines|] == copied;
  }

  // ---------------------------------------------------------------- copying a copy

  /** The lines of a text, each with its newline; the last may have none. */
  function Lines(s: string): (lines: seq<string>)
    decreases |s|
  {
    if s == "" then []
    else
      var k := FirstEnd(s);
      [s[..k]] + Lines(s[k..])
  }

  /** The length of the first line. */
  function FirstEnd(s: string): (k: nat)
    requires s != ""
    ensures 1 <= k <= |s|
  {
    if s[0] == '\n' || |s| == 1 then 1 else 1 + FirstEnd(s[1..])
  }

  /** One newline, at the end. */
  predicate Whole(line: string) {
    Ends(line) && forall i :: 0 <= i < |line| - 1 ==> line[i] != '\n'
  }

  lemma {:induction false} FirstEndWhole(line: string, rest: string)
    requires Whole(line)
    ensures FirstEnd(line + rest) == |line|
  {
    if |line| > 1 {
      FirstEndWhole(line[1..], rest);
      assert (line + rest)[1..] == line[1..] + rest;
    }
  }

  lemma LinesFirst(line: string, rest: string)
    requires Whole(line)
    ensures Lines(line + rest) == [line] + Lines(rest)
  {
    FirstEndWhole(line, rest);
    assert (line + rest)[..|line|] == line && (line + rest)[|line|..] == rest;
  }

  lemma {:induction false} JoinedFirst(lines: seq<string>)
    requires lines != []
    ensures Joined(lines) == lines[0] + Joined(lines[1..])
  {
    if |lines| > 1 {
      JoinedFirst(lines[..|lines| - 1]);
      assert lines[1..][..|lines| - 2] == lines[..|lines| - 1][1..];
      Associate(lines[0], Joined(lines[..|lines| - 1][1..]), lines[|lines| - 1]);
    } else {
      assert lines[..0] == [] && lines[1..] == [];
    }
  }

  /** Splitting joined lines gives the lines back. */
  lemma {:induction false} LinesOfJoined(lines: seq<string>)
    requires forall i :: 0 <= i < |lines| ==> Whole(lines[i])
    ensures Lines(Joined(lines)) == lines
  {
    if lines != [] {
      JoinedFirst(lines);
      LinesFirst(lines[0], Joined(lines[1..]));
      LinesOfJoined(lines[1..]);
      assert lines == [lines[0]] + lines[1..];
    }
  }

  lemma StampKept(front: string, rest: string)
    requires Stamped(front)
    ensures Stamped(front + rest)
  {
    var i, j :| 0 <= i < j < |front| && StampAt(front, i, j);
    var line := front + rest;
    assert line[..i] == front[..i] && line[i + 1..j] == front[i + 1..j];
    assert StampAt(line, i, j);
  }

  /** What iterating over a file yields: no newline before the end. */
  predicate Line(line: string) {
    line != "" && forall i :: 0 <= i < |line| - 1 ==> line[i] != '\n'
  }

  lemma LinePrefixed(prefix: string, line: string)
    requires Line(line) && '\n' !in prefix
    ensures Line(prefix + line) && Ends(prefix + line) == Ends(line)
  {
    var all := prefix + line;
    forall i | 0 <= i < |all| - 1
      ensures all[i] != '\n'
    {
      if i < |prefix| {
        assert all[i] == prefix[i];
      }
    }
  }

  lemma LineCompleted(line: string)
    requires Line(line)
    ensures Whole(line + if Ends(line) then "" else "\n")
  {
  }

  /** Every copied line is whole, and stamped when the line or the prefix is. */
  lemma CopiedLine(line: string, prefix: string)
    requires Line(line) && '\n' !in prefix
    ensures Whole(CopyLine(line, prefix))
    ensures Stamped(line) || Stamped(prefix) ==> Stamped(CopyLine(line, prefix))
  {
    LinePrefixed(prefix, line);
    var written := if Stamped(line) then line else prefix + line;
    LineCompleted(written);
    if Stamped(prefix) {
      StampKept(prefix, line);
    }
    if Stamped(written) {
      StampKept(written, if Ends(line) then "" else "\n");
    }
  }

  /** A whole line is copied unchanged exactly when it is stamped. */
  lemma CopyUnchanged(line: string, prefix: string)
    requires Whole(line) && prefix != ""
    ensures CopyLine(line, prefix) == line <==> Stamped(line)
  {
    if !Stamped(line) {
      assert |CopyLine(line, prefix)| > |line|;
    }
  }

  /**
   The output splits into the copied lines again, and copying it once more changes nothing if and only
   if every copied line is stamped.
   */
  lemma CopyIdempotent(lines: seq<string>, prefix: string, other: string)
    requires (forall i :: 0 <= i < |lines| ==> Line(lines[i])) && '\n' !in prefix && other != ""
    ensures var copied := CopyLines(lines, prefix);
            && Lines(Joined(copied)) == copied
            && (CopyLines(Lines(Joined(copied)), other) == copied
                <==> forall i :: 0 <= i < |copied| ==> Stamped(copied[i]))
  {
    var copied := CopyLines(lines, prefix);
    var again := CopyLines(copied, other);
    forall i | 0 <= i < |copied|
      ensures Whole(copied[i]) && (again[i] == copied[i] <==> Stamped(copied[i]))
    {
      CopiedLine(lines[i], prefix);
      CopyUnchanged(copied[i], other);
    }
    LinesOfJoined(copied);
  }

  // ---------------------------------------------------------------- the printed prefix

  /** The pair totals in front of an unstamped line. */
  function Prefix(cpu: string, wall: string): string { cpu + "/" + wall + "\t" }

  lemma AmountPlain(s: string)
    requires Amount(s)
    ensures forall i :: 0 <= i < |s| ==> IsDigit(s[i]) || s[i] == '.'
  {
    if !Numeral(s) {
      var k :| 0 <= k < |s| && s[k] == '.' && Numeral(s[..k]) && Numeral(s[k + 1..]);
      forall i | 0 <= i < |s|
        ensures IsDigit(s[i]) || s[i] == '.'
      {
        if i < k {
          assert s[..k][i] == s[i];
        } else if i > k {
          assert s[k + 1..][i - k - 1] == s[i];
        }
      }
    }
  }

  /** A character that no amount contains ends the first amount of a text at its own first occurrence. */
  lemma AmountEnds(s: string, first: string, k: nat, c: char)
    requires k < |s| && s[k] == c && Amount(s[..k]) && !IsDigit(c) && c != '.'
    requires |first| < |s| && s[..|first|] == first && s[|first|] == c && c !in first
    ensures k == |first|
  {
    AmountPlain(s[..k]);
    assert forall m :: 0 <= m < |first| ==> s[m] == first[m];
    assert forall m :: 0 <= m < k ==> s[..k][m] == s[m];
  }

  /** A stamp at the front of a prefixed text consists of the two totals. */
  lemma StampIsPrefix(cpu: string, wall: string, rest: string, i: nat, j: nat)
    requires '/' !in cpu && '\t' !in wall && StampAt(Prefix(cpu, wall) + rest, i, j)
    ensures Amount(cpu) && Amount(wall)
  {
    var text := Prefix(cpu, wall) + rest;
    assert text[..|cpu|] == cpu;
    AmountEnds(text, cpu, i, '/');
    var tail := text[i + 1..];
    assert tail[..j - i - 1] == text[i + 1..j];
    assert tail[..|wall|] == wall;
    AmountEnds(tail, wall, j - i - 1, '\t');
  }

  /** A prefixed text begins with a stamp if and only if both totals are plain decimals. */
  lemma PrefixStamped(cpu: string, wall: string, rest: string)
    requires '/' !in cpu && '\t' !in wall
    ensures Stamped(Prefix(cpu, wall) + rest) <==> Amount(cpu) && Amount(wall)
  {
    var text, n, m := Prefix(cpu, wall) + rest, |cpu|, |cpu| + 1 + |wall|;
    assert text[..n] == cpu && text[n] == '/' && text[n + 1..m] == wall && text[m] == '\t';
    if Stamped(text) {
      var i, j :| 0 <= i < j < |text| && StampAt(text, i, j);
      StampIsPrefix(cpu, wall, rest, i, j);
    }
    if Amount(cpu) && Amount(wall) {
      assert StampAt(text, n, m);
    }
  }

  /** The copy of a line is stamped if and only if the line is or both totals are plain decimals. */
  lemma CopyStamped(line: string, cpu: string, wall: string)
    requires '/' !in cpu && '\t' !in wall
    ensures Stamped(CopyLine(line, Prefix(cpu, wall))) <==> Stamped(line) || (Amount(cpu) && Amount(wall))
  {
    var ending := if Ends(line) then "" else "\n";
    if Stamped(line) {
      StampKept(line, ending);
    } else {
      PrefixStamped(cpu, wall, line + ending);
      assert CopyLine(line, Prefix(cpu, wall)) == Prefix(cpu, wall) + (line + ending);
    }
  }

  /**
   The output splits into the copied lines again, and copying it once more, with any prefix, changes nothing
   if and only if both totals are plain decimals or every line was stamped from the start.
   */
  lemma CopiedOnceExactly(lines: seq<string>, cpu: string, wall: string, other: string)
    requires forall i :: 0 <= i < |lines| ==> Line(lines[i])
    requires '/' !in cpu && '\t' !in wall && '\n' !in Prefix(cpu, wall) && other != ""
    ensures var copied := CopyLines(lines, Prefix(cpu, wall));
            && Lines(Joined(copied)) == copied
            && (CopyLines(Lines(Joined(copied)), other) == copied <==>
                (Amount(cpu) && Amount(wall)) || forall i :: 0 <= i < |lines| ==> Stamped(lines[i]))
  {
    var copied := CopyLines(lines, Prefix(cpu, wall));
    CopyIdempotent(lines, Prefix(cpu, wall), other);
    forall i | 0 <= i < |lines|
      ensures Stamped(copied[i]) <==> Stamped(lines[i]) || (Amount(cpu) && Amount(wall))
    {
      CopyStamped(lines[i], cpu, wall);
    }
  }

  /** With plain decimals, copying the output again with any prefix changes nothing. */
  lemma PlainTotalsCopyOnce(lines: seq<string>, cpu: string, wall: string, other: string)
    requires (forall i :: 0 <= i < |lines| ==> Line(lines[i])) && Amount(cpu) && Amount(wall) && other != ""
    ensures var copied := CopyLines(lines, Prefix(cpu, wall));
            CopyLines(Lines(Joined(copied)), other) == copied
  {
    AmountPlain(cpu);
    AmountPlain(wall);
    CopiedOnceExactly(lines, cpu, wall, other);
  }

  lemma NotAnAmount(s: string, i: nat)
    requires i < |s| && !IsDigit(s[i]) && s[i] != '.'
    ensures !Amount(s)
  {
    if Amount(s) {
      AmountPlain(s);
    }
  }

  /** Printed totals that are not plain decimals, 1E-7 and -0.0: a line without a stamp is prefixed again. */
  lemma PrefixedTwice(line: string, total: string, other: string)
    requires Line(line) && !Stamped(line) && total in {"1E-7", "-0.0"} && other != ""
    ensures var copied := CopyLines([line], Prefix(total, "0.0"));
            CopyLines(Lines(Joined(copied)), other) != copied
  {
    NotAnAmount(total, if total == "-0.0" then 0 else 1);
    assert [line][0] == line;
    CopiedOnceExactly([line], total, "0.0", other);
  }
}
