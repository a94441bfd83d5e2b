/** Short readable job names that no other job uses. */
module JobNames {
  import opened Text
  import opened Options
  import opened Totals
  import opened Decimal

  const WIDTH := 100

  function StripLeft(s: string): string {
    if s != "" && IsSpace(s[0]) then StripLeft(s[1..]) else s
  }

  function StripRight(s: string): string {
    if s != "" && IsSpace(s[|s| - 1]) then StripRight(s[..|s| - 1]) else s
  }

  /** The first characters up to `end`; a negative end counts from the back. */
  function Take(s: string, end: int): string {
    if end >= |s| then s else if end >= 0 then s[..end] else if |s| + end > 0 then s[..|s| + end] else ""
  }

  function Base(workflow: string): string { Take(StripRight(StripLeft(workflow)), WIDTH) }

  function Suffix(number: nat): string { " (" + Print(number) + ")" }

  function Candidate(base: string, number: nat): string {
    Take(base, WIDTH - |Suffix(number)|) + Suffix(number)
  }

  lemma SpacesJoined(a: string, b: string)
    requires Spaces(a) && Spaces(b)
    ensures Spaces(a + b)
  {
  }

  lemma {:induction false} StrippedLeft(s: string) returns (front: string)
    ensures s == front + StripLeft(s) && Spaces(front)
    ensures StripLeft(s) != "" ==> !SpaceCode(StripLeft(s)[0])
  {
    front := "";
    if s != "" {
      SpaceExactly(s[0]);
      if IsSpace(s[0]) {
        var rest := StrippedLeft(s[1..]);
        SpacesJoined([s[0]], rest);
        assert s == [s[0]] + s[1..];
        front := [s[0]] + rest;
      }
    }
  }

  lemma {:induction false} StrippedRight(s: string) returns (back: string)
    ensures s == StripRight(s) + back && Spaces(back)
    ensures StripRight(s) != "" ==> !SpaceCode(StripRight(s)[|StripRight(s)| - 1])
  {
    back := "";
    if s != "" {
      var last := s[|s| - 1];
      SpaceExactly(last);
      if IsSpace(last) {
        var rest := StrippedRight(s[..|s| - 1]);
        SpacesJoined(rest, [last]);
        assert s == s[..|s| - 1] + [last];
        back := rest + [last];
      }
    }
  }

  /** The base of a name: the first hundred characters of the workflow's name without outer white space. */
  lemma BaseExactly(workflow: string) returns (front: string, name: string, back: string)
    ensures workflow == front + name + back && Spaces(front) && Spaces(back)
    ensures name != "" ==> !SpaceCode(name[0]) && !SpaceCode(name[|name| - 1])
    ensures Base(workflow) == if |name| <= 100 then name else name[..100]
  {
    front := StrippedLeft(workflow);
    back := StrippedRight(StripLeft(workflow));
    name := StripRight(StripLeft(workflow));
    assert StripLeft(workflow) == name + back;
    assert workflow == front + name + back;
  }

  /** A numbered name: as much of the base as fits a hundred characters together with the number in parentheses. */
  lemma CandidateExactly(base: string, number: nat) returns (digits: string)
    ensures Numeral(digits) && Parse(digits) == number && (number > 0 ==> digits[0] != '0')
    ensures |digits| <= 97 ==>
              var room := 100 - |digits| - 3;
              Candidate(base, number) == (if |base| <= room then base else base[..room]) + " (" + digits + ")"
  {
    digits := Print(number);
    PrintThenParse(number);
    if number > 0 {
      PrintLeading(number);
    }
    var front := Take(base, WIDTH - |Suffix(number)|);
    assert front + (" (" + digits + ")") == front + " (" + digits + ")";
  }

  /** The number can be read off the name: candidates with different numbers differ. */
  lemma CandidatesDiffer(base: string, n: nat, m: nat)
    requires Candidate(base, n) == Candidate(base, m)
    ensures n == m
  {
    var name, a, b := Candidate(base, n), Print(n), Print(m);
    NumberInName(base, n);
    NumberInName(base, m);
    // The last opening parenthesis is not a digit of the other number.
    assert |a| == |b|;
    assert a == name[|name| - 1 - |a|..|name| - 1] == b;
    PrintThenParse(n);
    PrintThenParse(m);
  }

  lemma NumberInName(base: string, n: nat)
    ensures var name, digits := Candidate(base, n), Print(n);
            && |name| >= |digits| + 3 && name[|name| - 2 - |digits|] == '('
            && name[|name| - 1 - |digits|..|name| - 1] == digits
            && (forall i :: |name| - 1 - |digits| <= i < |name| - 1 ==> IsDigit(name[i]))
  {
    var name, digits := Candidate(base, n), Print(n);
    var start := |name| - 1 - |digits|;
    assert name[start..|name| - 1] == digits;
    forall i | start <= i < |name| - 1
      ensures IsDigit(name[i])
    {
      assert name[i] == name[start..|name| - 1][i - start];
    }
  }

  /** The candidates numbered 1 to `n`. */
  ghost function Tried(base: string, n: nat): (s: set<string>) {
    if n == 0 then {} else Tried(base, n - 1) + {Candidate(base, n)}
  }

  lemma {:induction false} TriedNumber(base: string, n: nat, name: string) returns (k: nat)
    requires name in Tried(base, n)
    ensures 1 <= k <= n && Candidate(base, k) == name
  {
    if name == Candidate(base, n) {
      k := n;
    } else {
      k := TriedNumber(base, n - 1, name);
    }
  }

  /** The candidates are pairwise distinct, so `n` numbers give `n` names. */
  lemma {:induction false} TriedAll(base: string, n: nat)
    ensures |Tried(base, n)| == n
  {
    if n > 0 {
      TriedAll(base, n - 1);
      if Candidate(base, n) in Tried(base, n - 1) {
        var k := TriedNumber(base, n - 1, Candidate(base, n));
        CandidatesDiffer(base, k, n);
      }
    }
  }

  /** By the pigeonhole principle, a search that failed `n` times has seen `n` existing names. */
  lemma FailuresBounded(base: string, n: nat, existing: set<string>)
    requires Tried(base, n) <= existing
    ensures n <= |existing|
  {
    TriedAll(base, n);
    SubsetSize(Tried(base, n), existing);
  }

  /** A candidate that is taken is one more existing name. */
  lemma OneMoreTried(base: string, n: nat, existing: set<string>)
    requires n >= 1 && Tried(base, n - 1) <= existing && Candidate(base, n) in existing
    ensures Tried(base, n) <= existing && n <= |existing|
  {
    FailuresBounded(base, n, existing);
  }

  lemma CandidateLength(base: string, n: nat)
    ensures |Suffix(n)| <= WIDTH ==> |Candidate(base, n)| <= WIDTH
    ensures n < Pow10(97) ==> |Suffix(n)| <= WIDTH
  {
    if n < Pow10(97) {
      PrintLength(n, 97);
    }
  }

  /**
   `unused_job_name`: the name itself, or with the least free number. The search ends after at most one
   candidate more than there are names, and the result fits the width unless there are 10^97 names.
   */
  method UnusedName(workflow: string, existing: set<string>) returns (name: Option<string>, number: nat)
    ensures name.None? <==> Base(workflow) == ""
    ensures name.Some? ==> name.value !in existing
    ensures name.Some? && Base(workflow) !in existing ==> name.value == Base(workflow) && number == 0
    ensures name.Some? && Base(workflow) in existing ==>
      && 1 <= number <= |existing| + 1 && name.value == Candidate(Base(workflow), number)
      && forall k :: 1 <= k < number ==> Candidate(Base(workflow), k) in existing
    ensures name.Some? && |existing| + 1 < Pow10(97) ==> |name.value| <= WIDTH
  {
    var base := Base(workflow);
    number := 0;
    if base == "" {
      return None, 0;
    }
    if base !in existing {
      return Some(base), 0;
    }
    number := 1;
    FailuresBounded(base, 0, existing);
    while true
      invariant number >= 1 && Tried(base, number - 1) <= existing && number - 1 <= |existing|
      invariant forall k :: 1 <= k < number ==> Candidate(base, k) in existing
      decreases |existing| + 1 - number
    {
      var suffix := Suffix(number);
      var candidate := Take(base, WIDTH - |suffix|) + suffix;
      if candidate !in existing {
        CandidateLength(base, number);
        return Some(candidate), number;
      }
      OneMoreTried(base, number, existing);
      number := number + 1;
    }
  }
}
