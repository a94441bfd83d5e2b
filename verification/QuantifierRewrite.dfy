/** The in-place rewrite that inserts the parentheses while it scans the buffer it is growing. */
module QuantifierRewrite {
  import opened Sequences
  import opened Options
  import opened QuantifierScope

  // ---------------------------------------------------------------- one stage of the rewrite

  /** Everything before the token at position `i`, when the scopes opened before `i` are inserted. */
  function Head(s: seq<Token>, i: nat): seq<Token>
    requires i <= |s|
  {
    Upto(s, i, i) + Repeat(CLOSE, Closers(s, i, i))
  }

  lemma InsideIsPlain(s: seq<Token>, i: nat, m: nat)
    requires i < |s| && Balanced(s, 0, 0) && End !in s && Opens(s, i) && i < m < Close(s, i)
    ensures Closers(s, m, i) == 0
  {
    if Closers(s, m, i) > 0 {
      var q := CloserExists(s, m, i);
      ScopesNest(s, q, i);
    }
  }

  lemma StageBefore(s: seq<Token>, i: nat)
    requires i <= |s|
    ensures Mixed(s, i) == Head(s, i) + (if i < |s| then [s[i]] + From(s, i, i + 1) else [])
  {
    var closers, rest := Repeat(CLOSE, Closers(s, i, i)), From(s, i, i + 1);
    MixedSplits(s, i, i);
    if i < |s| {
      FirstPiece(s, i);
      Associate(Upto(s, i, i), closers, [s[i]] + rest);
    } else {
      assert Piece(s, i, i) == closers && rest == [];
      assert Upto(s, i, i) + closers == Head(s, i) + [];
    }
  }

  lemma FirstPiece(s: seq<Token>, i: nat)
    requires i < |s|
    ensures From(s, i, i) == Repeat(CLOSE, Closers(s, i, i)) + ([s[i]] + From(s, i, i + 1))
  {
    var closers := Repeat(CLOSE, Closers(s, i, i));
    assert Piece(s, i, i) == closers + [s[i]];
    Associate(closers, [s[i]], From(s, i, i + 1));
  }

  lemma FromInside(s: seq<Token>, i: nat)
    requires i < |s| && Balanced(s, 0, 0) && End !in s && Opens(s, i) && i < Close(s, i) <= |s|
    ensures From(s, i, i + 1) == s[i + 1..Close(s, i)] + From(s, i, Close(s, i))
  {
    forall m | i + 1 <= m < Close(s, i)
      ensures Closers(s, m, i) == 0
    {
      InsideIsPlain(s, i, m);
    }
    FromPlain(s, i, i + 1, Close(s, i));
  }

  lemma SplitWhole(mixed: seq<Token>, head: seq<Token>, from: seq<Token>, s: seq<Token>, i: nat, p: nat,
                   tail: seq<Token>)
    requires i < p <= |s| && mixed == head + ([s[i]] + from) && from == s[i + 1..p] + tail
    ensures mixed == head + s[i..p] + tail
  {
    Prepend(s[i..p], s[i], s[i + 1..p], tail);
    Associate(head, s[i..p], tail);
  }

  /** The text around the scope that opens at `i`, before it is inserted. */
  lemma StageSplit(s: seq<Token>, i: nat)
    requires i < |s| && Balanced(s, 0, 0) && End !in s && Opens(s, i)
    ensures i < Close(s, i) <= |s|
    ensures Mixed(s, i) == Head(s, i) + s[i..Close(s, i)] + From(s, i, Close(s, i))
  {
    var p := Close(s, i);
    ScopeBounds(s, i);
    StageBefore(s, i);
    FromInside(s, i);
    SplitWhole(Mixed(s, i), Head(s, i), From(s, i, i + 1), s, i, p, From(s, i, p));
  }

  lemma OneMoreCloser(s: seq<Token>, i: nat, m: nat)
    requires i < |s|
    ensures Closers(s, m, i + 1) == Closers(s, m, i) + (if Opens(s, i) && Close(s, i) == m then 1 else 0)
  {
  }

  lemma SameAfterClose(s: seq<Token>, i: nat)
    requires i < |s| && Opens(s, i) && i < Close(s, i) <= |s|
    ensures From(s, i + 1, Close(s, i) + 1) == From(s, i, Close(s, i) + 1)
  {
    var p, k := Close(s, i), i + 1;
    forall m | p + 1 <= m <= |s|
      ensures Closers(s, m, k) == Closers(s, m, i)
    {
      OneMoreCloser(s, i, m);
    }
    FromSame(s, k, i, p + 1);
  }

  lemma CloserInFront(s: seq<Token>, k: nat, i: nat, p: nat)
    requires k <= |s| && i <= |s| && p <= |s|
    requires Piece(s, k, p) == [CLOSE] + Piece(s, i, p) && From(s, k, p + 1) == From(s, i, p + 1)
    ensures From(s, k, p) == [CLOSE] + From(s, i, p)
  {
    Associate([CLOSE], Piece(s, i, p), From(s, i, p + 1));
  }

  lemma ClosingPiece(s: seq<Token>, i: nat)
    requires i < |s| && Opens(s, i) && i < Close(s, i) <= |s|
    ensures From(s, i + 1, Close(s, i)) == [CLOSE] + From(s, i, Close(s, i))
  {
    var p, k := Close(s, i), i + 1;
    SameAfterClose(s, i);
    OneMoreCloser(s, i, p);
    ClosingToken(s, k, i, p);
    CloserInFront(s, k, i, p);
  }

  lemma ClosingToken(s: seq<Token>, k: nat, i: nat, p: nat)
    requires i < k <= p <= |s| && Closers(s, p, k) == Closers(s, p, i) + 1
    ensures Piece(s, k, p) == [CLOSE] + Piece(s, i, p)
  {
    var n := Closers(s, p, i);
    assert Repeat(CLOSE, n + 1) == [CLOSE] + Repeat(CLOSE, n);
  }

  lemma OpenedWhole(mixed: seq<Token>, upto: seq<Token>, from: seq<Token>, head: seq<Token>, s: seq<Token>, i: nat,
                    p: nat, tail: seq<Token>)
    requires i < p <= |s| && mixed == upto + from
    requires upto == head + [OPEN, s[i]] && from == s[i + 1..p] + ([CLOSE] + tail)
    ensures mixed == head + [OPEN] + s[i..p] + [CLOSE] + tail
  {
    assert s[i..p] == [s[i]] + s[i + 1..p];
    Regroup(head, s[i], s[i..p], s[i + 1..p], tail);
  }

  /** The text around the scope that opens at `i`, after it is inserted. */
  lemma StageOpened(s: seq<Token>, i: nat)
    requires i < |s| && Balanced(s, 0, 0) && End !in s && Opens(s, i)
    ensures i < Close(s, i) <= |s|
    ensures Mixed(s, i + 1) == Head(s, i) + [OPEN] + s[i..Close(s, i)] + [CLOSE] + From(s, i, Close(s, i))
    ensures Upto(s, i + 1, i + 1) == Head(s, i) + [OPEN, s[i]]
  {
    var p := Close(s, i);
    ScopeBounds(s, i);
    OpenedPrefix(s, i);
    OpenedRest(s, i);
    MixedSplits(s, i + 1, i + 1);
    OpenedWhole(Mixed(s, i + 1), Upto(s, i + 1, i + 1), From(s, i + 1, i + 1), Head(s, i), s, i, p, From(s, i, p));
  }

  lemma OpenedRest(s: seq<Token>, i: nat)
    requires i < |s| && Balanced(s, 0, 0) && End !in s && Opens(s, i) && i < Close(s, i) <= |s|
    ensures From(s, i + 1, i + 1) == s[i + 1..Close(s, i)] + ([CLOSE] + From(s, i, Close(s, i)))
  {
    var p, k := Close(s, i), i + 1;
    forall m | k <= m < p
      ensures Closers(s, m, k) == 0
    {
      InsideIsPlain(s, i, m);
      OneMoreCloser(s, i, m);
    }
    FromPlain(s, k, k, p);
    ClosingPiece(s, i);
  }

  lemma Regroup(head: seq<Token>, first: Token, inner: seq<Token>, rest: seq<Token>, tail: seq<Token>)
    requires inner == [first] + rest
    ensures head + [OPEN, first] + (rest + ([CLOSE] + tail)) == head + [OPEN] + inner + [CLOSE] + tail
  {
  }

  lemma OpenedPrefix(s: seq<Token>, i: nat)
    requires i < |s| && Opens(s, i) && i < Close(s, i)
    ensures Upto(s, i + 1, i + 1) == Head(s, i) + [OPEN, s[i]]
  {
    forall m | 0 <= m <= i
      ensures Closers(s, m, i) == Closers(s, m, i + 1)
    {
      OneMoreCloser(s, i, m);
    }
    UptoSame(s, i, i + 1, i);
    assert Piece(s, i + 1, i) == Repeat(CLOSE, Closers(s, i, i)) + [OPEN] + [s[i]];
  }

  /** A token that opens no scope changes nothing. */
  lemma StageSkipped(s: seq<Token>, i: nat)
    requires i < |s| && !Opens(s, i)
    ensures Mixed(s, i + 1) == Mixed(s, i)
    ensures Upto(s, i + 1, i + 1) == Head(s, i) + [s[i]]
  {
    forall m: nat
      ensures Closers(s, m, i + 1) == Closers(s, m, i)
    {
      OneMoreCloser(s, i, m);
    }
    FromSame(s, i + 1, i, 0);
    UptoSame(s, i, i + 1, i);
    assert Piece(s, i + 1, i) == Repeat(CLOSE, Closers(s, i, i)) + [s[i]];
  }

  // ---------------------------------------------------------------- scanning the grown text

  /** From `b` on, `t` repeats `s` from `i` up to the end of its scan at `p`, where `t` stops as well. */
  ghost predicate Mirrors(t: seq<Token>, b: nat, s: seq<Token>, i: nat, p: nat) {
    && i <= p <= |s| && b + (p - i) <= |t|
    && (forall m :: i <= m < p ==> t[b + (m - i)] == s[m])
    && (p > i ==> Peek(t, b + (p - i)) == Peek(s, p) || Peek(t, b + (p - i)) == CLOSE)
    && Stops(t, b + (p - i))
  }

  lemma {:induction false} ScanMirrored(t: seq<Token>, b: nat, s: seq<Token>, i: nat, p: nat, depth: nat)
    requires Mirrors(t, b, s, i, p) && Scan(s, i, depth) == Some(p)
    ensures Scan(t, b, depth) == Some(b + (p - i))
    decreases p - i
  {
    if i < p {
      assert t[b] == s[i];
      assert Peek(t, b + 1) == Peek(s, i + 1) || Peek(t, b + 1) == CLOSE by {
        if i + 1 < p {
          assert t[b + (i + 1 - i)] == s[i + 1];
        }
      }
      forall m | i + 1 <= m < p
        ensures t[b + 1 + (m - (i + 1))] == s[m]
      {
        assert t[b + (m - i)] == s[m];
      }
      ScanMirrored(t, b + 1, s, i + 1, p, Deeper(s[i], depth));
    } else {
      ScanEndsNow(s, i, depth);
    }
  }

  lemma ScanEndsNow(s: seq<Token>, i: nat, depth: nat)
    requires i <= |s| && Scan(s, i, depth) == Some(i)
    ensures depth == 0
  {
  }

  /** The first token of the rest of the text, after the scopes opened before `i` are inserted. */
  lemma FirstFrom(s: seq<Token>, i: nat, p: nat)
    requires i <= p <= |s|
    ensures Peek(From(s, i, p), 0) == if Closers(s, p, i) > 0 then CLOSE else Peek(s, p)
    ensures Closers(s, p, i) == 0 && p < |s| ==> From(s, i, p) == [s[p]] + From(s, i, p + 1)
  {
    if Closers(s, p, i) == 0 {
      if p < |s| {
        PlainPiece(s, i, p);
      } else {
        assert Piece(s, i, p) == [] && From(s, i, p + 1) == [];
      }
    }
  }

  /** Where the scan of the formula stops, the scan of the grown text stops too. */
  lemma StopsInText(s: seq<Token>, i: nat, p: nat, before: seq<Token>)
    requires i < p <= |s| && Balanced(s, 0, 0) && End !in s && Stops(s, p)
    ensures Stops(before + From(s, i, p), |before|)
  {
    var t := before + From(s, i, p);
    FirstFrom(s, i, p);
    assert Peek(t, |before|) == Peek(From(s, i, p), 0);
    if Closers(s, p, i) == 0 && p < |s| {
      FirstFrom(s, i, p + 1);
      assert Peek(t, |before| + 1) == Peek(From(s, i, p + 1), 0);
      if Closers(s, p + 1, i) > 0 && p + 1 <= |s| {
        var q := CloserExists(s, p + 1, i);
        ScopeBounds(s, q);
        if s[p] == Ch('~') && p + 1 < |s| {
          if s[p + 1] == Ch('&') || s[p + 1] == Ch('|') {
            NegatedConnectiveWhole(s, q, p);
          }
        }
      }
    }
  }

  /** The program finds the end of the scope in the text it has grown so far. */
  lemma ScopeFound(s: seq<Token>, i: nat)
    requires i < |s| && Balanced(s, 0, 0) && End !in s && Opens(s, i)
    ensures i < Close(s, i) <= |s|
    ensures var t := Head(s, i) + [OPEN] + s[i..Close(s, i)] + From(s, i, Close(s, i));
            Scan(t, |Head(s, i)| + 1, 0) == Some(|Head(s, i)| + 1 + (Close(s, i) - i))
  {
    var p, b := Close(s, i), |Head(s, i)| + 1;
    ScopeBounds(s, i);
    var before := Head(s, i) + [OPEN] + s[i..p];
    var t := before + From(s, i, p);
    StopsInText(s, i, p, before);
    FirstFrom(s, i, p);
    assert Peek(t, b + (p - i)) == Peek(From(s, i, p), 0);
    forall m | i <= m < p
      ensures t[b + (m - i)] == s[m]
    {
      assert before[b + (m - i)] == s[i..p][m - i];
    }
    ScanMirrored(t, b, s, i, p, 0);
  }

  /** The look ahead of the program at the token after `i`. */
  lemma LookAhead(s: seq<Token>, i: nat)
    requires i < |s|
    ensures var t := Mixed(s, i); var b := |Head(s, i)|;
            b < |t| && t[b] == s[i] && Peek(t, b + 1) == if Closers(s, i + 1, i) > 0 then CLOSE else Peek(s, i + 1)
  {
    StageBefore(s, i);
    FirstFrom(s, i, i + 1);
    var t, b := Mixed(s, i), |Head(s, i)|;
    assert t == Head(s, i) + ([s[i]] + From(s, i, i + 1));
    assert Peek(t, b + 1) == Peek(From(s, i, i + 1), 0);
  }

  /** A pair of parentheses around the scope of the token at `at`, as the program inserts it. */
  function Paired(t: seq<Token>, at: nat): seq<Token>
    requires at < |t|
  {
    var wider := t[..at] + [OPEN] + t[at..];
    var p := Scan(wider, at + 1, 0);
    if p.Some? then wider[..p.value] + [CLOSE] + wider[p.value..] else wider
  }

  lemma PairIsNextStage(s: seq<Token>, i: nat)
    requires i < |s| && Balanced(s, 0, 0) && End !in s && Opens(s, i)
    ensures |Head(s, i)| < |Mixed(s, i)| && Paired(Mixed(s, i), |Head(s, i)|) == Mixed(s, i + 1)
  {
    var head, p := Head(s, i), Close(s, i);
    StageSplit(s, i);
    StageOpened(s, i);
    ScopeFound(s, i);
    Splice(Mixed(s, i), head, s[i..p], From(s, i, p));
  }

  lemma Splice(t: seq<Token>, head: seq<Token>, inner: seq<Token>, tail: seq<Token>)
    requires t == head + inner + tail
    ensures var wider := t[..|head|] + [OPEN] + t[|head|..]; var p := |head| + 1 + |inner|;
            wider == head + [OPEN] + inner + tail &&
            wider[..p] + [CLOSE] + wider[p..] == head + [OPEN] + inner + [CLOSE] + tail
  {
    assert t[..|head|] == head && t[|head|..] == inner + tail;
  }

  /** The text contains only tokens of the formula and inserted parentheses. */
  lemma {:induction false} FromTokens(s: seq<Token>, k: nat, p: nat)
    requires k <= |s|
    ensures forall t :: t in From(s, k, p) ==> t in s || t == OPEN || t == CLOSE
    decreases |s| + 1 - p
  {
    if p <= |s| {
      FromTokens(s, k, p + 1);
    }
  }

  /** Which token of the formula, or which inserted parenthesis, the program looks at. */
  ghost predicate At(s: seq<Token>, i: nat, c: nat, ii: nat) {
    i <= |s| && c <= Closers(s, i, i) && ii == |Upto(s, i, i)| + c
  }

  lemma TokenAt(s: seq<Token>, i: nat, c: nat, ii: nat)
    requires At(s, i, c, ii) && ii < |Mixed(s, i)|
    ensures if c < Closers(s, i, i) then Mixed(s, i)[ii] == CLOSE
            else i < |s| && ii == |Head(s, i)| && Mixed(s, i)[ii] == s[i]
                 && Peek(Mixed(s, i), ii + 1) == if Closers(s, i + 1, i) > 0 then CLOSE else Peek(s, i + 1)
  {
    StageBefore(s, i);
    if c < Closers(s, i, i) {
      assert Head(s, i)[ii] == CLOSE;
    } else {
      LookAhead(s, i);
    }
  }

  /** Going on to the next token without inserting anything. */
  lemma Skip(s: seq<Token>, i: nat, c: nat, ii: nat) returns (i': nat, c': nat)
    requires At(s, i, c, ii) && ii < |Mixed(s, i)|
    requires c < Closers(s, i, i) || (i < |s| && !Opens(s, i))
    ensures i' <= |s| && At(s, i', c', ii + 1) && Mixed(s, i') == Mixed(s, i)
    ensures if c < Closers(s, i, i) then i' == i && c' == c + 1 else i < |s| && i' == i + 1 && c' == 0
  {
    TokenAt(s, i, c, ii);
    if c < Closers(s, i, i) {
      i', c' := i, c + 1;
    } else {
      StageSkipped(s, i);
      i', c' := i + 1, 0;
    }
  }

  predicate NoAdjacentQuotes(s: seq<Token>) {
    forall i :: 0 <= i < |s| - 1 ==> !(s[i].Quoted? && (s[i + 1].Quoted? || s[i + 1].Unclosed?))
  }

  predicate AllClosed(s: seq<Token>) { forall i :: 0 <= i < |s| ==> !s[i].Unclosed? }

  /** The test of the program at a token of the grown text. */
  predicate LooksLikeQuantifier(t: seq<Token>, ii: nat)
    requires ii < |t|
  {
    t[ii] == Ch('?') || (t[ii] == Ch('!') && Peek(t, ii + 1) != Ch('='))
  }

  lemma Decision(s: seq<Token>, i: nat, c: nat, ii: nat)
    requires At(s, i, c, ii) && ii < |Mixed(s, i)|
    ensures c == Closers(s, i, i) ==> i < |s| && ii == |Head(s, i)| && Mixed(s, i)[ii] == s[i]
    ensures LooksLikeQuantifier(Mixed(s, i), ii) <==> (c == Closers(s, i, i) && i < |s| && Opens(s, i))
    ensures c < Closers(s, i, i) ==> Mixed(s, i)[ii] == CLOSE
  {
    TokenAt(s, i, c, ii);
  }

  lemma OpenedPlace(s: seq<Token>, i: nat, ii: nat)
    requires i < |s| && ii == |Head(s, i)| && |Upto(s, i + 1, i + 1)| == |Head(s, i)| + 2
    ensures At(s, i + 1, 0, ii + 2)
  {
  }

  /** Inserting the pair of a quantifier, and going on behind it. */
  lemma OpenStep(s: seq<Token>, i: nat, c: nat, ii: nat)
    requires At(s, i, c, ii) && c == Closers(s, i, i) && i < |s| && Opens(s, i) && ii < |Mixed(s, i)|
    requires Balanced(s, 0, 0) && End !in s
    ensures Paired(Mixed(s, i), ii) == Mixed(s, i + 1)
    ensures At(s, i + 1, 0, ii + 2)
  {
    PairIsNextStage(s, i);
    StageOpened(s, i);
    OpenedPlace(s, i, ii);
  }

  lemma UnclosedInFormula(s: seq<Token>, k: nat, m: nat)
    requires k <= |s| && m < |Mixed(s, k)| && Mixed(s, k)[m].Unclosed?
    ensures !AllClosed(s)
  {
    FromTokens(s, k, 0);
    assert Mixed(s, k)[m] in Mixed(s, k);
  }

  /** The token before which the treatment stands, with everything before it treated. */
  ghost predicate Treated(s: seq<Token>, i: nat, c: nat, ii: nat, text: seq<Token>) {
    At(s, i, c, ii) && text == Mixed(s, i) && forall m :: 0 <= m < i ==> !s[m].Unclosed?
  }

  /** Passing a quoted block: afterwards the text is at its end, or at a token that is not quoted. */
  lemma PassQuote(s: seq<Token>, i: nat, c: nat, ii: nat, text: seq<Token>) returns (i': nat, c': nat)
    requires Treated(s, i, c, ii, text) && ii < |text| && text[ii].Quoted? && NoAdjacentQuotes(s)
    ensures i < |s| && i' == i + 1 && c' == 0 && Treated(s, i', c', ii + 1, text)
    ensures ii + 1 < |text| && c' == Closers(s, i', i') ==> i' < |s| && !s[i'].Unclosed?
  {
    Decision(s, i, c, ii);
    i', c' := Skip(s, i, c, ii);
    if ii + 1 < |text| {
      Decision(s, i', c', ii + 1);
    }
  }

  /** At the end of the text the whole formula has been treated. */
  lemma AtEnd(s: seq<Token>, i: nat, c: nat, ii: nat)
    requires At(s, i, c, ii) && ii >= |Mixed(s, i)|
    ensures i == |s|
  {
    StageBefore(s, i);
  }

  // ---------------------------------------------------------------- the program

  /** Moving the rest of a text up by one place makes room for one token. */
  lemma Inserted(room: seq<Token>, moved: seq<Token>, text: seq<Token>, at: nat, token: Token)
    requires at <= |text| && |text| + 1 < |room| == |moved|
    requires room[..|text|] == text
    requires moved[..at] == room[..at] && moved[at] == token && moved[at + 1..|text| + 2] == room[at..|text| + 1]
    ensures moved[..|text| + 1] == text[..at] + [token] + text[at..]
    ensures moved[|text| + 1] == room[|text|]
  {
    var n := |text|;
    forall k | at < k <= n + 1
      ensures moved[k] == room[k - 1]
    {
      assert moved[at + 1..n + 2][k - at - 1] == room[at..n + 1][k - at - 1];
    }
    forall k | 0 <= k < at
      ensures moved[k] == text[k]
    {
      assert moved[..at][k] == room[..at][k] && room[..n][k] == text[k];
    }
    forall k | at <= k < n
      ensures room[k] == text[k]
    {
      assert room[..n][k] == text[k];
    }
  }

  /** A zero-terminated text in a buffer that is reallocated in chunks. */
  class TextBuffer {
    const chunk: nat
    var data: array<Token>
    var length: nat

    ghost predicate Valid()
      reads this, data
    {
      chunk > 0 && length < data.Length && data[length] == End && End !in data[..length]
    }

    ghost function Text(): seq<Token>
      reads this, data
      requires Valid()
    {
      data[..length]
    }

    constructor (text: seq<Token>, chunk: nat)
      requires chunk > 0 && End !in text
      ensures Valid() && Text() == text && fresh(data)
    {
      this.chunk := chunk;
      length := |text|;
      data := new Token[|text| + 1](i requires 0 <= i <= |text| => if i < |text| then text[i] else End);
      new;
      assert data[..length] == text;
    }

    /** Moves the rest of the text with its terminator by one place. A full buffer is reallocated first. */
    method Insert(at: nat, token: Token)
      requires Valid() && at <= length && token != End
      modifies this, data
      ensures Valid() && (data == old(data) || fresh(data))
      ensures Text() == old(Text()[..at]) + [token] + old(Text()[at..])
    {
      ghost var text := Text();
      if data.Length == length + 1 {
        Grow();
      }
      ghost var room := data[..];
      assert room[..length] == text;
      MoveUp(data, at, length + 1);
      data[at] := token;
      Inserted(room, data[..], text, at, token);
      length := length + 1;
    }

    /** The inner scan: where to insert the closing parenthesis, or a syntax error at an unclosed quote. */
    method FindScope(start: nat) returns (closed: bool, p: Option<nat>)
      requires Valid() && start <= length
      ensures closed ==> p == Scan(Text(), start, 0)
      ensures !closed ==> exists m :: 0 <= m < length && Text()[m].Unclosed?
    {
      var jj, pp := start, 0;
      ghost var text := Text();
      while jj <= length
        invariant start <= jj <= length + 1
        invariant jj <= length ==> Scan(text, start, 0) == Scan(text, jj, pp)
        invariant jj > length ==> Scan(text, start, 0) == None
      {
        assert data[jj] == Peek(text, jj);
        var kk := false;
        match data[jj] {
          case Unclosed(_) =>
            return false, None;
          case Quoted(_) =>
            jj := jj + 1;
            continue;
          case End =>
            kk := pp == 0;
          case Ch(c) =>
            assert data[jj + 1] == Peek(text, jj + 1);
            if c == '~' {
              kk := pp == 0 && (data[jj + 1] == Ch('&') || data[jj + 1] == Ch('|'));
            } else if c == '=' {
              kk := pp == 0 && data[jj + 1] == Ch('>');
            } else if c == '<' || c == '|' || c == '&' {
              kk := pp == 0;
            } else if c == ')' {
              if pp == 0 {
                kk := true;
              } else {
                pp := pp - 1;
              }
            } else if c == '(' {
              pp := pp + 1;
            }
        }
        if kk {
          return true, Some(jj);
        }
        jj := jj + 1;
      }
      return true, None;
    }

    /** Inserts the pair of parentheses of the quantifier at `at`. */
    method OpenScope(at: nat) returns (ok: bool)
      requires Valid() && at < length
      modifies this, data
      ensures Valid() && (data == old(data) || fresh(data))
      ensures ok ==> Text() == Paired(old(Text()), at)
      ensures !ok ==> exists m :: 0 <= m < |old(Text())| && old(Text())[m].Unclosed?
    {
      ghost var text := Text();
      Insert(at, OPEN);
      ghost var wider := Text();
      var closed, p := FindScope(at + 1);
      if !closed {
        ghost var m :| 0 <= m < |wider| && wider[m].Unclosed?;
        assert text[if m < at then m else m - 1] == wider[m];
        return false;
      }
      if p.Some? {
        Insert(p.value, CLOSE);
      }
      ok := true;
    }

    /**
     `TPTPQuantifiers`: the outer scan over the growing text. The result is a syntax error exactly for an
     unclosed quote; otherwise the text becomes the rewritten formula.
     */
    method ScopeQuantifiers() returns (ok: bool)
      requires Valid() && Balanced(Text(), 0, 0) && NoAdjacentQuotes(Text())
      modifies this, data
      ensures Valid()
      ensures ok <==> AllClosed(old(Text()))
      ensures ok ==> Text() == Rewritten(old(Text()))
    {
      ghost var s := Text();
      ghost var i: nat, c: nat := 0, 0;
      FromNothing(s, 0);
      var ii: nat := 0;
      while ii < length
        invariant Valid() && (data == old(data) || fresh(data))
        invariant Treated(s, i, c, ii, Text())
        decreases |s| - i, Closers(s, i, i) - c
      {
        ok, ii, i, c := Turn(ii, s, i, c);
        if !ok {
          return;
        }
      }
      AtEnd(s, i, c, ii);
      ok := true;
    }

    /** One iteration: a quoted block is jumped over, and unless the text ends there, the next token is treated. */
    method Turn(ii: nat, ghost s: seq<Token>, ghost i: nat, ghost c: nat)
      returns (ok: bool, next: nat, ghost i': nat, ghost c': nat)
      requires Valid() && Balanced(s, 0, 0) && End !in s && NoAdjacentQuotes(s)
      requires Treated(s, i, c, ii, Text()) && ii < length
      modifies this, data
      ensures Valid() && (data == old(data) || fresh(data))
      ensures ok ==> Treated(s, i', c', next, Text())
      ensures ok ==> (i < i' <= |s|) || (i' == i && c < c' <= Closers(s, i, i))
      ensures !ok ==> !AllClosed(s)
    {
      ok, next, i', c' := PassBlock(ii, s, i, c);
      if ok && data[next] != End {
        ok, next, i', c' := Treat(next, s, i', c');
      }
    }

    /** The start of one iteration: a quoted block is jumped over. */
    method PassBlock(ii: nat, ghost s: seq<Token>, ghost i: nat, ghost c: nat)
      returns (closed: bool, next: nat, ghost i': nat, ghost c': nat)
      requires Valid() && NoAdjacentQuotes(s) && Treated(s, i, c, ii, Text()) && ii < length
      ensures !closed ==> !AllClosed(s)
      ensures closed ==> next <= length && Treated(s, i', c', next, Text())
      ensures closed ==> (i' == i && c' == c && next < length) || (i < |s| && i' == i + 1)
      ensures closed && next < length && c' == Closers(s, i', i') ==> i' < |s| && !s[i'].Unclosed?
    {
      closed, next, i', c' := true, ii, i, c;
      Decision(s, i, c, ii);
      if data[ii].Unclosed? {
        UnclosedInFormula(s, i, ii);
        closed := false;
      } else if data[ii].Quoted? {
        i', c' := PassQuote(s, i, c, ii, Text());
        next := ii + 1;
      }
    }

    /** The rest of one iteration: a quantifier gets its parentheses, any other token is passed. */
    method Treat(ii: nat, ghost s: seq<Token>, ghost i: nat, ghost c: nat)
      returns (ok: bool, next: nat, ghost i': nat, ghost c': nat)
      requires Valid() && Balanced(s, 0, 0) && End !in s && Treated(s, i, c, ii, Text()) && ii < length
      requires c == Closers(s, i, i) ==> i < |s| && !s[i].Unclosed?
      modifies this, data
      ensures Valid() && (data == old(data) || fresh(data))
      ensures ok ==> Treated(s, i', c', next, Text())
      ensures ok ==> if c < Closers(s, i, i) then i' == i && c' == c + 1 else i < |s| && i' == i + 1
      ensures !ok ==> !AllClosed(s)
    {
      Decision(s, i, c, ii);
      assert data[ii + 1] == Peek(Text(), ii + 1);
      i', c', next := i, c, ii;
      if data[ii] == Ch('?') || (data[ii] == Ch('!') && data[ii + 1] != Ch('=')) {
        ok := OpenScope(ii);
        if !ok {
          ghost var m :| 0 <= m < |Mixed(s, i)| && Mixed(s, i)[m].Unclosed?;
          UnclosedInFormula(s, i, m);
          return;
        }
        OpenStep(s, i, c, ii);
        i', c' := i + 1, 0;
        next := ii + 2;
      } else {
        i', c' := Skip(s, i, c, ii);
        next := ii + 1;
        ok := true;
      }
    }

    method Grow()
      requires Valid()
      modifies this`data
      ensures Valid() && fresh(data) && data.Length > length + 1 && Text() == old(Text())
    {
      var larger := new Token[data.Length + chunk](_ => End);
      for i := 0 to data.Length
        invariant data == old(data) && data[..] == old(data[..]) && Valid()
        invariant larger.Length == data.Length + chunk && larger[..i] == data[..i]
      {
        larger[i] := data[i];
      }
      assert larger[..length + 1] == larger[..data.Length][..length + 1] == data[..length + 1];
      assert larger[..length] == larger[..length + 1][..length] == data[..length];
      assert larger[length] == larger[..length + 1][length];
      data := larger;
    }
  }

  /** memmove of `a[from..to]` by one place. */
  method MoveUp(a: array<Token>, from: nat, to: nat)
    requires from <= to < a.Length
    modifies a
    ensures a[..from] == old(a[..from]) && a[from + 1..to + 1] == old(a[from..to]) && a[to + 1..] == old(a[to + 1..])
  {
    var n := to;
    while n > from
      invariant from <= n <= to
      invariant forall k :: 0 <= k < n ==> a[k] == old(a[k])
      invariant forall k :: n < k <= to ==> a[k] == old(a[k - 1])
      invariant forall k :: to < k < a.Length ==> a[k] == old(a[k])
    {
      a[n] := a[n - 1];
      n := n - 1;
    }
  }
}
