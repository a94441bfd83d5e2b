/** What the rewritten formula guarantees: nothing is lost, and every quantifier has its own proper scope. */
module QuantifierProperties {
  import opened Sequences
  import opened Options
  import opened QuantifierScope
  import opened QuantifierRewrite

  // ---------------------------------------------------------------- the end of a scope

  /** The number of open parentheses after the tokens `i..j`, if none of them closes too much. */
  function Walk(s: seq<Token>, i: nat, j: nat, depth: nat): Option<nat>
    requires i <= j <= |s|
    decreases j - i
  {
    if i == j then Some(depth)
    else if s[i] == CLOSE && depth == 0 then None
    else Walk(s, i + 1, j, Deeper(s[i], depth))
  }

  lemma {:induction false} ScanWalks(s: seq<Token>, i: nat, depth: nat, m: nat)
    requires i <= m <= |s| && Scan(s, i, depth).Some? && m <= Scan(s, i, depth).value
    ensures Walk(s, i, m, depth).Some?
    ensures Scan(s, m, Walk(s, i, m, depth).value) == Scan(s, i, depth)
    decreases m - i
  {
    if i < m {
      ScanWalks(s, i + 1, Deeper(s[i], depth), m);
    }
  }

  /** Opening minus closing parentheses among the tokens `i..j`. */
  function Net(s: seq<Token>, i: nat, j: nat): int
    requires i <= j <= |s|
    decreases j - i
  {
    if i == j then 0
    else (if s[i] == Ch('(') then 1 else if s[i] == Ch(')') then -1 else 0) + Net(s, i + 1, j)
  }

  /** The text ends here, or one of the tokens `<`, `|`, `&`, `)`, `=>`, `~&` and `~|` begins. */
  predicate EndsScope(s: seq<Token>, p: nat) {
    || p >= |s|
    || s[p] in {Ch('<'), Ch('|'), Ch('&'), Ch(')')}
    || (p + 1 < |s| && s[p] == Ch('=') && s[p + 1] == Ch('>'))
    || (p + 1 < |s| && s[p] == Ch('~') && s[p + 1] in {Ch('&'), Ch('|')})
  }

  lemma {:induction false} WalkIsNet(s: seq<Token>, i: nat, j: nat, depth: nat)
    requires i <= j <= |s|
    ensures Walk(s, i, j, depth).Some? ==> Walk(s, i, j, depth).value == depth + Net(s, i, j)
    ensures Walk(s, i, j, depth).None? ==> exists m :: i <= m <= j && depth + Net(s, i, m) < 0
    decreases j - i
  {
    if i < j {
      if s[i] == CLOSE && depth == 0 {
        assert depth + Net(s, i, i + 1) < 0;
      } else {
        WalkIsNet(s, i + 1, j, Deeper(s[i], depth));
        if Walk(s, i, j, depth).None? {
          var m :| i + 1 <= m <= j && Deeper(s[i], depth) + Net(s, i + 1, m) < 0;
          assert depth + Net(s, i, m) < 0;
        }
      }
    }
  }

  lemma StopsIsEnd(s: seq<Token>, p: nat)
    requires p <= |s| && End !in s
    ensures Stops(s, p) <==> EndsScope(s, p)
  {
    if p < |s| {
      assert s[p] in s;
    }
  }

  lemma CloseWalks(s: seq<Token>, q: nat)
    requires q < |s| && Balanced(s, 0, 0) && End !in s && Opens(s, q)
    ensures var p := Close(s, q);
            && q < p <= |s| && Stops(s, p) && Walk(s, q, p, 0) == Some(0)
            && forall m :: q <= m < p ==> Walk(s, q, m, 0).Some? && !(Walk(s, q, m, 0) == Some(0) && Stops(s, m))
  {
    var p := Close(s, q);
    ScopeBounds(s, q);
    forall m | q <= m <= p
      ensures Walk(s, q, m, 0).Some? && Scan(s, m, Walk(s, q, m, 0).value) == Some(p)
    {
      ScanWalks(s, q, 0, m);
    }
    ScanEndsNow(s, p, Walk(s, q, p, 0).value);
  }

  /**
   The scope is closed before the first end of a scope at which as many parentheses are closed as opened since
   the quantifier; on the way there are never more closed than opened.
   */
  lemma CloseIsFirstStop(s: seq<Token>, q: nat)
    requires q < |s| && Balanced(s, 0, 0) && End !in s && Opens(s, q)
    ensures var p := Close(s, q);
            && q < p <= |s| && EndsScope(s, p) && Net(s, q, p) == 0
            && forall m :: q <= m < p ==> Net(s, q, m) >= 0 && (Net(s, q, m) == 0 ==> !EndsScope(s, m))
  {
    CloseWalks(s, q);
    forall m | q <= m <= Close(s, q)
      ensures Net(s, q, m) == Walk(s, q, m, 0).value && (Stops(s, m) <==> EndsScope(s, m))
    {
      WalkIsNet(s, q, m, 0);
      StopsIsEnd(s, m);
    }
  }

  /** No prefix of the tokens from `i` on closes more than is open, `depth` being open before. */
  predicate NeverBelow(s: seq<Token>, i: nat, depth: int)
    requires i <= |s|
  {
    forall m :: i <= m <= |s| ==> Net(s, i, m) >= -depth
  }

  lemma NeverBelowStep(s: seq<Token>, i: nat, depth: int)
    requires i < |s| && depth >= 0
    ensures NeverBelow(s, i, depth) <==> NeverBelow(s, i + 1, depth + Net(s, i, i + 1))
  {
    var next := i + 1;
    if NeverBelow(s, i, depth) {
      forall m | next <= m <= |s|
        ensures Net(s, next, m) >= -(depth + Net(s, i, next))
      {
        assert Net(s, i, m) >= -depth;
      }
    }
    if NeverBelow(s, next, depth + Net(s, i, next)) {
      forall m | i <= m <= |s|
        ensures Net(s, i, m) >= -depth
      {
        if m > i {
          assert Net(s, next, m) >= -(depth + Net(s, i, next));
        }
      }
    }
  }

  /** A text is balanced when no prefix closes more than it opens, and the whole closes as much as it opens. */
  lemma BalancedExactly(s: seq<Token>)
    ensures Balanced(s, 0, 0) <==> Net(s, 0, |s|) == 0 && NeverBelow(s, 0, 0)
  {
    BalancedIsNet(s, 0, 0);
  }

  lemma {:induction false} BalancedIsNet(s: seq<Token>, i: nat, depth: nat)
    requires i <= |s|
    ensures Balanced(s, i, depth) <==> depth + Net(s, i, |s|) == 0 && NeverBelow(s, i, depth)
    decreases |s| - i
  {
    if i < |s| {
      NeverBelowStep(s, i, depth);
      if s[i] == CLOSE && depth == 0 {
        assert Net(s, i, i + 1) < -depth;
      } else {
        BalancedIsNet(s, i + 1, Deeper(s[i], depth));
        assert Net(s, i + 1, i + 1) == 0;
      }
    }
  }

  // ---------------------------------------------------------------- marking what was inserted

  datatype Marked = Marked(token: Token, inserted: bool)

  function Strip(t: seq<Marked>): (r: seq<Token>)
    ensures |r| == |t| && forall i :: 0 <= i < |t| ==> r[i] == t[i].token
  {
    seq(|t|, i requires 0 <= i < |t| => t[i].token)
  }

  /** The text without the inserted tokens. */
  function Erase(t: seq<Marked>): seq<Token> {
    if t == [] then [] else (if t[0].inserted then [] else [t[0].token]) + Erase(t[1..])
  }

  lemma {:induction false} EraseConcat(a: seq<Marked>, b: seq<Marked>)
    ensures Erase(a + b) == Erase(a) + Erase(b)
  {
    if a == [] {
      assert a + b == b;
    } else {
      EraseConcat(a[1..], b);
      assert (a + b)[1..] == a[1..] + b;
      Associate(if a[0].inserted then [] else [a[0].token], Erase(a[1..]), Erase(b));
    }
  }

  function Marks(n: nat): (r: seq<Marked>)
    ensures |r| == n && forall i :: 0 <= i < n ==> r[i] == Marked(CLOSE, true)
  {
    seq(n, i => Marked(CLOSE, true))
  }

  lemma {:induction false} EraseMarks(n: nat)
    ensures Erase(Marks(n)) == []
  {
    if n > 0 {
      EraseMarks(n - 1);
      assert Marks(n)[1..] == Marks(n - 1);
    }
  }

  /** The token at `p`, behind the parenthesis of its own scope. */
  function Own(s: seq<Token>, p: nat): seq<Marked>
    requires p <= |s|
  {
    (if p < |s| && Opens(s, p) then [Marked(OPEN, true)] else []) + (if p < |s| then [Marked(s[p], false)] else [])
  }

  /** Position `p` of the formula in the result, with the inserted parentheses marked. */
  function MarkedPiece(s: seq<Token>, p: nat): seq<Marked>
    requires p <= |s|
  {
    Marks(Closers(s, p, |s|)) + Own(s, p)
  }

  function Segment(s: seq<Token>, a: nat, b: nat): seq<Marked>
    requires a <= b <= |s| + 1
    decreases b - a
  {
    if a == b then [] else MarkedPiece(s, a) + Segment(s, a + 1, b)
  }

  function MarkedText(s: seq<Token>): seq<Marked> { Segment(s, 0, |s| + 1) }

  lemma {:induction false} SegmentSplits(s: seq<Token>, a: nat, b: nat, c: nat)
    requires a <= b <= c <= |s| + 1
    ensures Segment(s, a, c) == Segment(s, a, b) + Segment(s, b, c)
    decreases b - a
  {
    if a < b {
      SegmentSplits(s, a + 1, b, c);
      Associate(MarkedPiece(s, a), Segment(s, a + 1, b), Segment(s, b, c));
    } else {
      assert Segment(s, a, b) == [];
    }
  }

  lemma StripPiece(s: seq<Token>, p: nat)
    requires p <= |s|
    ensures Strip(MarkedPiece(s, p)) == Piece(s, |s|, p)
  {
  }

  lemma StripConcat(a: seq<Marked>, b: seq<Marked>)
    ensures Strip(a + b) == Strip(a) + Strip(b)
  {
  }

  lemma {:induction false} StripSegment(s: seq<Token>, p: nat)
    requires p <= |s| + 1
    ensures Strip(Segment(s, p, |s| + 1)) == From(s, |s|, p)
    decreases |s| + 1 - p
  {
    if p <= |s| {
      StripSegment(s, p + 1);
      StripPiece(s, p);
      StripConcat(MarkedPiece(s, p), Segment(s, p + 1, |s| + 1));
    }
  }

  lemma EraseOwn(s: seq<Token>, p: nat)
    requires p <= |s|
    ensures Erase(Own(s, p)) == if p < |s| then [s[p]] else []
  {
    var pair := if p < |s| && Opens(s, p) then [Marked(OPEN, true)] else [];
    var token := if p < |s| then [Marked(s[p], false)] else [];
    EraseConcat(pair, token);
    assert Erase(pair) == [];
    assert Erase(token) == if p < |s| then [s[p]] else [];
  }

  lemma EraseMarked(n: nat, own: seq<Marked>)
    ensures Erase(Marks(n) + own) == Erase(own)
  {
    EraseMarks(n);
    EraseConcat(Marks(n), own);
  }

  lemma ErasePiece(s: seq<Token>, p: nat)
    requires p <= |s|
    ensures Erase(MarkedPiece(s, p)) == if p < |s| then [s[p]] else []
  {
    EraseMarked(Closers(s, p, |s|), Own(s, p));
    EraseOwn(s, p);
  }

  lemma {:induction false} EraseSegment(s: seq<Token>, a: nat, b: nat)
    requires a <= b <= |s| + 1
    ensures Erase(Segment(s, a, b)) == s[(if a < |s| then a else |s|)..(if b < |s| then b else |s|)]
    decreases b - a
  {
    if a < b {
      EraseSegment(s, a + 1, b);
      ErasePiece(s, a);
      EraseConcat(MarkedPiece(s, a), Segment(s, a + 1, b));
    }
  }

  /** Deleting the inserted parentheses gives back the formula; nothing but parentheses is inserted. */
  lemma NothingLost(s: seq<Token>)
    ensures Strip(MarkedText(s)) == Rewritten(s)
    ensures Erase(MarkedText(s)) == s
    ensures forall m :: m in MarkedText(s) && m.inserted ==> m.token in {Ch('('), Ch(')')}
  {
    StripSegment(s, 0);
    EraseSegment(s, 0, |s| + 1);
    OnlyParentheses(s, 0);
  }

  lemma {:induction false} OnlyParentheses(s: seq<Token>, p: nat)
    requires p <= |s| + 1
    ensures forall m :: m in Segment(s, p, |s| + 1) && m.inserted ==> m.token == OPEN || m.token == CLOSE
    decreases |s| + 1 - p
  {
    if p <= |s| {
      OnlyParentheses(s, p + 1);
      assert forall m :: m in MarkedPiece(s, p) && m.inserted ==> m.token == OPEN || m.token == CLOSE;
    }
  }

  function OpenCount(s: seq<Token>, k: nat): nat
    requires k <= |s|
  {
    if k == 0 then 0 else OpenCount(s, k - 1) + (if Opens(s, k - 1) then 1 else 0)
  }

  /** Exactly one pair of parentheses is inserted per opened scope. */
  lemma {:induction false} OnePairEach(s: seq<Token>, k: nat)
    requires k <= |s| && Balanced(s, 0, 0) && End !in s
    ensures |Mixed(s, k)| == |s| + 2 * OpenCount(s, k)
  {
    if k == 0 {
      FromNothing(s, 0);
    } else {
      OnePairEach(s, k - 1);
      if Opens(s, k - 1) {
        StageSplit(s, k - 1);
        StageOpened(s, k - 1);
      } else {
        StageSkipped(s, k - 1);
      }
    }
  }

  // ---------------------------------------------------------------- balance

  /** The number of open parentheses after the text `t`, if none of them closes too much. */
  function Depth(t: seq<Marked>, depth: nat): Option<nat> {
    if t == [] then Some(depth)
    else if t[0].token == CLOSE && depth == 0 then None
    else Depth(t[1..], Deeper(t[0].token, depth))
  }

  lemma {:induction false} DepthConcat(a: seq<Marked>, b: seq<Marked>, depth: nat)
    requires Depth(a, depth).Some?
    ensures Depth(a + b, depth) == Depth(b, Depth(a, depth).value)
  {
    if a == [] {
      assert a + b == b;
    } else {
      DepthConcat(a[1..], b, Deeper(a[0].token, depth));
      assert (a + b)[1..] == a[1..] + b;
    }
  }

  lemma {:induction false} DepthMarks(n: nat, depth: nat)
    requires n <= depth
    ensures Depth(Marks(n), depth) == Some(depth - n)
  {
    if n > 0 {
      DepthMarks(n - 1, depth - 1);
      assert Marks(n)[1..] == Marks(n - 1);
    }
  }

  /** The scopes opened in `base..k` that are closed at `p` or later. */
  function Active(s: seq<Token>, base: nat, p: nat, k: nat): nat
    requires k <= |s|
  {
    if k <= base then 0
    else Active(s, base, p, k - 1) + (if Opens(s, k - 1) && Close(s, k - 1) >= p then 1 else 0)
  }

  lemma {:induction false} ActiveCloses(s: seq<Token>, base: nat, p: nat, k: nat)
    requires base <= k <= |s| && Closers(s, p, base) == 0
    ensures Active(s, base, p, k) == Closers(s, p, k) + Active(s, base, p + 1, k)
    decreases k
  {
    if k > base {
      ActiveCloses(s, base, p, k - 1);
    }
  }

  /** A scope is closed behind the position where it opens. */
  lemma ClosersBefore(s: seq<Token>, p: nat)
    requires p <= |s| && Balanced(s, 0, 0) && End !in s
    ensures Closers(s, p, |s|) == Closers(s, p, p)
  {
    forall q | p <= q < |s| && Opens(s, q)
      ensures Close(s, q) != p
    {
      ScopeBounds(s, q);
    }
    LaterClosers(s, p, p, |s|);
  }

  /** One position of the result closes its scopes, opens its own, and then is as deep as the formula is. */
  lemma PieceDepth(s: seq<Token>, base: nat, p: nat, depth: nat)
    requires base <= p < |s| && Balanced(s, 0, 0) && End !in s && Closers(s, p, base) == 0
    requires s[p] == CLOSE ==> depth > 0
    ensures Depth(MarkedPiece(s, p), depth + Active(s, base, p, p))
         == Some(Deeper(s[p], depth) + Active(s, base, p + 1, p + 1))
  {
    var n, rest := Closers(s, p, p), Active(s, base, p + 1, p);
    ClosersBefore(s, p);
    ActiveCloses(s, base, p, p);
    DepthMarks(n, depth + rest + n);
    var pair := if Opens(s, p) then [Marked(OPEN, true)] else [];
    var token := [Marked(s[p], false)];
    if Opens(s, p) {
      ScopeBounds(s, p);
    }
    assert Active(s, base, p + 1, p + 1) == rest + (if Opens(s, p) then 1 else 0);
    DepthConcat(Marks(n), pair + token, depth + rest + n);
    TokenDepth(pair, s[p], depth, rest + (if Opens(s, p) then 1 else 0));
    assert Own(s, p) == pair + token;
  }

  lemma TokenDepth(pair: seq<Marked>, token: Token, depth: nat, active: nat)
    requires pair == [] || (pair == [Marked(OPEN, true)] && active > 0)
    requires token == CLOSE ==> depth > 0
    ensures Depth(pair + [Marked(token, false)], depth + active - |pair|) == Some(Deeper(token, depth) + active)
  {
    var last := [Marked(token, false)];
    assert last[1..] == [];
    assert Depth(last, depth + active) == Some(Deeper(token, depth) + active);
    if pair == [] {
      assert pair + last == last;
    } else {
      assert (pair + last)[1..] == last;
    }
  }

  lemma {:induction false} SegmentDepth(s: seq<Token>, base: nat, a: nat, b: nat, depth: nat)
    requires base <= a <= b <= |s| && Balanced(s, 0, 0) && End !in s
    requires forall m :: a <= m < b ==> Closers(s, m, base) == 0
    requires Walk(s, a, b, depth).Some?
    ensures Depth(Segment(s, a, b), depth + Active(s, base, a, a))
         == Some(Walk(s, a, b, depth).value + Active(s, base, b, b))
    decreases b - a
  {
    if a < b {
      PieceDepth(s, base, a, depth);
      SegmentDepth(s, base, a + 1, b, Deeper(s[a], depth));
      DepthConcat(MarkedPiece(s, a), Segment(s, a + 1, b), depth + Active(s, base, a, a));
    }
  }

  lemma {:induction false} BalancedWalks(s: seq<Token>, i: nat, depth: nat)
    requires i <= |s| && Balanced(s, i, depth)
    ensures Walk(s, i, |s|, depth) == Some(0)
    decreases |s| - i
  {
    if i < |s| {
      BalancedWalks(s, i + 1, Deeper(s[i], depth));
    }
  }

  lemma {:induction false} NoneActive(s: seq<Token>, base: nat, p: nat, k: nat)
    requires k <= |s| && forall q :: base <= q < k && Opens(s, q) ==> Close(s, q) < p
    ensures Active(s, base, p, k) == 0
  {
    if k > base {
      NoneActive(s, base, p, k - 1);
    }
  }

  lemma EndDepth(s: seq<Token>)
    requires Balanced(s, 0, 0) && End !in s
    ensures Depth(Segment(s, |s|, |s| + 1), Active(s, 0, |s|, |s|)) == Some(0)
  {
    var n := |s|;
    AllClosedAtEnd(s);
    ActiveCloses(s, 0, n, n);
    DepthMarks(Closers(s, n, n), Closers(s, n, n));
    assert Segment(s, n, n + 1) == Marks(Closers(s, n, n));
  }

  lemma MarkedDepth(s: seq<Token>)
    requires Balanced(s, 0, 0) && End !in s
    ensures Depth(MarkedText(s), 0) == Some(0)
  {
    var n := |s|;
    BalancedWalks(s, 0, 0);
    SegmentDepth(s, 0, 0, n, 0);
    SegmentSplits(s, 0, n, n + 1);
    EndDepth(s);
    DepthConcat(Segment(s, 0, n), Segment(s, n, n + 1), 0);
  }

  lemma AllClosedAtEnd(s: seq<Token>)
    requires Balanced(s, 0, 0) && End !in s
    ensures Active(s, 0, |s| + 1, |s|) == 0
  {
    forall q | 0 <= q < |s| && Opens(s, q)
      ensures Close(s, q) < |s| + 1
    {
      ScopeBounds(s, q);
    }
    NoneActive(s, 0, |s| + 1, |s|);
  }

  /** The result of a balanced formula is balanced. */
  lemma ResultBalanced(s: seq<Token>)
    requires Balanced(s, 0, 0) && End !in s
    ensures Depth(MarkedText(s), 0) == Some(0)
    ensures Balanced(Rewritten(s), 0, 0)
  {
    MarkedDepth(s);
    StripSegment(s, 0);
    assert MarkedText(s)[0..] == MarkedText(s);
    DepthIsBalance(MarkedText(s), Rewritten(s), 0, 0);
  }

  lemma {:induction false} DepthIsBalance(t: seq<Marked>, r: seq<Token>, i: nat, depth: nat)
    requires i <= |t| && Strip(t) == r && Depth(t[i..], depth) == Some(0)
    ensures Balanced(r, i, depth)
    decreases |t| - i
  {
    if i < |t| {
      assert t[i..][1..] == t[i + 1..];
      DepthIsBalance(t, r, i + 1, Deeper(r[i], depth));
    }
  }

  // ---------------------------------------------------------------- one scope in the result

  lemma {:induction false} MarksSplit(a: nat, b: nat)
    ensures Marks(a + b) == Marks(a) + Marks(b)
  {
  }

  /** The scopes inside the one that opens at `q` close at its end at the latest. */
  lemma InsideActive(s: seq<Token>, q: nat)
    requires q < |s| && Balanced(s, 0, 0) && End !in s && Opens(s, q)
    ensures q < Close(s, q) <= |s|
    ensures Active(s, q + 1, Close(s, q), Close(s, q)) + Closers(s, Close(s, q), q + 1) == Closers(s, Close(s, q), |s|)
  {
    var p := Close(s, q);
    ScopeBounds(s, q);
    ClosersBefore(s, p);
    InsideCount(s, q, p, p);
  }

  lemma {:induction false} InsideCount(s: seq<Token>, q: nat, p: nat, k: nat)
    requires q < k <= p <= |s| && Balanced(s, 0, 0) && End !in s && Opens(s, q) && p == Close(s, q)
    ensures Active(s, q + 1, p, k) + Closers(s, p, q + 1) == Closers(s, p, k)
    decreases k
  {
    if k > q + 1 {
      InsideCount(s, q, p, k - 1);
      if Opens(s, k - 1) {
        ScopesNest(s, q, k - 1);
      }
    }
  }

  /** The text of the scope of `q`: its tokens with the scopes inside, up to its own closing parenthesis. */
  function ScopeText(s: seq<Token>, q: nat): seq<Marked>
    requires q < |s| && q + 1 <= Close(s, q) <= |s|
  {
    [Marked(s[q], false)] + Segment(s, q + 1, Close(s, q)) + Marks(Active(s, q + 1, Close(s, q), Close(s, q)))
  }

  lemma ScopeBalanced(s: seq<Token>, q: nat)
    requires q < |s| && Balanced(s, 0, 0) && End !in s && Opens(s, q)
    ensures q + 1 <= Close(s, q) <= |s|
    ensures Depth(ScopeText(s, q), 0) == Some(0)
  {
    CloseWalks(s, q);
    var p, base := Close(s, q), q + 1;
    var inside := Active(s, base, p, p);
    forall m | base <= m < p
      ensures Closers(s, m, base) == 0
    {
      InsideIsPlain(s, q, m);
    }
    assert Walk(s, q, p, 0) == Walk(s, base, p, 0);
    SegmentDepth(s, base, base, p, 0);
    DepthMarks(inside, inside);
    var first := [Marked(s[q], false)];
    assert first[1..] == [];
    DepthConcat(first, Segment(s, base, p), 0);
    DepthConcat(first + Segment(s, base, p), Marks(inside), 0);
  }

  lemma ScopeErased(s: seq<Token>, q: nat)
    requires q < |s| && q + 1 <= Close(s, q) <= |s|
    ensures Erase(ScopeText(s, q)) == s[q..Close(s, q)]
  {
    var p := Close(s, q);
    var first, inside := [Marked(s[q], false)], Active(s, q + 1, p, p);
    EraseConcat(first + Segment(s, q + 1, p), Marks(inside));
    EraseConcat(first, Segment(s, q + 1, p));
    EraseSegment(s, q + 1, p);
    EraseMarks(inside);
    assert first[1..] == [] && Erase(first) == [s[q]];
    assert s[q..p] == [s[q]] + s[q + 1..p];
  }

  /** The text behind the scope of `q`: the outer scopes that close at the same place, and the rest. */
  function AfterScope(s: seq<Token>, q: nat): seq<Marked>
    requires q < |s| && q + 1 <= Close(s, q) <= |s|
  {
    Marks(Closers(s, Close(s, q), q)) + (Own(s, Close(s, q)) + Segment(s, Close(s, q) + 1, |s| + 1))
  }

  lemma EraseTwo(a: seq<Marked>, b: seq<Marked>, x: seq<Token>, y: seq<Token>)
    requires Erase(a) == x && Erase(b) == y
    ensures Erase(a + b) == x + y
  {
    EraseConcat(a, b);
  }

  lemma ErasedFrom(s: seq<Token>, p: nat)
    requires p <= |s|
    ensures Erase(Own(s, p) + Segment(s, p + 1, |s| + 1)) == s[p..]
  {
    var own, rest := if p < |s| then [s[p]] else [], if p < |s| then s[p + 1..] else [];
    EraseOwn(s, p);
    EraseSegment(s, p + 1, |s| + 1);
    EraseTwo(Own(s, p), Segment(s, p + 1, |s| + 1), own, rest);
    FirstAndRest(s, p);
  }

  lemma FirstAndRest(s: seq<Token>, p: nat)
    requires p <= |s|
    ensures (if p < |s| then [s[p]] else []) + (if p < |s| then s[p + 1..] else []) == s[p..]
  {
  }

  lemma AfterErased(s: seq<Token>, q: nat)
    requires q < |s| && q + 1 <= Close(s, q) <= |s|
    ensures Erase(AfterScope(s, q)) == s[Close(s, q)..]
  {
    var p := Close(s, q);
    EraseMarked(Closers(s, p, q), Own(s, p) + Segment(s, p + 1, |s| + 1));
    ErasedFrom(s, p);
  }

  function BeforeScope(s: seq<Token>, q: nat): seq<Marked>
    requires q < |s|
  {
    Segment(s, 0, q) + Marks(Closers(s, q, |s|))
  }

  lemma BeforeErased(s: seq<Token>, q: nat)
    requires q < |s|
    ensures Erase(BeforeScope(s, q)) == s[..q]
  {
    EraseConcat(Segment(s, 0, q), Marks(Closers(s, q, |s|)));
    EraseSegment(s, 0, q);
    EraseMarks(Closers(s, q, |s|));
  }

  lemma RegroupEnd<T>(a: seq<T>, b: seq<T>, c: seq<T>, d: seq<T>, e: seq<T>)
    ensures (a + (b + c) + d) + e == a + (b + (c + (d + e)))
  {
  }

  lemma EndRegrouped(segment: seq<Marked>, inside: nat, outside: nat, own: seq<Marked>, rest: seq<Marked>)
    requires segment == (Marks(inside + (1 + outside)) + own) + rest
    ensures segment == Marks(inside) + ([Marked(CLOSE, true)] + (Marks(outside) + (own + rest)))
  {
    MarksSplit(inside, 1 + outside);
    MarksSplit(1, outside);
    assert Marks(1) == [Marked(CLOSE, true)];
    RegroupEnd(Marks(inside), Marks(1), Marks(outside), own, rest);
  }

  lemma EndCount(s: seq<Token>, q: nat)
    requires q < |s| && Balanced(s, 0, 0) && End !in s && Opens(s, q)
    ensures q < Close(s, q) <= |s|
    ensures Closers(s, Close(s, q), |s|)
         == Active(s, q + 1, Close(s, q), Close(s, q)) + (1 + Closers(s, Close(s, q), q))
  {
    InsideActive(s, q);
    OneMoreCloser(s, q, Close(s, q));
  }

  lemma SegmentFirst(s: seq<Token>, p: nat)
    requires p <= |s|
    ensures Segment(s, p, |s| + 1) == (Marks(Closers(s, p, |s|)) + Own(s, p)) + Segment(s, p + 1, |s| + 1)
  {
  }

  /** At the end of the scope of `q`: the scopes inside it are closed first, then its own, then the outer ones. */
  lemma EndOfScope(s: seq<Token>, q: nat)
    requires q < |s| && Balanced(s, 0, 0) && End !in s && Opens(s, q)
    ensures q + 1 <= Close(s, q) <= |s|
    ensures Segment(s, Close(s, q), |s| + 1)
         == Marks(Active(s, q + 1, Close(s, q), Close(s, q))) + ([Marked(CLOSE, true)] + AfterScope(s, q))
  {
    EndCount(s, q);
    var p := Close(s, q);
    SegmentFirst(s, p);
    EndRegrouped(Segment(s, p, |s| + 1), Active(s, q + 1, p, p), Closers(s, p, q), Own(s, p),
                 Segment(s, p + 1, |s| + 1));
  }

  /**
   Every opened scope is one pair of inserted parentheses in the result: the text between them is
   balanced, and without the insertions it is the formula from the quantifier to the end of its scope.
   */
  lemma ScopeInResult(s: seq<Token>, q: nat)
    requires q < |s| && Balanced(s, 0, 0) && End !in s && Opens(s, q)
    ensures q + 1 <= Close(s, q) <= |s|
    ensures MarkedText(s) == BeforeScope(s, q) + [Marked(Ch('('), true)] + ScopeText(s, q)
                             + [Marked(Ch(')'), true)] + AfterScope(s, q)
    ensures Erase(BeforeScope(s, q)) == s[..q] && Erase(ScopeText(s, q)) == s[q..Close(s, q)]
    ensures Erase(AfterScope(s, q)) == s[Close(s, q)..]
    ensures Depth(ScopeText(s, q), 0) == Some(0)
  {
    ScopeBalanced(s, q);
    ScopeErased(s, q);
    BeforeErased(s, q);
    AfterErased(s, q);
    EndOfScope(s, q);
    ScopePlaced(s, q);
  }

  lemma ScopePlaced(s: seq<Token>, q: nat)
    requires q < |s| && Opens(s, q) && q + 1 <= Close(s, q) <= |s|
    requires Segment(s, Close(s, q), |s| + 1)
          == Marks(Active(s, q + 1, Close(s, q), Close(s, q))) + ([Marked(CLOSE, true)] + AfterScope(s, q))
    ensures MarkedText(s) == BeforeScope(s, q) + [Marked(OPEN, true)] + ScopeText(s, q) + [Marked(CLOSE, true)]
            + AfterScope(s, q)
  {
    var p, n := Close(s, q), |s|;
    SegmentSplits(s, 0, q, n + 1);
    SegmentSplits(s, q + 1, p, n + 1);
    Assemble(Segment(s, 0, q), Marks(Closers(s, q, n)), Marked(s[q], false), Segment(s, q + 1, p),
             Marks(Active(s, q + 1, p, p)), AfterScope(s, q));
  }

  lemma Assemble(head: seq<Marked>, marks: seq<Marked>, first: Marked, inner: seq<Marked>, inside: seq<Marked>,
                 after: seq<Marked>)
    ensures head + ((marks + ([Marked(OPEN, true)] + [first])) + (inner + (inside + ([Marked(CLOSE, true)] + after))))
         == (head + marks) + [Marked(OPEN, true)] + ([first] + inner + inside) + [Marked(CLOSE, true)] + after
  {
  }

  // ---------------------------------------------------------------- which scopes are opened

  /** The text `!=>` at position `i`. */
  predicate BangArrow(s: seq<Token>, i: nat) {
    Peek(s, i) == Ch('!') && Peek(s, i + 1) == Ch('=') && Peek(s, i + 2) == Ch('>')
  }

  /** A scope of an earlier quantifier ends between `!` and `=>`. */
  ghost predicate SplitInequality(s: seq<Token>, i: nat) {
    BangArrow(s, i) && exists q :: 0 <= q < i < |s| && IsQuantifier(s, q) && Close(s, q) == i + 1
  }

  lemma OpensAt(s: seq<Token>, i: nat)
    requires i < |s| && Balanced(s, 0, 0) && End !in s
    ensures IsQuantifier(s, i) ==> Opens(s, i)
    ensures Opens(s, i) && !IsQuantifier(s, i) ==> BangArrow(s, i) && Closers(s, i + 1, i) > 0
  {
    if Opens(s, i) && !IsQuantifier(s, i) {
      var q := CloserExists(s, i + 1, i);
      ScopeBounds(s, q);
    }
  }

  /** Without a split inequality the program opens a scope at the quantifiers of the formula, and nowhere else. */
  lemma {:induction false} OpensQuantifiers(s: seq<Token>, n: nat)
    requires n <= |s| && Balanced(s, 0, 0) && End !in s
    requires forall i :: 0 <= i < n ==> !SplitInequality(s, i)
    ensures forall i :: 0 <= i < n ==> (Opens(s, i) <==> IsQuantifier(s, i))
  {
    if n > 0 {
      OpensQuantifiers(s, n - 1);
      OpensAt(s, n - 1);
      if Opens(s, n - 1) && !IsQuantifier(s, n - 1) {
        var q := CloserExists(s, n, n - 1);
        assert SplitInequality(s, n - 1);
      }
    }
  }

  /**
   The scopes opened are exactly those of the quantifiers if and only if no scope ends inside the
   text `!=>`; in a formula without that text this always holds.
   */
  lemma OpensExactly(s: seq<Token>)
    requires Balanced(s, 0, 0) && End !in s
    ensures (forall i :: 0 <= i < |s| ==> (Opens(s, i) <==> IsQuantifier(s, i))) <==>
            (forall i :: 0 <= i < |s| ==> !SplitInequality(s, i))
    ensures (forall i :: 0 <= i < |s| ==> !BangArrow(s, i)) ==> forall i :: 0 <= i < |s| ==> !SplitInequality(s, i)
  {
    if forall i :: 0 <= i < |s| ==> !SplitInequality(s, i) {
      OpensQuantifiers(s, |s|);
    } else {
      var i :| 0 <= i < |s| && SplitInequality(s, i);
      var q :| 0 <= q < i && IsQuantifier(s, q) && Close(s, q) == i + 1;
      OpensAt(s, q);
      LaterClosersAtLeast(s, i + 1, q, i);
      assert Opens(s, i) && !IsQuantifier(s, i);
    }
  }

  /** So in a text without `!=>` scopes are opened at every `?`, at every `!` that no `=` follows, and nowhere else. */
  lemma OpensSpelledOut(s: seq<Token>, i: nat)
    requires i < |s| && Balanced(s, 0, 0) && End !in s
    requires forall k :: 0 <= k && k + 2 < |s| ==> !(s[k] == Ch('!') && s[k + 1] == Ch('=') && s[k + 2] == Ch('>'))
    ensures Opens(s, i) <==> s[i] == Ch('?') || (s[i] == Ch('!') && !(i + 1 < |s| && s[i + 1] == Ch('=')))
  {
    OpensExactly(s);
    forall k: nat | k < |s|
      ensures !BangArrow(s, k)
    {
    }
  }

  lemma {:induction false} LaterClosersAtLeast(s: seq<Token>, p: nat, q: nat, k: nat)
    requires q < k <= |s| && Opens(s, q) && Close(s, q) == p
    ensures Closers(s, p, k) > 0
  {
    if q < k - 1 {
      LaterClosersAtLeast(s, p, q, k - 1);
    }
  }

  /** On `?!=>` the program opens a scope at an inequality sign. */
  lemma InequalityTakenForQuantifier()
    ensures var s := [Ch('?'), Ch('!'), Ch('='), Ch('>')];
            Balanced(s, 0, 0) && NoAdjacentQuotes(s) && SplitInequality(s, 1) && Opens(s, 1) && !IsQuantifier(s, 1)
  {
    var s := [Ch('?'), Ch('!'), Ch('='), Ch('>')];
    assert Scan(s, 2, 0) == Some(2);
    assert Scan(s, 1, 0) == Some(2);
    assert Scan(s, 0, 0) == Some(2);
    assert Opens(s, 0) && Close(s, 0) == 2;
    LaterClosersAtLeast(s, 2, 0, 1);
    assert Balanced(s, 4, 0);
    assert Balanced(s, 3, 0);
    assert Balanced(s, 2, 0);
    assert Balanced(s, 1, 0);
    assert IsQuantifier(s, 0);
  }
}
