/**
 The scope of TPTP quantifiers, as a function of the formula: where the parentheses go that make
 every quantifier bind tighter than any binary connective. A quoted block is one token.
 */
module QuantifierScope {
  import opened Options

  datatype Token = Ch(c: char) | Quoted(text: string) | Unclosed(text: string) | End

  const OPEN := Ch('(')
  const CLOSE := Ch(')')

  function Peek(s: seq<Token>, i: nat): Token { if i < |s| then s[i] else End }

  // ---------------------------------------------------------------- where a scope ends

  /** At depth zero, the scope ends here: a binary connective, an unmatched parenthesis, or the end of the text. */
  predicate Stops(s: seq<Token>, i: nat) {
    match Peek(s, i)
    case Ch(c) =>
      || (c == '~' && (Peek(s, i + 1) == Ch('&') || Peek(s, i + 1) == Ch('|')))
      || (c == '=' && Peek(s, i + 1) == Ch('>'))
      || c == '<' || c == '|' || c == '&' || c == ')'
    case Quoted(_) => false
    case Unclosed(_) => false
    case End => true
  }

  function Deeper(t: Token, depth: nat): nat {
    if t == OPEN then depth + 1 else if t == CLOSE && depth > 0 then depth - 1 else depth
  }

  /** The first position from `i` on at which the scan ends, `depth` parentheses being open. */
  function Scan(s: seq<Token>, i: nat, depth: nat): (p: Option<nat>)
    requires i <= |s|
    ensures p.Some? ==> i <= p.value <= |s|
    decreases |s| - i
  {
    if depth == 0 && Stops(s, i) then Some(i)
    else if i == |s| then None
    else Scan(s, i + 1, Deeper(s[i], depth))
  }

  /** Every parenthesis from `i` on is matched, `depth` being open before. */
  predicate Balanced(s: seq<Token>, i: nat, depth: nat)
    requires i <= |s|
    decreases |s| - i
  {
    if i == |s| then depth == 0 else (s[i] == CLOSE ==> depth > 0) && Balanced(s, i + 1, Deeper(s[i], depth))
  }

  /** In a balanced text every scan ends. */
  lemma {:induction false} ScanEnds(s: seq<Token>, i: nat, depth: nat, inner: nat)
    requires i <= |s| && Balanced(s, i, depth) && inner <= depth && End !in s
    ensures Scan(s, i, inner).Some?
    decreases |s| - i
  {
    if i < |s| && !(inner == 0 && Stops(s, i)) {
      ScanEnds(s, i + 1, Deeper(s[i], depth), Deeper(s[i], inner));
    }
  }

  lemma {:induction false} BalancedFrom(s: seq<Token>, i: nat, depth: nat, k: nat) returns (inner: nat)
    requires i <= k <= |s| && Balanced(s, i, depth)
    ensures Balanced(s, k, inner)
    decreases k - i
  {
    if i == k {
      inner := depth;
    } else {
      inner := BalancedFrom(s, i + 1, Deeper(s[i], depth), k);
    }
  }

  /** Starting deeper never ends earlier. */
  lemma {:induction false} ScanMonotone(s: seq<Token>, i: nat, depth: nat, inner: nat)
    requires i <= |s| && inner <= depth && Scan(s, i, depth).Some?
    ensures Scan(s, i, inner).Some? && Scan(s, i, inner).value <= Scan(s, i, depth).value
    decreases |s| - i
  {
    if !(inner == 0 && Stops(s, i)) {
      ScanMonotone(s, i + 1, Deeper(s[i], depth), Deeper(s[i], inner));
    }
  }

  /** A scan passes every position before its end, at some depth. */
  lemma {:induction false} ScanPasses(s: seq<Token>, i: nat, depth: nat, m: nat) returns (there: nat)
    requires i <= m <= |s| && Scan(s, i, depth).Some? && m <= Scan(s, i, depth).value
    ensures Scan(s, m, there) == Scan(s, i, depth)
    decreases m - i
  {
    if i == m {
      there := depth;
    } else {
      there := ScanPasses(s, i + 1, Deeper(s[i], depth), m);
    }
  }

  /** The position before which the scope of a quantifier at `q` is closed. */
  function Close(s: seq<Token>, q: nat): nat
    requires q <= |s|
  {
    var p := Scan(s, q, 0);
    if p.Some? then p.value else |s| + 1
  }

  /** The quantifiers of the formula. */
  predicate IsQuantifier(s: seq<Token>, i: nat)
    requires i < |s|
  {
    s[i] == Ch('?') || (s[i] == Ch('!') && Peek(s, i + 1) != Ch('='))
  }

  /**
   The positions at which the program opens a parenthesis. It looks one token ahead in the text it is
   growing: where an earlier scope was closed between `!` and `=`, an inequality looks like a quantifier.
   */
  predicate Opens(s: seq<Token>, i: nat)
    requires i < |s|
    decreases i, 1
  {
    s[i] == Ch('?') || (s[i] == Ch('!') && (Peek(s, i + 1) != Ch('=') || Closers(s, i + 1, i) > 0))
  }

  /** How many of the scopes opened before `k` are closed before position `p`. */
  function Closers(s: seq<Token>, p: nat, k: nat): nat
    requires k <= |s|
    decreases k, 0
  {
    if k == 0 then 0
    else Closers(s, p, k - 1) + (if Opens(s, k - 1) && Close(s, k - 1) == p then 1 else 0)
  }

  lemma {:induction false} CloserExists(s: seq<Token>, p: nat, k: nat) returns (q: nat)
    requires k <= |s| && Closers(s, p, k) > 0
    ensures q < k && Opens(s, q) && Close(s, q) == p
  {
    if Opens(s, k - 1) && Close(s, k - 1) == p {
      q := k - 1;
    } else {
      q := CloserExists(s, p, k - 1);
    }
  }

  lemma {:induction false} LaterClosers(s: seq<Token>, p: nat, k: nat, n: nat)
    requires k <= n <= |s| && forall q :: k <= q < n && Opens(s, q) ==> Close(s, q) != p
    ensures Closers(s, p, n) == Closers(s, p, k)
    decreases n - k
  {
    if k < n {
      LaterClosers(s, p, k, n - 1);
    }
  }

  /** In a well-formed text every scope ends behind its quantifier, at a position where a scan stops. */
  lemma ScopeBounds(s: seq<Token>, q: nat)
    requires q < |s| && Balanced(s, 0, 0) && End !in s && Opens(s, q)
    ensures q < Close(s, q) <= |s| && Stops(s, Close(s, q)) && Scan(s, q, 0) == Some(Close(s, q))
  {
    var depth := BalancedFrom(s, 0, 0, q);
    ScanEnds(s, q, depth, 0);
    ScanStops(s, q, 0);
  }

  lemma {:induction false} ScanStops(s: seq<Token>, i: nat, depth: nat)
    requires i <= |s| && Scan(s, i, depth).Some?
    ensures Stops(s, Scan(s, i, depth).value)
    decreases |s| - i
  {
    if !(depth == 0 && Stops(s, i)) {
      ScanStops(s, i + 1, Deeper(s[i], depth));
    }
  }

  /** Scopes nest: one that opens inside another ends inside it. */
  lemma ScopesNest(s: seq<Token>, outer: nat, inner: nat)
    requires outer < inner < |s| && Balanced(s, 0, 0) && End !in s && Opens(s, outer) && Opens(s, inner)
    requires inner < Close(s, outer)
    ensures Close(s, inner) <= Close(s, outer)
  {
    ScopeBounds(s, outer);
    ScopeBounds(s, inner);
    var there := ScanPasses(s, outer, 0, inner);
    ScanMonotone(s, inner, there, 0);
  }

  /** No scope ends between the two tokens of a negated connective. */
  lemma NegatedConnectiveWhole(s: seq<Token>, q: nat, p: nat)
    requires q < |s| && Balanced(s, 0, 0) && End !in s && Opens(s, q)
    requires q <= p && p + 1 < |s| && s[p] == Ch('~') && (s[p + 1] == Ch('&') || s[p + 1] == Ch('|'))
    ensures Close(s, q) != p + 1
  {
    ScopeBounds(s, q);
    if Close(s, q) == p + 1 {
      var there := ScanPasses(s, q, 0, p);
    }
  }

  // ---------------------------------------------------------------- the rewritten formula

  function Repeat(t: Token, n: nat): (r: seq<Token>)
    ensures |r| == n && forall i :: 0 <= i < n ==> r[i] == t
  {
    if n == 0 then [] else [t] + Repeat(t, n - 1)
  }

  /** Position `p` of the formula after the scopes opened before `k` have been inserted. */
  function Piece(s: seq<Token>, k: nat, p: nat): seq<Token>
    requires k <= |s| && p <= |s|
  {
    Repeat(CLOSE, Closers(s, p, k)) + (if p < k && Opens(s, p) then [OPEN] else []) + (if p < |s| then [s[p]] else [])
  }

  function From(s: seq<Token>, k: nat, p: nat): seq<Token>
    requires k <= |s|
    decreases |s| + 1 - p
  {
    if p > |s| then [] else Piece(s, k, p) + From(s, k, p + 1)
  }

  function Upto(s: seq<Token>, k: nat, p: nat): seq<Token>
    requires k <= |s| && p <= |s| + 1
  {
    if p == 0 then [] else Upto(s, k, p - 1) + Piece(s, k, p - 1)
  }

  /** The whole text after the scopes opened before `k` have been inserted. */
  function Mixed(s: seq<Token>, k: nat): seq<Token>
    requires k <= |s|
  {
    From(s, k, 0)
  }

  /** The result: every opened scope has its opening and its closing parenthesis. */
  function Rewritten(s: seq<Token>): seq<Token> { Mixed(s, |s|) }

  lemma {:induction false} MixedSplits(s: seq<Token>, k: nat, p: nat)
    requires k <= |s| && p <= |s| + 1
    ensures Mixed(s, k) == Upto(s, k, p) + From(s, k, p)
  {
    if p == 0 {
      assert Upto(s, k, 0) == [];
    } else {
      MixedSplits(s, k, p - 1);
      assert From(s, k, p - 1) == Piece(s, k, p - 1) + From(s, k, p);
    }
  }

  lemma {:induction false} FromNothing(s: seq<Token>, p: nat)
    requires p <= |s|
    ensures From(s, 0, p) == s[p..]
    decreases |s| - p
  {
    if p < |s| {
      FromNothing(s, p + 1);
      assert Piece(s, 0, p) == [s[p]];
    } else {
      assert Piece(s, 0, p) == [] && From(s, 0, p + 1) == [];
    }
  }

  /** Two stages agree from `p` on if they open and close the same scopes there. */
  ghost predicate SameFrom(s: seq<Token>, k: nat, n: nat, p: nat)
    requires k <= |s| && n <= |s|
  {
    forall m :: p <= m <= |s| ==>
        Closers(s, m, k) == Closers(s, m, n) && ((m < k && Opens(s, m)) <==> (m < n && Opens(s, m)))
  }

  lemma {:induction false} FromSame(s: seq<Token>, k: nat, n: nat, p: nat)
    requires k <= |s| && n <= |s| && SameFrom(s, k, n, p)
    ensures From(s, k, p) == From(s, n, p)
    decreases |s| + 1 - p
  {
    if p <= |s| {
      FromSame(s, k, n, p + 1);
    }
  }

  lemma {:induction false} UptoSame(s: seq<Token>, k: nat, n: nat, p: nat)
    requires k <= n <= |s| && p <= k
    requires forall m :: 0 <= m < p ==> Closers(s, m, k) == Closers(s, m, n)
    ensures Upto(s, k, p) == Upto(s, n, p)
  {
    if p > 0 {
      UptoSame(s, k, n, p - 1);
    }
  }

  lemma PlainPiece(s: seq<Token>, k: nat, p: nat)
    requires k <= p < |s| && Closers(s, p, k) == 0
    ensures From(s, k, p) == [s[p]] + From(s, k, p + 1)
  {
    assert Piece(s, k, p) == [s[p]];
  }

  /** Behind `k`, text without a closed scope is unchanged. */
  lemma {:induction false} FromPlain(s: seq<Token>, k: nat, p: nat, stop: nat)
    requires k <= p <= stop <= |s|
    requires forall m :: p <= m < stop ==> Closers(s, m, k) == 0
    ensures From(s, k, p) == s[p..stop] + From(s, k, stop)
    decreases stop - p
  {
    if p < stop {
      var rest, last := From(s, k, p + 1), From(s, k, stop);
      FromPlain(s, k, p + 1, stop);
      PlainPiece(s, k, p);
      Prepend(s[p..stop], s[p], s[p + 1..stop], last);
      assert [s[p]] + rest == s[p..stop] + last;
    } else {
      assert s[p..stop] == [];
    }
  }

  lemma Prepend<T>(whole: seq<T>, head: T, tail: seq<T>, rest: seq<T>)
    requires |whole| == |tail| + 1 && whole[0] == head && whole[1..] == tail
    ensures [head] + (tail + rest) == whole + rest
  {
    assert whole == [head] + tail;
  }
}
