/**
 What a packing of items into numbered batches must satisfy, and why the packing that
 opens a batch only when the last one of a key is full cannot be improved.
 `ids[j]` is the batch of item j and `keys[j]` its allocation key.
 */
module Packing {
  import opened Numbers
  import opened Totals

  /** The items in batch `b`. */
  function At(ids: seq<nat>, b: nat): set<nat> {
    set j: nat | j < |ids| && ids[j] == b
  }

  ghost predicate Homogeneous<K>(keys: seq<K>, ids: seq<nat>)
    requires |ids| == |keys|
  {
    forall i, j :: 0 <= i < |ids| && 0 <= j < |ids| && ids[i] == ids[j] ==> keys[i] == keys[j]
  }

  ghost predicate Limited(ids: seq<nat>, limit: nat) {
    forall b :: |At(ids, b)| <= limit
  }

  /** Within a key, later items never go to an earlier batch. */
  ghost predicate InOrder<K>(keys: seq<K>, ids: seq<nat>)
    requires |ids| == |keys|
  {
    forall i, j :: 0 <= i < j < |ids| && keys[i] == keys[j] ==> ids[i] <= ids[j]
  }

  /** A key leaves a batch only when it is full. */
  ghost predicate FullBefore<K>(keys: seq<K>, ids: seq<nat>, limit: nat)
    requires |ids| == |keys|
  {
    forall i, j :: 0 <= i < |ids| && 0 <= j < |ids| && keys[i] == keys[j] && ids[i] < ids[j] ==>
      |At(ids, ids[i])| == limit
  }

  ghost predicate Uses(ids: seq<nat>, n: nat, b: nat) {
    exists i :: 0 <= i < n <= |ids| && ids[i] == b
  }

  /** Batches are numbered 0, 1, 2, ... in the order in which they are opened. */
  ghost predicate Numbered(ids: seq<nat>) {
    forall j: nat, b: nat {:trigger Uses(ids, j, b)} :: j < |ids| && ids[j] == b + 1 ==> Uses(ids, j, b)
  }

  ghost predicate IsPlan<K>(keys: seq<K>, limit: nat, ids: seq<nat>) {
    && |ids| == |keys|
    && Homogeneous(keys, ids)
    && Limited(ids, limit)
    && InOrder(keys, ids)
    && FullBefore(keys, ids, limit)
    && Numbered(ids)
  }

  /** `b` is the last batch of `key`. */
  ghost predicate Latest<K>(keys: seq<K>, ids: seq<nat>, key: K, b: nat)
    requires |ids| == |keys|
  {
    && (exists i :: 0 <= i < |ids| && keys[i] == key && ids[i] == b)
    && (forall i :: 0 <= i < |ids| && keys[i] == key ==> ids[i] <= b)
  }

  // ---------------------------------------------------------------- one more item

  lemma AtExtended(ids: seq<nat>, b: nat, x: nat)
    ensures At(ids + [b], x) == if x == b then At(ids, x) + {|ids|} else At(ids, x)
    ensures |At(ids + [b], x)| == if x == b then |At(ids, x)| + 1 else |At(ids, x)|
  {
    assert At(ids + [b], x) == if x == b then At(ids, x) + {|ids|} else At(ids, x);
  }

  lemma UsesExtended(ids: seq<nat>, b: nat, n: nat, x: nat)
    requires Uses(ids, n, x)
    ensures Uses(ids + [b], n, x)
  {
    var i :| 0 <= i < n <= |ids| && ids[i] == x;
    assert (ids + [b])[i] == x;
  }

  lemma NumberedExtended(ids: seq<nat>, b: nat)
    requires Numbered(ids) && (b > 0 ==> Uses(ids, |ids|, b - 1))
    ensures Numbered(ids + [b])
  {
    var more := ids + [b];
    forall j: nat, x: nat | j < |more| && more[j] == x + 1
      ensures Uses(more, j, x)
    {
      if j < |ids| {
        assert Uses(ids, j, x);
      }
      UsesExtended(ids, b, j, x);
    }
  }

  lemma LimitedExtended(ids: seq<nat>, b: nat, limit: nat)
    requires Limited(ids, limit) && |At(ids, b)| < limit
    ensures Limited(ids + [b], limit)
  {
    forall x
      ensures |At(ids + [b], x)| <= limit
    {
      AtExtended(ids, b, x);
    }
  }

  lemma JoinedFull<K>(keys: seq<K>, limit: nat, ids: seq<nat>, key: K, b: nat)
    requires |ids| == |keys| && FullBefore(keys, ids, limit)
    requires Latest(keys, ids, key, b) && |At(ids, b)| < limit
    ensures FullBefore(keys + [key], ids + [b], limit)
  {
    var keys', ids' := keys + [key], ids + [b];
    var at :| 0 <= at < |ids| && keys[at] == key && ids[at] == b;
    forall i, j | 0 <= i < |ids'| && 0 <= j < |ids'| && keys'[i] == keys'[j] && ids'[i] < ids'[j]
      ensures |At(ids', ids'[i])| == limit
    {
      var i0 := if i == |ids| then at else i;
      var j0 := if j == |ids| then at else j;
      assert keys[i0] == keys[j0] && ids[i0] == ids'[i] && ids[j0] == ids'[j];
      AtExtended(ids, b, ids[i0]);
    }
  }

  lemma JoinedLatest<K>(keys: seq<K>, ids: seq<nat>, key: K, b: nat)
    requires |ids| == |keys| && Latest(keys, ids, key, b)
    ensures Latest(keys + [key], ids + [b], key, b)
    ensures Homogeneous(keys, ids) ==> Homogeneous(keys + [key], ids + [b])
    ensures InOrder(keys, ids) ==> InOrder(keys + [key], ids + [b])
  {
    assert (ids + [b])[|ids|] == b && (keys + [key])[|ids|] == key;
  }

  lemma JoinedNumbered<K>(keys: seq<K>, ids: seq<nat>, key: K, b: nat)
    requires |ids| == |keys| && Latest(keys, ids, key, b) && Numbered(ids)
    ensures Numbered(ids + [b])
  {
    var at :| 0 <= at < |ids| && keys[at] == key && ids[at] == b;
    if b > 0 {
      assert Uses(ids, at, b - 1);
      assert Uses(ids, |ids|, b - 1);
    }
    NumberedExtended(ids, b);
  }

  /** Adding an item of `key` to the last batch of that key, while it has room. */
  lemma Joined<K>(keys: seq<K>, limit: nat, ids: seq<nat>, key: K, b: nat)
    requires IsPlan(keys, limit, ids) && Latest(keys, ids, key, b) && |At(ids, b)| < limit
    ensures IsPlan(keys + [key], limit, ids + [b])
    ensures Latest(keys + [key], ids + [b], key, b)
  {
    LimitedExtended(ids, b, limit);
    JoinedFull(keys, limit, ids, key, b);
    JoinedLatest(keys, ids, key, b);
    JoinedNumbered(keys, ids, key, b);
  }

  /** Opening batch number `n` for `key` when every batch of that key is full. */
  lemma Begun<K>(keys: seq<K>, limit: nat, ids: seq<nat>, key: K, n: nat)
    requires IsPlan(keys, limit, ids) && limit > 0
    requires forall i :: 0 <= i < |ids| ==> ids[i] < n
    requires n > 0 ==> Uses(ids, |ids|, n - 1)
    requires forall i :: 0 <= i < |ids| && keys[i] == key ==> |At(ids, ids[i])| == limit
    ensures IsPlan(keys + [key], limit, ids + [n])
    ensures Latest(keys + [key], ids + [n], key, n)
  {
    var keys', ids' := keys + [key], ids + [n];
    assert At(ids, n) == {};
    LimitedExtended(ids, n, limit);
    forall x: nat
      ensures x != n ==> |At(ids', x)| == |At(ids, x)|
    {
      AtExtended(ids, n, x);
    }
    assert FullBefore(keys', ids', limit) by {
      forall i, j | 0 <= i < |ids'| && 0 <= j < |ids'| && keys'[i] == keys'[j] && ids'[i] < ids'[j]
        ensures |At(ids', ids'[i])| == limit
      {
        assert i < |ids| && ids[i] != n;
      }
    }
    NumberedExtended(ids, n);
    assert ids'[|ids|] == n && keys'[|ids|] == key;
  }

  /** The last batches of the other keys are what they were. */
  lemma LatestKept<K>(keys: seq<K>, ids: seq<nat>, key: K, b: nat, other: K, c: nat)
    requires |ids| == |keys| && Latest(keys, ids, other, c) && other != key
    ensures Latest(keys + [key], ids + [b], other, c)
  {
    var i :| 0 <= i < |ids| && keys[i] == other && ids[i] == c;
    assert (keys + [key])[i] == other && (ids + [b])[i] == c;
  }

  /** If the last batch of a key is full then all its batches are. */
  lemma AllFull<K>(keys: seq<K>, limit: nat, ids: seq<nat>, key: K, b: nat)
    requires IsPlan(keys, limit, ids) && Latest(keys, ids, key, b) && |At(ids, b)| >= limit
    ensures forall i :: 0 <= i < |ids| && keys[i] == key ==> |At(ids, ids[i])| == limit
  {
    var at :| 0 <= at < |ids| && keys[at] == key && ids[at] == b;
    assert |At(ids, b)| <= limit;
  }

  // ---------------------------------------------------------------- optimality

  /** The batches that items with a key in `among` are in. */
  ghost function UsedBy<K>(keys: seq<K>, ids: seq<nat>, among: set<K>): set<nat>
    requires |ids| == |keys|
  {
    set j | 0 <= j < |ids| && keys[j] in among :: ids[j]
  }

  ghost function Within(ids: seq<nat>, batches: set<nat>): set<nat> {
    set j: nat | j < |ids| && ids[j] in batches
  }

  ghost function WithKey<K>(keys: seq<K>, among: set<K>): set<nat> {
    set j: nat | j < |keys| && keys[j] in among
  }

  lemma OneMore(limit: nat, n: nat)
    ensures limit * (n + 1) == limit * n + limit
  {
  }

  /** Batches of at most `limit` items hold at most `limit` times their number. */
  lemma {:induction false} HoldAtMost(ids: seq<nat>, batches: set<nat>, limit: nat)
    requires forall b :: b in batches ==> |At(ids, b)| <= limit
    ensures |Within(ids, batches)| <= limit * |batches|
    decreases batches
  {
    if batches == {} {
      assert Within(ids, batches) == {};
    } else {
      var b :| b in batches;
      HoldAtMost(ids, batches - {b}, limit);
      assert Within(ids, batches) == Within(ids, batches - {b}) + At(ids, b);
      OneMore(limit, |batches - {b}|);
    }
  }

  /** Full batches hold exactly `limit` times their number. */
  lemma {:induction false} HoldExactly(ids: seq<nat>, batches: set<nat>, limit: nat)
    requires forall b :: b in batches ==> |At(ids, b)| == limit
    ensures |Within(ids, batches)| == limit * |batches|
    decreases batches
  {
    if batches == {} {
      assert Within(ids, batches) == {};
    } else {
      var b :| b in batches;
      HoldExactly(ids, batches - {b}, limit);
      assert Within(ids, batches) == Within(ids, batches - {b}) + At(ids, b);
      assert Within(ids, batches - {b}) !! At(ids, b);
      OneMore(limit, |batches - {b}|);
    }
  }

  lemma {:induction false} LargestExists(s: set<nat>) returns (m: nat)
    requires s != {}
    ensures m in s && forall x :: x in s ==> x <= m
    decreases s
  {
    var one :| one in s;
    if s == {one} {
      m := one;
    } else {
      var other := LargestExists(s - {one});
      m := if other > one then other else one;
      assert forall x :: x in s ==> x == one || x in s - {one};
    }
  }

  lemma KeyItems<K>(keys: seq<K>, ids: seq<nat>, key: K)
    requires |ids| == |keys| && Homogeneous(keys, ids)
    ensures Within(ids, UsedBy(keys, ids, {key})) == WithKey(keys, {key})
  {
    var used := UsedBy(keys, ids, {key});
    forall j: nat | j in Within(ids, used)
      ensures j in WithKey(keys, {key})
    {
      var i :| 0 <= i < |ids| && keys[i] in {key} && ids[i] == ids[j];
      assert keys[i] == keys[j];
    }
  }

  lemma OnlyLastOpen<K>(keys: seq<K>, limit: nat, ids: seq<nat>, key: K, last: nat)
    requires |ids| == |keys| && Homogeneous(keys, ids) && FullBefore(keys, ids, limit)
    requires last in UsedBy(keys, ids, {key})
    requires forall x :: x in UsedBy(keys, ids, {key}) ==> x <= last
    ensures forall b :: b in UsedBy(keys, ids, {key}) - {last} ==> |At(ids, b)| == limit
    ensures |At(ids, last)| >= 1
  {
    var at :| 0 <= at < |ids| && keys[at] in {key} && ids[at] == last;
    forall b | b in UsedBy(keys, ids, {key}) - {last}
      ensures |At(ids, b)| == limit
    {
      var i :| 0 <= i < |ids| && keys[i] in {key} && ids[i] == b;
      assert keys[i] == keys[at] && ids[i] < ids[at];
    }
    assert at in At(ids, last);
  }

  lemma WithinSplit(ids: seq<nat>, batches: set<nat>, b: nat)
    requires b in batches
    ensures |Within(ids, batches)| == |Within(ids, batches - {b})| + |At(ids, b)|
  {
    assert Within(ids, batches) == Within(ids, batches - {b}) + At(ids, b);
    assert Within(ids, batches - {b}) !! At(ids, b);
  }

  /** The number of items of a key: `limit` for every batch but one, and at least one in that one. */
  lemma KeyLoad<K>(keys: seq<K>, limit: nat, ids: seq<nat>, key: K)
    requires |ids| == |keys| && Homogeneous(keys, ids) && FullBefore(keys, ids, limit)
    requires UsedBy(keys, ids, {key}) != {}
    ensures |WithKey(keys, {key})| >= limit * (|UsedBy(keys, ids, {key})| - 1) + 1
  {
    var used := UsedBy(keys, ids, {key});
    var last := LargestExists(used);
    OnlyLastOpen(keys, limit, ids, key, last);
    HoldExactly(ids, used - {last}, limit);
    KeyItems(keys, ids, key);
    WithinSplit(ids, used, last);
    assert |used - {last}| == |used| - 1;
  }

  lemma FewerCannotHold(limit: nat, load: nat, few: nat, many: nat)
    requires load >= limit * (many - 1) + 1 && load <= limit * few
    ensures many <= few
  {
    if few <= many - 1 {
      Scale(limit, few, many - 1);
    }
  }

  /** For one key: all batches but the last are full, so no packing uses fewer. */
  lemma KeyOptimal<K>(keys: seq<K>, limit: nat, ids: seq<nat>, other: seq<nat>, key: K)
    requires |ids| == |keys| && Homogeneous(keys, ids) && FullBefore(keys, ids, limit)
    requires |other| == |keys| && Homogeneous(keys, other) && Limited(other, limit)
    ensures |UsedBy(keys, ids, {key})| <= |UsedBy(keys, other, {key})|
  {
    if UsedBy(keys, ids, {key}) != {} {
      KeyLoad(keys, limit, ids, key);
      KeyItems(keys, other, key);
      HoldAtMost(other, UsedBy(keys, other, {key}), limit);
      FewerCannotHold(limit, |WithKey(keys, {key})|, |UsedBy(keys, other, {key})|, |UsedBy(keys, ids, {key})|);
    }
  }

  lemma UsedBySplit<K>(keys: seq<K>, ids: seq<nat>, among: set<K>, key: K)
    requires |ids| == |keys| && Homogeneous(keys, ids) && key in among
    ensures |UsedBy(keys, ids, among)| == |UsedBy(keys, ids, among - {key})| + |UsedBy(keys, ids, {key})|
  {
    var rest, one := UsedBy(keys, ids, among - {key}), UsedBy(keys, ids, {key});
    assert UsedBy(keys, ids, among) == rest + one;
    assert rest !! one;
  }

  lemma {:induction false} OptimalAmong<K>(keys: seq<K>, limit: nat, ids: seq<nat>, other: seq<nat>, among: set<K>)
    requires |ids| == |keys| && Homogeneous(keys, ids) && FullBefore(keys, ids, limit)
    requires |other| == |keys| && Homogeneous(keys, other) && Limited(other, limit)
    ensures |UsedBy(keys, ids, among)| <= |UsedBy(keys, other, among)|
    decreases among
  {
    if among == {} {
      assert UsedBy(keys, ids, among) == {};
    } else {
      var key :| key in among;
      OptimalAmong(keys, limit, ids, other, among - {key});
      KeyOptimal(keys, limit, ids, other, key);
      UsedBySplit(keys, ids, among, key);
      UsedBySplit(keys, other, among, key);
    }
  }

  lemma UsedByAll<K>(keys: seq<K>, ids: seq<nat>)
    requires |ids| == |keys|
    ensures UsedBy(keys, ids, Elements(keys)) == Elements(ids)
  {
    forall b | b in Elements(ids)
      ensures b in UsedBy(keys, ids, Elements(keys))
    {
      var j :| 0 <= j < |ids| && ids[j] == b;
      assert keys[j] in Elements(keys);
    }
  }

  /** No packing that keeps keys apart and respects the limit uses fewer batches. */
  lemma PlanOptimal<K>(keys: seq<K>, limit: nat, ids: seq<nat>, other: seq<nat>)
    requires IsPlan(keys, limit, ids)
    requires |other| == |keys| && Homogeneous(keys, other) && Limited(other, limit)
    ensures |Elements(ids)| <= |Elements(other)|
  {
    OptimalAmong(keys, limit, ids, other, Elements(keys));
    UsedByAll(keys, ids);
    UsedByAll(keys, other);
  }

  lemma WithKeySplit<K>(keys: seq<K>, among: set<K>, key: K)
    requires key in among
    ensures |WithKey(keys, among)| == |WithKey(keys, among - {key})| + |WithKey(keys, {key})|
  {
    assert WithKey(keys, among) == WithKey(keys, among - {key}) + WithKey(keys, {key});
    assert WithKey(keys, among - {key}) !! WithKey(keys, {key});
  }

  lemma AddLoads(limit: nat, a: int, b: int, n: int)
    ensures limit * (a - n) + n + (limit * (b - 1) + 1) == limit * (a + b - (n + 1)) + (n + 1)
  {
    assert limit * (a - n) + limit * (b - 1) == limit * (a + b - (n + 1));
  }

  lemma {:induction false} LoadAmong<K>(keys: seq<K>, limit: nat, ids: seq<nat>, among: set<K>)
    requires |ids| == |keys| && Homogeneous(keys, ids) && FullBefore(keys, ids, limit)
    requires among <= Elements(keys)
    ensures |WithKey(keys, among)| >= limit * (|UsedBy(keys, ids, among)| - |among|) + |among|
    decreases among
  {
    if among == {} {
      assert UsedBy(keys, ids, among) == {};
      assert limit * (|UsedBy(keys, ids, among)| - |among|) == 0;
    } else {
      var key :| key in among;
      var j :| 0 <= j < |keys| && keys[j] == key;
      assert ids[j] in UsedBy(keys, ids, {key});
      LoadAmong(keys, limit, ids, among - {key});
      KeyLoad(keys, limit, ids, key);
      UsedBySplit(keys, ids, among, key);
      WithKeySplit(keys, among, key);
      AddLoads(limit, |UsedBy(keys, ids, among - {key})|, |UsedBy(keys, ids, {key})|, |among - {key}|);
      assert |among| == |among - {key}| + 1;
    }
  }

  lemma AllItems<K>(keys: seq<K>, ids: seq<nat>)
    requires |ids| == |keys|
    ensures |WithKey(keys, Elements(keys))| == |Within(ids, Elements(ids))| == |keys|
  {
    assert forall j :: 0 <= j < |ids| ==> ids[j] in Elements(ids);
    assert WithKey(keys, Elements(keys)) == Within(ids, Elements(ids));
    Positions(ids, Elements(ids));
  }

  lemma {:induction false} Positions(ids: seq<nat>, batches: set<nat>)
    requires forall j :: 0 <= j < |ids| ==> ids[j] in batches
    ensures |Within(ids, batches)| == |ids|
  {
    if ids != [] {
      var front := ids[..|ids| - 1];
      Positions(front, batches);
      assert Within(ids, batches) == Within(front, batches) + {|ids| - 1};
    }
  }

  /** All batches are full but one per key, and that one is not empty. */
  lemma PlanLoad<K>(keys: seq<K>, limit: nat, ids: seq<nat>)
    requires |ids| == |keys| && Homogeneous(keys, ids) && FullBefore(keys, ids, limit)
    ensures |keys| >= limit * (|Elements(ids)| - |Elements(keys)|) + |Elements(keys)|
  {
    LoadAmong(keys, limit, ids, Elements(keys));
    UsedByAll(keys, ids);
    AllItems(keys, ids);
  }

  /** However items are distributed, `n` batches hold at most `limit * n` items. */
  lemma AnyLoad(ids: seq<nat>, limit: nat)
    requires Limited(ids, limit)
    ensures |ids| <= limit * |Elements(ids)|
  {
    HoldAtMost(ids, Elements(ids), limit);
    AllItems(ids, ids);
  }

  // ---------------------------------------------------------------- the plan is determined

  /** Every number up to a used one is used no later. */
  lemma {:induction false} Downward(ids: seq<nat>, j: nat, b: nat) returns (i: nat)
    requires Numbered(ids) && j < |ids| && b <= ids[j]
    ensures i <= j && ids[i] == b
    decreases j
  {
    if b == ids[j] {
      i := j;
    } else {
      assert Uses(ids, j, ids[j] - 1);
      var k :| 0 <= k < j && ids[k] == ids[j] - 1;
      i := Downward(ids, k, b);
    }
  }

  /** A task either joins a batch with an earlier task of its key, or gets the next number. */
  lemma JoinsOrOpens(ids: seq<nat>, j: nat, n: nat)
    requires Numbered(ids) && j < |ids|
    requires forall i :: 0 <= i < j ==> ids[i] < n
    requires n > 0 ==> Uses(ids, j, n - 1)
    ensures ids[j] <= n
    ensures ids[j] < n ==> Uses(ids, j, ids[j])
  {
    assert ids[j] > 0 ==> Uses(ids, j, ids[j] - 1);
    if ids[j] < n {
      var k :| 0 <= k < j && ids[k] == n - 1;
      var i := Downward(ids, k, ids[j]);
    }
  }

  lemma NextNumber(ids: seq<nat>, j: nat) returns (n: nat)
    requires j <= |ids|
    ensures forall i :: 0 <= i < j ==> ids[i] < n
    ensures n > 0 ==> Uses(ids, j, n - 1)
  {
    if j == 0 {
      n := 0;
    } else {
      assert ids[..j][0] in Elements(ids[..j]);
      var last := LargestExists(Elements(ids[..j]));
      var k :| 0 <= k < j && ids[..j][k] == last;
      n := last + 1;
      assert forall i :: 0 <= i < j ==> ids[..j][i] in Elements(ids[..j]);
    }
  }

  /** An item cannot open a batch in one plan and join a batch in the other. */
  lemma OpensInBoth<K>(keys: seq<K>, limit: nat, ids: seq<nat>, other: seq<nat>, i: nat, j: nat)
    requires |ids| == |keys| && Homogeneous(keys, ids) && Limited(ids, limit)
    requires |other| == |keys| && Homogeneous(keys, other) && InOrder(keys, other) && FullBefore(keys, other, limit)
    requires i < j < |ids| && forall x :: 0 <= x < j ==> ids[x] == other[x]
    requires ids[i] == ids[j]
    ensures other[j] <= ids[j]
  {
    var b := ids[i];
    assert keys[i] == keys[j];
    if other[i] < other[j] {
      forall x: nat | x in At(other, b)
        ensures x < j
      {
        assert keys[x] == keys[i];
      }
      assert At(other, b) + {j} <= At(ids, b);
      assert |At(other, b)| == limit;
      SubsetSize(At(other, b) + {j}, At(ids, b));
    }
  }

  lemma SameNext<K>(keys: seq<K>, limit: nat, ids: seq<nat>, other: seq<nat>, j: nat)
    requires IsPlan(keys, limit, ids) && IsPlan(keys, limit, other)
    requires j < |ids| && forall x :: 0 <= x < j ==> ids[x] == other[x]
    ensures ids[j] == other[j]
  {
    var n := NextNumber(ids, j);
    var m := NextNumber(other, j);
    JoinsOrOpens(ids, j, n);
    JoinsOrOpens(other, j, m);
    if ids[j] < n {
      var i :| 0 <= i < j && ids[i] == ids[j];
      OpensInBoth(keys, limit, ids, other, i, j);
      assert keys[i] == keys[j] && other[i] <= other[j];
    } else if other[j] < m {
      var i :| 0 <= i < j && other[i] == other[j];
      OpensInBoth(keys, limit, other, ids, i, j);
    }
  }

  lemma {:induction false} SamePrefix<K>(keys: seq<K>, limit: nat, ids: seq<nat>, other: seq<nat>, j: nat)
    requires IsPlan(keys, limit, ids) && IsPlan(keys, limit, other) && j <= |ids|
    ensures forall x :: 0 <= x < j ==> ids[x] == other[x]
  {
    if j > 0 {
      SamePrefix(keys, limit, ids, other, j - 1);
      SameNext(keys, limit, ids, other, j - 1);
    }
  }

  /** The requirements leave no choice: there is one plan. */
  lemma PlanUnique<K>(keys: seq<K>, limit: nat, ids: seq<nat>, other: seq<nat>)
    requires IsPlan(keys, limit, ids) && IsPlan(keys, limit, other)
    ensures ids == other
  {
    SamePrefix(keys, limit, ids, other, |ids|);
  }
}
