/** What callers of the snapshot cache can rely on, in every interleaving of its threads. */
module CacheGuarantees {
  import opened Numbers
  import opened Options
  import opened SnapshotCache
  import opened CacheProtocol

  ghost predicate Runs(config: Config, s: System, actions: seq<Action>)
    decreases |actions|
  {
    actions != [] ==> Enabled(s, actions[0]) && Runs(config, Do(config, s, actions[0]), actions[1..])
  }

  ghost function After(config: Config, s: System, actions: seq<Action>): System
    requires Runs(config, s, actions)
    decreases |actions|
  {
    if actions == [] then s else After(config, Do(config, s, actions[0]), actions[1..])
  }

  lemma {:induction false} RunKeeps(config: Config, s: System, actions: seq<Action>)
    requires Inv(config, s) && Runs(config, s, actions)
    ensures Inv(config, After(config, s, actions))
    decreases |actions|
  {
    if actions != [] {
      ActionKeeps(config, s, actions[0]);
      RunKeeps(config, Do(config, s, actions[0]), actions[1..]);
    }
  }

  /** Every state that any interleaving can reach satisfies the invariants. */
  lemma Reachable(config: Config, actions: seq<Action>)
    requires Runs(config, Start(), actions)
    ensures Inv(config, After(config, Start(), actions))
  {
    RunKeeps(config, Start(), actions);
  }

  // ---------------------------------------------------------------- mutual exclusion and size

  /** At most one thread loads a key. */
  lemma OneLoaderPerKey(config: Config, actions: seq<Action>, t: nat, u: nat)
    requires Runs(config, Start(), actions)
    ensures var s := After(config, Start(), actions);
            t in s.loaders && u in s.loaders && s.loaders[t].key == s.loaders[u].key ==> t == u
  {
    Reachable(config, actions);
  }

  /** The thread is inside a load or a heartbeat call of the host. */
  ghost predicate Calls(s: System, t: nat, host: string) {
    || (t in s.loaders && s.loaders[t].phase == Loading && s.loaders[t].key.host == host)
    || (t in s.beats && s.beats[t].calling && s.beats[t].host == host)
  }

  /** At most one load or heartbeat call runs per host, whatever pages it is for. */
  lemma OneCallPerHost(config: Config, actions: seq<Action>, t: nat, u: nat, host: string)
    requires Runs(config, Start(), actions)
    requires Calls(After(config, Start(), actions), t, host) && Calls(After(config, Start(), actions), u, host)
    ensures t == u
  {
    Reachable(config, actions);
  }

  lemma {:induction false} InjectiveSize<K, V>(m: map<K, V>, into: set<V>)
    requires forall k :: k in m ==> m[k] in into
    requires forall a, b :: a in m && b in m && m[a] == m[b] ==> a == b
    ensures |m| <= |into|
    decreases m.Keys
  {
    if m.Keys != {} {
      var k :| k in m;
      SmallerWithout(m, k);
      InjectiveSize(m - {k}, into - {m[k]});
    } else {
      assert m == map[];
    }
  }

  /** The cache holds at most its limit and one entry for every load in flight. */
  lemma SizeBounded(config: Config, actions: seq<Action>)
    requires Runs(config, Start(), actions) && config.limit >= 1
    ensures var s := After(config, Start(), actions);
            |s.sh.entries| <= config.limit + |s.loaders|
  {
    Reachable(config, actions);
    var s := After(config, Start(), actions);
    InjectiveSize(s.sh.pending, s.loaders.Keys);
  }

  /** `get` never refuses without an error to report, and only serves the value published last. */
  lemma GetAnswers(config: Config, actions: seq<Action>, key: Key, ttl: int, force: bool, thread: nat, lock: nat)
    requires Runs(config, Start(), actions)
    ensures var s := After(config, Start(), actions);
            match BeginGet(s.sh, key, ttl, force, s.mono, thread, lock).1
            case Serve(value) => key in s.history && s.history[key].latest == value
            case Refuse(error) => error.Some?
            case Begun(started, saved) =>
              && (started <==> key !in s.sh.pending)
              && (saved.Some? ==> key in s.history && s.history[key].latest == saved.value)
  {
    Reachable(config, actions);
    var s := After(config, Start(), actions);
    if key in s.sh.entries {
      assert Honest(s, key);
    }
  }

  /**
   When `get` must refresh. A key without an entry is loaded. Otherwise, past the retry time, the saved value is
   served if and only if no reload is forced and it is younger than the lifetime asked for; else a refresh runs,
   and a new thread is started if and only if none is pending. In either case the lifetime is recorded.
   */
  lemma GetRefreshes(sh: Shared, key: Key, ttl: int, force: bool, now: int, thread: nat, lock: nat)
    requires key in sh.entries ==> now >= sh.entries[key].retry
    requires key !in sh.entries ==> now >= 0
    ensures var (after, answer) := BeginGet(sh, key, ttl, force, now, thread, lock);
            && key in after.entries && after.entries[key].ttl == ttl
            && (answer.Serve? <==>
                  && !force && key in sh.entries && sh.entries[key].value.Some?
                  && sh.entries[key].stamp.At? && now - sh.entries[key].stamp.time < ttl)
            && (answer.Serve? ==> sh.entries[key].value == Some(answer.value) && after.pending == sh.pending)
            && (!answer.Serve? ==>
                  && answer == Begun(key !in sh.pending, if key in sh.entries then sh.entries[key].value else None)
                  && after.pending == if key in sh.pending then sh.pending else sh.pending[key := thread])
  {
  }

  /** Before the retry time nothing is loaded: what is saved is served, however old, or the error is repeated. */
  lemma GetBacksOff(sh: Shared, key: Key, ttl: int, force: bool, now: int, thread: nat, lock: nat)
    requires key in sh.entries && now < sh.entries[key].retry
    ensures var (after, answer) := BeginGet(sh, key, ttl, force, now, thread, lock);
            && after.pending == sh.pending && after.entries[key].ttl == ttl
            && answer == match sh.entries[key].value
                         case Some(value) => Serve(value)
                         case None => Refuse(sh.entries[key].error)
  {
  }

  /** What the end of `get` may answer in state `t`, when the call saw the history `seen`. */
  ghost predicate Proper(t: System, seen: map<Key, Outcome>, key: Key, saved: Option<Value>, force: bool, woken: bool) {
    var answer := EndGet(t.sh, key, saved, force, woken);
    if saved.Some? && (!force || !woken) then
      answer == Serve(saved.value) && key in seen && seen[key].latest == saved.value
    else if !woken then answer == Refuse(Some(BUSY))
    else if key in t.sh.entries && t.sh.entries[key].value.Some? then
      answer.Serve? && key in t.history && t.history[key].latest == answer.value
    else answer == Refuse(if key in t.sh.entries then t.sh.entries[key].error else None)
  }

  lemma EndProper(config: Config, t: System, seen: map<Key, Outcome>, key: Key, saved: Option<Value>, force: bool,
                  woken: bool)
    requires Inv(config, t) && (saved.Some? ==> key in seen && seen[key].latest == saved.value)
    ensures Proper(t, seen, key, saved, force, woken)
  {
    if key in t.sh.entries {
      assert Honest(t, key);
    }
  }

  lemma KeptAfterGet(config: Config, s: System, a: Action, later: seq<Action>)
    requires Inv(config, s) && Enabled(s, a) && Runs(config, Do(config, s, a), later)
    ensures Inv(config, After(config, Do(config, s, a), later))
  {
    ActionKeeps(config, s, a);
    RunKeeps(config, Do(config, s, a), later);
  }

  /**
   The end of `get`, any number of steps later: it serves what was published last when the call began, or,
   woken by the end of the refresh, what has been published last now; it refuses only with nothing to serve.
   */
  lemma GetEnds(config: Config, actions: seq<Action>, key: Key, ttl: int, force: bool, thread: nat, lock: nat,
                later: seq<Action>, woken: bool)
    requires Runs(config, Start(), actions)
    requires var s := After(config, Start(), actions);
             && Enabled(s, Get(key, ttl, force, thread, lock))
             && BeginGet(s.sh, key, ttl, force, s.mono, thread, lock).1.Begun?
             && Runs(config, Do(config, s, Get(key, ttl, force, thread, lock)), later)
    ensures var s := After(config, Start(), actions);
            var t := After(config, Do(config, s, Get(key, ttl, force, thread, lock)), later);
            Proper(t, s.history, key, BeginGet(s.sh, key, ttl, force, s.mono, thread, lock).1.saved, force, woken)
  {
    var s := After(config, Start(), actions);
    Reachable(config, actions);
    GetAnswers(config, actions, key, ttl, force, thread, lock);
    KeptAfterGet(config, s, Get(key, ttl, force, thread, lock), later);
    EndProper(config, After(config, Do(config, s, Get(key, ttl, force, thread, lock)), later), s.history, key,
              BeginGet(s.sh, key, ttl, force, s.mono, thread, lock).1.saved, force, woken);
  }

  /**
   A heartbeat with a window of `n` seconds is skipped if and only if some page of its own host was published
   in the last `n` seconds and its last load did not fail with a message; without a window it never is.
   */
  lemma BeatSkippedExactly(config: Config, actions: seq<Action>, host: string, n: int)
    requires Runs(config, Start(), actions)
    ensures var s := After(config, Start(), actions);
            SkipBeat(s.sh, host, Some(n), s.mono) <==>
              exists key :: key in s.sh.entries && key.host == host && PublishedWithin(s, key, n)
    ensures !SkipBeat(After(config, Start(), actions).sh, host, None, After(config, Start(), actions).mono)
  {
    Reachable(config, actions);
    var s := After(config, Start(), actions);
    forall key | key in s.sh.entries
      ensures PublishedWithin(s, key, n) <==>
              && s.sh.entries[key].value.Some? && !HasError(s.sh.entries[key])
              && SnapshotCache.Recent(s.mono, s.sh.entries[key].stamp, n)
    {
      assert Honest(s, key);
    }
  }

  ghost predicate PublishedWithin(s: System, key: Key, n: int) {
    && key in s.sh.entries && s.sh.entries[key].stamp.At? && s.mono - s.sh.entries[key].stamp.time < n
    && key in s.history && (s.history[key].failure.None? || s.history[key].failure.value == "")
  }

  /** What a status says besides freshness: whether a thread loads the key, and the time, age and error of its value. */
  lemma StatusTells(config: Config, actions: seq<Action>, key: Key, asked: Option<Value>)
    requires Runs(config, Start(), actions)
    ensures var s := After(config, Start(), actions);
            var status := StatusOf(s.sh, key, asked, s.mono, s.wall);
            var value := if asked.None? && key in s.sh.entries then s.sh.entries[key].value else asked;
            && (status.refreshing <==> exists t :: t in s.loaders && s.loaders[t].key == key)
            && status.updated == (match value { case Some(v) => v.fetched case None => None })
            && (status.age.Some? <==> status.updated.Some?)
            && (status.age.Some? ==> status.age.value == if s.wall < status.updated.value then 0
                                                         else s.wall - status.updated.value)
            && status.error == match (if key in s.sh.entries then s.sh.entries[key].error else None)
                               case Some(text) => text
                               case None => ""
  {
    Reachable(config, actions);
    var s := After(config, Start(), actions);
    if key in s.sh.pending {
      var t := s.sh.pending[key];
      assert t in s.loaders && s.loaders[t].key == key;
    }
  }

  // ---------------------------------------------------------------- values survive failures

  /** Does this action publish, or report a failure, for `key`? */
  ghost predicate PublishesFor(s: System, a: Action, key: Key)
    requires Enabled(s, a)
  {
    a.Publish? && s.loaders[a.thread].key == key
  }

  ghost predicate ReportsFor(s: System, a: Action, key: Key)
    requires Enabled(s, a)
  {
    a.Report? && s.loaders[a.thread].key == key
  }

  lemma GetEntry(s: System, a: Action, key: Key)
    requires a.Get? && Enabled(s, a)
    ensures var sh := Requested(s, a.key, a.ttl, a.force, a.thread, a.lock).sh;
            sh.entries.Keys == s.sh.entries.Keys + {a.key} &&
            (key in sh.entries ==> sh.entries[key] == SnapshotCache.Look(s.sh, key).(ttl := sh.entries[key].ttl))
  {
    GetEffect(s.sh, a.key, a.ttl, a.force, s.mono, a.thread, a.lock);
  }

  /**
   How one action can change one entry: by its publication or failure,
   by an invalidation, or in its lifetime only.
   */
  ghost predicate Effect(config: Config, s: System, a: Action, key: Key, after: Entry)
    requires Enabled(s, a)
  {
    var before := SnapshotCache.Look(s.sh, key);
    if PublishesFor(s, a, key) then
      after == Entry(Some(s.loaders[a.thread].phase.value), At(s.mono), 0, s.loaders[a.thread].ttl, None)
    else if ReportsFor(s, a, key) then
      after == before.(error := Some(s.loaders[a.thread].phase.error), retry := s.mono + config.backoff)
    else if a.Invalidate? then after == before.(stamp := Never, retry := 0)
    else after == before.(ttl := after.ttl)
  }

  lemma LoaderEntry(config: Config, s: System, a: Action, key: Key)
    requires Enabled(s, a) && (a.Publish? || a.Report? || a.Invalidate?)
    requires key in Do(config, s, a).sh.entries
    ensures Effect(config, s, a, key, Do(config, s, a).sh.entries[key])
  {
  }

  lemma LeaveEntry(config: Config, s: System, a: Action, key: Key)
    requires Listed(s.sh) && s.sh.pending.Keys <= s.sh.entries.Keys && Enabled(s, a) && a.Leave?
    requires key in Left(config, s, a.thread).sh.entries
    ensures Left(config, s, a.thread).sh.entries[key] == SnapshotCache.Look(s.sh, key)
  {
    SettledBounds(s.sh, s.loaders[a.thread].key, config.limit);
  }

  lemma EntryEffect(config: Config, s: System, a: Action, key: Key)
    requires Listed(s.sh) && s.sh.pending.Keys <= s.sh.entries.Keys && Enabled(s, a)
    requires key in Do(config, s, a).sh.entries
    ensures Effect(config, s, a, key, Do(config, s, a).sh.entries[key])
  {
    match a
    case Get(_, _, _, _, _) => GetEntry(s, a, key);
    case Leave(_) => LeaveEntry(config, s, a, key);
    case Publish(_) => LoaderEntry(config, s, a, key);
    case Report(_) => LoaderEntry(config, s, a, key);
    case Invalidate => LoaderEntry(config, s, a, key);
    case _ => assert Do(config, s, a).sh.entries == s.sh.entries;
  }

  /** Only the publication of a newer value replaces a saved one: a failed load and an invalidation keep it. */
  lemma ValueReplacedByPublish(config: Config, s: System, a: Action, key: Key)
    requires Inv(config, s) && Enabled(s, a)
    requires key in s.sh.entries && s.sh.entries[key].value.Some? && key in Do(config, s, a).sh.entries
    ensures Do(config, s, a).sh.entries[key].value == s.sh.entries[key].value
         || (PublishesFor(s, a, key) && Do(config, s, a).sh.entries[key].value == Some(s.loaders[a.thread].phase.value))
  {
    EntryEffect(config, s, a, key);
  }

  lemma LeaveEvicts(config: Config, s: System, thread: nat, key: Key)
    requires Inv(config, s) && Enabled(s, Leave(thread))
    requires key in s.sh.entries && key !in Do(config, s, Leave(thread)).sh.entries
    ensures key !in Do(config, s, Leave(thread)).sh.pending && |s.sh.entries| > config.limit
  {
    SettledBounds(s.sh, s.loaders[thread].key, config.limit);
  }

  lemma OthersKeepEntries(config: Config, s: System, a: Action, key: Key)
    requires !a.Leave? && !a.Get? && Enabled(s, a) && key in s.sh.entries
    ensures key in Do(config, s, a).sh.entries
  {
  }

  /** An entry disappears only when some load ends, and never while it is being loaded itself. */
  lemma EvictedOnlyWhenIdle(config: Config, s: System, a: Action, key: Key)
    requires Inv(config, s) && Enabled(s, a)
    requires key in s.sh.entries && key !in Do(config, s, a).sh.entries
    ensures a.Leave? && key !in Do(config, s, a).sh.pending && |s.sh.entries| > config.limit
  {
    if a.Leave? {
      LeaveEvicts(config, s, a.thread, key);
    } else if a.Get? {
      GetEntry(s, a, key);
    } else {
      OthersKeepEntries(config, s, a, key);
    }
  }

  // ---------------------------------------------------------------- freshness

  /**
   `value` is saved, is what was published last, is younger than its
   lifetime on both clocks, and is not being replaced.
   */
  ghost predicate Current(s: System, key: Key, value: Value) {
    && key in s.sh.entries && s.sh.entries[key].value == Some(value)
    && key in s.history && s.history[key].latest == value
    && key !in s.sh.pending
    && (value.fetched.Some? ==> Max(0, s.wall - value.fetched.value) < s.sh.entries[key].ttl)
    && s.sh.entries[key].stamp.At? && s.mono - s.sh.entries[key].stamp.time < s.sh.entries[key].ttl
  }

  /**
   A value is reported as not stale exactly when it is current and the last load of its key did not
   fail with a message. A load that raised an exception without a message is not noticed.
   */
  lemma FreshExactly(config: Config, actions: seq<Action>, key: Key, value: Value)
    requires Runs(config, Start(), actions)
    ensures var s := After(config, Start(), actions);
            !StatusOf(s.sh, key, Some(value), s.mono, s.wall).stale <==>
            (Current(s, key, value) && (s.history[key].failure.None? || s.history[key].failure.value == ""))
  {
    Reachable(config, actions);
    var s := After(config, Start(), actions);
    if key in s.sh.entries {
      assert Honest(s, key);
    }
  }

  /** No thread publishes a value for `key` during the run. */
  ghost predicate NoPublish(config: Config, s: System, actions: seq<Action>, key: Key)
    requires Runs(config, s, actions)
    decreases |actions|
  {
    actions != [] ==>
      && !PublishesFor(s, actions[0], key)
      && NoPublish(config, Do(config, s, actions[0]), actions[1..], key)
  }

  ghost predicate NeverPublished(s: System, key: Key) {
    key in s.sh.entries ==> s.sh.entries[key].stamp == Never
  }

  lemma StaysUnpublished(config: Config, s: System, a: Action, key: Key)
    requires Inv(config, s) && Enabled(s, a) && NeverPublished(s, key)
    requires !PublishesFor(s, a, key)
    ensures NeverPublished(Do(config, s, a), key)
  {
    if key in Do(config, s, a).sh.entries {
      EntryEffect(config, s, a, key);
    }
  }

  lemma {:induction false} UnpublishedOverRun(config: Config, s: System, actions: seq<Action>, key: Key)
    requires Inv(config, s) && Runs(config, s, actions) && NeverPublished(s, key)
    requires NoPublish(config, s, actions, key)
    ensures NeverPublished(After(config, s, actions), key)
    decreases |actions|
  {
    if actions != [] {
      ActionKeeps(config, s, actions[0]);
      StaysUnpublished(config, s, actions[0], key);
      UnpublishedOverRun(config, Do(config, s, actions[0]), actions[1..], key);
    }
  }

  /** After an invalidation every answer about a key is stale until the next value is published for it. */
  lemma StaleAfterInvalidate(config: Config, s: System, actions: seq<Action>, key: Key, asked: Option<Value>)
    requires Inv(config, s) && Runs(config, Do(config, s, Invalidate), actions)
    requires NoPublish(config, Do(config, s, Invalidate), actions, key)
    ensures var t := After(config, Do(config, s, Invalidate), actions);
            StatusOf(t.sh, key, asked, t.mono, t.wall).stale
  {
    ActionKeeps(config, s, Invalidate);
    UnpublishedOverRun(config, Do(config, s, Invalidate), actions, key);
  }

  /** The same without naming a value: fresh if and only if some value is current and the last load left no message. */
  lemma FreshWithoutAsking(config: Config, actions: seq<Action>, key: Key)
    requires Runs(config, Start(), actions)
    ensures var s := After(config, Start(), actions);
            !StatusOf(s.sh, key, None, s.mono, s.wall).stale <==>
            && key in s.history && Current(s, key, s.history[key].latest)
            && (s.history[key].failure.None? || s.history[key].failure.value == "")
  {
    Reachable(config, actions);
    var s := After(config, Start(), actions);
    if key in s.sh.entries {
      assert Honest(s, key);
    }
  }

  // ---------------------------------------------------------------- backoff

  /** `key` keeps its entry, and nobody invalidates the cache, during the run. */
  ghost predicate Undisturbed(config: Config, s: System, actions: seq<Action>, key: Key)
    requires Runs(config, s, actions)
    decreases |actions|
  {
    && key in s.sh.entries
    && (actions != [] ==> !actions[0].Invalidate? && Undisturbed(config, Do(config, s, actions[0]), actions[1..], key))
  }

  ghost predicate BackingOff(s: System, key: Key, until: int) {
    && key in s.sh.entries && s.sh.entries[key].retry == until
    && (forall t :: t in s.loaders && s.loaders[t].key == key ==> s.loaders[t].phase == Leaving)
  }

  /** A loader keeps its key and lifetime; a new one has those of the call that started it. */
  lemma LoaderEffect(config: Config, s: System, a: Action, t: nat)
    requires Enabled(s, a) && t in Do(config, s, a).loaders
    ensures var loader := Do(config, s, a).loaders[t];
            if t in s.loaders then
              && loader.key == s.loaders[t].key && loader.ttl == s.loaders[t].ttl
              && (s.loaders[t].phase == Leaving ==> loader.phase == Leaving)
            else
              && a.Get? && t == a.thread && loader.key == a.key && loader.ttl == a.ttl && loader.phase == Blocked
              && BeginGet(s.sh, a.key, a.ttl, a.force, s.mono, a.thread, a.lock).1.Begun?
  {
  }

  lemma StaysBackingOff(config: Config, s: System, a: Action, key: Key, until: int)
    requires Inv(config, s) && Enabled(s, a) && !a.Invalidate? && BackingOff(s, key, until) && s.mono < until
    requires key in Do(config, s, a).sh.entries
    ensures BackingOff(Do(config, s, a), key, until)
  {
    EntryEffect(config, s, a, key);
    forall t | t in Do(config, s, a).loaders && Do(config, s, a).loaders[t].key == key
      ensures Do(config, s, a).loaders[t].phase == Leaving
    {
      LoaderEffect(config, s, a, t);
    }
  }

  lemma ClockStep(config: Config, s: System, a: Action)
    requires Enabled(s, a)
    ensures Do(config, s, a).mono >= s.mono
  {
  }

  lemma {:induction false} ClockRises(config: Config, s: System, actions: seq<Action>)
    requires Runs(config, s, actions)
    ensures After(config, s, actions).mono >= s.mono
    decreases |actions|
  {
    if actions != [] {
      ClockStep(config, s, actions[0]);
      ClockRises(config, Do(config, s, actions[0]), actions[1..]);
    }
  }

  lemma {:induction false} BackingOffOverRun(config: Config, s: System, actions: seq<Action>, key: Key, until: int)
    requires Inv(config, s) && Runs(config, s, actions) && Undisturbed(config, s, actions, key)
    requires BackingOff(s, key, until) && After(config, s, actions).mono < until
    ensures BackingOff(After(config, s, actions), key, until)
    decreases |actions|
  {
    if actions != [] {
      ClockRises(config, s, actions);
      ActionKeeps(config, s, actions[0]);
      StaysBackingOff(config, s, actions[0], key, until);
      BackingOffOverRun(config, Do(config, s, actions[0]), actions[1..], key, until);
    }
  }

  lemma StartsBackingOff(config: Config, s: System, failed: nat)
    requires Inv(config, s) && Enabled(s, Report(failed))
    ensures BackingOff(Reported(config, s, failed), s.loaders[failed].key, s.mono + config.backoff)
  {
  }

  lemma BackingOffStartsNothing(s: System, key: Key, until: int, ttl: int, force: bool, thread: nat, lock: nat)
    requires BackingOff(s, key, until) && s.mono < until
    ensures !BeginGet(s.sh, key, ttl, force, s.mono, thread, lock).1.Begun?
  {
  }

  /** For `backoff` seconds after a failed load no caller starts another one, not even with `force`. */
  lemma NoLoadWhileBackingOff(config: Config, s: System, failed: nat, actions: seq<Action>,
                              ttl: int, force: bool, thread: nat, lock: nat)
    requires Inv(config, s) && Enabled(s, Report(failed))
    requires var first := Do(config, s, Report(failed));
             Runs(config, first, actions) && Undisturbed(config, first, actions, s.loaders[failed].key)
             && After(config, first, actions).mono < s.mono + config.backoff
    ensures var key, last := s.loaders[failed].key, After(config, Do(config, s, Report(failed)), actions);
            !BeginGet(last.sh, key, ttl, force, last.mono, thread, lock).1.Begun?
  {
    var key, first := s.loaders[failed].key, Do(config, s, Report(failed));
    ActionKeeps(config, s, Report(failed));
    StartsBackingOff(config, s, failed);
    BackingOffOverRun(config, first, actions, key, s.mono + config.backoff);
    BackingOffStartsNothing(After(config, first, actions), key, s.mono + config.backoff, ttl, force, thread, lock);
  }

  // ---------------------------------------------------------------- a failure without a message

  /** One page of one host is saved, and nothing runs. */
  ghost function Saved(key: Key, value: Value, error: Option<string>, retry: int): System {
    System(Shared(map[key := Entry(Some(value), At(0), retry, 30, error)], [key], map[], map[key.host := 0]),
           map[], map[], map[], map[key := Outcome(value, error)], 0, 0)
  }

  lemma FirstLoad(key: Key, value: Value, config: Config)
    requires config.limit >= 1
    ensures var actions := [Get(key, 30, false, 0, 0), Acquire(0), Return(0, value), Publish(0), Leave(0)];
            Runs(config, Start(), actions) && After(config, Start(), actions) == Saved(key, value, None, 0)
  {
    var entry := Entry(Some(value), At(0), 0, 30, None);
    var s1 := System(Shared(map[key := Blank().(ttl := 30)], [key], map[key := 0], map[key.host := 0]),
                     map[0 := Loader(key, 30, 0, Blocked)], map[], map[], map[], 0, 0);
    var s2 := s1.(loaders := map[0 := Loader(key, 30, 0, Loading)], holders := map[0 := 0]);
    var s3 := s1.(loaders := map[0 := Loader(key, 30, 0, Loaded(value))]);
    var s4 := s1.(loaders := map[0 := Loader(key, 30, 0, Leaving)], sh := s1.sh.(entries := map[key := entry]),
                  history := map[key := Outcome(value, None)]);
    var a1, a2, a3, a4, a5 := Get(key, 30, false, 0, 0), Acquire(0), Return(0, value), Publish(0), Leave(0);
    assert Do(config, Start(), a1) == s1;
    assert Do(config, s1, a2) == s2;
    assert Do(config, s2, a3) == s3;
    assert Do(config, s3, a4) == s4;
    assert Do(config, s4, a5) == Saved(key, value, None, 0);
    RunOfFive(config, Start(), a1, a2, a3, a4, a5, s1, s2, s3, s4, Saved(key, value, None, 0));
  }

  lemma RunOfFive(config: Config, s: System, a1: Action, a2: Action, a3: Action, a4: Action, a5: Action,
                  s1: System, s2: System, s3: System, s4: System, s5: System)
    requires Enabled(s, a1) && Do(config, s, a1) == s1
    requires Enabled(s1, a2) && Do(config, s1, a2) == s2
    requires Enabled(s2, a3) && Do(config, s2, a3) == s3
    requires Enabled(s3, a4) && Do(config, s3, a4) == s4
    requires Enabled(s4, a5) && Do(config, s4, a5) == s5
    ensures Runs(config, s, [a1, a2, a3, a4, a5]) && After(config, s, [a1, a2, a3, a4, a5]) == s5
  {
    assert [a5][1..] == [];
    assert Runs(config, s5, []) && After(config, s5, []) == s5;
    assert Runs(config, s4, [a5]) && After(config, s4, [a5]) == s5;
    assert [a4, a5][1..] == [a5];
    assert Runs(config, s3, [a4, a5]) && After(config, s3, [a4, a5]) == s5;
    assert [a3, a4, a5][1..] == [a4, a5];
    assert Runs(config, s2, [a3, a4, a5]) && After(config, s2, [a3, a4, a5]) == s5;
    assert [a2, a3, a4, a5][1..] == [a3, a4, a5];
    assert Runs(config, s1, [a2, a3, a4, a5]) && After(config, s1, [a2, a3, a4, a5]) == s5;
    assert [a1, a2, a3, a4, a5][1..] == [a2, a3, a4, a5];
  }

  /** A forced reload of the saved value in the given phase. */
  ghost function Reloading(key: Key, value: Value, phase: Phase, holders: map<nat, nat>): System {
    var s := Saved(key, value, None, 0);
    s.(sh := s.sh.(pending := map[key := 0]), loaders := map[0 := Loader(key, 30, 0, phase)], holders := holders)
  }

  lemma ReloadBegins(key: Key, value: Value, config: Config)
    ensures Enabled(Saved(key, value, None, 0), Get(key, 30, true, 0, 1))
    ensures Do(config, Saved(key, value, None, 0), Get(key, 30, true, 0, 1)) == Reloading(key, value, Blocked, map[])
    ensures Enabled(Reloading(key, value, Blocked, map[]), Acquire(0))
    ensures Do(config, Reloading(key, value, Blocked, map[]), Acquire(0)) == Reloading(key, value, Loading, map[0 := 0])
    ensures Enabled(Reloading(key, value, Loading, map[0 := 0]), Raise(0, ""))
    ensures Do(config, Reloading(key, value, Loading, map[0 := 0]), Raise(0, ""))
         == Reloading(key, value, Broken(""), map[])
  {
  }

  lemma ReloadEnds(key: Key, value: Value, config: Config)
    requires config.limit >= 1
    ensures var broken := Reloading(key, value, Broken(""), map[]);
            && Enabled(broken, Report(0)) && Enabled(Do(config, broken, Report(0)), Leave(0))
            && Do(config, Do(config, broken, Report(0)), Leave(0)) == Saved(key, value, Some(""), config.backoff)
  {
    var broken := Reloading(key, value, Broken(""), map[]);
    var s := broken.(loaders := map[0 := Loader(key, 30, 0, Leaving)],
                     sh := broken.sh.(entries := map[key := Entry(Some(value), At(0), config.backoff, 30, Some(""))]),
                     history := map[key := Outcome(value, Some(""))]);
    assert Do(config, broken, Report(0)) == s;
    assert Do(config, s, Leave(0)) == Saved(key, value, Some(""), config.backoff);
  }

  lemma FailedReload(key: Key, value: Value, config: Config)
    requires config.limit >= 1
    ensures var actions := [Get(key, 30, true, 0, 1), Acquire(0), Raise(0, ""), Report(0), Leave(0)];
            && Runs(config, Saved(key, value, None, 0), actions)
            && After(config, Saved(key, value, None, 0), actions) == Saved(key, value, Some(""), config.backoff)
  {
    var broken := Reloading(key, value, Broken(""), map[]);
    var s := Saved(key, value, None, 0);
    ReloadBegins(key, value, config);
    ReloadEnds(key, value, config);
    RunOfFive(config, s, Get(key, 30, true, 0, 1), Acquire(0), Raise(0, ""), Report(0), Leave(0),
              Reloading(key, value, Blocked, map[]), Reloading(key, value, Loading, map[0 := 0]), broken,
              Do(config, broken, Report(0)), Saved(key, value, Some(""), config.backoff));
  }

  lemma {:induction false} RunConcat(config: Config, s: System, first: seq<Action>, second: seq<Action>)
    requires Runs(config, s, first) && Runs(config, After(config, s, first), second)
    ensures Runs(config, s, first + second)
    ensures After(config, s, first + second) == After(config, After(config, s, first), second)
    decreases |first|
  {
    if first == [] {
      assert first + second == second;
    } else {
      RunConcat(config, Do(config, s, first[0]), first[1..], second);
      assert (first + second)[1..] == first[1..] + second;
    }
  }

  /** The wall clock shows the time at which the value was fetched. */
  lemma ClockSet(config: Config, s: System, wall: int)
    ensures Runs(config, s, [Tick(0, wall)]) && After(config, s, [Tick(0, wall)]) == s.(wall := wall)
  {
    assert [Tick(0, wall)][1..] == [];
    assert Do(config, s, Tick(0, wall)) == s.(wall := wall);
    assert Runs(config, s.(wall := wall), []) && After(config, s.(wall := wall), []) == s.(wall := wall);
  }

  /**
   The gap in the report is reachable for every value: after a forced refresh that raised without a
   message, the value saved before is still reported as fresh and without an error.
   */
  lemma EmptyFailureLooksFresh(key: Key, value: Value, config: Config) returns (actions: seq<Action>)
    requires config.limit >= 1
    ensures Runs(config, Start(), actions)
    ensures var s := After(config, Start(), actions);
            && key in s.history && s.history[key].failure == Some("")
            && StatusOf(s.sh, key, Some(value), s.mono, s.wall)
            == Status(false, "", value.fetched, false, if value.fetched.Some? then Some(0) else None)
  {
    var first := [Get(key, 30, false, 0, 0), Acquire(0), Return(0, value), Publish(0), Leave(0)];
    var second := [Get(key, 30, true, 0, 1), Acquire(0), Raise(0, ""), Report(0), Leave(0)];
    var wall := if value.fetched.Some? then value.fetched.value else 0;
    FirstLoad(key, value, config);
    FailedReload(key, value, config);
    RunConcat(config, Start(), first, second);
    ClockSet(config, Saved(key, value, Some(""), config.backoff), wall);
    RunConcat(config, Start(), first + second, [Tick(0, wall)]);
    actions := first + second + [Tick(0, wall)];
  }
}
