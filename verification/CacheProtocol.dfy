/**
 All threads around the snapshot cache: callers, one loader thread per refresh, and heartbeats.
 An action is one critical section, or the start or end of a load or a heartbeat call.
 */
module CacheProtocol {
  import opened Numbers
  import opened Totals
  import opened Options
  import opened SnapshotCache

  /** Where a loader thread is: waiting for its host, loading, about to publish or report, about to leave. */
  datatype Phase = Blocked | Loading | Loaded(value: Value) | Broken(error: string) | Leaving

  datatype Loader = Loader(key: Key, ttl: int, lock: nat, phase: Phase)

  datatype Heartbeat = Heartbeat(host: string, lock: nat, calling: bool)

  /** The history of one key: the value published last, and how the last load ended. */
  datatype Outcome = Outcome(latest: Value, failure: Option<string>)

  datatype System = System(sh: Shared, loaders: map<nat, Loader>, beats: map<nat, Heartbeat>, holders: map<nat, nat>,
                           history: map<Key, Outcome>, mono: int, wall: int)

  datatype Config = Config(backoff: nat, limit: nat)

  datatype Action =
    | Get(key: Key, ttl: int, force: bool, thread: nat, lock: nat)
    | Acquire(thread: nat)
    | Return(thread: nat, value: Value)
    | Raise(thread: nat, error: string)
    | Publish(thread: nat)
    | Report(thread: nat)
    | Leave(thread: nat)
    | Look(thread: nat, host: string, window: Option<int>, lock: nat)
    | Try(thread: nat)
    | Hang(thread: nat)
    | Invalidate
    | Tick(seconds: nat, wall: int)

  function Start(): System {
    System(Shared(map[], [], map[], map[]), map[], map[], map[], map[], 0, 0)
  }

  ghost predicate Unused(s: System, thread: nat) { thread !in s.loaders && thread !in s.beats }

  ghost predicate Enabled(s: System, a: Action) {
    match a
    case Get(_, _, _, thread, lock) => Unused(s, thread) && lock !in s.sh.locks.Values
    case Acquire(thread) => thread in s.loaders && s.loaders[thread].phase == Blocked
        && s.loaders[thread].lock !in s.holders
    case Return(thread, _) => thread in s.loaders && s.loaders[thread].phase == Loading
    case Raise(thread, _) => thread in s.loaders && s.loaders[thread].phase == Loading
    case Publish(thread) => thread in s.loaders && s.loaders[thread].phase.Loaded?
    case Report(thread) => thread in s.loaders && s.loaders[thread].phase.Broken?
    case Leave(thread) => thread in s.loaders && s.loaders[thread].phase == Leaving
    case Look(thread, _, _, lock) => Unused(s, thread) && lock !in s.sh.locks.Values
    case Try(thread) => thread in s.beats && !s.beats[thread].calling
    case Hang(thread) => thread in s.beats && s.beats[thread].calling
    case Invalidate => true
    case Tick(_, _) => true
  }

  /** A heartbeat does not wait for its host: it gives up if the lock is taken. */
  ghost function Tried(s: System, thread: nat): System
    requires thread in s.beats
  {
    var beat := s.beats[thread];
    if beat.lock in s.holders then s.(beats := s.beats - {thread})
    else s.(beats := s.beats[thread := beat.(calling := true)], holders := s.holders[beat.lock := thread])
  }

  ghost function WithPhase(s: System, thread: nat, phase: Phase): System
    requires thread in s.loaders
  {
    s.(loaders := s.loaders[thread := s.loaders[thread].(phase := phase)])
  }

  ghost function Requested(s: System, key: Key, ttl: int, force: bool, thread: nat, lock: nat): System {
    var (sh, answer) := BeginGet(s.sh, key, ttl, force, s.mono, thread, lock);
    if answer.Begun? && answer.started then
      s.(sh := sh, loaders := s.loaders[thread := Loader(key, ttl, LockFor(s.sh, key.host, lock), Blocked)])
    else s.(sh := sh)
  }

  ghost function Acquired(s: System, thread: nat): System
    requires thread in s.loaders
  {
    WithPhase(s, thread, Loading).(holders := s.holders[s.loaders[thread].lock := thread])
  }

  ghost function Ended(s: System, thread: nat, phase: Phase): System
    requires thread in s.loaders
  {
    WithPhase(s, thread, phase).(holders := s.holders - {s.loaders[thread].lock})
  }

  ghost function Delivered(s: System, thread: nat): System
    requires thread in s.loaders && s.loaders[thread].phase.Loaded?
  {
    var loader := s.loaders[thread];
    WithPhase(s, thread, Leaving).(sh := Published(s.sh, loader.key, loader.phase.value, loader.ttl, s.mono),
                                   history := s.history[loader.key := Outcome(loader.phase.value, None)])
  }

  ghost function Reported(config: Config, s: System, thread: nat): System
    requires thread in s.loaders && s.loaders[thread].phase.Broken?
  {
    var loader := s.loaders[thread];
    WithPhase(s, thread, Leaving).(sh := Failed(s.sh, loader.key, loader.phase.error, s.mono + config.backoff),
                                   history :=
                                     if loader.key !in s.history then s.history
                                     else
                                       var last := s.history[loader.key];
                                       s.history[loader.key := last.(failure := Some(loader.phase.error))])
  }

  ghost function Left(config: Config, s: System, thread: nat): System
    requires thread in s.loaders
  {
    s.(sh := Settled(s.sh, s.loaders[thread].key, config.limit), loaders := s.loaders - {thread})
  }

  ghost function Looked(s: System, thread: nat, host: string, window: Option<int>, lock: nat): System {
    if SkipBeat(s.sh, host, window, s.mono) then s
    else
      var found := LockFor(s.sh, host, lock);
      s.(sh := s.sh.(locks := s.sh.locks[host := found]), beats := s.beats[thread := Heartbeat(host, found, false)])
  }

  ghost function Hung(s: System, thread: nat): System
    requires thread in s.beats
  {
    s.(beats := s.beats - {thread}, holders := s.holders - {s.beats[thread].lock})
  }

  ghost function Do(config: Config, s: System, a: Action): System
    requires Enabled(s, a)
  {
    match a
    case Get(key, ttl, force, thread, lock) => Requested(s, key, ttl, force, thread, lock)
    case Acquire(thread) => Acquired(s, thread)
    case Return(thread, value) => Ended(s, thread, Loaded(value))
    case Raise(thread, error) => Ended(s, thread, Broken(error))
    case Publish(thread) => Delivered(s, thread)
    case Report(thread) => Reported(config, s, thread)
    case Leave(thread) => Left(config, s, thread)
    case Look(thread, host, window, lock) => Looked(s, thread, host, window, lock)
    case Try(thread) => Tried(s, thread)
    case Hang(thread) => Hung(s, thread)
    case Invalidate => s.(sh := Invalidated(s.sh))
    case Tick(seconds, wall) => s.(mono := s.mono + seconds, wall := wall)
  }

  // ---------------------------------------------------------------- invariants

  /** Every pending key has an entry and exactly one loader thread, and every loader thread is pending. */
  ghost predicate SingleFlight(s: System) {
    && s.sh.pending.Keys <= s.sh.entries.Keys
    && (forall t :: t in s.loaders ==> s.loaders[t].key in s.sh.pending && s.sh.pending[s.loaders[t].key] == t)
    && (forall k :: k in s.sh.pending ==> s.sh.pending[k] in s.loaders && s.loaders[s.sh.pending[k]].key == k)
  }

  /** All threads of a host use the host's one lock. */
  ghost predicate OneLockPerHost(s: System) {
    && (forall t :: t in s.loaders ==>
        s.loaders[t].key.host in s.sh.locks && s.sh.locks[s.loaders[t].key.host] == s.loaders[t].lock)
    && (forall t :: t in s.beats ==> s.beats[t].host in s.sh.locks && s.sh.locks[s.beats[t].host] == s.beats[t].lock)
  }

  /** Whoever loads or calls holds the lock it was given. */
  ghost predicate Holding(s: System) {
    && s.loaders.Keys !! s.beats.Keys
    && (forall t :: t in s.loaders && s.loaders[t].phase == Loading ==>
        s.loaders[t].lock in s.holders && s.holders[s.loaders[t].lock] == t)
    && (forall t :: t in s.beats && s.beats[t].calling ==>
        s.beats[t].lock in s.holders && s.holders[s.beats[t].lock] == t)
  }

  ghost predicate Honest(s: System, key: Key)
    requires key in s.sh.entries
  {
    var e := s.sh.entries[key];
    && (e.retry > 0 ==> e.error.Some?)
    && (e.stamp.At? ==> e.value.Some?)
    && (e.value.Some? ==> key in s.history && s.history[key] == Outcome(e.value.value, e.error))
  }

  ghost predicate Entries(s: System) {
    s.mono >= 0 && forall key :: key in s.sh.entries ==> Honest(s, key)
  }

  ghost predicate Listed(sh: Shared) {
    && (forall k :: k in sh.order <==> k in sh.entries)
  }

  ghost predicate Bounded(config: Config, s: System) {
    && Listed(s.sh)
    && |s.sh.entries| <= Max(config.limit, 1) + |s.sh.pending|
  }

  // ---------------------------------------------------------------- eviction

  lemma {:induction false} VictimEligible(order: seq<Key>, pending: set<Key>, key: Key)
    ensures var v := Victim(order, pending, key);
            if v.Some? then v.value in order && v.value != key && v.value !in pending
            else forall k :: k in order ==> k == key || k in pending
  {
    if order != [] && (order[0] == key || order[0] in pending) {
      VictimEligible(order[1..], pending, key);
      assert forall k :: k in order ==> k == order[0] || k in order[1..];
    }
  }

  lemma {:induction false} WithoutRemoves(order: seq<Key>, key: Key)
    ensures forall k :: k in Without(order, key) <==> k in order && k != key
  {
    if order != [] {
      WithoutRemoves(order[1..], key);
      assert forall k :: k in order <==> k == order[0] || k in order[1..];
    }
  }

  /** Eviction removes only keys that are not loading, and stops within the limit or with nothing else to remove. */
  lemma {:induction false} EvictBounds(sh: Shared, key: Key, limit: nat)
    requires Listed(sh) && sh.pending.Keys <= sh.entries.Keys
    ensures var after := Evict(sh, key, limit);
            && Listed(after) && after.pending == sh.pending && after.locks == sh.locks
            && after.entries.Keys <= sh.entries.Keys
            && (forall k :: k in after.entries ==> after.entries[k] == sh.entries[k])
            && sh.pending.Keys <= after.entries.Keys
            && (key in sh.entries ==> key in after.entries)
            && |after.entries| <= Max(limit, 1) + |sh.pending|
    decreases |sh.entries|
  {
    var victim := Victim(sh.order, sh.pending.Keys, key);
    VictimEligible(sh.order, sh.pending.Keys, key);
    if |sh.entries| > limit {
      if victim.Some? {
        WithoutRemoves(sh.order, victim.value);
        SmallerWithout(sh.entries, victim.value);
        EvictBounds(sh.(entries := sh.entries - {victim.value}, order := Without(sh.order, victim.value)), key, limit);
      } else {
        assert sh.entries.Keys <= {key} + sh.pending.Keys;
        SubsetSize(sh.entries.Keys, {key} + sh.pending.Keys);
        assert |{key} + sh.pending.Keys| <= 1 + |sh.pending.Keys|;
      }
    }
  }

  /** `a` is listed before any `b`. */
  predicate Earlier(order: seq<Key>, a: Key, b: Key) {
    order != [] && order[0] != b && (order[0] == a || Earlier(order[1..], a, b))
  }

  lemma {:induction false} VictimEarliest(order: seq<Key>, pending: set<Key>, key: Key, other: Key)
    requires other != key && other !in pending && other in order
    ensures var v := Victim(order, pending, key);
            v.Some? && (v.value == other || Earlier(order, v.value, other))
  {
    if order[0] == key || order[0] in pending {
      assert other in order[1..];
      VictimEarliest(order[1..], pending, key, other);
    }
  }

  lemma {:induction false} EarlierBefore(order: seq<Key>, gone: Key, a: Key, b: Key)
    requires Earlier(Without(order, gone), a, b) && b != gone
    ensures Earlier(order, a, b)
  {
    if order[0] == gone {
      assert Without(order, gone) == Without(order[1..], gone);
      EarlierBefore(order[1..], gone, a, b);
    } else if order[0] != a {
      assert Without(order, gone) == [order[0]] + Without(order[1..], gone);
      EarlierBefore(order[1..], gone, a, b);
    }
  }

  /** One step of the eviction loop, or its end. */
  lemma EvictStep(sh: Shared, key: Key, limit: nat)
    requires Listed(sh) && |sh.entries| > limit
    ensures var victim := Victim(sh.order, sh.pending.Keys, key);
            if victim.None? then Evict(sh, key, limit) == sh
            else
              var rest := sh.(entries := sh.entries - {victim.value}, order := Without(sh.order, victim.value));
              && victim.value in sh.entries && victim.value !in sh.pending && Listed(rest)
              && |rest.entries| == |sh.entries| - 1 && Evict(sh, key, limit) == Evict(rest, key, limit)
  {
    var victim := Victim(sh.order, sh.pending.Keys, key);
    VictimEligible(sh.order, sh.pending.Keys, key);
    if victim.Some? {
      WithoutRemoves(sh.order, victim.value);
      SmallerWithout(sh.entries, victim.value);
    }
  }

  /** The oldest go first: an evicted key was entered before every idle key that stays, and no more go than must. */
  lemma {:induction false} OldestEvicted(sh: Shared, key: Key, limit: nat, gone: Key, other: Key)
    requires Listed(sh) && sh.pending.Keys <= sh.entries.Keys
    requires gone in sh.entries && gone !in Evict(sh, key, limit).entries
    ensures |Evict(sh, key, limit).entries| >= limit
    ensures other in Evict(sh, key, limit).entries && other != key && other !in sh.pending ==>
              Earlier(sh.order, gone, other)
    decreases |sh.entries|
  {
    EvictBounds(sh, key, limit);
    EvictStep(sh, key, limit);
    var victim := Victim(sh.order, sh.pending.Keys, key).value;
    var rest := sh.(entries := sh.entries - {victim}, order := Without(sh.order, victim));
    EvictBounds(rest, key, limit);
    if other in Evict(sh, key, limit).entries && other != key && other !in sh.pending {
      VictimEarliest(sh.order, sh.pending.Keys, key, other);
    }
    if gone == victim {
      EvictedAtLeast(rest, key, limit);
    } else {
      OldestEvicted(rest, key, limit, gone, other);
      if other in Evict(sh, key, limit).entries && other != key && other !in sh.pending {
        EarlierBefore(sh.order, victim, gone, other);
      }
    }
  }

  lemma {:induction false} EvictedAtLeast(sh: Shared, key: Key, limit: nat)
    requires Listed(sh) && |sh.entries| >= limit
    ensures |Evict(sh, key, limit).entries| >= limit
    decreases |sh.entries|
  {
    if |sh.entries| > limit {
      EvictStep(sh, key, limit);
      var victim := Victim(sh.order, sh.pending.Keys, key);
      if victim.Some? {
        var rest := sh.(entries := sh.entries - {victim.value}, order := Without(sh.order, victim.value));
        EvictedAtLeast(rest, key, limit);
      }
    }
  }

  lemma SettledBounds(sh: Shared, key: Key, limit: nat)
    requires Listed(sh) && sh.pending.Keys <= sh.entries.Keys
    ensures var after := Settled(sh, key, limit);
            && Listed(after) && after.pending == sh.pending - {key} && after.locks == sh.locks
            && after.entries.Keys <= sh.entries.Keys
            && (forall k :: k in after.entries ==> after.entries[k] == sh.entries[k])
            && after.pending.Keys <= after.entries.Keys
            && |after.entries| <= Max(limit, 1) + |after.pending|
  {
    EvictBounds(sh.(pending := sh.pending - {key}), key, limit);
  }

  // ---------------------------------------------------------------- preservation

  ghost predicate Inv(config: Config, s: System) {
    SingleFlight(s) && OneLockPerHost(s) && Holding(s) && Entries(s) && Bounded(config, s)
  }

  /** Replacing or adding one entry keeps the listing, and grows the cache by at most that entry. */
  lemma PutListed(sh: Shared, key: Key, entry: Entry)
    requires Listed(sh)
    ensures Listed(Put(sh, key, entry))
    ensures |Put(sh, key, entry).entries| == |sh.entries| + (if key in sh.entries then 0 else 1)
  {
    var after := Put(sh, key, entry);
    assert after.entries.Keys == sh.entries.Keys + {key};
    if key in sh.entries {
      assert sh.entries.Keys + {key} == sh.entries.Keys;
    }
  }

  /** An action of a running loader that leaves every thread where it is, apart from its phase. */
  ghost predicate SamePlaces(s: System, s': System) {
    && s'.loaders.Keys == s.loaders.Keys && s'.beats == s.beats
    && (forall t :: t in s.loaders ==> s'.loaders[t].key == s.loaders[t].key && s'.loaders[t].lock == s.loaders[t].lock)
    && s'.sh.pending == s.sh.pending && s'.sh.locks == s.sh.locks && s.sh.entries.Keys <= s'.sh.entries.Keys
  }

  lemma SamePlacesKeep(s: System, s': System)
    requires SamePlaces(s, s') && SingleFlight(s) && OneLockPerHost(s)
    ensures SingleFlight(s') && OneLockPerHost(s')
  {
  }

  lemma AcquireHolds(s: System, thread: nat)
    requires Holding(s) && Enabled(s, Acquire(thread))
    ensures Holding(Acquired(s, thread))
  {
  }

  lemma AcquireKeeps(config: Config, s: System, thread: nat)
    requires Inv(config, s) && Enabled(s, Acquire(thread))
    ensures Inv(config, Acquired(s, thread))
  {
    SamePlacesKeep(s, Acquired(s, thread));
    AcquireHolds(s, thread);
  }

  lemma EndHolds(s: System, thread: nat, phase: Phase)
    requires Holding(s) && thread in s.loaders && s.loaders[thread].phase == Loading && phase != Loading
    ensures Holding(Ended(s, thread, phase))
  {
  }

  lemma EndKeeps(config: Config, s: System, thread: nat, phase: Phase)
    requires Inv(config, s) && thread in s.loaders && s.loaders[thread].phase == Loading && phase != Loading
    ensures Inv(config, Ended(s, thread, phase))
  {
    SamePlacesKeep(s, Ended(s, thread, phase));
    EndHolds(s, thread, phase);
  }

  /** A publishing or reporting loader keeps its place; its key is already listed. */
  lemma EntryKeeps(config: Config, s: System, s': System, thread: nat, entry: Entry)
    requires SingleFlight(s) && OneLockPerHost(s) && Holding(s) && Bounded(config, s)
    requires thread in s.loaders && s.loaders[thread].phase != Loading
    requires s'.sh == Put(s.sh, s.loaders[thread].key, entry) && s'.beats == s.beats && s'.holders == s.holders
    requires s'.loaders == s.loaders[thread := s.loaders[thread].(phase := Leaving)]
    ensures SingleFlight(s') && OneLockPerHost(s') && Holding(s') && Bounded(config, s')
  {
    assert SamePlaces(s, s');
    SamePlacesKeep(s, s');
    PutListed(s.sh, s.loaders[thread].key, entry);
  }

  lemma PublishHonest(s: System, thread: nat)
    requires Entries(s) && Enabled(s, Publish(thread))
    ensures Entries(Delivered(s, thread))
  {
  }

  lemma PublishKeeps(config: Config, s: System, thread: nat)
    requires Inv(config, s) && Enabled(s, Publish(thread))
    ensures Inv(config, Delivered(s, thread))
  {
    var loader := s.loaders[thread];
    EntryKeeps(config, s, Delivered(s, thread), thread,
               Entry(Some(loader.phase.value), At(s.mono), 0, loader.ttl, None));
    PublishHonest(s, thread);
  }

  lemma ReportHonest(config: Config, s: System, thread: nat)
    requires Entries(s) && SingleFlight(s) && Enabled(s, Report(thread))
    ensures Entries(Reported(config, s, thread))
  {
    var loader := s.loaders[thread];
    assert loader.key in s.sh.entries && Honest(s, loader.key);
  }

  lemma ReportKeeps(config: Config, s: System, thread: nat)
    requires Inv(config, s) && Enabled(s, Report(thread))
    ensures Inv(config, Reported(config, s, thread))
  {
    var loader := s.loaders[thread];
    EntryKeeps(config, s, Reported(config, s, thread), thread,
               SnapshotCache.Look(s.sh, loader.key).(error := Some(loader.phase.error),
                                                     retry := s.mono + config.backoff));
    ReportHonest(config, s, thread);
  }

  /** What the critical section at the start of `get` does to the shared data. */
  lemma GetEffect(sh: Shared, key: Key, ttl: int, force: bool, now: int, thread: nat, lock: nat)
    ensures var (after, answer) := BeginGet(sh, key, ttl, force, now, thread, lock);
            var known := Put(sh, key, SnapshotCache.Look(sh, key).(ttl := ttl));
            && after.entries == known.entries && after.order == known.order
            && (if answer.Begun? && answer.started then
                  && key !in sh.pending && after.pending == sh.pending[key := thread]
                  && after.locks == sh.locks[key.host := LockFor(sh, key.host, lock)]
                else
                  && after.pending == sh.pending && after.locks == sh.locks
                  && (now >= 0 ==> key in sh.pending || key in sh.entries))
  {
  }

  lemma GetKeepsThreads(s: System, key: Key, ttl: int, force: bool, thread: nat, lock: nat)
    requires SingleFlight(s) && OneLockPerHost(s) && Unused(s, thread)
    ensures var after := Requested(s, key, ttl, force, thread, lock);
            SingleFlight(after) && OneLockPerHost(after)
  {
    GetEffect(s.sh, key, ttl, force, s.mono, thread, lock);
    var after := Requested(s, key, ttl, force, thread, lock);
    if after.loaders == s.loaders {
      SamePlacesKeep(s, after);
    }
  }

  lemma GetHolds(s: System, key: Key, ttl: int, force: bool, thread: nat, lock: nat)
    requires Holding(s) && Unused(s, thread)
    ensures Holding(Requested(s, key, ttl, force, thread, lock))
  {
    GetEffect(s.sh, key, ttl, force, s.mono, thread, lock);
  }

  lemma GetHonest(s: System, key: Key, ttl: int, force: bool, thread: nat, lock: nat)
    requires Entries(s)
    ensures Entries(Requested(s, key, ttl, force, thread, lock))
  {
    GetEffect(s.sh, key, ttl, force, s.mono, thread, lock);
  }

  /** A `get` adds an entry only together with a pending load, or none at all. */
  lemma GetCounts(sh: Shared, key: Key, ttl: int, force: bool, now: int, thread: nat, lock: nat)
    requires Listed(sh) && sh.pending.Keys <= sh.entries.Keys && now >= 0
    ensures var after := BeginGet(sh, key, ttl, force, now, thread, lock).0;
            Listed(after) && |after.entries| - |after.pending| <= |sh.entries| - |sh.pending|
  {
    GetEffect(sh, key, ttl, force, now, thread, lock);
    PutListed(sh, key, SnapshotCache.Look(sh, key).(ttl := ttl));
    if key !in sh.pending {
      assert sh.pending[key := thread].Keys == sh.pending.Keys + {key};
    }
  }

  lemma GetBounded(config: Config, s: System, key: Key, ttl: int, force: bool, thread: nat, lock: nat)
    requires Bounded(config, s) && s.sh.pending.Keys <= s.sh.entries.Keys && s.mono >= 0
    ensures Bounded(config, Requested(s, key, ttl, force, thread, lock))
  {
    GetCounts(s.sh, key, ttl, force, s.mono, thread, lock);
  }

  lemma GetKeeps(config: Config, s: System, key: Key, ttl: int, force: bool, thread: nat, lock: nat)
    requires Inv(config, s) && Unused(s, thread)
    ensures Inv(config, Requested(s, key, ttl, force, thread, lock))
  {
    GetKeepsThreads(s, key, ttl, force, thread, lock);
    GetHolds(s, key, ttl, force, thread, lock);
    GetHonest(s, key, ttl, force, thread, lock);
    GetBounded(config, s, key, ttl, force, thread, lock);
  }

  lemma LeaveKeepsThreads(config: Config, s: System, thread: nat)
    requires SingleFlight(s) && OneLockPerHost(s) && Bounded(config, s) && thread in s.loaders
    ensures SingleFlight(Left(config, s, thread)) && OneLockPerHost(Left(config, s, thread))
            && Bounded(config, Left(config, s, thread))
  {
    SettledBounds(s.sh, s.loaders[thread].key, config.limit);
  }

  lemma LeaveKeepsEntries(config: Config, s: System, thread: nat)
    requires Entries(s) && Listed(s.sh) && s.sh.pending.Keys <= s.sh.entries.Keys && thread in s.loaders
    ensures Entries(Left(config, s, thread))
  {
    SettledBounds(s.sh, s.loaders[thread].key, config.limit);
  }

  lemma LeaveHolds(config: Config, s: System, thread: nat)
    requires Holding(s) && thread in s.loaders
    ensures Holding(Left(config, s, thread))
  {
  }

  lemma LeaveKeeps(config: Config, s: System, thread: nat)
    requires Inv(config, s) && Enabled(s, Leave(thread))
    ensures Inv(config, Left(config, s, thread))
  {
    LeaveKeepsThreads(config, s, thread);
    LeaveKeepsEntries(config, s, thread);
    LeaveHolds(config, s, thread);
  }

  lemma LookKeepsThreads(s: System, thread: nat, host: string, window: Option<int>, lock: nat)
    requires SingleFlight(s) && OneLockPerHost(s) && Unused(s, thread)
    ensures SingleFlight(Looked(s, thread, host, window, lock)) && OneLockPerHost(Looked(s, thread, host, window, lock))
  {
  }

  lemma LookHolds(s: System, thread: nat, host: string, window: Option<int>, lock: nat)
    requires Holding(s) && Unused(s, thread)
    ensures Holding(Looked(s, thread, host, window, lock))
  {
  }

  /** Entries and their history do not depend on threads and locks. */
  lemma EntriesKept(config: Config, s: System, s': System)
    requires Entries(s) && Bounded(config, s)
    requires s'.sh.entries == s.sh.entries && s'.sh.order == s.sh.order && s'.sh.pending == s.sh.pending
    requires s'.history == s.history && s'.mono == s.mono
    ensures Entries(s') && Bounded(config, s')
  {
    forall key | key in s'.sh.entries
      ensures Honest(s', key)
    {
      assert Honest(s, key);
    }
  }

  lemma LookKeeps(config: Config, s: System, thread: nat, host: string, window: Option<int>, lock: nat)
    requires Inv(config, s) && Unused(s, thread)
    ensures Inv(config, Looked(s, thread, host, window, lock))
  {
    LookKeepsThreads(s, thread, host, window, lock);
    LookHolds(s, thread, host, window, lock);
    EntriesKept(config, s, Looked(s, thread, host, window, lock));
  }

  lemma TryHolds(s: System, thread: nat)
    requires Holding(s) && Enabled(s, Try(thread))
    ensures Holding(Tried(s, thread))
  {
  }

  lemma HangHolds(s: System, thread: nat)
    requires Holding(s) && Enabled(s, Hang(thread))
    ensures Holding(Hung(s, thread))
  {
  }

  /** The end of a heartbeat's turn at its lock concerns nobody else. */
  lemma BeatLeavesRest(config: Config, s: System, s': System)
    requires SingleFlight(s) && OneLockPerHost(s) && Entries(s) && Bounded(config, s)
    requires s'.sh == s.sh && s'.loaders == s.loaders && s'.history == s.history && s'.mono == s.mono
    requires forall t :: t in s'.beats ==>
             t in s.beats && s'.beats[t].host == s.beats[t].host && s'.beats[t].lock == s.beats[t].lock
    ensures SingleFlight(s') && OneLockPerHost(s') && Entries(s') && Bounded(config, s')
  {
    forall key | key in s'.sh.entries
      ensures Honest(s', key)
    {
      assert Honest(s, key);
    }
  }

  lemma TryKeeps(config: Config, s: System, thread: nat)
    requires Inv(config, s) && Enabled(s, Try(thread))
    ensures Inv(config, Tried(s, thread))
  {
    TryHolds(s, thread);
    BeatLeavesRest(config, s, Tried(s, thread));
  }

  lemma HangKeeps(config: Config, s: System, thread: nat)
    requires Inv(config, s) && Enabled(s, Hang(thread))
    ensures Inv(config, Hung(s, thread))
  {
    HangHolds(s, thread);
    BeatLeavesRest(config, s, Hung(s, thread));
  }

  lemma InvalidateKeeps(config: Config, s: System)
    requires Inv(config, s)
    ensures Inv(config, s.(sh := Invalidated(s.sh)))
  {
    SamePlacesKeep(s, s.(sh := Invalidated(s.sh)));
    assert Invalidated(s.sh).entries.Keys == s.sh.entries.Keys;
  }

  lemma ActionKeeps(config: Config, s: System, a: Action)
    requires Inv(config, s) && Enabled(s, a)
    ensures Inv(config, Do(config, s, a))
  {
    match a
    case Get(key, ttl, force, thread, lock) => GetKeeps(config, s, key, ttl, force, thread, lock);
    case Acquire(thread) => AcquireKeeps(config, s, thread);
    case Return(thread, value) => EndKeeps(config, s, thread, Loaded(value));
    case Raise(thread, error) => EndKeeps(config, s, thread, Broken(error));
    case Publish(thread) => PublishKeeps(config, s, thread);
    case Report(thread) => ReportKeeps(config, s, thread);
    case Leave(thread) => LeaveKeeps(config, s, thread);
    case Look(thread, host, window, lock) => LookKeeps(config, s, thread, host, window, lock);
    case Try(thread) => TryKeeps(config, s, thread);
    case Hang(thread) => HangKeeps(config, s, thread);
    case Invalidate => InvalidateKeeps(config, s);
    case Tick(_, _) =>
  }
}
