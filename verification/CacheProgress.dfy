/**
 The snapshot cache has no deadlock: every held host lock is in use, so
 while a refresh is pending some step is possible.
 */
module CacheProgress {
  import opened Options
  import opened SnapshotCache
  import opened CacheProtocol
  import opened CacheGuarantees

  /** Whoever is recorded as the holder of a lock is loading or calling under that lock. */
  ghost predicate HoldersLive(s: System) {
    forall lock :: lock in s.holders ==> Uses(s, s.holders[lock], lock)
  }

  ghost predicate Uses(s: System, t: nat, lock: nat) {
    || (t in s.loaders && s.loaders[t].phase == Loading && s.loaders[t].lock == lock)
    || (t in s.beats && s.beats[t].calling && s.beats[t].lock == lock)
  }

  /** A loader about to leave has left a value or an error in the entry of its key. */
  ghost predicate LeaversAnswer(s: System) {
    forall t :: t in s.loaders && s.loaders[t].phase == Leaving ==> Answered(s, s.loaders[t].key)
  }

  ghost predicate Answered(s: System, key: Key) {
    key in s.sh.entries && (s.sh.entries[key].value.Some? || s.sh.entries[key].error.Some?)
  }

  /** Every host has its own lock. */
  ghost predicate OneHostPerLock(s: System) {
    forall g, h :: g in s.sh.locks && h in s.sh.locks && s.sh.locks[g] == s.sh.locks[h] ==> g == h
  }

  ghost predicate Live(s: System) {
    HoldersLive(s) && LeaversAnswer(s) && OneHostPerLock(s)
  }

  // ---------------------------------------------------------------- holders

  /** Holders stay live when none is added and none stops using its lock. */
  lemma HoldersStay(s: System, s': System)
    requires HoldersLive(s) && s'.holders == s.holders && s'.beats == s.beats
    requires forall t :: t in s.loaders && s.loaders[t].phase == Loading ==>
             t in s'.loaders && s'.loaders[t] == s.loaders[t]
    ensures HoldersLive(s')
  {
    forall lock | lock in s'.holders
      ensures Uses(s', s'.holders[lock], lock)
    {
      assert Uses(s, s.holders[lock], lock);
    }
  }

  lemma AcquireStaysLive(s: System, thread: nat)
    requires HoldersLive(s) && Enabled(s, Acquire(thread))
    ensures HoldersLive(Acquired(s, thread))
  {
    var s' := Acquired(s, thread);
    forall lock | lock in s'.holders
      ensures Uses(s', s'.holders[lock], lock)
    {
      if lock in s.holders {
        assert Uses(s, s.holders[lock], lock);
      }
    }
  }

  lemma EndStaysLive(s: System, thread: nat, phase: Phase)
    requires HoldersLive(s) && Holding(s) && thread in s.loaders && s.loaders[thread].phase == Loading
    ensures HoldersLive(Ended(s, thread, phase))
  {
    var s' := Ended(s, thread, phase);
    forall lock | lock in s'.holders
      ensures Uses(s', s'.holders[lock], lock)
    {
      assert Uses(s, s.holders[lock], lock);
    }
  }

  lemma TryStaysLive(s: System, thread: nat)
    requires HoldersLive(s) && Holding(s) && Enabled(s, Try(thread))
    ensures HoldersLive(Tried(s, thread))
  {
    var s' := Tried(s, thread);
    forall lock | lock in s'.holders
      ensures Uses(s', s'.holders[lock], lock)
    {
      if lock in s.holders {
        assert Uses(s, s.holders[lock], lock);
      }
    }
  }

  lemma HangStaysLive(s: System, thread: nat)
    requires HoldersLive(s) && Holding(s) && Enabled(s, Hang(thread))
    ensures HoldersLive(Hung(s, thread))
  {
    var s' := Hung(s, thread);
    forall lock | lock in s'.holders
      ensures Uses(s', s'.holders[lock], lock)
    {
      assert Uses(s, s.holders[lock], lock);
    }
  }

  lemma LookStaysLive(s: System, thread: nat, host: string, window: Option<int>, lock: nat)
    requires HoldersLive(s) && Unused(s, thread)
    ensures HoldersLive(Looked(s, thread, host, window, lock))
  {
    var s' := Looked(s, thread, host, window, lock);
    forall l | l in s'.holders
      ensures Uses(s', s'.holders[l], l)
    {
      assert Uses(s, s.holders[l], l);
    }
  }

  /** Actions that neither take nor give back a host lock. */
  lemma PlainStepsStayLive(config: Config, s: System, a: Action)
    requires HoldersLive(s) && Enabled(s, a)
    requires a.Get? || a.Publish? || a.Report? || a.Leave? || a.Invalidate? || a.Tick?
    ensures HoldersLive(Do(config, s, a))
  {
    HoldersStay(s, Do(config, s, a));
  }

  lemma HoldersKept(config: Config, s: System, a: Action)
    requires HoldersLive(s) && Holding(s) && Enabled(s, a)
    ensures HoldersLive(Do(config, s, a))
  {
    match a
    case Acquire(thread) => AcquireStaysLive(s, thread);
    case Return(thread, value) => EndStaysLive(s, thread, Loaded(value));
    case Raise(thread, error) => EndStaysLive(s, thread, Broken(error));
    case Look(thread, host, window, lock) => LookStaysLive(s, thread, host, window, lock);
    case Try(thread) => TryStaysLive(s, thread);
    case Hang(thread) => HangStaysLive(s, thread);
    case _ => PlainStepsStayLive(config, s, a);
  }

  // ---------------------------------------------------------------- locks

  lemma NewLock(locks: map<string, nat>, host: string, lock: nat)
    requires forall g, h :: g in locks && h in locks && locks[g] == locks[h] ==> g == h
    requires lock !in locks.Values
    ensures var after := locks[host := if host in locks then locks[host] else lock];
            forall g, h :: g in after && h in after && after[g] == after[h] ==> g == h
  {
    assert forall g :: g in locks ==> locks[g] in locks.Values;
  }

  lemma GetKeepsLocks(s: System, key: Key, ttl: int, force: bool, thread: nat, lock: nat)
    requires OneHostPerLock(s) && lock !in s.sh.locks.Values
    ensures OneHostPerLock(Requested(s, key, ttl, force, thread, lock))
  {
    GetEffect(s.sh, key, ttl, force, s.mono, thread, lock);
    NewLock(s.sh.locks, key.host, lock);
  }

  lemma LookKeepsLocks(s: System, thread: nat, host: string, window: Option<int>, lock: nat)
    requires OneHostPerLock(s) && lock !in s.sh.locks.Values
    ensures OneHostPerLock(Looked(s, thread, host, window, lock))
  {
    NewLock(s.sh.locks, host, lock);
  }

  lemma SameLocks(s: System, s': System)
    requires OneHostPerLock(s) && s'.sh.locks == s.sh.locks
    ensures OneHostPerLock(s')
  {
  }

  lemma LeaveKeepsLocks(config: Config, s: System, thread: nat)
    requires OneHostPerLock(s) && Listed(s.sh) && s.sh.pending.Keys <= s.sh.entries.Keys && thread in s.loaders
    ensures OneHostPerLock(Left(config, s, thread))
  {
    SettledBounds(s.sh, s.loaders[thread].key, config.limit);
    SameLocks(s, Left(config, s, thread));
  }

  lemma PlainStepsKeepLocks(config: Config, s: System, a: Action)
    requires OneHostPerLock(s) && Enabled(s, a) && !a.Get? && !a.Look? && !a.Leave?
    ensures OneHostPerLock(Do(config, s, a))
  {
    SameLocks(s, Do(config, s, a));
  }

  lemma LocksKept(config: Config, s: System, a: Action)
    requires OneHostPerLock(s) && Listed(s.sh) && s.sh.pending.Keys <= s.sh.entries.Keys && Enabled(s, a)
    ensures OneHostPerLock(Do(config, s, a))
  {
    match a
    case Get(key, ttl, force, thread, lock) => GetKeepsLocks(s, key, ttl, force, thread, lock);
    case Look(thread, host, window, lock) => LookKeepsLocks(s, thread, host, window, lock);
    case Leave(thread) => LeaveKeepsLocks(config, s, thread);
    case _ => PlainStepsKeepLocks(config, s, a);
  }

  // ---------------------------------------------------------------- answers

  /** An entry with a value or an error keeps one until it is evicted. */
  lemma AnswerKept(config: Config, s: System, a: Action, key: Key)
    requires Inv(config, s) && Enabled(s, a) && Answered(s, key)
    requires key in Do(config, s, a).sh.entries
    ensures Answered(Do(config, s, a), key)
  {
    EntryEffect(config, s, a, key);
  }

  lemma DeliveryAnswers(config: Config, s: System, a: Action)
    requires Enabled(s, a) && (a.Publish? || a.Report?)
    ensures a.thread in s.loaders && Answered(Do(config, s, a), s.loaders[a.thread].key)
  {
  }

  /** Only a delivery makes a thread ready to leave. */
  lemma ReadyToLeave(config: Config, s: System, a: Action, t: nat)
    requires Enabled(s, a) && t in Do(config, s, a).loaders && Do(config, s, a).loaders[t].phase == Leaving
    ensures t in s.loaders && (s.loaders[t].phase == Leaving || ((a.Publish? || a.Report?) && a.thread == t))
    ensures Do(config, s, a).loaders[t].key == s.loaders[t].key
  {
  }

  lemma LeaversKept(config: Config, s: System, a: Action)
    requires Inv(config, s) && Enabled(s, a) && LeaversAnswer(s)
    ensures LeaversAnswer(Do(config, s, a))
  {
    ActionKeeps(config, s, a);
    forall t | t in Do(config, s, a).loaders && Do(config, s, a).loaders[t].phase == Leaving
      ensures Answered(Do(config, s, a), Do(config, s, a).loaders[t].key)
    {
      ReadyToLeave(config, s, a, t);
      LeaverAnswered(config, s, a, t);
    }
  }

  lemma LeaverAnswered(config: Config, s: System, a: Action, t: nat)
    requires Inv(config, s) && Enabled(s, a) && LeaversAnswer(s) && t in s.loaders
    requires s.loaders[t].phase == Leaving || ((a.Publish? || a.Report?) && a.thread == t)
    requires s.loaders[t].key in Do(config, s, a).sh.entries
    ensures Answered(Do(config, s, a), s.loaders[t].key)
  {
    if s.loaders[t].phase == Leaving {
      AnswerKept(config, s, a, s.loaders[t].key);
    } else {
      DeliveryAnswers(config, s, a);
    }
  }

  // ---------------------------------------------------------------- every reachable state

  lemma StepKeeps(config: Config, s: System, a: Action)
    requires Inv(config, s) && Enabled(s, a) && Live(s)
    ensures Live(Do(config, s, a))
  {
    LeaversKept(config, s, a);
    LocksKept(config, s, a);
    HoldersKept(config, s, a);
  }

  lemma {:induction false} RunStaysLive(config: Config, s: System, actions: seq<Action>)
    requires Inv(config, s) && Runs(config, s, actions) && Live(s)
    ensures Live(After(config, s, actions))
    decreases |actions|
  {
    if actions != [] {
      ActionKeeps(config, s, actions[0]);
      StepKeeps(config, s, actions[0]);
      RunStaysLive(config, Do(config, s, actions[0]), actions[1..]);
    }
  }

  /**
   In every reachable state a held host lock has a thread that loads or calls under it, hosts have
   locks of their own, and a thread about to leave has left an answer.
   */
  lemma ReachableIsLive(config: Config, actions: seq<Action>)
    requires Runs(config, Start(), actions)
    ensures Live(After(config, Start(), actions))
  {
    RunStaysLive(config, Start(), actions);
  }

  /** Whoever is woken by the end of a refresh and looks at once gets the latest value or an error text. */
  lemma WokenGetsAnswer(config: Config, actions: seq<Action>, thread: nat)
    requires Runs(config, Start(), actions) && Enabled(After(config, Start(), actions), Leave(thread))
    ensures var s := After(config, Start(), actions);
            var t := Do(config, s, Leave(thread));
            var key := s.loaders[thread].key;
            match Collected(t.sh, key)
            case Serve(value) => key in t.history && t.history[key].latest == value
            case Refuse(error) => error.Some?
            case Begun(_, _) => false
  {
    Reachable(config, actions);
    ReachableIsLive(config, actions);
    var s := After(config, Start(), actions);
    var t := Do(config, s, Leave(thread));
    var key := s.loaders[thread].key;
    ActionKeeps(config, s, Leave(thread));
    assert Answered(s, key);
    EvictBounds(s.sh.(pending := s.sh.pending - {key}), key, config.limit);
    assert key in t.sh.entries && t.sh.entries[key] == s.sh.entries[key];
    assert Honest(t, key);
  }

  /** A step that moves a refresh or a heartbeat call towards its end. */
  predicate Advances(a: Action) {
    a.Acquire? || a.Return? || a.Publish? || a.Report? || a.Leave? || a.Hang?
  }

  /**
   While a refresh of `key` is pending, its own thread can go on, or a
   call to the same host is running and can end.
   */
  lemma NoDeadlock(config: Config, actions: seq<Action>, key: Key) returns (a: Action)
    requires Runs(config, Start(), actions) && key in After(config, Start(), actions).sh.pending
    ensures var s := After(config, Start(), actions);
            && Enabled(s, a) && Advances(a)
            && (a.thread == s.sh.pending[key] || Calls(s, a.thread, key.host))
  {
    Reachable(config, actions);
    ReachableIsLive(config, actions);
    var s := After(config, Start(), actions);
    var t := s.sh.pending[key];
    var loader := s.loaders[t];
    match loader.phase
    case Loading => a := Return(t, Value(0, None));
    case Loaded(_) => a := Publish(t);
    case Broken(_) => a := Report(t);
    case Leaving => a := Leave(t);
    case Blocked =>
      if loader.lock !in s.holders {
        a := Acquire(t);
      } else {
        a := HolderAdvances(config, s, key.host, loader.lock);
      }
  }

  lemma HolderAdvances(config: Config, s: System, host: string, lock: nat) returns (a: Action)
    requires Inv(config, s) && HoldersLive(s) && lock in s.holders
    requires host in s.sh.locks && s.sh.locks[host] == lock && OneHostPerLock(s)
    ensures Enabled(s, a) && Advances(a) && Calls(s, a.thread, host)
  {
    var u := s.holders[lock];
    assert Uses(s, u, lock);
    if u in s.loaders && s.loaders[u].phase == Loading && s.loaders[u].lock == lock {
      a := Return(u, Value(0, None));
    } else {
      a := Hang(u);
    }
  }
}
