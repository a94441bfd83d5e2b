/**
 The stale-while-revalidate cache of cluster snapshots: the data shared by all threads, and the
 operations that run under the cache's own lock. Each of them is one atomic step.
 */
module SnapshotCache {
  import opened Numbers
  import opened Options

  datatype Key = Key(host: string, page: string)

  /** A snapshot object. Two objects differ in their identity even if they carry the same time. */
  datatype Value = Value(identity: nat, fetched: Option<int>)

  /** The time of the last publication, or minus infinity. */
  datatype Stamp = Never | At(time: int)

  datatype Entry = Entry(value: Option<Value>, stamp: Stamp, retry: int, ttl: int, error: Option<string>)

  /** `order` lists the keys of `entries` in insertion order; `pending` maps a key to the thread that loads it. */
  datatype Shared = Shared(entries: map<Key, Entry>, order: seq<Key>, pending: map<Key, nat>, locks: map<string, nat>)

  datatype Answer =
    | Serve(value: Value)                                // the saved value, without a refresh
    | Refuse(error: Option<string>)                      // backing off, and nothing saved
    | Begun(started: bool, saved: Option<Value>)         // a refresh runs; a new thread is needed if `started`

  datatype Status = Status(refreshing: bool, error: string, updated: Option<int>, stale: bool, age: Option<int>)

  function Blank(): Entry { Entry(None, Never, 0, 0, None) }

  function Recent(now: int, stamp: Stamp, window: int): bool { stamp.At? && now - stamp.time < window }

  // ---------------------------------------------------------------- the critical sections, as functions

  function Look(sh: Shared, key: Key): Entry {
    if key in sh.entries then sh.entries[key] else Blank()
  }

  function Put(sh: Shared, key: Key, entry: Entry): Shared {
    sh.(entries := sh.entries[key := entry], order := if key in sh.entries then sh.order else sh.order + [key])
  }

  function LockFor(sh: Shared, host: string, lock: nat): nat {
    if host in sh.locks then sh.locks[host] else lock
  }

  function BeginGet(sh: Shared, key: Key, ttl: int, force: bool, now: int, thread: nat, lock: nat): (Shared, Answer) {
    var entry := Look(sh, key).(ttl := ttl);
    var known := Put(sh, key, entry);
    if entry.value.Some? && !force && Recent(now, entry.stamp, ttl) then (known, Serve(entry.value.value))
    else if now < entry.retry then (known, if entry.value.Some? then Serve(entry.value.value) else Refuse(entry.error))
    else if key in sh.pending then (known, Begun(false, entry.value))
    else (known.(pending := sh.pending[key := thread], locks := sh.locks[key.host := LockFor(sh, key.host, lock)]),
          Begun(true, entry.value))
  }

  function Published(sh: Shared, key: Key, value: Value, ttl: int, now: int): Shared {
    Put(sh, key, Entry(Some(value), At(now), 0, ttl, None))
  }

  function Failed(sh: Shared, key: Key, error: string, until: int): Shared {
    Put(sh, key, Look(sh, key).(error := Some(error), retry := until))
  }

  /** The oldest key that is neither `key` nor being loaded. */
  function Victim(order: seq<Key>, pending: set<Key>, key: Key): Option<Key> {
    if order == [] then None
    else if order[0] != key && order[0] !in pending then Some(order[0])
    else Victim(order[1..], pending, key)
  }

  function Without(order: seq<Key>, key: Key): seq<Key> {
    if order == [] then [] else (if order[0] == key then [] else [order[0]]) + Without(order[1..], key)
  }

  function Evict(sh: Shared, key: Key, limit: nat): Shared
    decreases |sh.entries|
  {
    var victim := Victim(sh.order, sh.pending.Keys, key);
    if |sh.entries| <= limit || victim.None? || victim.value !in sh.entries then sh
    else
      SmallerWithout(sh.entries, victim.value);
      Evict(sh.(entries := sh.entries - {victim.value}, order := Without(sh.order, victim.value)), key, limit)
  }

  lemma SmallerWithout<K, V>(m: map<K, V>, k: K)
    requires k in m
    ensures |m - {k}| == |m| - 1
  {
    assert (m - {k}).Keys == m.Keys - {k};
    assert |m.Keys - {k}| == |m.Keys| - 1;
  }

  function Settled(sh: Shared, key: Key, limit: nat): Shared {
    Evict(sh.(pending := sh.pending - {key}), key, limit)
  }

  function Invalidated(sh: Shared): Shared {
    sh.(entries := map key | key in sh.entries :: sh.entries[key].(stamp := Never, retry := 0))
  }

  /** A heartbeat is skipped if some page of the host was published without error in the last `window` seconds. */
  predicate SkipBeat(sh: Shared, host: string, window: Option<int>, now: int) {
    window.Some? && exists key :: key in sh.entries && key.host == host && sh.entries[key].value.Some?
                                  && !HasError(sh.entries[key]) && Recent(now, sh.entries[key].stamp, window.value)
  }

  /** Python's truth of the error text: an exception without a message counts as no error. */
  predicate HasError(entry: Entry) { entry.error.Some? && entry.error.value != "" }

  function StatusOf(sh: Shared, key: Key, asked: Option<Value>, now: int, wall: int): Status {
    var entry := Look(sh, key);
    var value := if asked.None? then entry.value else asked;
    var updated := if value.Some? then value.value.fetched else None;
    var age := if updated.Some? then Some(Max(0, wall - updated.value)) else None;
    var stale := value != entry.value || key in sh.pending || HasError(entry)
                 || (age.Some? && age.value >= entry.ttl) || !Recent(now, entry.stamp, entry.ttl);
    Status(key in sh.pending, if entry.error.Some? then entry.error.value else "", updated, stale, age)
  }

  const BUSY := "Cluster refresh is running in the background; the next request will reuse it."

  /** The last critical section of `get`: what the finished refresh left behind. */
  function Collected(sh: Shared, key: Key): Answer {
    var entry := Look(sh, key);
    if entry.value.Some? then Serve(entry.value.value) else Refuse(entry.error)
  }

  /** The rest of `get` once a refresh runs: `woken` says that it ended before the time to wait was over. */
  function EndGet(sh: Shared, key: Key, saved: Option<Value>, force: bool, woken: bool): Answer {
    if saved.Some? && !force then Serve(saved.value)
    else if woken then Collected(sh, key)
    else if saved.Some? then Serve(saved.value)
    else Refuse(Some(BUSY))
  }

  // ---------------------------------------------------------------- the program

  class Cache {
    const backoff: nat
    const limit: nat
    var entries: map<Key, Entry>
    var order: seq<Key>
    var pending: map<Key, nat>
    var locks: map<string, nat>

    constructor (backoff: nat, limit: nat)
      ensures this.backoff == backoff && this.limit == limit && State() == Shared(map[], [], map[], map[])
    {
      this.backoff, this.limit := backoff, limit;
      entries, order, pending, locks := map[], [], map[], map[];
    }

    function State(): Shared
      reads this
    {
      Shared(entries, order, pending, locks)
    }

    /** The first critical section of `get`. */
    method Begin(key: Key, ttl: int, force: bool, now: int, thread: nat, lock: nat) returns (answer: Answer)
      modifies this
      ensures (State(), answer) == BeginGet(old(State()), key, ttl, force, now, thread, lock)
    {
      if key !in entries {
        entries := entries[key := Blank()];
        order := order + [key];
      }
      entries := entries[key := entries[key].(ttl := ttl)];
      assert entries == old(entries)[key := Look(old(State()), key).(ttl := ttl)];
      var entry := entries[key];
      var saved := entry.value;
      if saved.Some? && !force && Recent(now, entry.stamp, ttl) {
        return Serve(saved.value);
      }
      if now < entry.retry {
        return if saved.Some? then Serve(saved.value) else Refuse(entry.error);
      }
      var start := key !in pending;
      if start {
        pending := pending[key := thread];
        if key.host !in locks {
          locks := locks[key.host := lock];
        }
        assert locks == old(locks)[key.host := LockFor(old(State()), key.host, lock)];
      }
      answer := Begun(start, saved);
    }

    /** The end of `get`: without a wait, after a wait that timed out, or woken by the end of the refresh. */
    method End(key: Key, saved: Option<Value>, force: bool, woken: bool) returns (answer: Answer)
      ensures answer == EndGet(State(), key, saved, force, woken)
    {
      if saved.Some? && !force {
        return Serve(saved.value);
      }
      if !woken {
        return if saved.Some? then Serve(saved.value) else Refuse(Some(BUSY));
      }
      if key in entries && entries[key].value.Some? {
        return Serve(entries[key].value.value);
      }
      answer := Refuse(if key in entries then entries[key].error else None);
    }

    /** The critical section after a successful load. */
    method Publish(key: Key, value: Value, ttl: int, now: int)
      modifies this`entries, this`order
      ensures State() == Published(old(State()), key, value, ttl, now)
    {
      if key !in entries {
        order := order + [key];
      }
      entries := entries[key := Entry(Some(value), At(now), 0, ttl, None)];
    }

    /** The critical section after a load that raised. */
    method Fail(key: Key, error: string, now: int)
      modifies this`entries, this`order
      ensures State() == Failed(old(State()), key, error, now + backoff)
    {
      if key !in entries {
        entries := entries[key := Blank()];
        order := order + [key];
      }
      entries := entries[key := entries[key].(error := Some(error), retry := now + backoff)];
      assert entries == old(entries)[key := Look(old(State()), key).(error := Some(error), retry := now + backoff)];
    }

    /** The final critical section of a load, with the eviction loop. */
    method Settle(key: Key)
      modifies this`pending, this`entries, this`order
      ensures State() == Settled(old(State()), key, limit)
    {
      pending := pending - {key};
      while |entries| > limit
        invariant pending == old(pending) - {key} && locks == old(locks)
        invariant Evict(State(), key, limit) == Settled(old(State()), key, limit)
        decreases |entries|
      {
        var victim := Victim(order, pending.Keys, key);
        if victim.None? || victim.value !in entries {
          break;
        }
        SmallerWithout(entries, victim.value);
        entries := entries - {victim.value};
        order := Without(order, victim.value);
      }
    }

    /** `invalidate`: every entry must be refreshed, but stays available. */
    method Invalidate()
      modifies this`entries
      ensures State() == Invalidated(old(State()))
    {
      var left := entries.Keys;
      while left != {}
        invariant left <= old(entries).Keys
        invariant entries == map key | key in old(entries) ::
            if key in left then old(entries)[key] else old(entries)[key].(stamp := Never, retry := 0)
        decreases left
      {
        var key :| key in left;
        entries := entries[key := entries[key].(stamp := Never, retry := 0)];
        left := left - {key};
      }
    }

    /**
     The critical section of `try_host_call`: the lock to try, or
     nothing if a recent page makes the call unnecessary.
     */
    method LookBeat(host: string, window: Option<int>, now: int, lock: nat) returns (found: Option<nat>)
      modifies this`locks
      ensures found == if SkipBeat(old(State()), host, window, now) then None
                       else Some(LockFor(old(State()), host, lock))
      ensures locks == if found.None? then old(locks) else old(locks)[host := found.value]
    {
      if window.Some? {
        var left := entries.Keys;
        while left != {}
          invariant left <= entries.Keys
          invariant forall key :: key in entries && key !in left ==>
            !(key.host == host && entries[key].value.Some? && !HasError(entries[key])
                && Recent(now, entries[key].stamp, window.value))
          decreases left
        {
          var key :| key in left;
          if key.host == host && entries[key].value.Some? && !HasError(entries[key])
              && Recent(now, entries[key].stamp, window.value) {
            return None;
          }
          left := left - {key};
        }
      }
      if host !in locks {
        locks := locks[host := lock];
      }
      found := Some(locks[host]);
    }

    /** `status`: reads only. */
    method GetStatus(key: Key, asked: Option<Value>, now: int, wall: int) returns (status: Status)
      ensures status == StatusOf(State(), key, asked, now, wall)
    {
      var entry := if key in entries then entries[key] else Blank();
      var value := if asked.None? then entry.value else asked;
      var updated := None;
      var age: Option<int> := None;
      if value.Some? && value.value.fetched.Some? {
        updated := value.value.fetched;
        age := Some(if wall >= updated.value then wall - updated.value else 0);
      }
      var stale := value != entry.value || key in pending || HasError(entry)
                   || (age.Some? && age.value >= entry.ttl) || !Recent(now, entry.stamp, entry.ttl);
      status := Status(key in pending, if entry.error.Some? then entry.error.value else "", updated, stale, age);
    }
  }
}
