/**
 Automatic recovery: jobs that lost all their workers are retried, under a time window of
 evidence, a spacing between retries, and a bound on attempts without progress.
 */
module RecoveryWatch {
  import opened Numbers
  import opened Options

  datatype Key = Key(host: string, job: string)

  datatype Entry = Entry(completed: int, attempts: int, idle: Option<int>, retry: int)

  datatype Watch = Watch(entries: map<Key, Entry>, blocked: set<Key>)

  datatype Settings = Settings(idleSeconds: nat, retrySeconds: nat, maxAttempts: nat)

  datatype Controller = Active | Inactive | Unknown

  datatype JobState = Stopped | Incomplete | Other

  /** One job of a full observation. */
  datatype Job = Job(id: string, state: JobState, completed: int, taskCount: int, controller: Controller,
                     submitting: bool, workers: bool, queueAvailable: bool)

  /** One row of a scheduler heartbeat. */
  datatype Row = Row(id: string, active: bool, stopped: bool, present: Option<bool>, controller: Controller)

  // ---------------------------------------------------------------- one job, as a function

  predicate IsActive(job: Job) { job.workers || job.controller == Active }

  predicate IsQuiet(job: Job, busy: bool) {
    job.queueAvailable && !IsActive(job) && job.controller == Inactive && job.state == Incomplete && !busy
  }

  predicate Due(settings: Settings, entry: Entry, now: int) {
    entry.idle.Some? && now - entry.idle.value >= settings.idleSeconds && now >= entry.retry
        && entry.attempts < settings.maxAttempts
  }

  function Marked(entry: Entry, now: int): Entry {
    if entry.idle.None? then entry.(idle := Some(now)) else entry
  }

  function Progressed(entry: Entry, completed: int): Entry {
    if completed > entry.completed then entry.(completed := completed, attempts := 0) else entry
  }

  /** The body of the loop in `observe`, with whether the job is handed out for a retry. */
  function Observed(settings: Settings, w: Watch, key: Key, job: Job, busy: bool, now: int): (Watch, bool) {
    if key in w.blocked then (w, false)
    else if job.state == Stopped || job.completed >= job.taskCount then (w.(entries := w.entries - {key}), false)
    else if key !in w.entries && !IsActive(job) && !job.submitting then (w, false)
    else
      var known := if key in w.entries then w.entries[key] else Entry(job.completed, 0, None, 0);
      var entry := Progressed(known, job.completed);
      if !IsQuiet(job, busy) then (w.(entries := w.entries[key := entry.(idle := None)]), false)
      else
        var waiting := Marked(entry, now);
        if Due(settings, waiting, now) then
          (w.(entries := w.entries[key := waiting.(attempts := waiting.attempts + 1,
                                                   retry := now + settings.retrySeconds,
                                                   idle := Some(now))]), true)
        else (w.(entries := w.entries[key := waiting]), false)
  }

  predicate IsQuietRow(row: Row, queueAvailable: bool, busy: bool) {
    queueAvailable && !busy && !row.stopped && row.present != Some(false) && !row.active && row.controller == Inactive
  }

  /** The body of the loop in `idle_candidates`, with whether a full observation is requested. */
  function Heard(settings: Settings, w: Watch, key: Key, row: Row, queueAvailable: bool, busy: bool,
                 now: int): (Watch, bool) {
    if key !in w.entries || key in w.blocked then (w, false)
    else if !queueAvailable || busy then (w.(entries := w.entries[key := w.entries[key].(idle := None)]), false)
    else if row.stopped || row.present == Some(false) then (w.(entries := w.entries - {key}), false)
    else if row.active || row.controller != Inactive then
      (w.(entries := w.entries[key := w.entries[key].(idle := None)]), false)
    else
      var waiting := Marked(w.entries[key], now);
      (w.(entries := w.entries[key := waiting]), Due(settings, waiting, now))
  }

  // ---------------------------------------------------------------- the program

  class Recovery {
    const settings: Settings
    var entries: map<Key, Entry>
    var blocked: set<Key>

    constructor (settings: Settings)
      ensures this.settings == settings && State() == Initial()
    {
      this.settings := settings;
      entries, blocked := map[], {};
    }

    function State(): Watch
      reads this
    {
      Watch(entries, blocked)
    }

    /** `observe`: the only operation that hands out jobs for a retry. */
    method Observe(host: string, jobs: seq<Job>, busy: set<string>, now: int) returns (retry: seq<Job>)
      modifies this
      ensures var events := seq(|jobs|, i requires 0 <= i < |jobs| =>
                                  Seen(Key(host, jobs[i].id), jobs[i], host + ":" + jobs[i].id in busy, now));
              State() == After(settings, old(State()), events) && retry == Chosen(settings, old(State()), jobs, events)
    {
      retry := [];
      ghost var events := seq(|jobs|, i requires 0 <= i < |jobs| =>
                                Seen(Key(host, jobs[i].id), jobs[i], host + ":" + jobs[i].id in busy, now));
      for n := 0 to |jobs|
        invariant State() == After(settings, old(State()), events[..n])
        invariant retry == Chosen(settings, old(State()), jobs[..n], events[..n])
      {
        assert events[..n + 1][..n] == events[..n] && jobs[..n + 1][..n] == jobs[..n];
        var due := ObserveJob(host, jobs[n], busy, now);
        if due {
          retry := retry + [jobs[n]];
        }
      }
      assert events[..|jobs|] == events && jobs[..|jobs|] == jobs;
    }

    /** The body of that loop for one job. */
    method ObserveJob(host: string, job: Job, busy: set<string>, now: int) returns (due: bool)
      modifies this
      ensures (State(), due)
           == Observed(settings, old(State()), Key(host, job.id), job, host + ":" + job.id in busy, now)
    {
      var key := Key(host, job.id);
      if key in blocked {
        return false;
      }
      if job.state == Stopped || job.completed >= job.taskCount {
        entries := entries - {key};
        return false;
      }
      var active := job.workers || job.controller == Active;
      if (active || job.submitting) && key !in entries {
        entries := entries[key := Entry(job.completed, 0, None, 0)];
      }
      if key !in entries {
        return false;
      }
      var entry := entries[key];
      if job.completed > entry.completed {
        entry := entry.(completed := job.completed, attempts := 0);
      }
      if !job.queueAvailable || active || job.controller != Inactive || job.state != Incomplete
          || host + ":" + job.id in busy {
        entries := entries[key := entry.(idle := None)];
        assert entries == old(entries)[key := entry.(idle := None)];
        return false;
      }
      if entry.idle.None? {
        entry := entry.(idle := Some(now));
      }
      due := now - entry.idle.value >= settings.idleSeconds && now >= entry.retry
          && entry.attempts < settings.maxAttempts;
      if due {
        entry := entry.(attempts := entry.attempts + 1, retry := now + settings.retrySeconds, idle := Some(now));
      }
      entries := entries[key := entry];
      assert entries == old(entries)[key := entry];
    }

    /** One heartbeat row: whether the job is due for a retry. */
    method BeatRow(host: string, row: Row, queueAvailable: bool, busy: set<string>, now: int) returns (due: bool)
      modifies this
      ensures (State(), due)
           == Heard(settings, old(State()), Key(host, row.id), row, queueAvailable, host + ":" + row.id in busy, now)
    {
      due := false;
      var key := Key(host, row.id);
      if key !in entries || key in blocked {
        return;
      }
      var entry := entries[key];
      if !queueAvailable || host + ":" + row.id in busy {
        entries := entries[key := entry.(idle := None)];
        return;
      }
      if row.stopped || row.present == Some(false) {
        entries := entries - {key};
        return;
      }
      if row.active || row.controller != Inactive {
        entries := entries[key := entry.(idle := None)];
        return;
      }
      if entry.idle.None? {
        entry := entry.(idle := Some(now));
      }
      entries := entries[key := entry];
      due := now - entry.idle.value >= settings.idleSeconds && now >= entry.retry
          && entry.attempts < settings.maxAttempts;
    }

    /** `idle_candidates`: a heartbeat asks for full observations, and never authorizes a retry itself. */
    method IdleCandidates(host: string, rows: seq<Row>, queueAvailable: bool, busy: set<string>, now: int)
      returns (candidates: seq<Row>)
      modifies this
      ensures var events := seq(|rows|, i requires 0 <= i < |rows| =>
                                  Beat(Key(host, rows[i].id), rows[i], queueAvailable,
                                       host + ":" + rows[i].id in busy, now));
              && State() == After(settings, old(State()), events)
              && candidates == Chosen(settings, old(State()), rows, events)
    {
      candidates := [];
      ghost var events := seq(|rows|, i requires 0 <= i < |rows| =>
                                Beat(Key(host, rows[i].id), rows[i], queueAvailable,
                                     host + ":" + rows[i].id in busy, now));
      for n := 0 to |rows|
        invariant State() == After(settings, old(State()), events[..n])
        invariant candidates == Chosen(settings, old(State()), rows[..n], events[..n])
      {
        assert events[..n + 1][..n] == events[..n] && rows[..n + 1][..n] == rows[..n];
        var due := BeatRow(host, rows[n], queueAvailable, busy, now);
        if due {
          candidates := candidates + [rows[n]];
        }
      }
      assert events[..|rows|] == events && rows[..|rows|] == rows;
    }

    method Stop(host: string, job: string)
      modifies this
      ensures State() == After(settings, old(State()), [StopAsked(Key(host, job))])
    {
      blocked := blocked + {Key(host, job)};
      entries := entries - {Key(host, job)};
    }

    method Resume(host: string, job: string)
      modifies this
      ensures State() == After(settings, old(State()), [ResumeAsked(Key(host, job))])
    {
      blocked := blocked - {Key(host, job)};
      entries := entries[Key(host, job) := Entry(0, 0, None, 0)];
    }
  }

  // ---------------------------------------------------------------- traces

  /** What happens to one job, in the order in which the watch processes it. */
  datatype Event =
    | Seen(key: Key, job: Job, busy: bool, now: int)
    | Beat(key: Key, row: Row, queueAvailable: bool, busy: bool, now: int)
    | StopAsked(key: Key)
    | ResumeAsked(key: Key)

  function Initial(): Watch { Watch(map[], {}) }

  function Step(settings: Settings, w: Watch, e: Event): (Watch, bool) {
    match e
    case Seen(key, job, busy, now) => Observed(settings, w, key, job, busy, now)
    case Beat(key, row, queueAvailable, busy, now) => Heard(settings, w, key, row, queueAvailable, busy, now)
    case StopAsked(key) => (Watch(w.entries - {key}, w.blocked + {key}), false)
    case ResumeAsked(key) => (Watch(w.entries[key := Entry(0, 0, None, 0)], w.blocked - {key}), false)
  }

  function After(settings: Settings, w: Watch, events: seq<Event>): Watch {
    if events == [] then w
    else Step(settings, After(settings, w, events[..|events| - 1]), events[|events| - 1]).0
  }

  /** Event `i` of the trace is selected: a retry for an observation, a request to look for a heartbeat. */
  predicate Selected(settings: Settings, w: Watch, events: seq<Event>, i: nat)
    requires i < |events|
  {
    Step(settings, After(settings, w, events[..i]), events[i]).1
  }

  predicate Retried(settings: Settings, w: Watch, events: seq<Event>, i: nat)
    requires i < |events|
  {
    events[i].Seen? && Selected(settings, w, events, i)
  }

  /** The items whose events are selected, in order. */
  function Chosen<T>(settings: Settings, w: Watch, items: seq<T>, events: seq<Event>): seq<T>
    requires |items| == |events|
  {
    if items == [] then []
    else
      var n := |items| - 1;
      Chosen(settings, w, items[..n], events[..n]) + (if Selected(settings, w, events, n) then [items[n]] else [])
  }

  function Retries(settings: Settings, w: Watch, events: seq<Event>, key: Key): nat {
    if events == [] then 0
    else
      var n := |events| - 1;
      Retries(settings, w, events[..n], key)
          + (if events[n].key == key && Retried(settings, w, events, n) then 1 else 0)
  }

  /** `key` stays watched from the start to the end of the trace, without being resumed afresh. */
  predicate OneLifetime(settings: Settings, w: Watch, events: seq<Event>, key: Key) {
    && (forall i :: 0 <= i <= |events| ==> key in After(settings, w, events[..i]).entries)
    && ResumeAsked(key) !in events
  }

  lemma LifetimePrefix(settings: Settings, w: Watch, events: seq<Event>, key: Key)
    requires events != [] && OneLifetime(settings, w, events, key)
    ensures var before := events[..|events| - 1];
            && OneLifetime(settings, w, before, key)
            && key in After(settings, w, before).entries && key in After(settings, w, events).entries
  {
    var n := |events| - 1;
    assert events[..n + 1] == events;
    forall i | 0 <= i <= n
      ensures key in After(settings, w, events[..n][..i]).entries
    {
      assert events[..n][..i] == events[..i];
    }
  }

  // ---------------------------------------------------------------- a bounded number of retries

  predicate Sane(settings: Settings, entry: Entry, taskCount: int) {
    0 <= entry.attempts <= settings.maxAttempts && entry.completed < taskCount
  }

  /** Falls by one with every retry, and never rises: progress pays for the attempts it resets. */
  function Potential(settings: Settings, entry: Entry, taskCount: int): int {
    settings.maxAttempts * (taskCount - entry.completed) - entry.attempts
  }

  lemma PotentialFalls(settings: Settings, w: Watch, e: Event, key: Key, taskCount: int)
    requires key in w.entries && key in Step(settings, w, e).0.entries && e != ResumeAsked(key)
    requires e.Seen? && e.key == key ==> e.job.taskCount == taskCount
    requires Sane(settings, w.entries[key], taskCount)
    ensures var (w', selected) := Step(settings, w, e);
            && Sane(settings, w'.entries[key], taskCount)
            && Potential(settings, w'.entries[key], taskCount) + (if e.Seen? && e.key == key && selected then 1 else 0)
                 <= Potential(settings, w.entries[key], taskCount)
  {
    if e.Seen? && e.key == key && e.job.completed > w.entries[key].completed {
      ProgressPays(settings.maxAttempts, taskCount - w.entries[key].completed, taskCount - e.job.completed);
    }
  }

  lemma ProgressPays(attempts: nat, before: int, after: int)
    requires after < before
    ensures attempts * after + attempts <= attempts * before
  {
    assert attempts * (after + 1) <= attempts * before;
  }

  lemma PotentialNotNegative(settings: Settings, entry: Entry, taskCount: int)
    requires Sane(settings, entry, taskCount)
    ensures Potential(settings, entry, taskCount) >= 0
  {
    ProgressPays(settings.maxAttempts, taskCount - entry.completed, 0);
  }

  /**
   Within one lifetime of an entry and with a constant number of tasks, the retries are bounded by
   the attempts allowed for every task that is still missing at its start.
   */
  lemma RetriesBounded(settings: Settings, w: Watch, events: seq<Event>, key: Key, taskCount: int)
    requires key in w.entries && Sane(settings, w.entries[key], taskCount)
    requires OneLifetime(settings, w, events, key)
    requires forall e :: e in events && e.Seen? && e.key == key ==> e.job.taskCount == taskCount
    ensures Retries(settings, w, events, key) <= settings.maxAttempts * (taskCount - w.entries[key].completed)
  {
    RetriesPaid(settings, w, events, key, taskCount);
    PotentialNotNegative(settings, After(settings, w, events).entries[key], taskCount);
  }

  /** Every retry is paid for by a fall of the potential. */
  lemma {:induction false} RetriesPaid(settings: Settings, w: Watch, events: seq<Event>, key: Key, taskCount: int)
    requires key in w.entries && Sane(settings, w.entries[key], taskCount)
    requires OneLifetime(settings, w, events, key)
    requires forall e :: e in events && e.Seen? && e.key == key ==> e.job.taskCount == taskCount
    ensures var last := After(settings, w, events).entries;
            && key in last && Sane(settings, last[key], taskCount)
            && Retries(settings, w, events, key) + Potential(settings, last[key], taskCount)
               <= Potential(settings, w.entries[key], taskCount)
  {
    if events != [] {
      var n := |events| - 1;
      LifetimePrefix(settings, w, events, key);
      RetriesPaid(settings, w, events[..n], key, taskCount);
      PotentialFalls(settings, After(settings, w, events[..n]), events[n], key, taskCount);
    }
  }

  lemma AttemptCounted(settings: Settings, w: Watch, e: Event, key: Key, completed: int)
    requires key in w.entries && w.entries[key].completed == completed
             && w.entries[key].attempts <= settings.maxAttempts
    requires e != ResumeAsked(key) && (e.Seen? && e.key == key ==> e.job.completed <= completed)
    requires key in Step(settings, w, e).0.entries
    ensures var (w', due) := Step(settings, w, e);
            && w'.entries[key].completed == completed && w'.entries[key].attempts <= settings.maxAttempts
            && w'.entries[key].attempts == w.entries[key].attempts + if e.Seen? && e.key == key && due then 1 else 0
  {
  }

  /** Without a new completed task the retries of one lifetime stop when the attempts are used up. */
  lemma {:induction false} NoProgressStops(settings: Settings, w: Watch, events: seq<Event>, key: Key)
    requires key in w.entries && w.entries[key].attempts <= settings.maxAttempts
    requires OneLifetime(settings, w, events, key)
    requires forall e :: e in events && e.Seen? && e.key == key ==> e.job.completed <= w.entries[key].completed
    ensures var last := After(settings, w, events).entries;
            && key in last && last[key].completed == w.entries[key].completed
            && last[key].attempts == w.entries[key].attempts + Retries(settings, w, events, key) <= settings.maxAttempts
  {
    if events != [] {
      var n := |events| - 1;
      LifetimePrefix(settings, w, events, key);
      NoProgressStops(settings, w, events[..n], key);
      assert events[n] in events;
      AttemptCounted(settings, After(settings, w, events[..n]), events[n], key, w.entries[key].completed);
    }
  }

  /** A job that stays idle with the given amount of work done. */
  function IdleJob(id: string, completed: int, taskCount: int): Job {
    Job(id, Incomplete, completed, taskCount, Inactive, false, false, true)
  }

  predicate ReadyToRetry(w: Watch, key: Key) {
    key in w.entries && key !in w.blocked && w.entries[key].idle.Some?
  }

  /** The next observation that makes an idle job due, one task later if its attempts are used up. */
  function NextRetry(settings: Settings, entry: Entry, key: Key, taskCount: int): Event
    requires entry.idle.Some?
  {
    var ready := entry.idle.value + settings.idleSeconds;
    var completed := if entry.attempts < settings.maxAttempts then entry.completed else entry.completed + 1;
    Seen(key, IdleJob(key.job, completed, taskCount), false, if ready >= entry.retry then ready else entry.retry)
  }

  lemma NextRetryWorks(settings: Settings, w: Watch, key: Key, taskCount: int)
    requires ReadyToRetry(w, key) && Sane(settings, w.entries[key], taskCount)
    requires settings.maxAttempts >= 1 && Potential(settings, w.entries[key], taskCount) > 0
    ensures var (w', retried) := Step(settings, w, NextRetry(settings, w.entries[key], key, taskCount));
            && retried && ReadyToRetry(w', key) && Sane(settings, w'.entries[key], taskCount)
            && Potential(settings, w'.entries[key], taskCount) == Potential(settings, w.entries[key], taskCount) - 1
  {
    var entry := w.entries[key];
    if entry.attempts == settings.maxAttempts {
      var left := taskCount - entry.completed;
      assert settings.maxAttempts * (left - 1) == settings.maxAttempts * left - settings.maxAttempts;
      assert left != 1;
    }
  }

  /** The bound is exact: some run within one lifetime uses up every attempt for every missing task. */
  lemma BoundAttained(settings: Settings, w: Watch, key: Key, taskCount: int) returns (events: seq<Event>)
    requires settings.maxAttempts >= 1
    requires ReadyToRetry(w, key) && Sane(settings, w.entries[key], taskCount)
    ensures forall e :: e in events ==> e.Seen? && e.key == key && e.job.taskCount == taskCount
    ensures OneLifetime(settings, w, events, key)
    ensures Retries(settings, w, events, key) == Potential(settings, w.entries[key], taskCount)
  {
    events := [];
    var now := w;
    PotentialNotNegative(settings, now.entries[key], taskCount);
    while Potential(settings, now.entries[key], taskCount) > 0
      invariant now == After(settings, w, events)
      invariant ReadyToRetry(now, key) && Sane(settings, now.entries[key], taskCount)
      invariant Potential(settings, now.entries[key], taskCount) >= 0
      invariant Retries(settings, w, events, key)
             == Potential(settings, w.entries[key], taskCount) - Potential(settings, now.entries[key], taskCount)
      invariant forall e :: e in events ==> e.Seen? && e.key == key && e.job.taskCount == taskCount
      invariant OneLifetime(settings, w, events, key)
      decreases Potential(settings, now.entries[key], taskCount)
    {
      var e := NextRetry(settings, now.entries[key], key, taskCount);
      NextRetryWorks(settings, now, key, taskCount);
      LifetimeExtends(settings, w, events, e, key);
      assert (events + [e])[..|events|] == events;
      events := events + [e];
      now := Step(settings, now, e).0;
    }
  }

  lemma LifetimeExtends(settings: Settings, w: Watch, events: seq<Event>, e: Event, key: Key)
    requires OneLifetime(settings, w, events, key) && e != ResumeAsked(key)
    requires key in Step(settings, After(settings, w, events), e).0.entries
    ensures OneLifetime(settings, w, events + [e], key)
  {
    var longer := events + [e];
    forall i | 0 <= i <= |longer|
      ensures key in After(settings, w, longer[..i]).entries
    {
      if i <= |events| {
        assert longer[..i] == events[..i];
      } else {
        assert longer[..i] == longer && longer[..|events|] == events;
      }
    }
  }

  // ---------------------------------------------------------------- spacing

  predicate Monotone(events: seq<Event>) {
    forall i, j :: 0 <= i < j < |events| && Timed(events[i]) && Timed(events[j]) ==> events[i].now <= events[j].now
  }

  predicate Timed(e: Event) { e.Seen? || e.Beat? }

  lemma {:induction false} RetryTimeKept(settings: Settings, w: Watch, events: seq<Event>, key: Key, earliest: int)
    requires key in w.entries && w.entries[key].retry >= earliest && OneLifetime(settings, w, events, key)
    ensures key in After(settings, w, events).entries && After(settings, w, events).entries[key].retry >= earliest
  {
    if events != [] {
      LifetimePrefix(settings, w, events, key);
      RetryTimeKept(settings, w, events[..|events| - 1], key, earliest);
    }
  }

  /**
   Within one lifetime, consecutive retries are at least `retrySeconds`
   apart, also when progress resets the attempts.
   */
  lemma RetriesSpaced(settings: Settings, w: Watch, first: Event, events: seq<Event>, second: Event)
    requires first.Seen? && Step(settings, w, first).1
    requires second.Seen? && second.key == first.key
    requires OneLifetime(settings, Step(settings, w, first).0, events, first.key)
    requires Step(settings, After(settings, Step(settings, w, first).0, events), second).1
    ensures second.now >= first.now + settings.retrySeconds
  {
    RetryTimeKept(settings, Step(settings, w, first).0, events, first.key, first.now + settings.retrySeconds);
  }

  /** No entry of `key` counts idleness from before `earliest`. */
  predicate IdleSince(w: Watch, key: Key, earliest: int) {
    key in w.entries && w.entries[key].idle.Some? ==> w.entries[key].idle.value >= earliest
  }

  lemma {:induction false} IdleTimeKept(settings: Settings, w: Watch, events: seq<Event>, key: Key, earliest: int)
    requires IdleSince(w, key, earliest)
    requires forall e :: e in events && Timed(e) ==> e.now >= earliest
    ensures IdleSince(After(settings, w, events), key, earliest)
  {
    if events != [] {
      IdleTimeKept(settings, w, events[..|events| - 1], key, earliest);
    }
  }

  /** Whatever happens in between, two retries of a job are at least `idleSeconds` apart. */
  lemma RetriesSpacedAlways(settings: Settings, w: Watch, first: Event, events: seq<Event>, second: Event)
    requires first.Seen? && Step(settings, w, first).1
    requires second.Seen? && second.key == first.key && Monotone([first] + events + [second])
    requires Step(settings, After(settings, Step(settings, w, first).0, events), second).1
    ensures second.now >= first.now + settings.idleSeconds
  {
    var all := [first] + events + [second];
    forall e | e in events && Timed(e)
      ensures e.now >= first.now
    {
      var i :| 0 <= i < |events| && events[i] == e;
      assert all[0] == first && all[i + 1] == e;
    }
    assert all[0] == first && all[|events| + 1] == second;
    IdleTimeKept(settings, Step(settings, w, first).0, events, first.key, first.now);
  }

  /** The first time from `u` on at which the job can be retried without dropping its entry or resuming it. */
  function Earliest(settings: Settings, w: Watch, key: Key, u: int): int {
    if key !in w.entries then Max(0, u + settings.idleSeconds)
    else
      var e := w.entries[key];
      Max(Max(u, e.retry), (if e.idle.Some? then e.idle.value else u) + settings.idleSeconds)
  }

  /** Events from time `u` on, in order, that neither resume the job nor drop its entry. */
  predicate Continues(settings: Settings, w: Watch, key: Key, u: int, events: seq<Event>)
    decreases |events|
  {
    events == [] ||
    var w' := Step(settings, w, events[0]).0;
    && (Timed(events[0]) ==> events[0].now >= u)
    && events[0] != ResumeAsked(key)
    && (key in w.entries ==> key in w'.entries)
    && Continues(settings, w', key, if Timed(events[0]) then events[0].now else u, events[1..])
  }

  /** `second` retries the job at the end of such a continuation. */
  ghost predicate RetriesNext(settings: Settings, w: Watch, key: Key, u: int, events: seq<Event>, second: Event)
    decreases |events|
  {
    if events == [] then second.Seen? && second.key == key && second.now >= u && Step(settings, w, second).1
    else
      RetriesNext(settings, Step(settings, w, events[0]).0, key, if Timed(events[0]) then events[0].now else u,
                  events[1..], second)
  }

  ghost predicate CanRetryAt(settings: Settings, w: Watch, key: Key, u: int, time: int) {
    exists events, second :: Continues(settings, w, key, u, events) && RetriesNext(settings, w, key, u, events, second)
                             && second.Seen? && second.now == time
  }

  /** The clock has not gone back behind the start of the idle time. */
  predicate NotAhead(w: Watch, key: Key, u: int) {
    key in w.entries && w.entries[key].idle.Some? ==> w.entries[key].idle.value <= u
  }

  lemma RetryNotBefore(settings: Settings, w: Watch, key: Key, u: int, second: Event)
    requires second.Seen? && second.key == key && second.now >= u && Step(settings, w, second).1
    ensures key !in w.blocked && second.now >= Earliest(settings, w, key, u)
  {
  }

  lemma EarliestRises(settings: Settings, w: Watch, key: Key, u: int, e: Event)
    requires NotAhead(w, key, u) && (Timed(e) ==> e.now >= u) && e != ResumeAsked(key)
    requires key in w.entries ==> key in Step(settings, w, e).0.entries
    ensures var w', u' := Step(settings, w, e).0, if Timed(e) then e.now else u;
            && NotAhead(w', key, u') && (key !in w'.blocked ==> key !in w.blocked)
            && Earliest(settings, w', key, u') >= Earliest(settings, w, key, u)
  {
  }

  lemma {:induction false} RetryNotBeforeEarliest(settings: Settings, w: Watch, key: Key, u: int, events: seq<Event>,
                                                  second: Event)
    requires NotAhead(w, key, u) && Continues(settings, w, key, u, events)
             && RetriesNext(settings, w, key, u, events, second)
    ensures second.Seen? && key !in w.blocked && second.now >= Earliest(settings, w, key, u)
    decreases |events|
  {
    if events == [] {
      RetryNotBefore(settings, w, key, u, second);
    } else {
      var e := events[0];
      EarliestRises(settings, w, key, u, e);
      RetryNotBeforeEarliest(settings, Step(settings, w, e).0, key, if Timed(e) then e.now else u, events[1..], second);
    }
  }

  /** A job whose submission was abandoned, with one task more completed than the watch knows of. */
  function Abandoned(w: Watch, key: Key): Job {
    var c := if key in w.entries then w.entries[key].completed + 1 else 0;
    Job(key.job, Incomplete, c, c + 1, Inactive, true, false, true)
  }

  lemma RetryAtOnce(settings: Settings, w: Watch, key: Key, u: int, time: int)
    requires settings.maxAttempts >= 1 && key !in w.blocked && time >= Earliest(settings, w, key, u)
    requires settings.idleSeconds == 0 || (key in w.entries && w.entries[key].idle.Some?)
    ensures CanRetryAt(settings, w, key, u, time)
  {
    var second := Seen(key, Abandoned(w, key), false, time);
    assert Continues(settings, w, key, u, []) && RetriesNext(settings, w, key, u, [], second);
  }

  lemma RetryAfterIdle(settings: Settings, w: Watch, key: Key, u: int, time: int)
    requires settings.maxAttempts >= 1 && key !in w.blocked && time >= Earliest(settings, w, key, u)
    requires settings.idleSeconds > 0 && (key in w.entries ==> w.entries[key].idle.None?)
    ensures CanRetryAt(settings, w, key, u, time)
  {
    var job := Abandoned(w, key);
    var start, second := Seen(key, job, false, u), Seen(key, job, false, time);
    var w' := Step(settings, w, start).0;
    assert [start][1..] == [];
    assert Continues(settings, w', key, u, []);
    assert RetriesNext(settings, w', key, u, [], second);
    assert Continues(settings, w, key, u, [start]) && RetriesNext(settings, w, key, u, [start], second);
  }

  /** Exactly from that time on can an unblocked job be retried. */
  lemma EarliestExact(settings: Settings, w: Watch, key: Key, u: int, time: int)
    requires settings.maxAttempts >= 1 && NotAhead(w, key, u)
    ensures CanRetryAt(settings, w, key, u, time) <==> key !in w.blocked && time >= Earliest(settings, w, key, u)
  {
    if key !in w.blocked && time >= Earliest(settings, w, key, u) {
      if settings.idleSeconds == 0 || (key in w.entries && w.entries[key].idle.Some?) {
        RetryAtOnce(settings, w, key, u, time);
      } else {
        RetryAfterIdle(settings, w, key, u, time);
      }
    }
    if CanRetryAt(settings, w, key, u, time) {
      var events, second :| Continues(settings, w, key, u, events) && RetriesNext(settings, w, key, u, events, second)
                            && second.Seen? && second.now == time;
      RetryNotBeforeEarliest(settings, w, key, u, events, second);
    }
  }

  lemma {:induction false} ClockNotBack(settings: Settings, w: Watch, events: seq<Event>, key: Key, u: int)
    requires NotAhead(w, key, u) && forall e :: e in events && Timed(e) ==> e.now <= u
    ensures NotAhead(After(settings, w, events), key, u)
  {
    if events != [] {
      ClockNotBack(settings, w, events[..|events| - 1], key, u);
    }
  }

  /**
   The exact condition for the spacing. After a retry and any further events, the job can be retried
   too early from time `u` on if and only if it is not blocked and its earliest time is too early.
   */
  lemma SpacingExactly(settings: Settings, w: Watch, first: Event, events: seq<Event>, u: int)
    requires settings.maxAttempts >= 1 && first.Seen? && Step(settings, w, first).1
    requires first.now <= u && forall e :: e in events && Timed(e) ==> e.now <= u
    ensures var w', limit := After(settings, Step(settings, w, first).0, events), first.now + settings.retrySeconds;
            (exists time :: CanRetryAt(settings, w', first.key, u, time) && time < limit) <==>
            (first.key !in w'.blocked && Earliest(settings, w', first.key, u) < limit)
  {
    var w', limit := After(settings, Step(settings, w, first).0, events), first.now + settings.retrySeconds;
    ClockNotBack(settings, Step(settings, w, first).0, events, first.key, u);
    var earliest := Earliest(settings, w', first.key, u);
    EarliestExact(settings, w', first.key, u, earliest);
    forall time
      ensures CanRetryAt(settings, w', first.key, u, time) ==> first.key !in w'.blocked && time >= earliest
    {
      EarliestExact(settings, w', first.key, u, time);
    }
  }

  /** While the lifetime lasts, the earliest time is never too early. */
  lemma LifetimeKeepsSpacing(settings: Settings, w: Watch, first: Event, events: seq<Event>, u: int)
    requires first.Seen? && Step(settings, w, first).1
    requires OneLifetime(settings, Step(settings, w, first).0, events, first.key)
    ensures Earliest(settings, After(settings, Step(settings, w, first).0, events), first.key, u)
         >= first.now + settings.retrySeconds
  {
    RetryTimeKept(settings, Step(settings, w, first).0, events, first.key, first.now + settings.retrySeconds);
  }

  /** The entry of the job is gone, or a resume has just replaced it. */
  predicate Renewed(w: Watch, key: Key) {
    key !in w.blocked && (key in w.entries ==> w.entries[key] == Entry(0, 0, None, 0))
  }

  /**
   The spacing does not survive the end of a lifetime, under any settings and in any state: once the entry
   was dropped or a resume renewed it, only the idle time is left between a retry and the next one.
   */
  lemma SpacingLostAcrossLifetimes(settings: Settings, w: Watch, first: Event, events: seq<Event>, u: int)
    requires settings.maxAttempts >= 1 && first.Seen? && Step(settings, w, first).1 && u >= 0
    requires first.now <= u && forall e :: e in events && Timed(e) ==> e.now <= u
    requires Renewed(After(settings, Step(settings, w, first).0, events), first.key)
    ensures var w', limit := After(settings, Step(settings, w, first).0, events), first.now + settings.retrySeconds;
            && CanRetryAt(settings, w', first.key, u, u + settings.idleSeconds)
            && ((exists time :: CanRetryAt(settings, w', first.key, u, time) && time < limit) <==>
                u + settings.idleSeconds < limit)
  {
    var w' := After(settings, Step(settings, w, first).0, events);
    ClockNotBack(settings, Step(settings, w, first).0, events, first.key, u);
    EarliestExact(settings, w', first.key, u, u + settings.idleSeconds);
    SpacingExactly(settings, w, first, events, u);
  }

  /** Both ways of renewing: a heartbeat that does not find the job, or the user's resume. */
  lemma DropsAndResumesRenew(settings: Settings, w: Watch, key: Key, row: Row, now: int)
    requires key !in w.blocked && (row.stopped || row.present == Some(false))
    ensures Renewed(Step(settings, w, Beat(key, row, true, false, now)).0, key)
    ensures Renewed(Step(settings, w, ResumeAsked(key)).0, key)
  {
  }

  /**
   In a run from the start: a job that vanishes for one heartbeat and is then seen working again is
   retried eighteen seconds after its previous retry.
   */
  lemma EighteenSecondsApart()
    ensures var settings, key := Settings(15, 60, 3), Key("host", "job");
            var working := Job("job", Incomplete, 0, 10, Active, false, true, true);
            var idle := IdleJob("job", 0, 10);
            var events := [Seen(key, working, false, 0), Seen(key, idle, false, 1), Seen(key, idle, false, 16),
                           Beat(key, Row("job", false, false, Some(false), Unknown), true, false, 17),
                           Seen(key, working, false, 18), Seen(key, idle, false, 19), Seen(key, idle, false, 34)];
            Retried(settings, Initial(), events, 2) && Retried(settings, Initial(), events, 6)
  {
    var settings, key := Settings(15, 60, 3), Key("host", "job");
    var working := Job("job", Incomplete, 0, 10, Active, false, true, true);
    var idle := IdleJob("job", 0, 10);
    var events := [Seen(key, working, false, 0), Seen(key, idle, false, 1), Seen(key, idle, false, 16),
                   Beat(key, Row("job", false, false, Some(false), Unknown), true, false, 17),
                   Seen(key, working, false, 18), Seen(key, idle, false, 19), Seen(key, idle, false, 34)];
    PrefixStep(settings, Initial(), events, 0);
    PrefixStep(settings, Initial(), events, 1);
    PrefixStep(settings, Initial(), events, 2);
    PrefixStep(settings, Initial(), events, 3);
    PrefixStep(settings, Initial(), events, 4);
    PrefixStep(settings, Initial(), events, 5);
  }

  lemma PrefixStep(settings: Settings, w: Watch, events: seq<Event>, i: nat)
    requires i < |events|
    ensures After(settings, w, events[..0]) == w
    ensures After(settings, w, events[..i + 1]) == Step(settings, After(settings, w, events[..i]), events[i]).0
  {
    assert events[..i + 1][..i] == events[..i];
  }

  // ---------------------------------------------------------------- attempts across lifetimes

  /** An entry of `key` begins: it is created by an observation, or the user resumes the job. */
  predicate Begins(settings: Settings, w: Watch, e: Event, key: Key) {
    e == ResumeAsked(key) || (key !in w.entries && key in Step(settings, w, e).0.entries)
  }

  function Renewals(settings: Settings, w: Watch, events: seq<Event>, key: Key): nat {
    if events == [] then 0
    else
      var n := |events| - 1;
      Renewals(settings, w, events[..n], key)
      + if Begins(settings, After(settings, w, events[..n]), events[n], key) then 1 else 0
  }

  /** The attempts left to the present entry, if there is one. */
  function AttemptsLeft(settings: Settings, w: Watch, key: Key): int {
    if key in w.entries then settings.maxAttempts - w.entries[key].attempts else 0
  }

  /** An entry that has used attempts knows of at least `completed` tasks. */
  predicate Informed(w: Watch, key: Key, completed: int) {
    key in w.entries ==> w.entries[key].attempts == 0 || w.entries[key].completed >= completed
  }

  lemma AttemptUsed(settings: Settings, w: Watch, e: Event, key: Key, completed: int)
    requires Informed(w, key, completed) && AttemptsLeft(settings, w, key) >= 0
    requires e.Seen? && e.key == key ==> e.job.completed == completed
    ensures var (w', due) := Step(settings, w, e);
            && Informed(w', key, completed) && AttemptsLeft(settings, w', key) >= 0
            && AttemptsLeft(settings, w', key) + (if e.key == key && e.Seen? && due then 1 else 0)
                 <= AttemptsLeft(settings, w, key) + if Begins(settings, w, e, key) then settings.maxAttempts else 0
  {
  }

  lemma OneMoreEntry(attempts: nat, entries: nat)
    ensures attempts * (entries + 1) == attempts * entries + attempts
  {
  }

  /** The attempts that the entries which begin bring along. */
  function AttemptsGranted(settings: Settings, w: Watch, events: seq<Event>, key: Key): nat {
    if events == [] then 0
    else
      var n := |events| - 1;
      AttemptsGranted(settings, w, events[..n], key)
      + if Begins(settings, After(settings, w, events[..n]), events[n], key) then settings.maxAttempts else 0
  }

  lemma {:induction false} GrantedPerEntry(settings: Settings, w: Watch, events: seq<Event>, key: Key)
    ensures AttemptsGranted(settings, w, events, key) == settings.maxAttempts * Renewals(settings, w, events, key)
  {
    if events != [] {
      GrantedPerEntry(settings, w, events[..|events| - 1], key);
      OneMoreEntry(settings.maxAttempts, Renewals(settings, w, events[..|events| - 1], key));
    }
  }

  lemma {:induction false} RetriesGranted(settings: Settings, w: Watch, events: seq<Event>, key: Key, completed: int)
    requires Informed(w, key, completed) && AttemptsLeft(settings, w, key) >= 0
    requires forall e :: e in events && e.Seen? && e.key == key ==> e.job.completed == completed
    ensures var last := After(settings, w, events);
            && Informed(last, key, completed) && AttemptsLeft(settings, last, key) >= 0
            && Retries(settings, w, events, key) + AttemptsLeft(settings, last, key)
                 <= AttemptsLeft(settings, w, key) + AttemptsGranted(settings, w, events, key)
  {
    if events != [] {
      var n := |events| - 1;
      RetriesGranted(settings, w, events[..n], key, completed);
      assert events[n] in events;
      AttemptUsed(settings, After(settings, w, events[..n]), events[n], key, completed);
    }
  }

  /** Without a new completed task, every entry is good for at most `maxAttempts` retries. */
  lemma RetriesPerLifetime(settings: Settings, events: seq<Event>, key: Key, completed: int)
    requires forall e :: e in events && e.Seen? && e.key == key ==> e.job.completed == completed
    ensures Retries(settings, Initial(), events, key)
         <= settings.maxAttempts * Renewals(settings, Initial(), events, key)
  {
    RetriesGranted(settings, Initial(), events, key, completed);
    GrantedPerEntry(settings, Initial(), events, key);
  }

  lemma TraceStep(settings: Settings, w: Watch, events: seq<Event>, e: Event, key: Key)
    ensures After(settings, w, events + [e]) == Step(settings, After(settings, w, events), e).0
    ensures Retries(settings, w, events + [e], key)
         == Retries(settings, w, events, key)
            + if e.key == key && e.Seen? && Step(settings, After(settings, w, events), e).1 then 1 else 0
  {
    assert (events + [e])[..|events|] == events;
  }

  function IdleTimes(settings: Settings, n: nat): (t: int)
    ensures t >= 0
  {
    if n == 0 then 0 else IdleTimes(settings, n - 1) + settings.idleSeconds
  }

  /** The job is seen at time `t` and again after the idle time, and is missing in the next heartbeat. */
  function Vanish(settings: Settings, job: Job, key: Key, t: int): (Event, Event, Event) {
    var later := t + settings.idleSeconds;
    (Seen(key, job, false, t), Seen(key, job, false, later),
     Beat(key, Row(job.id, false, false, Some(false), Unknown), true, false, later))
  }

  /** This `n` times over. */
  function Vanishing(settings: Settings, job: Job, key: Key, n: nat): seq<Event> {
    if n == 0 then []
    else
      var (a, b, c) := Vanish(settings, job, key, IdleTimes(settings, n - 1));
      Vanishing(settings, job, key, n - 1) + [a] + [b] + [c]
  }

  lemma OneMoreLifetime(settings: Settings, w: Watch, key: Key, job: Job, t: int)
    requires settings.maxAttempts >= 1 && key !in w.entries && key !in w.blocked && t >= 0
    requires IsQuiet(job, false) && job.submitting && job.completed < job.taskCount
    ensures var (a, b, c) := Vanish(settings, job, key, t);
            var (first, early) := Step(settings, w, a);
            var (second, due) := Step(settings, first, b);
            (early || due) && Step(settings, second, c).0 == w
  {
    var (a, b, c) := Vanish(settings, job, key, t);
    var second := Step(settings, Step(settings, w, a).0, b).0;
    assert second.entries - {key} == w.entries;
  }

  lemma OneMoreVanishing(settings: Settings, job: Job, key: Key, before: seq<Event>, t: int)
    requires settings.maxAttempts >= 1 && t >= 0 && After(settings, Initial(), before) == Initial()
    requires IsQuiet(job, false) && job.submitting && job.completed < job.taskCount
    ensures var (a, b, c) := Vanish(settings, job, key, t);
            var events := before + [a] + [b] + [c];
            && After(settings, Initial(), events) == Initial()
            && Retries(settings, Initial(), events, key) >= Retries(settings, Initial(), before, key) + 1
  {
    OneMoreLifetime(settings, Initial(), key, job, t);
    var (a, b, c) := Vanish(settings, job, key, t);
    TraceStep(settings, Initial(), before, a, key);
    TraceStep(settings, Initial(), before + [a], b, key);
    TraceStep(settings, Initial(), before + [a] + [b], c, key);
  }

  /** Up to time `u`, in order, and showing nothing of the job but `job`. */
  predicate ShowsOnly(events: seq<Event>, job: Job, u: int) {
    if events == [] then true
    else
      var last := events[|events| - 1];
      && Timed(last) && last.now <= u && (last.Seen? ==> last.job == job)
      && ShowsOnly(events[..|events| - 1], job, last.now)
  }

  lemma ShowsAlso(events: seq<Event>, job: Job, u: int, e: Event)
    requires ShowsOnly(events, job, u) && Timed(e) && e.now == u && (e.Seen? ==> e.job == job)
    ensures ShowsOnly(events + [e], job, u)
  {
    assert (events + [e])[..|events|] == events;
  }

  lemma {:induction false} ShowsLater(events: seq<Event>, job: Job, u: int, later: int)
    requires ShowsOnly(events, job, u) && u <= later
    ensures ShowsOnly(events, job, later)
  {
  }

  lemma {:induction false} VanishingInOrder(settings: Settings, job: Job, key: Key, n: nat)
    ensures ShowsOnly(Vanishing(settings, job, key, n), job, IdleTimes(settings, n))
  {
    if n > 0 {
      var t, before := IdleTimes(settings, n - 1), Vanishing(settings, job, key, n - 1);
      var (a, b, c) := Vanish(settings, job, key, t);
      VanishingInOrder(settings, job, key, n - 1);
      ShowsAlso(before, job, t, a);
      ShowsLater(before + [a], job, t, b.now);
      ShowsAlso(before + [a], job, b.now, b);
      ShowsAlso(before + [a] + [b], job, b.now, c);
    }
  }

  lemma {:induction false} VanishingRetries(settings: Settings, job: Job, key: Key, n: nat)
    requires settings.maxAttempts >= 1
    requires IsQuiet(job, false) && job.submitting && job.completed < job.taskCount
    ensures After(settings, Initial(), Vanishing(settings, job, key, n)) == Initial()
    ensures Retries(settings, Initial(), Vanishing(settings, job, key, n), key) >= n
  {
    if n > 0 {
      VanishingRetries(settings, job, key, n - 1);
      OneMoreVanishing(settings, job, key, Vanishing(settings, job, key, n - 1), IdleTimes(settings, n - 1));
    }
  }

  /**
   Nor does the limit on attempts survive the end of a lifetime: under any settings, and with no completed task
   ever added, a job whose entry keeps being dropped is retried any number of times, one idle time apart.
   */
  lemma AttemptsRenewed(settings: Settings, job: Job, key: Key, n: nat)
    requires settings.maxAttempts >= 1
    requires IsQuiet(job, false) && job.submitting && job.completed < job.taskCount
    ensures exists events ::
              ShowsOnly(events, job, IdleTimes(settings, n)) && Retries(settings, Initial(), events, key) >= n
  {
    VanishingInOrder(settings, job, key, n);
    VanishingRetries(settings, job, key, n);
  }

  // ---------------------------------------------------------------- evidence for a retry

  /** An event of `key` that shows no worker, controller, operation or stop. */
  predicate Quiet(e: Event) {
    match e
    case Seen(_, job, busy, _) =>
      && !job.workers && job.controller == Inactive && job.state == Incomplete && job.completed < job.taskCount
      && job.queueAvailable && !busy
    case Beat(_, row, queueAvailable, busy, _) =>
      && !row.active && row.controller == Inactive && !row.stopped && row.present != Some(false)
      && queueAvailable && !busy
    case StopAsked(_) => false
    case ResumeAsked(_) => false
  }

  /** From event `i` on, everything that concerned `key` was quiet, and event `i` happened at time `t`. */
  predicate QuietFrom(events: seq<Event>, key: Key, i: nat, t: int) {
    && i < |events| && events[i].key == key && Timed(events[i]) && events[i].now == t
    && forall m :: i <= m < |events| && events[m].key == key ==> Quiet(events[m])
  }

  /** An entry that counts idleness got its start from a quiet event, and every event of the job since was quiet. */
  lemma IdleStep(settings: Settings, w: Watch, e: Event, key: Key, t: int)
    requires w.blocked !! w.entries.Keys
    requires var after := Step(settings, w, e).0; key in after.entries && after.entries[key].idle == Some(t)
    ensures e.key == key ==> Quiet(e)
    ensures || (key in w.entries && w.entries[key].idle == Some(t))
            || (e.key == key && Timed(e) && e.now == t)
  {
  }

  lemma {:induction false} IdleHasEvidence(settings: Settings, w: Watch, events: seq<Event>, key: Key) returns (i: nat)
    requires key in w.entries ==> w.entries[key].idle.None?
    requires var after := After(settings, w, events); key in after.entries && after.entries[key].idle.Some?
    requires w.blocked !! w.entries.Keys
    ensures QuietFrom(events, key, i, After(settings, w, events).entries[key].idle.value)
  {
    var n := |events| - 1;
    var e, before := events[n], After(settings, w, events[..n]);
    BlockedNotWatched(settings, w, events[..n]);
    var t := After(settings, w, events).entries[key].idle.value;
    IdleStep(settings, before, e, key, t);
    if key in before.entries && before.entries[key].idle == Some(t) {
      i := IdleHasEvidence(settings, w, events[..n], key);
    } else {
      i := n;
    }
  }

  lemma {:induction false} BlockedNotWatched(settings: Settings, w: Watch, events: seq<Event>)
    requires w.blocked !! w.entries.Keys
    ensures var after := After(settings, w, events); after.blocked !! after.entries.Keys
  {
    if events != [] {
      BlockedNotWatched(settings, w, events[..|events| - 1]);
    }
  }

  /**
   Every retry is preceded by at least `idleSeconds` in which every processed observation and heartbeat
   of the job showed an available queue, no worker, an inactive controller and no running operation.
   */
  lemma RetryHasEvidence(settings: Settings, events: seq<Event>, j: nat) returns (i: nat)
    requires j < |events| && Retried(settings, Initial(), events, j)
    ensures i <= j && events[i].key == events[j].key && Timed(events[i])
    ensures events[j].now - events[i].now >= settings.idleSeconds
    ensures forall m :: i <= m <= j && events[m].key == events[j].key ==> Quiet(events[m])
  {
    var key, before := events[j].key, After(settings, Initial(), events[..j]);
    if key in before.entries && before.entries[key].idle.Some? {
      i := IdleHasEvidence(settings, Initial(), events[..j], key);
    } else {
      i := j;
    }
  }

  /** The job was observed with a worker or a controller, or in the middle of its submission, or resumed by hand. */
  predicate Witness(e: Event) {
    e.ResumeAsked? || (e.Seen? && (e.job.workers || e.job.controller == Active || e.job.submitting))
  }

  lemma {:induction false} WatchedWasWitnessed(settings: Settings, events: seq<Event>, key: Key) returns (i: nat)
    requires key in After(settings, Initial(), events).entries
    ensures i < |events| && events[i].key == key && Witness(events[i])
    ensures StopAsked(key) !in events[i..]
  {
    var n := |events| - 1;
    var before := After(settings, Initial(), events[..n]);
    if key in before.entries && events[n] != ResumeAsked(key) {
      i := WatchedWasWitnessed(settings, events[..n], key);
      assert events[i..] == events[..n][i..] + [events[n]];
    } else {
      i := n;
    }
  }

  /** Every retried job was seen working or resumed before, and has not been stopped since. */
  lemma RetryWasWitnessed(settings: Settings, events: seq<Event>, j: nat) returns (i: nat)
    requires j < |events| && Retried(settings, Initial(), events, j)
    ensures i <= j && events[i].key == events[j].key && Witness(events[i])
    ensures forall m :: i <= m <= j ==> events[m] != StopAsked(events[j].key)
  {
    PrefixStep(settings, Initial(), events, j);
    i := WatchedWasWitnessed(settings, events[..j + 1], events[j].key);
    forall m | i <= m <= j
      ensures events[m] != StopAsked(events[j].key)
    {
      assert events[..j + 1][i..][m - i] == events[m];
    }
  }

  lemma {:induction false} BlockedUntilResumed(settings: Settings, w: Watch, events: seq<Event>, key: Key)
    requires key in w.blocked && ResumeAsked(key) !in events
    ensures key in After(settings, w, events).blocked
  {
    if events != [] {
      BlockedUntilResumed(settings, w, events[..|events| - 1], key);
    }
  }

  /** Between a stop and the next resume of a job there is no retry of it. */
  lemma StoppedNotRetried(settings: Settings, w: Watch, key: Key, events: seq<Event>, i: nat)
    requires i < |events| && events[i].key == key
    requires forall m :: 0 <= m < i ==> events[m] != ResumeAsked(key)
    ensures !Retried(settings, Step(settings, w, StopAsked(key)).0, events, i)
  {
    BlockedUntilResumed(settings, Step(settings, w, StopAsked(key)).0, events[..i], key);
  }

  // ---------------------------------------------------------------- one observation

  /** The state in which an observation of a watched or submitting job finds it, if it has no entry yet. */
  function Known(w: Watch, key: Key, job: Job): Entry {
    if key in w.entries then w.entries[key] else Entry(job.completed, 0, None, 0)
  }

  /**
   An observation retries a job exactly when it is quiet, watched or in the middle of its submission, idle for
   `idleSeconds` counting from the first quiet event, past its retry time, and has attempts left or new results.
   */
  lemma RetryExactly(settings: Settings, w: Watch, key: Key, job: Job, busy: bool, now: int)
    ensures var known := Known(w, key, job);
            Observed(settings, w, key, job, busy, now).1 <==>
              && key !in w.blocked && Quiet(Seen(key, job, busy, now)) && (key in w.entries || job.submitting)
              && now - (if known.idle.Some? then known.idle.value else now) >= settings.idleSeconds
              && now >= known.retry
              && (if job.completed > known.completed then 0 else known.attempts) < settings.maxAttempts
  {
  }

  /** What an observation leaves: an entry for an unfinished job that was watched or is active. */
  lemma EntryExactly(settings: Settings, w: Watch, key: Key, job: Job, busy: bool, now: int)
    requires key !in w.blocked
    ensures var (after, retried) := Observed(settings, w, key, job, busy, now);
            && (key in after.entries <==>
                  && job.state != Stopped && job.completed < job.taskCount
                  && (key in w.entries || job.workers || job.controller == Active || job.submitting))
            && (key in after.entries ==>
                  var known, entry := Known(w, key, job), after.entries[key];
                  && entry.completed == Max(known.completed, job.completed)
                  && entry.attempts == (if job.completed > known.completed then 0 else known.attempts)
                                       + (if retried then 1 else 0)
                  && entry.retry == (if retried then now + settings.retrySeconds else known.retry)
                  && entry.idle == (if !Quiet(Seen(key, job, busy, now)) then None
                                    else if retried || known.idle.None? then Some(now) else known.idle))
            && after.blocked == w.blocked && after.entries - {key} == w.entries - {key}
  {
  }

  // ---------------------------------------------------------------- heartbeats

  /** A heartbeat never changes the attempts, the progress or the retry time of any job, and starts no entry. */
  lemma HeartbeatIsReadOnly(settings: Settings, w: Watch, e: Event, key: Key)
    requires e.Beat? && key in Step(settings, w, e).0.entries
    ensures key in w.entries
    ensures Step(settings, w, e).0.entries[key] == w.entries[key].(idle := Step(settings, w, e).0.entries[key].idle)
    ensures Step(settings, w, e).0.blocked == w.blocked
  {
  }

  /** A heartbeat drops an entry exactly when the queue is known, nothing is busy, and the job is stopped or gone. */
  lemma BeatExactly(settings: Settings, w: Watch, key: Key, row: Row, queueAvailable: bool, busy: bool, now: int)
    requires key in w.entries && key !in w.blocked
    ensures var (after, due) := Heard(settings, w, key, row, queueAvailable, busy, now);
            && (key !in after.entries <==> queueAvailable && !busy && (row.stopped || row.present == Some(false)))
            && (key in after.entries ==>
                  after.entries[key].idle == (if !Quiet(Beat(key, row, queueAvailable, busy, now)) then None
                                              else if w.entries[key].idle.None? then Some(now)
                                              else w.entries[key].idle))
            && (due ==> Quiet(Beat(key, row, queueAvailable, busy, now)))
            && after.blocked == w.blocked && after.entries - {key} == w.entries - {key}
  {
  }

  /**
   A heartbeat asks for a full observation exactly when one that confirms it, at the same time and
   without progress, would retry the job.
   */
  lemma CandidateIffRetry(settings: Settings, w: Watch, key: Key, row: Row, job: Job, now: int)
    requires key in w.entries && w.blocked !! w.entries.Keys
    requires Quiet(Beat(key, row, true, false, now)) && Quiet(Seen(key, job, false, now))
    requires job.completed <= w.entries[key].completed
    ensures var heard := Heard(settings, w, key, row, true, false, now);
            && heard.1 == Observed(settings, w, key, job, false, now).1
            && heard.1 == Observed(settings, heard.0, key, job, false, now).1
  {
  }
}
