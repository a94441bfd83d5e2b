/**
 The submission coordinator: many submitters share one user's SLURM submit limit.
 Every invocation runs under one lock, so an attempt is a single step of the protocol.
 */
module Coordinator {
  import opened Numbers
  import opened Options
  import opened Totals
  import opened FairShare

  const LEASE_SECONDS := 45
  const OBSERVATION_SECONDS := 300

  datatype Lease = Lease(requested: int, updated: int)

  /** The shared capacity record: the association limit, the last observed ceiling and the rotation. */
  datatype Capacity = Capacity(reported: Option<int>, checked: int, observed: Option<int>, observedAt: int, turn: int)

  /** What squeue lists: array elements per Slurmy job directory, and everything else. */
  datatype Queue = Queue(own: map<string, int>, other: nat) {
    ghost predicate Valid() { forall n :: n in own ==> own[n] >= 0 }
    ghost function Size(): int { other + Total(own) }
    function Count(job: string): int { if job in own then own[job] else 0 }
    function Add(job: string): Queue { this.(own := own[job := Count(job) + 1]) }
    function Remove(job: string): Queue { if Count(job) > 0 then this.(own := own[job := Count(job) - 1]) else this }
  }

  /** How sbatch ended. An unconfirmed or unreadable answer may or may not have queued an element. */
  datatype Sbatch = Accepted | LimitRejected | Rejected | Unconfirmed(queued: bool) | Unreadable(queued: bool)

  /** The answers of the cluster during one attempt. */
  datatype World = World(queueReadable: bool, limit: Option<int>, sbatch: Sbatch)

  datatype Reply =
    | Paused                                            // the queue could not be read
    | Wait(current: int, target: int)                   // no share left, or the ceiling is reached
    | Took(current: int, target: int, total: int)       // accepted
    | Limited(total: int, ceiling: int)                 // the cluster rejected at its submit limit
    | Failed

  datatype State = State(leases: map<string, Lease>, capacity: Capacity, queue: Queue, now: int)

  // ---------------------------------------------------------------- one attempt, as a function

  function Live(leases: map<string, Lease>, now: int): (live: map<string, Lease>) {
    map job | job in leases && now - leases[job].updated <= LEASE_SECONDS :: leases[job]
  }

  function Demands(leases: map<string, Lease>): (demands: map<string, int>) {
    map job | job in leases && leases[job].requested > 0 :: leases[job].requested
  }

  /** The association limit is asked for again when the last answer is older than five minutes. */
  function Refreshed(capacity: Capacity, now: int, limit: Option<int>): Capacity {
    if now - capacity.checked > OBSERVATION_SECONDS then capacity.(reported := limit, checked := now) else capacity
  }

  function Positive(v: Option<int>): Option<int> {
    if v.Some? && v.value > 0 then v else None
  }

  /** The lower of the association limit and an observation younger than five minutes. */
  function Ceiling(capacity: Capacity, now: int): Option<int> {
    var observed := if now - capacity.observedAt < OBSERVATION_SECONDS then Positive(capacity.observed) else None;
    match (Positive(capacity.reported), observed)
    case (Some(a), Some(b)) => Some(Min(a, b))
    case (Some(a), None) => Some(a)
    case (None, b) => b
  }

  ghost function Unclaimed(own: map<string, int>, demands: map<string, int>): int {
    Total(map n | n in own && n !in demands :: own[n])
  }

  ghost function Available(demands: map<string, int>, queue: Queue, ceiling: Option<int>): int {
    if ceiling.Some? then ceiling.value - queue.other - Unclaimed(queue.own, demands) else Total(demands)
  }

  ghost function TargetOf(demands: map<string, int>, queue: Queue, ceiling: Option<int>, turn: int, job: string,
                          requested: int): int {
    var targets := Targets(demands, Available(demands, queue, ceiling), turn);
    if job in targets then targets[job] else requested
  }

  /** A submitter may call sbatch: it is below its target, and the queue is below the ceiling. */
  ghost predicate MaySubmit(demands: map<string, int>, queue: Queue, ceiling: Option<int>, turn: int, job: string,
                            requested: int) {
    && queue.Count(job) < TargetOf(demands, queue, ceiling, turn, job, requested)
    && (ceiling.Some? ==> queue.Size() < ceiling.value)
  }

  /** The leases and the capacity record as the attempt sees them. */
  function Leased(s: State, job: string, requested: int): map<string, Lease> {
    Live(s.leases[job := Lease(requested, s.now)], s.now)
  }

  /** Does this attempt reach the call of sbatch? */
  ghost predicate Issues(s: State, job: string, requested: int, world: World) {
    var capacity := Refreshed(s.capacity, s.now, world.limit);
    && world.queueReadable
    && MaySubmit(Demands(Leased(s, job, requested)), s.queue, Ceiling(capacity, s.now), capacity.turn, job, requested)
  }

  /** The observation recorded when the cluster rejects at `total` queued tasks. */
  function Observe(capacity: Capacity, total: int, now: int): Capacity {
    var observed := if Positive(capacity.observed).Some? then Min(total, capacity.observed.value) else total;
    capacity.(observed := Some(observed), observedAt := now)
  }

  ghost function AttemptOutcome(capacity: Capacity, queue: Queue, now: int, job: string, target: int, sbatch: Sbatch)
    : (Capacity, Queue, Reply)
  {
    match sbatch
    case Accepted =>
      (capacity.(turn := capacity.turn + 1), queue.Add(job), Took(queue.Count(job) + 1, target, queue.Size() + 1))
    case LimitRejected =>
      if queue.Size() == 0 then (capacity, queue, Failed)
      else
        var observed := Observe(capacity, queue.Size(), now);
        (observed, queue, Limited(queue.Size(), observed.observed.value))
    case Rejected => (capacity, queue, Failed)
    case Unconfirmed(queued) => (capacity, if queued then queue.Add(job) else queue, Failed)
    case Unreadable(queued) => (capacity, if queued then queue.Add(job) else queue, Failed)
  }

  ghost function AfterAttempt(s: State, job: string, requested: int, world: World): (State, Reply) {
    var leases := Leased(s, job, requested);
    if !world.queueReadable then (s.(leases := leases), Paused)
    else
      var demands := Demands(leases);
      var capacity := Refreshed(s.capacity, s.now, world.limit);
      var target := TargetOf(demands, s.queue, Ceiling(capacity, s.now), capacity.turn, job, requested);
      if !Issues(s, job, requested, world) then
        (s.(leases := leases, capacity := capacity), Wait(s.queue.Count(job), target))
      else
        var (capacity', queue', reply) := AttemptOutcome(capacity, s.queue, s.now, job, target, world.sbatch);
        (State(leases, capacity', queue', s.now), reply)
  }

  // ---------------------------------------------------------------- the program

  class SubmitCoordinator {
    var leases: map<string, Lease>
    var capacity: Capacity

    /** The action `attempt`: one call of the script under the lock, on the queue `queue` at time `now`. */
    method Attempt(job: string, requested: int, now: int, queue: Queue, total: int, world: World)
      returns (after: Queue, reply: Reply)
      requires requested >= 1 && queue.Valid() && total == queue.Size()
      modifies this
      ensures var was := State(old(leases), old(capacity), queue, now);
              (State(leases, capacity, after, now), reply) == AfterAttempt(was, job, requested, world)
    {
      after := queue;
      leases := leases[job := Lease(requested, now)];
      var demands := DropExpired(now);
      if !world.queueReadable {
        return after, Paused;
      }
      if now - capacity.checked > OBSERVATION_SECONDS {
        capacity := capacity.(reported := world.limit, checked := now);
      }
      var ceiling := Ceiling(capacity, now);
      var target := ShareOf(job, requested, demands, queue, ceiling, capacity.turn);
      var current := queue.Count(job);
      if current >= target || (ceiling.Some? && total >= ceiling.value) {
        return after, Wait(current, target);
      }
      after, reply := Submit(job, now, queue, total, target, world.sbatch);
    }

    /** Calls sbatch and records what it answered. */
    method Submit(job: string, now: int, queue: Queue, total: int, target: int, sbatch: Sbatch)
      returns (after: Queue, reply: Reply)
      requires queue.Valid() && total == queue.Size()
      modifies this`capacity
      ensures (capacity, after, reply) == AttemptOutcome(old(capacity), queue, now, job, target, sbatch)
    {
      after, reply := queue, Failed;
      match sbatch
      case Accepted =>
        after := queue.Add(job);
        capacity := capacity.(turn := capacity.turn + 1);
        reply := Took(queue.Count(job) + 1, target, total + 1);
      case LimitRejected =>
        if total != 0 {
          capacity := Observe(capacity, total, now);
          reply := Limited(total, capacity.observed.value);
        }
      case Rejected =>
      case Unconfirmed(queued) =>
        after := if queued then queue.Add(job) else queue;
      case Unreadable(queued) =>
        after := if queued then queue.Add(job) else queue;
    }

    /** Deletes the leases that have not been renewed for 45 seconds and collects the demands of the others. */
    method DropExpired(now: int) returns (demands: map<string, int>)
      modifies this`leases
      ensures leases == Live(old(leases), now)
      ensures demands == Demands(leases)
    {
      demands := map[];
      var unread := leases.Keys;
      ghost var before := leases;
      while unread != {}
        invariant unread <= before.Keys
        invariant leases == map job | job in before && (job in unread || now - before[job].updated <= LEASE_SECONDS)
                              :: before[job]
        invariant demands == map job | job in leases && job !in unread && leases[job].requested > 0
                               :: leases[job].requested
        decreases unread
      {
        var job :| job in unread;
        unread := unread - {job};
        if now - leases[job].updated > LEASE_SECONDS {
          leases := leases - {job};
        } else if leases[job].requested > 0 {
          demands := demands[job := leases[job].requested];
        }
      }
    }

    /** The fair share of one job among the live submitters. */
    method ShareOf(job: string, requested: int, demands: map<string, int>, queue: Queue, ceiling: Option<int>,
                   turn: int)
      returns (target: int)
      ensures target == TargetOf(demands, queue, ceiling, turn, job, requested)
    {
      var available;
      if ceiling.Some? {
        var unclaimed := SumValues(map n | n in queue.own && n !in demands :: queue.own[n]);
        available := ceiling.value - queue.other - unclaimed;
      } else {
        available := SumValues(demands);
      }
      var targets := FairTargets(demands, available, turn);
      target := if job in targets then targets[job] else requested;
    }

    /** The action `release`. */
    method Release(job: string)
      modifies this`leases
      ensures leases == old(leases) - {job}
    {
      leases := leases - {job};
    }
  }

  method SumValues(m: map<string, int>) returns (sum: int)
    ensures sum == Total(m)
  {
    sum := 0;
    var rest := m;
    while rest.Keys != {}
      invariant sum + Total(rest) == Total(m)
      decreases rest.Keys
    {
      var k :| k in rest;
      TotalRemove(rest, k);
      sum := sum + rest[k];
      rest := rest - {k};
    }
    assert rest == map[];
  }

  // ---------------------------------------------------------------- work conservation

  lemma ClaimedAndUnclaimed(queue: Queue, demands: map<string, int>)
    requires queue.Valid()
    ensures Total(queue.own) == Unclaimed(queue.own, demands) + Total(map n | n in demands :: queue.Count(n))
  {
    var claimed := map n | n in queue.own && n in demands.Keys :: queue.own[n];
    TotalSplit(queue.own, demands.Keys);
    assert (map n | n in queue.own && n !in demands.Keys :: queue.own[n])
        == map n | n in queue.own && n !in demands :: queue.own[n];
    PadWithZeros(claimed, map n | n in demands :: queue.Count(n));
  }

  lemma {:induction false} PadWithZeros(m: map<string, int>, padded: map<string, int>)
    requires m.Keys <= padded.Keys
    requires forall n :: n in padded ==> padded[n] == if n in m then m[n] else 0
    ensures Total(m) == Total(padded)
    decreases padded.Keys
  {
    if padded.Keys == {} {
      assert m == map[] == padded;
    } else {
      var k :| k in padded;
      TotalRemove(padded, k);
      if k in m {
        TotalRemove(m, k);
        PadWithZeros(m - {k}, padded - {k});
      } else {
        PadWithZeros(m, padded - {k});
      }
    }
  }

  /**
   No slot is left idle: some live submitter may submit exactly when the queue is below the ceiling
   and some live submitter has fewer tasks than it asked for.
   */
  lemma WorkConserving(demands: map<string, int>, queue: Queue, ceiling: Option<int>, turn: int)
    requires queue.Valid() && forall n :: n in demands ==> demands[n] > 0
    ensures (exists j :: j in demands && MaySubmit(demands, queue, ceiling, turn, j, demands[j])) <==>
            ((ceiling.Some? ==> queue.Size() < ceiling.value)
             && exists j :: j in demands && queue.Count(j) < demands[j])
  {
    var available := Available(demands, queue, ceiling);
    var targets := Targets(demands, available, turn);
    TargetsFair(demands, available, turn);
    if exists j :: j in demands && MaySubmit(demands, queue, ceiling, turn, j, demands[j]) {
      var j :| j in demands && MaySubmit(demands, queue, ceiling, turn, j, demands[j]);
      assert queue.Count(j) < targets[j] <= demands[j];
    }
    if (ceiling.Some? ==> queue.Size() < ceiling.value) && exists j :: j in demands && queue.Count(j) < demands[j] {
      if forall j :: j in demands ==> queue.Count(j) >= targets[j] {
        SharesUsedUp(demands, queue, ceiling, turn);
        assert false;
      }
      var j :| j in demands && queue.Count(j) < targets[j];
      assert MaySubmit(demands, queue, ceiling, turn, j, demands[j]);
    }
  }

  /** If everybody has its share, either the ceiling is reached or everybody has what it asked for. */
  lemma SharesUsedUp(demands: map<string, int>, queue: Queue, ceiling: Option<int>, turn: int)
    requires queue.Valid()
    requires var targets := Targets(demands, Available(demands, queue, ceiling), turn);
             forall j :: j in demands ==> queue.Count(j) >= targets[j]
    ensures || (ceiling.Some? && queue.Size() >= ceiling.value)
            || forall j :: j in demands ==> queue.Count(j) >= demands[j]
  {
    var available := Available(demands, queue, ceiling);
    var targets := Targets(demands, available, turn);
    TargetsTotal(demands, available, turn);
    TargetsFair(demands, available, turn);
    var claimed := map n | n in demands :: queue.Count(n);
    TotalMonotone(targets, claimed);
    ClaimedAndUnclaimed(queue, demands);
    if Total(demands) <= Max(0, available) {
      TotalMonotone(targets, demands);
    }
  }

  /** What a live submitter is told when it renews its lease is the decision of `MaySubmit` on the shared state. */
  lemma AttemptAsDecided(s: State, job: string, world: World)
    requires world.queueReadable && job in s.leases && s.leases == Live(s.leases, s.now)
    requires s.leases[job].requested > 0
    ensures var capacity := Refreshed(s.capacity, s.now, world.limit);
            Issues(s, job, s.leases[job].requested, world) <==>
            MaySubmit(Demands(s.leases), s.queue, Ceiling(capacity, s.now), capacity.turn, job, Demands(s.leases)[job])
  {
    assert Demands(Leased(s, job, s.leases[job].requested)) == Demands(s.leases);
  }

  // ---------------------------------------------------------------- runs

  datatype Event =
    | Try(job: string, requested: int, world: World)
    | Release(job: string)
    | Finish(job: string)
    | OtherArrives
    | OtherLeaves
    | Tick(seconds: nat)

  ghost function Step(s: State, e: Event): State {
    match e
    case Try(job, requested, world) => AfterAttempt(s, job, requested, world).0
    case Release(job) => s.(leases := s.leases - {job})
    case Finish(job) => s.(queue := s.queue.Remove(job))
    case OtherArrives => s.(queue := s.queue.(other := s.queue.other + 1))
    case OtherLeaves => if s.queue.other == 0 then s else s.(queue := s.queue.(other := s.queue.other - 1))
    case Tick(seconds) => s.(now := s.now + seconds)
  }

  ghost function Run(s: State, events: seq<Event>): State
    decreases |events|
  {
    if events == [] then s else Run(Step(s, events[0]), events[1..])
  }

  /** The submitters ask for at least one slot, as the command line demands. */
  ghost predicate WellFormed(events: seq<Event>) {
    forall i :: 0 <= i < |events| && events[i].Try? ==> events[i].requested >= 1
  }

  /** The largest maximum `job` ever asked for. */
  ghost function Peak(events: seq<Event>, job: string): nat {
    if events == [] then 0
    else
      var rest := Peak(events[1..], job);
      if events[0].Try? && events[0].job == job then Max(events[0].requested, rest) else rest
  }

  lemma AddSize(queue: Queue, job: string)
    requires queue.Valid()
    ensures queue.Add(job).Valid() && queue.Add(job).Size() == queue.Size() + 1
  {
    var own := queue.own;
    if job in own {
      TotalRemove(own, job);
      TotalRemove(own[job := own[job] + 1], job);
      assert own[job := own[job] + 1] - {job} == own - {job};
    } else {
      TotalUpdate(own, job, 1);
    }
  }

  lemma RemoveSize(queue: Queue, job: string)
    requires queue.Valid()
    ensures queue.Remove(job).Valid() && queue.Remove(job).Size() <= queue.Size()
  {
    var own := queue.own;
    if queue.Count(job) > 0 {
      TotalRemove(own, job);
      TotalRemove(own[job := own[job] - 1], job);
      assert own[job := own[job] - 1] - {job} == own - {job};
    }
  }

  /** The two guards of an issued sbatch: below the own maximum and below the ceiling in force. */
  lemma IssueGuards(s: State, job: string, requested: int, world: World)
    requires requested >= 1 && Issues(s, job, requested, world)
    ensures s.queue.Count(job) < requested
    ensures var ceiling := Ceiling(Refreshed(s.capacity, s.now, world.limit), s.now);
            ceiling.Some? ==> s.queue.Size() < ceiling.value
  {
    var capacity := Refreshed(s.capacity, s.now, world.limit);
    var demands := Demands(Leased(s, job, requested));
    assert job in demands && demands[job] == requested;
    TargetsFair(demands, Available(demands, s.queue, Ceiling(capacity, s.now)), capacity.turn);
  }

  /** Every accepted submission stays within the job's own maximum and within the ceiling in force. */
  lemma AcceptedWithinLimits(s: State, job: string, requested: int, world: World)
    requires requested >= 1 && s.queue.Valid()
    requires AfterAttempt(s, job, requested, world).1.Took?
    ensures var after := AfterAttempt(s, job, requested, world).0;
            && after.queue.Count(job) == s.queue.Count(job) + 1 <= requested
            && after.queue.Size() == s.queue.Size() + 1
            && (Ceiling(after.capacity, after.now).Some?
                ==> after.queue.Size() <= Ceiling(after.capacity, after.now).value)
  {
    IssueGuards(s, job, requested, world);
    AddSize(s.queue, job);
  }

  /** A queue differs from the previous one by at most one task of the attempting job, and only if sbatch was issued. */
  lemma AttemptQueue(s: State, job: string, requested: int, world: World)
    ensures var after := AfterAttempt(s, job, requested, world).0;
            after.queue == s.queue || (Issues(s, job, requested, world) && after.queue == s.queue.Add(job))
    ensures AfterAttempt(s, job, requested, world).0.now == s.now
  {
  }

  /** The only four things an attempt can do to the capacity record. */
  lemma AttemptCapacity(s: State, job: string, requested: int, world: World)
    ensures var refreshed := Refreshed(s.capacity, s.now, world.limit);
            var after := AfterAttempt(s, job, requested, world).0;
            || after.capacity == s.capacity
            || after.capacity == refreshed
            || after.capacity == refreshed.(turn := refreshed.turn + 1)
            || (s.queue.Size() != 0 && after.capacity == Observe(refreshed, s.queue.Size(), s.now))
  {
  }

  lemma TrySize(s: State, job: string, requested: int, world: World, limit: int)
    requires s.queue.Valid() && LimitKnownOrDue(s, limit) && world.limit == Some(limit) && requested >= 1
    ensures Step(s, Try(job, requested, world)).queue.Size() <= Max(s.queue.Size(), limit)
    ensures LimitKnownOrDue(Step(s, Try(job, requested, world)), limit)
  {
    AttemptCapacity(s, job, requested, world);
    AttemptQueue(s, job, requested, world);
    AddSize(s.queue, job);
    if Issues(s, job, requested, world) {
      IssueGuards(s, job, requested, world);
    }
  }

  /** An attempt stays within the limit; apart from it only the arrival of other work adds to the queue. */
  lemma StepSize(s: State, e: Event, limit: int)
    requires s.queue.Valid() && LimitKnownOrDue(s, limit) && Confirms(e, limit) && (e.Try? ==> e.requested >= 1)
    ensures Step(s, e).queue.Size() <= Max(s.queue.Size(), limit) + Arrivals([e])
    ensures LimitKnownOrDue(Step(s, e), limit)
  {
    match e
    case Try(job, requested, world) =>
      TrySize(s, job, requested, world, limit);
    case Finish(job) => RemoveSize(s.queue, job);
    case _ =>
  }

  lemma StepKeepsQueueValid(s: State, e: Event)
    requires s.queue.Valid()
    ensures Step(s, e).queue.Valid()
  {
    match e
    case Try(job, requested, world) => AttemptQueue(s, job, requested, world);
    case _ =>
  }

  /** In every reachable state, a job has at most as many queued tasks as the largest maximum it asked for. */
  lemma {:induction false} NeverAboveRequest(s: State, events: seq<Event>, job: string, peak: int)
    requires s.queue.Valid() && WellFormed(events)
    requires s.queue.Count(job) <= peak
    ensures Run(s, events).queue.Count(job) <= Max(peak, Peak(events, job))
    decreases |events|
  {
    if events != [] {
      var e := events[0];
      StepKeepsQueueValid(s, e);
      if e.Try? {
        AttemptQueue(s, e.job, e.requested, e.world);
        if Issues(s, e.job, e.requested, e.world) {
          IssueGuards(s, e.job, e.requested, e.world);
        }
      }
      var peak' := if e.Try? && e.job == job then Max(e.requested, peak) else peak;
      assert WellFormed(events[1..]);
      NeverAboveRequest(Step(s, e), events[1..], job, peak');
    }
  }

  /** The association limit `limit` is recorded, or the record is older than five minutes and will be renewed. */
  ghost predicate LimitKnownOrDue(s: State, limit: int) {
    limit > 0 && (s.capacity.reported == Some(limit) || s.now - s.capacity.checked > 300)
  }

  ghost predicate Confirms(e: Event, limit: int) {
    e.Try? ==> e.world.limit == Some(limit)
  }

  /** How much other work arrives. */
  ghost function Arrivals(events: seq<Event>): nat {
    if events == [] then 0 else (if events[0].OtherArrives? then 1 else 0) + Arrivals(events[1..])
  }

  /**
   Once the association limit is known or due to be asked for, no interleaving of attempts, releases, finishes,
   lease expiries and other work takes the queue above the limit by more than the other work that arrives.
   */
  lemma {:induction false} NeverAboveLimit(s: State, events: seq<Event>, limit: int)
    requires s.queue.Valid() && WellFormed(events) && LimitKnownOrDue(s, limit)
    requires forall i :: 0 <= i < |events| ==> Confirms(events[i], limit)
    ensures Run(s, events).queue.Size() <= Max(s.queue.Size(), limit) + Arrivals(events)
    decreases |events|
  {
    if events != [] {
      StepKeepsQueueValid(s, events[0]);
      StepSize(s, events[0], limit);
      assert WellFormed(events[1..]);
      assert [events[0]][1..] == [];
      NeverAboveLimit(Step(s, events[0]), events[1..], limit);
    }
  }

  // ---------------------------------------------------------------- what one attempt decides

  /**
   An attempt that reads the queue asks for the association limit when the last answer is more than 300
   seconds old, records what it is told, and does not call sbatch at that limit; a younger answer is kept.
   */
  lemma LimitLearned(s: State, job: string, requested: int, world: World)
    requires s.queue.Valid() && requested >= 1
    ensures var (after, reply) := AfterAttempt(s, job, requested, world);
            if world.queueReadable && s.now - s.capacity.checked > 300 then
              && after.capacity.reported == world.limit && after.capacity.checked == s.now
              && (world.limit.Some? && 0 < world.limit.value <= s.queue.Size() ==>
                    reply.Wait? && after.queue == s.queue)
            else after.capacity.reported == s.capacity.reported && after.capacity.checked == s.capacity.checked
  {
    AttemptCapacity(s, job, requested, world);
    if Issues(s, job, requested, world) {
      IssueGuards(s, job, requested, world);
    }
  }

  /** What the submitters seen by an attempt ask for: its own maximum, and the leases of the last 45 seconds. */
  ghost function Claims(s: State, job: string, requested: int): map<string, int> {
    map n | n in s.leases.Keys + {job} && (n == job || (s.now - s.leases[n].updated <= 45 && s.leases[n].requested > 0))
      :: if n == job then requested else s.leases[n].requested
  }

  /** An attempt leaves its own lease and those of the last 45 seconds, and divides the slots among them. */
  lemma LeasesLeft(s: State, job: string, requested: int, world: World)
    requires requested >= 1
    ensures var leases := AfterAttempt(s, job, requested, world).0.leases;
            && (forall n :: n in leases <==> n == job || (n in s.leases && s.now - s.leases[n].updated <= 45))
            && (forall n :: n in leases ==> leases[n] == if n == job then Lease(requested, s.now) else s.leases[n])
            && Demands(leases) == Claims(s, job, requested)
  {
    assert AfterAttempt(s, job, requested, world).0.leases == Leased(s, job, requested);
  }

  /** A positive limit in force: the association limit, asked for if due, or an observation of the last 300 seconds. */
  ghost predicate InForce(s: State, world: World, limit: int) {
    && limit > 0
    && ((if s.now - s.capacity.checked > 300 then world.limit else s.capacity.reported) == Some(limit)
        || (s.now - s.capacity.observedAt < 300 && s.capacity.observed == Some(limit)))
  }

  /** A released job takes no part in the division until it asks again; nobody else's claim changes. */
  lemma ReleasedClaimsNothing(s: State, job: string, other: string, requested: int)
    requires job != other
    ensures Claims(Step(s, Release(job)), other, requested) == Claims(s, other, requested) - {job}
  {
  }

  lemma CeilingIsLeast(s: State, world: World)
    ensures var ceiling := Ceiling(Refreshed(s.capacity, s.now, world.limit), s.now);
            && (ceiling.Some? ==> InForce(s, world, ceiling.value))
            && (forall limit :: InForce(s, world, limit) ==> ceiling.Some? && ceiling.value <= limit)
  {
  }

  /** The tasks of jobs that take part in the division. */
  ghost function Claimed(queue: Queue, claims: map<string, int>): int {
    Total(map n | n in claims :: queue.Count(n))
  }

  /** Enough for all: everybody gets what it asks for. */
  lemma EnoughForAll(demands: map<string, int>, available: int, turn: int)
    requires 0 <= Total(demands) <= available
    ensures Targets(demands, available, turn) == demands
  {
    TargetsTotal(demands, available, turn);
    TargetsFair(demands, available, turn);
    TotalMonotone(Targets(demands, available, turn), demands);
  }

  /** The share of a submitter: what the fair division gives it of the slots the others leave of the ceiling. */
  lemma ShareSeen(queue: Queue, claims: map<string, int>, ceiling: Option<int>, turn: int, job: string, requested: int)
    requires queue.Valid() && job in claims && forall n :: n in claims ==> claims[n] >= 0
    ensures TargetOf(claims, queue, ceiling, turn, job, requested)
         == if ceiling.None? then claims[job]
            else ShareOfCeiling(queue, claims, ceiling.value, turn)[job]
  {
    if ceiling.None? {
      TotalNotNegative(claims);
      EnoughForAll(claims, Total(claims), turn);
    } else {
      ClaimedAndUnclaimed(queue, claims);
    }
  }

  lemma DecisionSeen(s: State, job: string, requested: int, world: World, ceiling: Option<int>)
    requires s.queue.Valid() && requested >= 1 && Ceiling(Refreshed(s.capacity, s.now, world.limit), s.now) == ceiling
    ensures var claims := Claims(s, job, requested);
            && job in claims && (forall n :: n in claims ==> claims[n] >= 0)
            && (Issues(s, job, requested, world) <==>
                  && world.queueReadable && (ceiling.Some? ==> s.queue.Size() < ceiling.value)
                  && s.queue.Count(job) < TargetOf(claims, s.queue, ceiling, s.capacity.turn, job, requested))
  {
    LeasesLeft(s, job, requested, world);
  }

  /** The decision under a known ceiling, in terms of the fair division. */
  lemma DecisionUnder(s: State, job: string, requested: int, world: World, ceiling: Option<int>)
    requires s.queue.Valid() && requested >= 1 && Ceiling(Refreshed(s.capacity, s.now, world.limit), s.now) == ceiling
    ensures var claims := Claims(s, job, requested);
            Issues(s, job, requested, world) <==>
              if ceiling.None? then world.queueReadable && s.queue.Count(job) < claims[job]
              else
                && world.queueReadable && s.queue.Size() < ceiling.value
                && s.queue.Count(job) < ShareOfCeiling(s.queue, claims, ceiling.value, s.capacity.turn)[job]
  {
    DecisionSeen(s, job, requested, world, ceiling);
    ShareSeen(s.queue, Claims(s, job, requested), ceiling, s.capacity.turn, job, requested);
  }

  /** The fair division of the ceiling less everything in the queue that is not of a live submitter. */
  ghost function ShareOfCeiling(queue: Queue, claims: map<string, int>, ceiling: int, turn: int): (t: map<string, int>)
    ensures t.Keys == claims.Keys
  {
    Targets(claims, ceiling - (queue.Size() - Claimed(queue, claims)), turn)
  }

  lemma LeastInForce(s: State, world: World, c: int)
    requires InForce(s, world, c) && forall d :: InForce(s, world, d) ==> c <= d
    ensures Ceiling(Refreshed(s.capacity, s.now, world.limit), s.now) == Some(c)
  {
    CeilingIsLeast(s, world);
  }

  /**
   The decision of an attempt in terms of what it can see. Without a limit in force it may fill up to its
   maximum; with the least limit c, its share is that of the fair division of what the others leave of c.
   */
  lemma AttemptDecides(s: State, job: string, requested: int, world: World)
    requires s.queue.Valid() && requested >= 1
    ensures (forall c :: !InForce(s, world, c)) ==>
              (Issues(s, job, requested, world) <==> world.queueReadable && s.queue.Count(job) < requested)
    ensures forall c :: InForce(s, world, c) && (forall d :: InForce(s, world, d) ==> c <= d) ==>
              var claims := Claims(s, job, requested);
              (Issues(s, job, requested, world) <==>
               && world.queueReadable && s.queue.Size() < c
               && s.queue.Count(job) < ShareOfCeiling(s.queue, claims, c, s.capacity.turn)[job])
  {
    if forall c :: !InForce(s, world, c) {
      CeilingIsLeast(s, world);
      DecisionUnder(s, job, requested, world, None);
    }
    forall c | InForce(s, world, c) && forall d :: InForce(s, world, d) ==> c <= d
      ensures Issues(s, job, requested, world) <==>
                && world.queueReadable && s.queue.Size() < c
                && s.queue.Count(job)
                     < ShareOfCeiling(s.queue, Claims(s, job, requested), c, s.capacity.turn)[job]
    {
      LeastInForce(s, world, c);
      DecisionUnder(s, job, requested, world, Some(c));
    }
  }

  /** What each reply tells about the queue and the capacity record, and when it is given. */
  lemma RepliesTell(s: State, job: string, requested: int, world: World)
    requires s.queue.Valid() && requested >= 1
    ensures var (after, reply) := AfterAttempt(s, job, requested, world);
            && (reply.Took? <==> Issues(s, job, requested, world) && world.sbatch == Accepted)
            && (reply.Limited? <==>
                  Issues(s, job, requested, world) && world.sbatch == LimitRejected && s.queue.Size() > 0)
            && (reply.Failed? ==> Issues(s, job, requested, world))
            && after.capacity.turn == s.capacity.turn + (if reply.Took? then 1 else 0)
            && (!reply.Limited? ==>
                  after.capacity.observed == s.capacity.observed && after.capacity.observedAt == s.capacity.observedAt)
            && match reply
               case Paused => !world.queueReadable && after.queue == s.queue
               case Wait(current, target) =>
                 && world.queueReadable && !Issues(s, job, requested, world) && after.queue == s.queue
                 && current == s.queue.Count(job)
               case Took(current, target, total) =>
                 && after.queue == s.queue.Add(job)
                 && current == after.queue.Count(job) <= target && total == after.queue.Size()
               case Limited(total, ceiling) =>
                 after.queue == s.queue && total == s.queue.Size() && after.capacity.observed == Some(ceiling)
               case Failed => world.sbatch != Accepted && (after.queue == s.queue || after.queue == s.queue.Add(job))
  {
    QueueNotNegative(s.queue);
    AddSize(s.queue, job);
    if Issues(s, job, requested, world) {
      IssuedOutcome(s, job, requested, world);
    }
  }

  lemma IssuedOutcome(s: State, job: string, requested: int, world: World)
    requires Issues(s, job, requested, world)
    ensures var capacity := Refreshed(s.capacity, s.now, world.limit);
            var demands := Demands(Leased(s, job, requested));
            var target := TargetOf(demands, s.queue, Ceiling(capacity, s.now), capacity.turn, job, requested);
            var (capacity', queue', reply) := AttemptOutcome(capacity, s.queue, s.now, job, target, world.sbatch);
            && AfterAttempt(s, job, requested, world)
                 == (State(Leased(s, job, requested), capacity', queue', s.now), reply)
            && s.queue.Count(job) < target
  {
  }

  // ---------------------------------------------------------------- the observed ceiling

  /** A ceiling of at most `n` has been observed, no earlier than `since`. */
  ghost predicate ObservedBelow(capacity: Capacity, n: int, since: int) {
    capacity.observed.Some? && 0 < capacity.observed.value <= n && capacity.observedAt >= since
  }

  lemma ObservationKept(s: State, e: Event, n: int, since: int)
    requires s.queue.Valid() && s.now >= since && ObservedBelow(s.capacity, n, since)
    ensures ObservedBelow(Step(s, e).capacity, n, since) && Step(s, e).now >= since
  {
    if e.Try? {
      QueueNotNegative(s.queue);
      AttemptCapacity(s, e.job, e.requested, e.world);
      AttemptQueue(s, e.job, e.requested, e.world);
    }
  }

  lemma TotalNotNegative(m: map<string, int>)
    requires forall n :: n in m ==> m[n] >= 0
    ensures Total(m) >= 0
  {
    var none: set<string> := {};
    var zeros := map n | n in m.Keys :: 0 + (if n in none then 1 else 0);
    TotalLevel(m.Keys, none, 0);
    assert Total(zeros) == 0;
    TotalMonotone(zeros, m);
  }

  lemma QueueNotNegative(queue: Queue)
    requires queue.Valid()
    ensures queue.Size() >= 0
  {
    TotalNotNegative(queue.own);
  }

  lemma {:induction false} ObservationKeptOverRun(s: State, events: seq<Event>, n: int, since: int)
    requires s.queue.Valid() && s.now >= since && ObservedBelow(s.capacity, n, since)
    ensures ObservedBelow(Run(s, events).capacity, n, since) && Run(s, events).now >= since
            && Run(s, events).queue.Valid()
    decreases |events|
  {
    if events != [] {
      StepKeepsQueueValid(s, events[0]);
      ObservationKept(s, events[0], n, since);
      ObservationKeptOverRun(Step(s, events[0]), events[1..], n, since);
    }
  }

  lemma IssuedBelowObservation(t: State, next: string, asked: int, later: World, n: int, since: int)
    requires asked >= 1 && ObservedBelow(t.capacity, n, since)
    requires t.now - since < OBSERVATION_SECONDS && Issues(t, next, asked, later)
    ensures t.queue.Size() < n
  {
    IssueGuards(t, next, asked, later);
  }

  lemma LimitedOutcome(s: State, job: string, requested: int, world: World)
    requires AfterAttempt(s, job, requested, world).1.Limited?
    ensures var (first, reply) := AfterAttempt(s, job, requested, world);
            && s.queue.Size() != 0 && first.queue == s.queue && first.now == s.now
            && first.capacity == Observe(Refreshed(s.capacity, s.now, world.limit), s.queue.Size(), s.now)
            && first.capacity.observed == Some(reply.ceiling)
  {
  }

  lemma LimitedObserves(s: State, job: string, requested: int, world: World)
    requires s.queue.Valid() && AfterAttempt(s, job, requested, world).1.Limited?
    ensures var (first, reply) := AfterAttempt(s, job, requested, world);
            && first.queue.Valid() && first.now == s.now && first.capacity.observed == Some(reply.ceiling)
            && ObservedBelow(first.capacity, reply.ceiling, s.now) && reply.ceiling <= s.queue.Size()
  {
    LimitedOutcome(s, job, requested, world);
    QueueNotNegative(s.queue);
  }

  /**
   After the cluster rejected a submission, no sbatch is issued at or above the observed ceiling recorded
   then while that observation is younger than five minutes, whatever happens in between. The ceiling is
   at most the number of queued tasks at the rejection.
   */
  lemma LimitRespected(s: State, job: string, requested: int, world: World, events: seq<Event>,
                       next: string, asked: int, later: World)
    requires s.queue.Valid() && asked >= 1
    requires AfterAttempt(s, job, requested, world).1.Limited?
    requires var t := Run(AfterAttempt(s, job, requested, world).0, events);
             t.now - s.now < OBSERVATION_SECONDS && Issues(t, next, asked, later)
    ensures var (first, reply) := AfterAttempt(s, job, requested, world);
            Run(first, events).queue.Size() < reply.ceiling <= s.queue.Size()
  {
    var (first, reply) := AfterAttempt(s, job, requested, world);
    LimitedObserves(s, job, requested, world);
    ObservationKeptOverRun(first, events, reply.ceiling, s.now);
    IssuedBelowObservation(Run(first, events), next, asked, later, reply.ceiling, s.now);
  }

  /** The recorded ceiling never rises again, not even after the observation it came from has expired. */
  lemma ObservedNeverRises(s: State, events: seq<Event>)
    requires s.queue.Valid() && Positive(s.capacity.observed).Some? && s.capacity.observedAt <= s.now
    ensures var last := Run(s, events).capacity.observed;
            last.Some? && 0 < last.value <= s.capacity.observed.value
  {
    ObservationKeptOverRun(s, events, s.capacity.observed.value, s.capacity.observedAt);
  }

  /**
   A rejection at `total` tasks records `total` exactly when no lower ceiling was ever observed before;
   an expired lower observation comes back into force for another five minutes.
   */
  lemma RejectionRecordsTotal(s: State, job: string, requested: int, world: World)
    requires AfterAttempt(s, job, requested, world).1.Limited?
    ensures var after := AfterAttempt(s, job, requested, world).0;
            && after.capacity.observedAt == s.now
            && (after.capacity.observed == Some(s.queue.Size()) <==>
                (Positive(s.capacity.observed).None? || s.capacity.observed.value >= s.queue.Size()))
  {
    LimitedOutcome(s, job, requested, world);
  }

  /** A single submitter that asks for one slot and may have it gets it. */
  lemma OneSlotForOne(job: string, turn: int)
    ensures Targets(map[job := 1], 1, turn)[job] == 1
  {
    var demands := map[job := 1];
    TotalUpdate(map[], job, 1);
    TargetsTotal(demands, 1, turn);
    TargetsFair(demands, 1, turn);
    TotalMonotone(Targets(demands, 1, turn), demands);
  }

  lemma FirstAttemptIssues(s: State, job: string, world: World)
    requires s.leases == map[] && world.queueReadable && s.queue.own == map[]
    requires Ceiling(Refreshed(s.capacity, s.now, world.limit), s.now) == None
    ensures Issues(s, job, 1, world)
  {
    var demands := Demands(Leased(s, job, 1));
    assert demands == map[job := 1];
    TotalUpdate(map[], job, 1);
    OneSlotForOne(job, Refreshed(s.capacity, s.now, world.limit).turn);
  }

  /** A ceiling of 10 seen long ago is enforced again after a rejection at 100 tasks. */
  lemma ExpiredCeilingReturns()
    ensures var s := State(map[], Capacity(None, 1000, Some(10), 0, 0), Queue(map[], 100), 1000);
            var world := World(true, None, LimitRejected);
            var after := AfterAttempt(s, "job", 1, world).0;
            Ceiling(s.capacity, s.now) == None && Ceiling(after.capacity, after.now) == Some(10)
  {
    var s := State(map[], Capacity(None, 1000, Some(10), 0, 0), Queue(map[], 100), 1000);
    var world := World(true, None, LimitRejected);
    FirstAttemptIssues(s, "job", world);
    assert s.queue.Size() == 100;
  }
}
