/**
 Who gets the next free slot. The turn of the rotation advances only with an accepted submission, so a job
 is served when it asks in time, and may be passed over for ever when it does not.
 */
module Turns {
  import opened Numbers
  import opened Options
  import opened Totals
  import opened Names
  import Division
  import opened FairShare
  import opened Coordinator

  // ---------------------------------------------------------------- the best turn

  /** The most slots a job is entitled to at any turn. */
  ghost function BestShare(demands: map<string, int>, available: int, job: string): int
    requires job in demands
  {
    var last := LastRound(demands, available);
    if job in last.waiting then last.level + (if last.extra > 0 then 1 else 0) else demands[job]
  }

  /** After how many turns the shares repeat. */
  ghost function Cycle(demands: map<string, int>, available: int, job: string): nat {
    var waiting := LastRound(demands, available).waiting;
    if job in waiting then |waiting| else 1
  }

  lemma {:induction false} SomeHit(k: nat, n: nat, extra: nat, start: int, turns: nat) returns (turn: int)
    requires k < n && Hits(k, n, extra, start, turns) > 0
    ensures start <= turn < start + turns && Hit(k, n, extra, Division.Phase(turn, n)) == 1
  {
    if Hit(k, n, extra, Division.Phase(start + turns - 1, n)) == 1 {
      turn := start + turns - 1;
    } else {
      turn := SomeHit(k, n, extra, start, turns - 1);
    }
  }

  /** Among any cycle of consecutive turns there is one at which the job is entitled to its best share. */
  lemma BestTurn(demands: map<string, int>, available: int, job: string, start: int) returns (turn: int)
    requires job in demands
    ensures start <= turn < start + Cycle(demands, available, job)
    ensures Target(demands, available, job, turn) == BestShare(demands, available, job)
  {
    var last := LastRound(demands, available);
    turn := start;
    if job in last.waiting {
      LastRoundSound(demands, available, start);
      var k := PositionOf(last.waiting, job);
      if last.extra > 0 {
        HitsPerCycle(k, |last.waiting|, last.extra, start);
        turn := SomeHit(k, |last.waiting|, last.extra, start, |last.waiting|);
      }
      TargetByHit(demands, available, last, k, job, turn);
    }
  }

  /** With a slot to divide, everybody who asks for one is entitled to one at some turn. */
  lemma BestSharePositive(demands: map<string, int>, available: int, job: string)
    requires job in demands && available > 0 && forall n :: n in demands ==> demands[n] > 0
    ensures BestShare(demands, available, job) > 0
    ensures Cycle(demands, available, job) <= |demands|
  {
    var last := LastRound(demands, available);
    LastRoundSound(demands, available, 0);
    SubsetSize(last.waiting, demands.Keys);
    SubsetSize({job}, demands.Keys);
    if job in last.waiting && last.level == 0 {
      forall n | n in demands
        ensures n in last.waiting
      {
      }
      LastExact(demands, demands.Keys, available);
      assert demands.Keys - last.waiting == {};
      assert Restrict(demands, {}) == map[];
    }
  }

  // ---------------------------------------------------------------- served within a cycle

  /** Event `i` of the run is an attempt of `job` that calls sbatch. */
  ghost predicate Called(s: State, events: seq<Event>, i: nat, job: string) {
    && i < |events| && events[i].Try? && events[i].job == job
    && Issues(Run(s, events[..i]), job, events[i].requested, events[i].world)
  }

  /**
   Event `i` is an attempt of `job` at this turn that sees these demands, this many slots to divide,
   and a queue below the ceiling.
   */
  ghost predicate SeesFreeSlot(s: State, events: seq<Event>, i: nat, job: string,
                               demands: map<string, int>, available: int, turn: int) {
    && i < |events| && events[i].Try? && events[i].job == job && events[i].world.queueReadable
    && var t := Run(s, events[..i]);
       var capacity := Refreshed(t.capacity, t.now, events[i].world.limit);
       var ceiling := Ceiling(capacity, t.now);
       && Demands(Leased(t, job, events[i].requested)) == demands && Available(demands, t.queue, ceiling) == available
       && capacity.turn == turn && (ceiling.Some? ==> t.queue.Size() < ceiling.value)
  }

  ghost predicate FindsSlot(s: State, events: seq<Event>, job: string, demands: map<string, int>, available: int,
                            turn: int) {
    exists i :: 0 <= i < |events| && SeesFreeSlot(s, events, i, job, demands, available, turn)
  }

  lemma {:induction false} RunStep(s: State, events: seq<Event>, e: Event)
    ensures Run(s, events + [e]) == Step(Run(s, events), e)
    decreases |events|
  {
    if events == [] {
      assert [e][1..] == [];
    } else {
      assert (events + [e])[1..] == events[1..] + [e];
      RunStep(Step(s, events[0]), events[1..], e);
    }
  }

  lemma CountStep(s: State, e: Event, job: string)
    ensures Step(s, e).queue.Count(job) <= s.queue.Count(job)
            || (e.Try? && e.job == job && Issues(s, job, e.requested, e.world))
  {
    if e.Try? {
      AttemptQueue(s, e.job, e.requested, e.world);
    }
  }

  /** A job gets no new element without a call of sbatch. */
  lemma {:induction false} CountNotRaised(s: State, events: seq<Event>, i: nat, job: string)
    requires i <= |events| && forall m :: 0 <= m < i ==> !Called(s, events, m, job)
    ensures Run(s, events[..i]).queue.Count(job) <= s.queue.Count(job)
  {
    if i > 0 {
      CountNotRaised(s, events, i - 1, job);
      assert !Called(s, events, i - 1, job);
      assert events[..i] == events[..i - 1] + [events[i - 1]];
      RunStep(s, events[..i - 1], events[i - 1]);
      CountStep(Run(s, events[..i - 1]), events[i - 1], job);
    }
  }

  lemma CalledAtTarget(s: State, events: seq<Event>, i: nat, job: string, demands: map<string, int>, available: int,
                       turn: int)
    requires job in demands && SeesFreeSlot(s, events, i, job, demands, available, turn)
    requires Run(s, events[..i]).queue.Count(job) < Target(demands, available, job, turn)
    ensures Called(s, events, i, job)
  {
  }

  /**
   In any run, a job below its best share that sees a free slot once at each turn of a cycle, among the same
   demands and slots, calls sbatch.
   */
  lemma ServedWithinCycle(s: State, events: seq<Event>, job: string, demands: map<string, int>, available: int,
                          start: int)
    requires job in demands && s.queue.Count(job) < BestShare(demands, available, job)
    requires forall turn :: start <= turn < start + Cycle(demands, available, job) ==>
               FindsSlot(s, events, job, demands, available, turn)
    ensures exists i :: 0 <= i < |events| && Called(s, events, i, job)
  {
    var turn := BestTurn(demands, available, job, start);
    assert FindsSlot(s, events, job, demands, available, turn);
    var i :| 0 <= i < |events| && SeesFreeSlot(s, events, i, job, demands, available, turn);
    if forall m :: 0 <= m < i ==> !Called(s, events, m, job) {
      CountNotRaised(s, events, i, job);
      CalledAtTarget(s, events, i, job, demands, available, turn);
    }
  }

  /** So a job with nothing queued waits for no more turns than there are submitters. */
  lemma ServedWithinSubmitters(s: State, events: seq<Event>, job: string, demands: map<string, int>, available: int,
                               start: int)
    requires job in demands && available > 0 && (forall n :: n in demands ==> demands[n] > 0) && s.queue.Count(job) == 0
    requires forall turn :: start <= turn < start + |demands| ==>
               FindsSlot(s, events, job, demands, available, turn)
    ensures exists i :: 0 <= i < |events| && Called(s, events, i, job)
  {
    BestSharePositive(demands, available, job);
    ServedWithinCycle(s, events, job, demands, available, start);
  }

  // ---------------------------------------------------------------- passed over for ever

  const LIMIT_TWO := World(true, Some(2), Accepted)

  /** The three names are in alphabetical order. */
  predicate InOrder(x: string, y: string, z: string) { Precedes(x, y) && Precedes(y, z) }

  lemma ThreeNames(x: string, y: string, z: string)
    requires InOrder(x, y, z)
    ensures x != y && y != z && x != z
  {
    PrecedesTransitive(x, y, z);
    PrecedesAsymmetric(x, y);
    PrecedesAsymmetric(y, z);
    PrecedesAsymmetric(x, z);
  }

  lemma SortedThree(x: string, y: string, z: string)
    requires InOrder(x, y, z)
    ensures |{x, y, z}| == 3 && SortedNames({x, y, z}) == [x, y, z]
  {
    ThreeNames(x, y, z);
    SortedTwo({x, y, z}, y, z);
    PrecedesTransitive(x, y, z);
    SortedFront({x, y, z}, {x, y, z}, x);
    assert {x, y, z} - {x} == {y, z};
    RotationInRange({x, y, z});
  }

  lemma SortedTwo(all: set<string>, y: string, z: string)
    requires {y, z} <= all && Precedes(y, z)
    ensures Sorted(map n | n in all :: 0, {y, z}) == [y, z]
  {
    PrecedesAsymmetric(y, z);
    SortedFront(all, {y, z}, y);
    assert {y, z} - {y} == {z};
    SortedFront(all, {z}, z);
    assert {z} - {z} == {};
  }

  lemma SortedFront(all: set<string>, w: set<string>, first: string)
    requires w <= all && first in w && forall n :: n in w && n != first ==> Precedes(first, n)
    ensures Sorted(map n | n in all :: 0, w) == [first] + Sorted(map n | n in all :: 0, w - {first})
  {
    var key := map n | n in all :: 0;
    assert IsSmallest(key, w, first);
    SmallestUnique(key, w, Smallest(key, w), first);
  }

  ghost function OneEach(names: set<string>): map<string, int> { map n | n in names :: 1 }

  /** Two slots among three that ask for one each: all but one, in turn. */
  lemma TwoForThree(x: string, y: string, z: string, k: nat, turn: int)
    requires InOrder(x, y, z) && k < 3
    ensures Targets(OneEach({x, y, z}), 2, turn)[[x, y, z][k]] == Hit(k, 3, 2, Division.Phase(turn, 3))
  {
    SortedThree(x, y, z);
    var demands := OneEach({x, y, z});
    assert demands.Keys == {x, y, z};
    assert Division.Quotient(2, 3) == 0 && Division.Remainder(2, 3) == 2;
    assert LastRound(demands, 2) == Round({x, y, z}, 0, 2);
    assert [x, y, z][k] in demands;
    TargetByHit(demands, 2, LastRound(demands, 2), k, [x, y, z][k], turn);
  }

  /** The three jobs are live and ask for one slot each, the limit is two, and nothing else is queued. */
  ghost predicate Racing(s: State, x: string, y: string, z: string) {
    && InOrder(x, y, z) && s.leases.Keys == {x, y, z}
    && (forall n :: n in s.leases ==> s.leases[n].requested == 1 && s.now - s.leases[n].updated <= LEASE_SECONDS)
    && s.capacity.reported == Some(2) && Positive(s.capacity.observed).None?
    && s.queue.Valid() && s.queue.other == 0 && s.queue.own.Keys <= {x, y, z}
  }

  lemma SizeOfThree(queue: Queue, x: string, y: string, z: string)
    requires InOrder(x, y, z) && queue.Valid() && queue.other == 0 && queue.own.Keys <= {x, y, z}
    ensures queue.Size() == queue.Count(x) + queue.Count(y) + queue.Count(z)
  {
    ThreeNames(x, y, z);
    PadWithZeros(queue.own, map[x := queue.Count(x), y := queue.Count(y), z := queue.Count(z)]);
    TotalUpdate(map[], x, queue.Count(x));
    TotalUpdate(map[x := queue.Count(x)], y, queue.Count(y));
    TotalUpdate(map[x := queue.Count(x), y := queue.Count(y)], z, queue.Count(z));
  }

  lemma AllClaimed(queue: Queue, demands: map<string, int>)
    requires queue.own.Keys <= demands.Keys
    ensures Unclaimed(queue.own, demands) == 0
  {
    assert (map n | n in queue.own && n !in demands :: queue.own[n]) == map[];
  }

  lemma RacingDemands(s: State, x: string, y: string, z: string, k: nat)
    requires Racing(s, x, y, z) && k < 3
    ensures var leases := Leased(s, [x, y, z][k], 1);
            leases == s.leases[[x, y, z][k] := Lease(1, s.now)] && Demands(leases) == OneEach({x, y, z})
    ensures Unclaimed(s.queue.own, OneEach({x, y, z})) == 0
  {
    var job := [x, y, z][k];
    assert Leased(s, job, 1) == s.leases[job := Lease(1, s.now)];
    assert Demands(Leased(s, job, 1)) == OneEach({x, y, z});
    AllClaimed(s.queue, OneEach({x, y, z}));
  }

  lemma RacingIssues(s: State, x: string, y: string, z: string, k: nat)
    requires Racing(s, x, y, z) && k < 3
    ensures Issues(s, [x, y, z][k], 1, LIMIT_TWO) <==>
            s.queue.Count([x, y, z][k]) < Hit(k, 3, 2, Division.Phase(s.capacity.turn, 3)) && s.queue.Size() < 2
  {
    var job, demands := [x, y, z][k], OneEach({x, y, z});
    RacingDemands(s, x, y, z, k);
    TwoForThree(x, y, z, k, s.capacity.turn);
    var capacity := Refreshed(s.capacity, s.now, Some(2));
    assert TargetOf(demands, s.queue, Ceiling(capacity, s.now), capacity.turn, job, 1)
        == Hit(k, 3, 2, Division.Phase(s.capacity.turn, 3));
  }

  /** What an attempt of one of the three does. */
  lemma RacingTry(s: State, x: string, y: string, z: string, k: nat)
    requires Racing(s, x, y, z) && k < 3
    ensures var job := [x, y, z][k];
            var after := Step(s, Try(job, 1, LIMIT_TWO));
            var goes := s.queue.Count(job) < Hit(k, 3, 2, Division.Phase(s.capacity.turn, 3)) && s.queue.Size() < 2;
            && Racing(after, x, y, z) && after.leases == s.leases[job := Lease(1, s.now)] && after.now == s.now
            && after.queue == (if goes then s.queue.Add(job) else s.queue)
            && after.capacity.turn == s.capacity.turn + if goes then 1 else 0
  {
    RacingDemands(s, x, y, z, k);
    RacingIssues(s, x, y, z, k);
    AddSize(s.queue, [x, y, z][k]);
  }

  lemma RacingFinish(s: State, x: string, y: string, z: string, job: string)
    requires Racing(s, x, y, z)
    ensures Racing(Step(s, Finish(job)), x, y, z)
  {
    RemoveSize(s.queue, job);
  }

  /** The race with these numbers of queued elements, at this phase of the rotation. */
  ghost predicate At(s: State, x: string, y: string, z: string, counts: seq<int>, phase: nat) {
    && Racing(s, x, y, z) && Division.Phase(s.capacity.turn, 3) == phase
    && counts == [s.queue.Count(x), s.queue.Count(y), s.queue.Count(z)]
  }

  lemma NextPhase(turn: int)
    ensures Division.Phase(turn + 1, 3) == if Division.Phase(turn, 3) == 2 then 0 else Division.Phase(turn, 3) + 1
  {
    Division.BuiltinPhase(turn, 3);
    Division.BuiltinPhase(turn + 1, 3);
  }

  /** An attempt at a full queue only renews the lease. */
  lemma TryFull(s: State, x: string, y: string, z: string, k: nat, counts: seq<int>, phase: nat)
    requires At(s, x, y, z, counts, phase) && k < 3 && counts[0] + counts[1] + counts[2] == 2
    ensures var after := Step(s, Try([x, y, z][k], 1, LIMIT_TWO));
            && At(after, x, y, z, counts, phase) && after.capacity.turn == s.capacity.turn
            && after.now == s.now && after.leases == s.leases[[x, y, z][k] := Lease(1, s.now)]
  {
    SizeOfThree(s.queue, x, y, z);
    RacingTry(s, x, y, z, k);
  }

  lemma SlotFreed(s: State, x: string, y: string, z: string, k: nat, counts: seq<int>, phase: nat)
    requires At(s, x, y, z, counts, phase) && k < 3 && counts[k] == 1
    ensures var after := Step(s, Finish([x, y, z][k]));
            && At(after, x, y, z, counts[k := 0], phase) && after.capacity.turn == s.capacity.turn
            && after.now == s.now && after.leases == s.leases
  {
    ThreeNames(x, y, z);
    RacingFinish(s, x, y, z, [x, y, z][k]);
  }

  lemma CountAdded(queue: Queue, x: string, y: string, z: string, k: nat)
    requires InOrder(x, y, z) && k < 3
    ensures var counts, added := [queue.Count(x), queue.Count(y), queue.Count(z)], queue.Add([x, y, z][k]);
            [added.Count(x), added.Count(y), added.Count(z)] == counts[k := counts[k] + 1]
  {
    ThreeNames(x, y, z);
  }

  /** A job with nothing queued takes the free slot when it is its turn. */
  lemma SlotTaken(s: State, x: string, y: string, z: string, k: nat, counts: seq<int>, phase: nat)
    requires At(s, x, y, z, counts, phase) && k < 3 && counts[0] + counts[1] + counts[2] == 1 && counts[k] == 0
    requires phase < 3 && Hit(k, 3, 2, phase) == 1
    ensures var after := Step(s, Try([x, y, z][k], 1, LIMIT_TWO));
            && At(after, x, y, z, counts[k := 1], if phase == 2 then 0 else phase + 1)
            && after.capacity.turn == s.capacity.turn + 1
            && after.now == s.now && after.leases == s.leases[[x, y, z][k] := Lease(1, s.now)]
  {
    SizeOfThree(s.queue, x, y, z);
    RacingTry(s, x, y, z, k);
    CountAdded(s.queue, x, y, z, k);
    NextPhase(s.capacity.turn);
  }

  /** Job `k` ends its element and gets the freed slot again, because it polls first and it is its turn. */
  lemma TakeAgain(s: State, x: string, y: string, z: string, k: nat, counts: seq<int>, phase: nat)
    requires At(s, x, y, z, counts, phase) && k < 3 && counts[0] + counts[1] + counts[2] == 2 && counts[k] == 1
    requires phase < 3 && Hit(k, 3, 2, phase) == 1
    ensures var job := [x, y, z][k];
            var after := Step(Step(s, Finish(job)), Try(job, 1, LIMIT_TWO));
            && At(after, x, y, z, counts, if phase == 2 then 0 else phase + 1)
            && after.capacity.turn == s.capacity.turn + 1
            && after.now == s.now && after.leases == s.leases[job := Lease(1, s.now)]
  {
    SlotFreed(s, x, y, z, k, counts, phase);
    SlotTaken(Step(s, Finish([x, y, z][k])), x, y, z, k, counts[k := 0], phase);
    assert counts[k := 0][k := 1] == counts;
  }

  /** `x` ends an element and gets the slot again before `y` asks. */
  function Opening(x: string, y: string): seq<Event> {
    [Finish(x), Try(x, 1, LIMIT_TWO), Try(y, 1, LIMIT_TWO)]
  }

  /** One round of polls, in which `z` keeps its slot. */
  function FirstRound(x: string, y: string, z: string, seconds: nat): seq<Event> {
    Opening(x, y) + [Try(z, 1, LIMIT_TWO)] + [Tick(seconds)]
  }

  /** The next round, in which `z` gets its slot again too. */
  function SecondRound(x: string, y: string, z: string, seconds: nat): seq<Event> {
    Opening(x, y) + [Finish(z), Try(z, 1, LIMIT_TWO)] + [Tick(seconds)]
  }

  function Rounds(x: string, y: string, z: string, seconds: nat, n: nat): seq<Event> {
    if n == 0 then []
    else Rounds(x, y, z, seconds, n - 1) + (FirstRound(x, y, z, seconds) + SecondRound(x, y, z, seconds))
  }

  lemma {:induction false} RunJoined(s: State, a: seq<Event>, b: seq<Event>)
    ensures Run(s, a + b) == Run(Run(s, a), b)
    decreases |a|
  {
    if a == [] {
      assert a + b == b;
    } else {
      assert (a + b)[1..] == a[1..] + b;
      RunJoined(Step(s, a[0]), a[1..], b);
    }
  }

  lemma RunOne(s: State, a: Event)
    ensures Run(s, [a]) == Step(s, a)
  {
    assert [a][1..] == [];
  }

  lemma RunTwo(s: State, a: Event, b: Event)
    ensures Run(s, [a, b]) == Step(Step(s, a), b)
  {
    assert [a, b] == [a] + [b];
    RunStep(s, [a], b);
    RunOne(s, a);
  }

  lemma RunThree(s: State, a: Event, b: Event, c: Event)
    ensures Run(s, [a, b, c]) == Step(Step(Step(s, a), b), c)
  {
    assert [a, b, c] == [a, b] + [c];
    RunStep(s, [a, b], c);
    RunTwo(s, a, b);
  }

  ghost predicate AllRenewed(s: State) {
    forall n :: n in s.leases ==> s.leases[n].updated == s.now
  }

  lemma Ticked(s: State, x: string, y: string, z: string, phase: nat, seconds: nat) returns (after: State)
    requires At(s, x, y, z, [1, 0, 1], phase) && seconds <= LEASE_SECONDS && AllRenewed(s)
    ensures after == Run(s, [Tick(seconds)])
    ensures At(after, x, y, z, [1, 0, 1], phase) && after.capacity.turn == s.capacity.turn
  {
    RunOne(s, Tick(seconds));
    after := Step(s, Tick(seconds));
  }

  lemma OpeningPasses(s: State, x: string, y: string, z: string, phase: nat) returns (after: State)
    requires At(s, x, y, z, [1, 0, 1], phase) && (phase == 2 || phase == 0)
    ensures after == Run(s, Opening(x, y))
    ensures At(after, x, y, z, [1, 0, 1], if phase == 2 then 0 else 1) && after.capacity.turn == s.capacity.turn + 1
    ensures after.now == s.now && after.leases == s.leases[x := Lease(1, s.now)][y := Lease(1, s.now)]
  {
    TakeAgain(s, x, y, z, 0, [1, 0, 1], phase);
    var again := Step(Step(s, Finish(x)), Try(x, 1, LIMIT_TWO));
    TryFull(again, x, y, z, 1, [1, 0, 1], if phase == 2 then 0 else 1);
    RunThree(s, Finish(x), Try(x, 1, LIMIT_TWO), Try(y, 1, LIMIT_TWO));
    after := Step(again, Try(y, 1, LIMIT_TWO));
  }

  lemma Renewed(s: State, s': State, x: string, y: string, z: string)
    requires s.leases.Keys == {x, y, z} && s'.leases == s.leases[z := Lease(1, s.now)] && s'.now == s.now
    requires s.leases[x].updated == s.leases[y].updated == s.now
    ensures AllRenewed(s')
  {
  }

  lemma KeepsSlot(s: State, x: string, y: string, z: string) returns (after: State)
    requires At(s, x, y, z, [1, 0, 1], 0)
    requires s.leases[x].updated == s.leases[y].updated == s.now
    ensures after == Run(s, [Try(z, 1, LIMIT_TWO)])
    ensures At(after, x, y, z, [1, 0, 1], 0) && after.capacity.turn == s.capacity.turn && AllRenewed(after)
  {
    TryFull(s, x, y, z, 2, [1, 0, 1], 0);
    RunOne(s, Try(z, 1, LIMIT_TWO));
    after := Step(s, Try(z, 1, LIMIT_TWO));
    Renewed(s, after, x, y, z);
  }

  lemma GetsSlotAgain(s: State, x: string, y: string, z: string) returns (after: State)
    requires At(s, x, y, z, [1, 0, 1], 1)
    requires s.leases[x].updated == s.leases[y].updated == s.now
    ensures after == Run(s, [Finish(z), Try(z, 1, LIMIT_TWO)])
    ensures At(after, x, y, z, [1, 0, 1], 2) && after.capacity.turn == s.capacity.turn + 1 && AllRenewed(after)
  {
    TakeAgain(s, x, y, z, 2, [1, 0, 1], 1);
    RunTwo(s, Finish(z), Try(z, 1, LIMIT_TWO));
    after := Step(Step(s, Finish(z)), Try(z, 1, LIMIT_TWO));
    Renewed(s, after, x, y, z);
  }

  lemma FirstRoundPasses(s: State, x: string, y: string, z: string, seconds: nat) returns (after: State)
    requires At(s, x, y, z, [1, 0, 1], 2) && seconds <= LEASE_SECONDS
    ensures after == Run(s, FirstRound(x, y, z, seconds))
    ensures At(after, x, y, z, [1, 0, 1], 0) && after.capacity.turn == s.capacity.turn + 1
  {
    ThreeNames(x, y, z);
    var begun := OpeningPasses(s, x, y, z, 2);
    var polled := KeepsSlot(begun, x, y, z);
    after := Ticked(polled, x, y, z, 0, seconds);
    RunJoined(s, Opening(x, y), [Try(z, 1, LIMIT_TWO)]);
    RunJoined(s, Opening(x, y) + [Try(z, 1, LIMIT_TWO)], [Tick(seconds)]);
  }

  lemma SecondRoundPasses(s: State, x: string, y: string, z: string, seconds: nat) returns (after: State)
    requires At(s, x, y, z, [1, 0, 1], 0) && seconds <= LEASE_SECONDS
    ensures after == Run(s, SecondRound(x, y, z, seconds))
    ensures At(after, x, y, z, [1, 0, 1], 2) && after.capacity.turn == s.capacity.turn + 2
  {
    ThreeNames(x, y, z);
    var begun := OpeningPasses(s, x, y, z, 0);
    var polled := GetsSlotAgain(begun, x, y, z);
    after := Ticked(polled, x, y, z, 2, seconds);
    RunJoined(s, Opening(x, y), [Finish(z), Try(z, 1, LIMIT_TWO)]);
    RunJoined(s, Opening(x, y) + [Finish(z), Try(z, 1, LIMIT_TWO)], [Tick(seconds)]);
  }

  lemma {:induction false} RoundsPass(s: State, x: string, y: string, z: string, seconds: nat, n: nat)
    requires At(s, x, y, z, [1, 0, 1], 2) && seconds <= LEASE_SECONDS
    ensures var after := Run(s, Rounds(x, y, z, seconds, n));
            At(after, x, y, z, [1, 0, 1], 2) && after.capacity.turn == s.capacity.turn + 3 * n
  {
    if n > 0 {
      RoundsPass(s, x, y, z, seconds, n - 1);
      var before := Run(s, Rounds(x, y, z, seconds, n - 1));
      var half := FirstRoundPasses(before, x, y, z, seconds);
      var after := SecondRoundPasses(half, x, y, z, seconds);
      RunJoined(before, FirstRound(x, y, z, seconds), SecondRound(x, y, z, seconds));
      RunJoined(s, Rounds(x, y, z, seconds, n - 1), FirstRound(x, y, z, seconds) + SecondRound(x, y, z, seconds));
    }
  }

  /** No element of `job` ends, and sbatch accepts whatever it submits. */
  predicate Unhindered(events: seq<Event>, job: string) {
    forall e :: e in events ==> e != Finish(job) && (e.Try? ==> e.world.sbatch == Accepted)
  }

  lemma {:induction false} RoundsUnhindered(x: string, y: string, z: string, seconds: nat, n: nat)
    requires x != y && z != y
    ensures Unhindered(Rounds(x, y, z, seconds, n), y)
  {
    if n > 0 {
      RoundsUnhindered(x, y, z, seconds, n - 1);
    }
  }

  lemma {:induction false} CountNotLowered(s: State, events: seq<Event>, i: nat, job: string)
    requires i <= |events| && Unhindered(events, job)
    ensures Run(s, events[..i]).queue.Count(job) <= Run(s, events).queue.Count(job)
    decreases |events| - i
  {
    if i < |events| {
      CountNotLowered(s, events, i + 1, job);
      assert events[..i + 1] == events[..i] + [events[i]];
      RunStep(s, events[..i], events[i]);
      assert events[i] in events;
      CountKept(Run(s, events[..i]), events[i], job);
    } else {
      assert events[..i] == events;
    }
  }

  lemma CountKept(s: State, e: Event, job: string)
    requires e != Finish(job)
    ensures s.queue.Count(job) <= Step(s, e).queue.Count(job)
  {
    if e.Try? {
      AttemptQueue(s, e.job, e.requested, e.world);
    }
  }

  lemma AcceptedCounts(s: State, job: string, requested: int, world: World)
    requires Issues(s, job, requested, world) && world.sbatch == Accepted
    ensures Step(s, Try(job, requested, world)).queue.Count(job) == s.queue.Count(job) + 1
  {
  }

  /** Such a run that ends with no more elements of `job` than it began with has no call of sbatch for it. */
  lemma NotCalled(s: State, events: seq<Event>, m: nat, job: string)
    requires Unhindered(events, job) && Run(s, events).queue.Count(job) <= s.queue.Count(job)
    ensures !Called(s, events, m, job)
  {
    if Called(s, events, m, job) {
      CountNotLoweredFromStart(s, events, m, job);
      CalledCounts(s, events, m, job);
      CountNotLowered(s, events, m + 1, job);
    }
  }

  lemma CalledCounts(s: State, events: seq<Event>, m: nat, job: string)
    requires Called(s, events, m, job) && Unhindered(events, job)
    ensures Run(s, events[..m + 1]).queue.Count(job) == Run(s, events[..m]).queue.Count(job) + 1
  {
    var e := events[m];
    assert e in events;
    AcceptedCounts(Run(s, events[..m]), job, e.requested, e.world);
    assert events[..m + 1] == events[..m] + [e];
    RunStep(s, events[..m], e);
  }

  lemma CountNotLoweredFromStart(s: State, events: seq<Event>, m: nat, job: string)
    requires m <= |events| && Unhindered(events, job)
    ensures s.queue.Count(job) <= Run(s, events[..m]).queue.Count(job)
  {
    forall e | e in events[..m]
      ensures e in events
    {
    }
    CountNotLowered(s, events[..m], 0, job);
    assert events[..m][..0] == [];
  }

  /**
   Polling as often as the others is not enough. Three jobs ask for one slot each under a limit of two and poll
   in turn; while the other two get their slots back between its polls, the second in alphabetical order never
   calls sbatch, while 3n submissions of the others are accepted.
   */
  lemma PassedOverForEver(s: State, x: string, y: string, z: string, seconds: nat, n: nat)
    requires At(s, x, y, z, [1, 0, 1], 2) && seconds <= LEASE_SECONDS
    ensures var after := Run(s, Rounds(x, y, z, seconds, n));
            At(after, x, y, z, [1, 0, 1], 2) && after.capacity.turn == s.capacity.turn + 3 * n
    ensures forall m :: !Called(s, Rounds(x, y, z, seconds, n), m, y)
  {
    ThreeNames(x, y, z);
    RoundsPass(s, x, y, z, seconds, n);
    RoundsUnhindered(x, y, z, seconds, n);
    forall m: nat
      ensures !Called(s, Rounds(x, y, z, seconds, n), m, y)
    {
      NotCalled(s, Rounds(x, y, z, seconds, n), m, y);
    }
  }

  lemma FirstComer(s: State, job: string, demands: map<string, int>)
    requires s.capacity.observed.None? && s.capacity.reported == Some(2) && s.queue.other == 0
    requires Demands(Leased(s, job, 1)) == demands && job in demands && s.queue.own.Keys <= demands.Keys
    requires demands[job] == 1 && 0 <= Total(demands) <= 2 && s.queue.Count(job) == 0 && s.queue.Size() < 2
    ensures Issues(s, job, 1, LIMIT_TWO)
  {
    AllClaimed(s.queue, demands);
    var capacity := Refreshed(s.capacity, s.now, Some(2));
    EnoughForAll(demands, 2, capacity.turn);
    assert Ceiling(capacity, s.now) == Some(2);
    assert TargetOf(demands, s.queue, Some(2), capacity.turn, job, 1) == 1;
  }

  lemma IssuedAccepted(s: State, job: string)
    requires Issues(s, job, 1, LIMIT_TWO)
    ensures var capacity := Refreshed(s.capacity, s.now, Some(2));
            Step(s, Try(job, 1, LIMIT_TWO))
              == State(Leased(s, job, 1), capacity.(turn := capacity.turn + 1), s.queue.Add(job), s.now)
  {
  }

  lemma SecondDemand(s: State, x: string, z: string)
    requires s.leases == map[x := Lease(1, 0)] && s.now == 0 && x != z
    ensures Leased(s, z, 1) == map[x := Lease(1, 0), z := Lease(1, 0)]
    ensures Demands(Leased(s, z, 1)) == map[x := 1, z := 1]
    ensures Total(map[x := 1]) == 1 && Total(map[x := 1, z := 1]) == 2
  {
    TotalUpdate(map[], x, 1);
    TotalUpdate(map[x := 1], z, 1);
    assert Leased(s, z, 1) == map[x := Lease(1, 0), z := Lease(1, 0)];
    assert Demands(Leased(s, z, 1)) == map[x := 1, z := 1];
  }

  lemma SecondIssues(s: State, x: string, z: string)
    requires s == State(map[x := Lease(1, 0)], Capacity(Some(2), 0, None, 0, 1), Queue(map[x := 1], 0), 0) && x != z
    ensures Issues(s, z, 1, LIMIT_TWO)
  {
    SecondDemand(s, x, z);
    FirstComer(s, z, map[x := 1, z := 1]);
  }

  lemma SecondComer(s: State, x: string, z: string)
    requires s == State(map[x := Lease(1, 0)], Capacity(Some(2), 0, None, 0, 1), Queue(map[x := 1], 0), 0) && x != z
    ensures Step(s, Try(z, 1, LIMIT_TWO))
         == State(map[x := Lease(1, 0), z := Lease(1, 0)], Capacity(Some(2), 0, None, 0, 2),
                  Queue(map[x := 1, z := 1], 0), 0)
  {
    SecondDemand(s, x, z);
    SecondIssues(s, x, z);
    IssuedAccepted(s, z);
  }

  lemma OnlyIssues(s: State, x: string)
    requires s == State(map[], Capacity(Some(2), 0, None, 0, 0), Queue(map[], 0), 0)
    ensures Issues(s, x, 1, LIMIT_TWO)
  {
    OnlyDemand(s, x);
    FirstComer(s, x, map[x := 1]);
  }

  lemma OnlyComer(s: State, x: string)
    requires s == State(map[], Capacity(Some(2), 0, None, 0, 0), Queue(map[], 0), 0)
    ensures Step(s, Try(x, 1, LIMIT_TWO))
         == State(map[x := Lease(1, 0)], Capacity(Some(2), 0, None, 0, 1), Queue(map[x := 1], 0), 0)
  {
    OnlyDemand(s, x);
    OnlyIssues(s, x);
    IssuedAccepted(s, x);
  }

  lemma OnlyDemand(s: State, x: string)
    requires s.leases == map[] && s.now == 0
    ensures Leased(s, x, 1) == map[x := Lease(1, 0)] && Demands(Leased(s, x, 1)) == map[x := 1]
    ensures Total(map[x := 1]) == 1
  {
    TotalUpdate(map[], x, 1);
    assert Demands(Leased(s, x, 1)) == map[x := 1];
  }

  lemma LateDemands(s: State, x: string, y: string, z: string)
    requires InOrder(x, y, z) && s.leases == map[x := Lease(1, 0), z := Lease(1, 0)] && s.now == 0
    requires s.queue == Queue(map[x := 1, z := 1], 0)
    ensures Leased(s, y, 1) == map[x := Lease(1, 0), z := Lease(1, 0), y := Lease(1, 0)]
    ensures s.queue.Size() == 2 && [s.queue.Count(x), s.queue.Count(y), s.queue.Count(z)] == [1, 0, 1]
  {
    ThreeNames(x, y, z);
    SizeOfThree(s.queue, x, y, z);
  }

  lemma FullQueueWaits(s: State, job: string)
    requires Positive(s.capacity.observed).None? && s.capacity.reported == Some(2) && s.queue.Size() >= 2
    ensures !Issues(s, job, 1, LIMIT_TWO)
  {
  }

  lemma LateComer(s: State, x: string, y: string, z: string)
    requires InOrder(x, y, z) && s.leases == map[x := Lease(1, 0), z := Lease(1, 0)] && s.now == 0
    requires s.capacity == Capacity(Some(2), 0, None, 0, 2) && s.queue == Queue(map[x := 1, z := 1], 0)
    ensures At(Step(s, Try(y, 1, LIMIT_TWO)), x, y, z, [1, 0, 1], 2)
  {
    LateDemands(s, x, y, z);
    FullQueueWaits(s, y);
  }

  /** Such a race begins when two jobs have taken both slots before the one between them asks. */
  lemma RaceBegins(x: string, y: string, z: string)
    requires InOrder(x, y, z)
    ensures var start := State(map[], Capacity(Some(2), 0, None, 0, 0), Queue(map[], 0), 0);
            At(Run(start, [Try(x, 1, LIMIT_TWO), Try(z, 1, LIMIT_TWO), Try(y, 1, LIMIT_TWO)]), x, y, z, [1, 0, 1], 2)
  {
    ThreeNames(x, y, z);
    var start := State(map[], Capacity(Some(2), 0, None, 0, 0), Queue(map[], 0), 0);
    OnlyComer(start, x);
    var one := Step(start, Try(x, 1, LIMIT_TWO));
    SecondComer(one, x, z);
    LateComer(Step(one, Try(z, 1, LIMIT_TWO)), x, y, z);
    RunThree(start, Try(x, 1, LIMIT_TWO), Try(z, 1, LIMIT_TWO), Try(y, 1, LIMIT_TWO));
  }
}
