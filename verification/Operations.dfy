/**
 Admission of background operations: one scope is a job or a workflow directory. Requests are
 admitted under a lock; the threads of admitted operations then run on their own.
 */
module Operations {
  import opened Totals

  datatype Label = Delete | Stop | Download(variant: string) | Resume | Other(name: string)

  /** A waiting operation still has to see the end of `before`; only deletions wait for anything. */
  datatype Phase = Waiting(before: seq<nat>) | Executing | Done | Failed

  datatype Op = Op(kind: Label, scope: string, phase: Phase)

  datatype State = State(ops: map<nat, Op>, shuttingDown: bool)

  datatype Reply = ShuttingDown | Conflict | Joined(id: nat) | Admitted

  predicate Running(op: Op) { op.phase.Waiting? || op.phase.Executing? }

  /** The running operations of a scope. */
  function Active(s: State, scope: string): set<nat> {
    set id | id in s.ops && s.ops[id].scope == scope && Running(s.ops[id])
  }

  function Labelled(s: State, ids: set<nat>, kind: Label): set<nat> {
    set id | id in ids && id in s.ops && s.ops[id].kind == kind
  }

  predicate Yields(kind: Label) { kind.Download? || kind.Resume? }

  /** The running operations that stand in the way of a new one. */
  function Obstacles(s: State, kind: Label, scope: string): set<nat> {
    var active := Active(s, scope);
    match kind
    case Delete => Labelled(s, active, Delete)
    case Stop => set id | id in active && !Yields(s.ops[id].kind)
    case _ => active
  }

  /** What a new operation has to wait for: a deletion waits for everything that runs. */
  function Dependencies(s: State, kind: Label, scope: string): set<nat> {
    if kind == Delete then Active(s, scope) else {}
  }

  /** The answer to a request: join, refuse or admit. */
  predicate Answers(s: State, kind: Label, scope: string, reply: Reply) {
    if s.shuttingDown then reply == ShuttingDown
    else if (kind == Delete || kind == Stop) && Labelled(s, Active(s, scope), kind) != {} then
      reply.Joined? && reply.id in Labelled(s, Active(s, scope), kind)
    else reply == if Obstacles(s, kind, scope) != {} then Conflict else Admitted
  }

  // ---------------------------------------------------------------- the program

  class Registry {
    var ops: map<nat, Op>
    var shuttingDown: bool

    constructor ()
      ensures Now() == State(map[], false)
    {
      ops, shuttingDown := map[], false;
    }

    function Now(): State
      reads this
    {
      State(ops, shuttingDown)
    }

    /** The critical section of `operation`: join, refuse, or register a new operation. */
    method Request(id: nat, kind: Label, scope: string) returns (reply: Reply)
      requires id !in ops
      modifies this`ops
      ensures Answers(old(Now()), kind, scope, reply)
      ensures reply == Admitted ==>
                && Can(old(Now()), Begin(id, kind, scope, WaitList(ops, id)))
                && Now() == Do(old(Now()), Begin(id, kind, scope, WaitList(ops, id)))
      ensures reply != Admitted ==> Now() == old(Now())
    {
      if shuttingDown {
        return ShuttingDown;
      }
      var active := Active(Now(), scope);
      var dependencies: set<nat> := {};
      if kind == Delete {
        var deleting := Labelled(Now(), active, Delete);
        if deleting != {} {
          var other :| other in deleting;
          return Joined(other);
        }
        dependencies := active;
        active := {};
      }
      if kind == Stop {
        var stopping := Labelled(Now(), active, Stop);
        if stopping != {} {
          var other :| other in stopping;
          return Joined(other);
        }
        active := set other | other in active && !Yields(ops[other].kind);
      }
      if active != {} {
        return Conflict;
      }
      var list := Enumerate(dependencies);
      ops := ops[id := Op(kind, scope, Waiting(list))];
      reply := Admitted;
    }

    /** The shutdown request: refused while anything runs. */
    method Shutdown() returns (accepted: bool)
      modifies this`shuttingDown
      ensures accepted <==> Can(old(Now()), BeginShutdown)
      ensures accepted <==> forall id: nat, scope :: !Alive(old(Now()), id, scope)
      ensures Now() == if accepted then Do(old(Now()), BeginShutdown) else old(Now())
    {
      var running := set id | id in ops && Running(ops[id]);
      accepted := running == {};
      assert forall id: nat, scope :: Alive(Now(), id, scope) ==> id in running;
      if running != {} {
        ghost var id :| id in running;
        assert Alive(Now(), id, ops[id].scope);
      }
      if accepted {
        assert forall id :: id in ops && Running(ops[id]) ==> id in running;
        shuttingDown := true;
      }
    }
  }

  function WaitList(ops: map<nat, Op>, id: nat): seq<nat> {
    if id in ops && ops[id].phase.Waiting? then ops[id].phase.before else []
  }

  method Enumerate(ids: set<nat>) returns (list: seq<nat>)
    ensures Elements(list) == ids && Distinct(list)
  {
    list := [];
    var left := ids;
    while left != {}
      invariant Elements(list) + left == ids && Elements(list) !! left && Distinct(list)
      decreases left
    {
      var id :| id in left;
      assert id !in Elements(list);
      assert Elements(list + [id]) == Elements(list) + {id};
      list := list + [id];
      left := left - {id};
    }
  }

  // ---------------------------------------------------------------- all threads

  datatype Action =
    | Begin(id: nat, kind: Label, scope: string, before: seq<nat>)
    | NextDependency(id: nat)          // the operation waited for has ended
    | Launch(id: nat)                  // nothing left to wait for: the subprocess starts
    | End(id: nat, ok: bool)           // the subprocess ended
    | Break(id: nat)                   // the wait timed out, or the thread raised
    | BeginShutdown

  ghost predicate Can(s: State, a: Action) {
    match a
    case Begin(id, kind, scope, before) =>
      && !s.shuttingDown && id !in s.ops && Obstacles(s, kind, scope) == {}
      && Elements(before) == Dependencies(s, kind, scope) && Distinct(before)
    case NextDependency(id) =>
      && id in s.ops && s.ops[id].phase.Waiting? && s.ops[id].phase.before != []
      && var first := s.ops[id].phase.before[0]; first in s.ops && !Running(s.ops[first])
    case Launch(id) => id in s.ops && s.ops[id].phase == Waiting([])
    case End(id, _) => id in s.ops && s.ops[id].phase == Executing
    case Break(id) => id in s.ops && s.ops[id].phase != Failed
    case BeginShutdown => forall id :: id in s.ops ==> !Running(s.ops[id])
  }

  function Move(s: State, id: nat, phase: Phase): State
    requires id in s.ops
  {
    s.(ops := s.ops[id := s.ops[id].(phase := phase)])
  }

  ghost function Do(s: State, a: Action): State
    requires Can(s, a)
  {
    match a
    case Begin(id, kind, scope, before) => s.(ops := s.ops[id := Op(kind, scope, Waiting(before))])
    case NextDependency(id) => Move(s, id, Waiting(s.ops[id].phase.before[1..]))
    case Launch(id) => Move(s, id, Executing)
    case End(id, ok) => Move(s, id, if ok then Done else Failed)
    case Break(id) => Move(s, id, Failed)
    case BeginShutdown => s.(shuttingDown := true)
  }

  // ---------------------------------------------------------------- exclusion

  predicate Together(s: State, a: nat, b: nat) {
    a != b && a in s.ops && b in s.ops && Alive(s, a, s.ops[a].scope) && Alive(s, b, s.ops[a].scope)
  }

  /** An operation of the scope that has begun and not ended. */
  predicate Alive(s: State, id: nat, scope: string) {
    id in s.ops && s.ops[id].scope == scope && (s.ops[id].phase.Waiting? || s.ops[id].phase.Executing?)
  }

  /**
   Which two operations may run in one scope: a stop beside a download or
   a resume, and a deletion beside what it waits for.
   */
  predicate MayOverlap(s: State, a: nat, b: nat)
    requires a in s.ops && b in s.ops
  {
    || (s.ops[a].kind == Stop && (s.ops[b].kind.Download? || s.ops[b].kind.Resume?))
    || (s.ops[b].kind == Stop && (s.ops[a].kind.Download? || s.ops[a].kind.Resume?))
    || (s.ops[a].kind == Delete && s.ops[b].kind != Delete && s.ops[a].phase.Waiting? && b in s.ops[a].phase.before)
    || (s.ops[b].kind == Delete && s.ops[a].kind != Delete && s.ops[b].phase.Waiting? && a in s.ops[b].phase.before)
  }

  ghost predicate Exclusive(s: State) {
    && (forall a, b :: Together(s, a, b) ==> MayOverlap(s, a, b))
    && (s.shuttingDown ==> forall id :: id in s.ops ==> !Running(s.ops[id]))
  }

  lemma BeginKeeps(s: State, id: nat, kind: Label, scope: string, before: seq<nat>)
    requires Exclusive(s) && Can(s, Begin(id, kind, scope, before))
    ensures Exclusive(Do(s, Begin(id, kind, scope, before)))
  {
    var s' := Do(s, Begin(id, kind, scope, before));
    forall a, b | Together(s', a, b)
      ensures MayOverlap(s', a, b)
    {
      if a != id && b != id {
        assert Together(s, a, b);
      } else {
        var other := if a == id then b else a;
        assert other in Active(s, scope);
        BeginOverlaps(s, id, kind, scope, before, other);
      }
    }
  }

  lemma BeginOverlaps(s: State, id: nat, kind: Label, scope: string, before: seq<nat>, other: nat)
    requires Can(s, Begin(id, kind, scope, before)) && other in Active(s, scope)
    ensures MayOverlap(Do(s, Begin(id, kind, scope, before)), id, other)
  {
    match kind
    case Delete =>
      assert other in Elements(before);
      assert other !in Labelled(s, Active(s, scope), Delete);
    case Stop =>
      assert other !in Obstacles(s, kind, scope);
    case _ =>
  }

  lemma MoveKeeps(s: State, a: Action)
    requires Exclusive(s) && Can(s, a) && !a.Begin?
    ensures Exclusive(Do(s, a))
  {
    var s' := Do(s, a);
    forall x, y | Together(s', x, y)
      ensures MayOverlap(s', x, y)
    {
      assert Together(s, x, y);
      if a.NextDependency? {
        var list := s.ops[a.id].phase.before;
        assert list == [list[0]] + list[1..];
      }
    }
  }

  ghost predicate Runs(s: State, actions: seq<Action>)
    decreases |actions|
  {
    actions != [] ==> Can(s, actions[0]) && Runs(Do(s, actions[0]), actions[1..])
  }

  ghost function After(s: State, actions: seq<Action>): State
    requires Runs(s, actions)
    decreases |actions|
  {
    if actions == [] then s else After(Do(s, actions[0]), actions[1..])
  }

  lemma {:induction false} RunKeeps(s: State, actions: seq<Action>)
    requires Exclusive(s) && Runs(s, actions)
    ensures Exclusive(After(s, actions))
    decreases |actions|
  {
    if actions != [] {
      if actions[0].Begin? {
        BeginKeeps(s, actions[0].id, actions[0].kind, actions[0].scope, actions[0].before);
      } else {
        MoveKeeps(s, actions[0]);
      }
      RunKeeps(Do(s, actions[0]), actions[1..]);
    }
  }

  /**
   In every reachable state a scope has at most one running stop, one running deletion and one other
   running operation, and a stop runs beside nothing but a download, a resume or a deletion that waits for it.
   */
  lemma OneOfEachKind(actions: seq<Action>, a: nat, b: nat)
    requires Runs(State(map[], false), actions) && Together(After(State(map[], false), actions), a, b)
    ensures var ops := After(State(map[], false), actions).ops;
            && !(ops[a].kind == Stop && ops[b].kind == Stop)
            && !(ops[a].kind == Delete && ops[b].kind == Delete)
            && (ops[a].kind in {Stop, Delete} || ops[b].kind in {Stop, Delete})
            && (ops[a].kind == Stop ==>
                  (ops[b].kind.Download? || ops[b].kind.Resume?
                   || (ops[b].kind == Delete && ops[b].phase.Waiting? && a in ops[b].phase.before)))
  {
    RunKeeps(State(map[], false), actions);
    assert MayOverlap(After(State(map[], false), actions), a, b);
  }

  lemma RunsPrepend(s: State, a: Action, rest: seq<Action>)
    requires Can(s, a) && Runs(Do(s, a), rest)
    ensures Runs(s, [a] + rest) && After(s, [a] + rest) == After(Do(s, a), rest)
  {
    assert ([a] + rest)[1..] == rest;
  }

  /** A deletion that was asked for during a stop: both run, the deletion waiting for the stop. */
  lemma StopBesideDeletion(scope: string)
    ensures var first, actions := State(map[], false), [Begin(0, Stop, scope, []), Begin(1, Delete, scope, [0])];
            && Runs(first, actions) && Together(After(first, actions), 0, 1)
            && After(first, actions).ops[0].kind == Stop && After(first, actions).ops[1].kind == Delete
  {
    var first, stop, delete := State(map[], false), Begin(0, Stop, scope, []), Begin(1, Delete, scope, [0]);
    assert Active(first, scope) == {};
    assert Elements<nat>([]) == {};
    var stopping := Do(first, stop);
    assert Active(stopping, scope) == {0};
    assert Elements<nat>([0]) == {0};
    assert Labelled(stopping, {0}, Delete) == {};
    var both := Do(stopping, delete);
    assert Runs(both, []);
    RunsPrepend(stopping, delete, []);
    RunsPrepend(first, stop, [delete]);
    assert [stop] + ([delete] + []) == [stop, delete];
  }

  /** When a deletion starts its subprocess, and until that ends, nothing else runs in its scope. */
  lemma DeletionRunsAlone(actions: seq<Action>, d: nat, other: nat)
    requires Runs(State(map[], false), actions)
    requires var s := After(State(map[], false), actions);
             d in s.ops && s.ops[d].kind == Delete && (s.ops[d].phase == Executing || Can(s, Launch(d)))
    ensures !Together(After(State(map[], false), actions), d, other)
  {
    RunKeeps(State(map[], false), actions);
  }

  /** Once the server is shutting down, nothing runs and no request is admitted. */
  lemma ShutdownIsFinal(actions: seq<Action>, id: nat, kind: Label, scope: string, before: seq<nat>)
    requires Runs(State(map[], false), actions) && After(State(map[], false), actions).shuttingDown
    ensures var s := After(State(map[], false), actions);
            && (forall op: nat, other: string :: !Alive(s, op, other))
            && !Can(s, Begin(id, kind, scope, before))
  {
    RunKeeps(State(map[], false), actions);
  }

  /** Apart from deletions, no three operations run in one scope. */
  lemma NoThreeTogether(s: State, a: nat, b: nat, c: nat)
    requires Exclusive(s) && Together(s, a, b) && Together(s, a, c)
    requires s.ops[a].kind != Delete && s.ops[b].kind != Delete && s.ops[c].kind != Delete
    ensures !Together(s, b, c)
  {
    assert MayOverlap(s, a, b) && MayOverlap(s, a, c);
  }

  /** A deletion waits for at most two operations: a stop and one other. */
  lemma DeletionWaitsForTwo(actions: seq<Action>, id: nat, scope: string, before: seq<nat>)
    requires Runs(State(map[], false), actions)
    requires Can(After(State(map[], false), actions), Begin(id, Delete, scope, before))
    ensures |before| <= 2
  {
    RunKeeps(State(map[], false), actions);
    var s := After(State(map[], false), actions);
    forall k | 0 <= k < |before|
      ensures before[k] in Active(s, scope) && s.ops[before[k]].kind != Delete
    {
      assert before[k] in Elements(before);
      assert before[k] !in Labelled(s, Active(s, scope), Delete);
    }
    if |before| > 2 {
      NoThreeTogether(s, before[0], before[1], before[2]);
      assert false;
    }
  }

  /**
   Which request is refused. A second deletion or stop joins the first. A deletion is otherwise admitted; a stop is
   refused exactly when something other than a download or a resume runs, anything else exactly when anything runs.
   */
  lemma AnsweredExactly(s: State, kind: Label, scope: string, reply: Reply)
    requires Answers(s, kind, scope, reply) && !s.shuttingDown
    ensures reply != ShuttingDown
    ensures reply.Joined? ==> Alive(s, reply.id, scope) && s.ops[reply.id].kind == kind
    ensures reply.Joined? <==>
              (kind == Delete || kind == Stop) && exists id :: Alive(s, id, scope) && s.ops[id].kind == kind
    ensures reply == Conflict <==>
              match kind
              case Delete => false
              case Stop =>
                && (forall id :: Alive(s, id, scope) ==> s.ops[id].kind != Stop)
                && exists id :: Alive(s, id, scope) && !s.ops[id].kind.Download? && !s.ops[id].kind.Resume?
              case _ => exists id :: Alive(s, id, scope)
  {
    assert forall id :: Alive(s, id, scope) <==> id in Active(s, scope);
    assert forall id :: id in Labelled(s, Active(s, scope), kind) <==> Alive(s, id, scope) && s.ops[id].kind == kind;
    if Obstacles(s, kind, scope) != {} {
      var id :| id in Obstacles(s, kind, scope);
      assert Alive(s, id, scope);
    }
  }

  /** An admitted deletion waits for exactly the operations that run in its scope. */
  lemma DeletionWaitsForAll(s: State, id: nat, scope: string, before: seq<nat>)
    requires Can(s, Begin(id, Delete, scope, before))
    ensures forall other :: other in before <==> Alive(s, other, scope)
  {
    forall other
      ensures other in before <==> other in Elements(before)
    {
    }
  }

  /** An operation that has ended never runs again. */
  lemma EndIsFinal(s: State, a: Action, id: nat)
    requires Can(s, a) && id in s.ops && !Running(s.ops[id])
    ensures id in Do(s, a).ops && !Running(Do(s, a).ops[id])
  {
  }
}
