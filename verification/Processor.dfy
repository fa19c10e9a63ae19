/** Tasks run one after another on a pool of workers: each task, when it ends, hands over the next. */
module ProcessorModel {
  import opened Wrappers

  type Task = nat

  /** `pool` are the tasks handed to the thread pool, `running` those a worker has begun, `finished` those whose
      function has returned but which have not yet asked for the next one, `blocked` a caller that holds the lock
      inside a push onto a full queue. `order` is the history of accepted tasks, `begun` and `done` that of runs. */
  datatype Processor = Processor(
    limit: nat, tasks: seq<Task>, pending: bool, pool: seq<Task>, running: set<Task>, finished: set<Task>,
    blocked: Option<Task>, order: seq<Task>, begun: seq<Task>, done: seq<Task>)

  datatype Step =
    | Enqueue(task: Task)
    | Begin(task: Task)
    | Return(task: Task)
    | Schedule(task: Task)
    | Unblock

  function Created(limit: nat): Processor { Processor(limit, [], false, [], {}, {}, None, [], [], []) }

  function Without(s: seq<Task>, t: Task): (r: seq<Task>)
    ensures |r| <= |s|
  {
    if s == [] then [] else if s[0] == t then s[1..] else [s[0]] + Without(s[1..], t)
  }

  /** The pool may begin any task it holds, on any worker; what needs the lock waits while a caller is blocked. */
  ghost predicate Enabled(p: Processor, s: Step) {
    match s
    case Enqueue(t) => p.blocked.None? && t !in p.order
    case Begin(t) => t in p.pool && t !in p.running && t !in p.finished
    case Return(t) => t in p.running
    case Schedule(t) => p.blocked.None? && t in p.finished
    case Unblock => p.blocked.Some? && |p.tasks| < p.limit
  }

  function Apply(p: Processor, s: Step): Processor {
    match s
    case Enqueue(t) =>
      if !p.pending then p.(pool := p.pool + [t], pending := true, order := p.order + [t])
      else if p.limit == 0 || |p.tasks| < p.limit then p.(tasks := p.tasks + [t], order := p.order + [t])
      else p.(blocked := Some(t))
    case Begin(t) => p.(running := p.running + {t}, begun := p.begun + [t])
    case Return(t) => p.(running := p.running - {t}, finished := p.finished + {t}, done := p.done + [t])
    case Schedule(t) =>
      var q := p.(finished := p.finished - {t}, pool := Without(p.pool, t));
      if p.tasks != [] then q.(tasks := p.tasks[1..], pool := q.pool + [p.tasks[0]]) else q.(pending := false)
    case Unblock =>
      if p.blocked.None? then p
      else p.(blocked := None, tasks := p.tasks + [p.blocked.value], order := p.order + [p.blocked.value])
  }

  /** A join may return. */
  predicate Joinable(p: Processor) { p.blocked.None? && !p.pending && p.tasks == [] }

  ghost predicate Distinct(s: seq<Task>) { forall i, j :: 0 <= i < j < |s| ==> s[i] != s[j] }

  /** One task at most is outstanding, and the tasks done, the outstanding one and the queued ones are the accepted
      tasks in their order; a blocked caller is stuck. */
  ghost predicate Inv(p: Processor) {
    && |p.pool| <= 1 && (p.pending <==> |p.pool| == 1) && (!p.pending ==> p.tasks == [])
    && p.running !! p.finished && (forall t :: t in p.running || t in p.finished ==> p.pool == [t])
    && p.order == p.done + (if p.finished == {} then p.pool else []) + p.tasks
    && p.begun == p.done + (if p.running == {} then [] else p.pool)
    && Distinct(p.order) && (p.blocked.Some? ==> Stuck(p))
  }

  /** With a limit, a call that finds the queue full waits inside the push while it holds the lock that handing
      over the next task needs. */
  ghost predicate Stuck(p: Processor) { p.blocked.Some? && 0 < p.limit <= |p.tasks| }

  function After(limit: nat, steps: seq<Step>): Processor {
    if steps == [] then Created(limit) else Apply(After(limit, steps[..|steps| - 1]), steps[|steps| - 1])
  }

  ghost predicate Possible(limit: nat, steps: seq<Step>) {
    || steps == []
    || (&& Possible(limit, steps[..|steps| - 1])
        && Enabled(After(limit, steps[..|steps| - 1]), steps[|steps| - 1]))
  }

  lemma StepKeeps(p: Processor, s: Step)
    requires Inv(p) && Enabled(p, s)
    ensures Inv(Apply(p, s)) && Apply(p, s).limit == p.limit
  {
    match s
    case Enqueue(t) => EnqueueKeeps(p, t);
    case Begin(t) => assert p.pool == [t] && p.running == {} && p.finished == {};
    case Return(t) => assert p.pool == [t] && p.running - {t} == {} && p.finished == {};
    case Schedule(t) => ScheduleKeeps(p, t);
    case Unblock => assert false;
  }

  lemma EnqueueKeeps(p: Processor, t: Task)
    requires Inv(p) && Enabled(p, Enqueue(t))
    ensures Inv(Apply(p, Enqueue(t))) && Apply(p, Enqueue(t)).limit == p.limit
  {
    if !p.pending { assert p.finished == {} && p.running == {}; }
  }

  lemma ScheduleKeeps(p: Processor, t: Task)
    requires Inv(p) && Enabled(p, Schedule(t))
    ensures Inv(Apply(p, Schedule(t))) && Apply(p, Schedule(t)).limit == p.limit
  {
    assert p.pool == [t] && p.finished - {t} == {} && p.running == {};
  }

  lemma {:induction false} PossibleInv(limit: nat, steps: seq<Step>)
    requires Possible(limit, steps)
    ensures Inv(After(limit, steps)) && After(limit, steps).limit == limit
  {
    if steps != [] {
      hide Inv, Apply, Enabled;
      PossibleInv(limit, steps[..|steps| - 1]);
      StepKeeps(After(limit, steps[..|steps| - 1]), steps[|steps| - 1]);
    }
  }

  /** Whatever the limit, whatever worker the pool chooses and whenever: no two tasks ever run at the same time,
      tasks begin in the order they were accepted, and each is run once. */
  lemma TasksRunInOrder(limit: nat, steps: seq<Step>)
    requires Possible(limit, steps)
    ensures var p := After(limit, steps);
      && |p.running| <= 1 && p.begun <= p.order && p.done <= p.begun && Distinct(p.begun)
      && (p.pending <==> |p.pool| == 1) && |p.pool| <= 1
  {
    PossibleInv(limit, steps);
    var p := After(limit, steps);
    hide After, Possible;
    if t :| t in p.running {
      assert p.running == {t};
    }
    assert p.begun == p.order[..|p.begun|];
  }

  /** A join returns only when everything accepted has been done. */
  lemma JoinWaitsForAll(limit: nat, steps: seq<Step>)
    requires Possible(limit, steps) && Joinable(After(limit, steps))
    ensures var p := After(limit, steps); p.done == p.order && p.running == {} && p.pool == []
  {
    PossibleInv(limit, steps);
    hide After, Possible;
  }

  // ---- no task is lost ----

  /** The tasks that were enqueued, told by the calls alone. */
  function Submitted(steps: seq<Step>): seq<Task> {
    if steps == [] then []
    else
      var last := steps[|steps| - 1];
      Submitted(steps[..|steps| - 1]) + (if last.Enqueue? then [last.task] else [])
  }

  /** The tasks outstanding: handed to the pool and not yet through. */
  function Outstanding(p: Processor): seq<Task> { if p.finished == {} then p.pool else [] }

  /** A call is accepted at once, or is the one that is blocked. */
  lemma {:induction false} SubmittedInOrder(limit: nat, steps: seq<Step>)
    requires Possible(limit, steps)
    ensures var p := After(limit, steps);
      Submitted(steps) == p.order + (if p.blocked.Some? then [p.blocked.value] else [])
  {
    if steps != [] {
      var before, last := steps[..|steps| - 1], steps[|steps| - 1];
      SubmittedInOrder(limit, before);
      PossibleInv(limit, before);
      assert Enabled(After(limit, before), last);
    }
  }

  /** Every task enqueued is done, outstanding or queued, once, in the order of the calls: always without a limit,
      and with one until a caller gets stuck. */
  lemma NothingIsLost(limit: nat, steps: seq<Step>)
    requires Possible(limit, steps)
    ensures var p := After(limit, steps);
      limit == 0 || !Stuck(p) ==>
        && p.order == Submitted(steps) && p.done + Outstanding(p) + p.tasks == Submitted(steps)
        && Distinct(Submitted(steps))
  {
    SubmittedInOrder(limit, steps);
    PossibleInv(limit, steps);
    hide After, Possible, Submitted;
  }

  /** When the workers have nothing left to do, everything enqueued has been done. */
  lemma NothingIsForgotten(limit: nat, steps: seq<Step>)
    requires Possible(limit, steps) && !Stuck(After(limit, steps))
    requires forall s: Step :: Enabled(After(limit, steps), s) ==> s.Enqueue?
    ensures After(limit, steps).done == Submitted(steps) && Joinable(After(limit, steps))
  {
    NothingIsLost(limit, steps);
    PossibleInv(limit, steps);
    SomethingToDo(After(limit, steps));
    hide After, Possible, Submitted, Enabled;
  }

  /** A worker can go on as long as a task is outstanding. */
  lemma SomethingToDo(p: Processor)
    requires Inv(p) && !Stuck(p)
    ensures p.pool != [] ==> exists s: Step :: Enabled(p, s) && !s.Enqueue?
  {
    if p.pool != [] {
      var t := p.pool[0];
      var s := if t in p.running then Return(t) else if t in p.finished then Schedule(t) else Begin(t);
      assert Enabled(p, s) && !s.Enqueue?;
    }
  }

  // ---- what a limit leads to ----

  /** A caller can tell beforehand: an enqueue gets stuck exactly when it meets a full queue behind a pending task. */
  lemma EnqueueGetsStuck(limit: nat, steps: seq<Step>, t: Task)
    requires Possible(limit, steps) && Enabled(After(limit, steps), Enqueue(t))
    ensures var p := After(limit, steps);
      Stuck(Apply(p, Enqueue(t))) <==> p.pending && 0 < limit <= |p.tasks|
  {
    PossibleInv(limit, steps);
    hide After, Possible, Inv;
  }

  /** No step leads out of there, accepts another task, or takes one off the queue. */
  lemma StuckStep(p: Processor, s: Step)
    requires Stuck(p) && Enabled(p, s)
    ensures var r := Apply(p, s);
      Stuck(r) && r.blocked == p.blocked && r.tasks == p.tasks && r.order == p.order && r.pool == p.pool && !Joinable(r)
  {
  }

  /** Once stuck, a processor is stuck for good: whatever follows, the caller never returns, no queued task is handed
      over, and no join returns. */
  lemma {:induction false} StuckForever(limit: nat, steps: seq<Step>, more: seq<Step>)
    requires Possible(limit, steps + more) && Stuck(After(limit, steps))
    ensures var p, r := After(limit, steps), After(limit, steps + more);
      Stuck(r) && r.blocked == p.blocked && r.tasks == p.tasks && r.order == p.order && r.pool == p.pool && !Joinable(r)
    decreases |more|
  {
    if more == [] {
      assert steps + more == steps;
    } else {
      var all, n := steps + more, |more| - 1;
      assert all[..|all| - 1] == steps + more[..n];
      hide Stuck, Apply, Enabled;
      StuckForever(limit, steps, more[..n]);
      StuckStep(After(limit, steps + more[..n]), more[n]);
    }
  }

  /** Calls one after another, before any worker begins. */
  function Enqueues(n: nat): (r: seq<Step>)
    ensures |r| == n
  {
    if n == 0 then [] else Enqueues(n - 1) + [Enqueue(n - 1)]
  }

  lemma {:induction false} QueueFills(limit: nat, n: nat)
    requires n <= limit + 1
    ensures Possible(limit, Enqueues(n))
    ensures var p := After(limit, Enqueues(n));
      && p.limit == limit && p.blocked.None? && (p.pending <==> n > 0)
      && |p.tasks| == (if n == 0 then 0 else n - 1) && (forall t :: t in p.order ==> t < n)
  {
    if n > 0 {
      QueueFills(limit, n - 1);
      assert Enqueues(n)[..n - 1] == Enqueues(n - 1) && Enqueues(n)[n - 1] == Enqueue(n - 1);
    }
  }

  /** Some run gets stuck if and only if there is a limit, whatever it is: one task outstanding, as many queued as
      permitted, and one call more. */
  lemma StuckExactly(limit: nat)
    ensures (exists steps :: Possible(limit, steps) && Stuck(After(limit, steps))) <==> limit > 0
  {
    if limit > 0 {
      var n := limit + 1;
      QueueFills(limit, n);
      var steps := Enqueues(n + 1);
      assert steps[..n] == Enqueues(n) && steps[n] == Enqueue(n);
      assert Possible(limit, steps) && Stuck(After(limit, steps));
    }
    if steps :| Possible(limit, steps) && Stuck(After(limit, steps)) {
      PossibleInv(limit, steps);
    }
  }
}

module ProcessorObject {
  import opened Wrappers
  import opened Queues
  import opened ProcessorModel

  /** The processor over its pool, without a limit: a push never waits. */
  class TaskProcessor {
    const queue: Queue<Task>
    var pending: bool
    ghost var pool: seq<Task>
    ghost var running: set<Task>
    ghost var finished: set<Task>
    ghost var order: seq<Task>
    ghost var begun: seq<Task>
    ghost var done: seq<Task>

    ghost function Value(): Processor
      reads this, queue
    {
      Processor(queue.limit, queue.items, pending, pool, running, finished, None, order, begun, done)
    }

    ghost predicate Valid()
      reads this, queue
    {
      queue.limit == 0 && !queue.stopping && queue.Accounted()
    }

    constructor ()
      ensures Valid() && fresh(queue) && Value() == Created(0)
    {
      queue := new Queue(0, _ => 1);
      pending, pool, running, finished, order, begun, done := false, [], {}, {}, [], [], [];
    }

    method AddTask(t: Task)
      requires Valid() && t !in order
      modifies this, queue
      ensures Valid() && Value() == Apply(old(Value()), Enqueue(t))
    {
      order := order + [t];
      if !pending {
        pool := pool + [t];
        pending := true;
      } else {
        queue.Push(t);
      }
    }

    /** A worker has run the task; chaining hands over the next one. */
    method ScheduleNext(t: Task)
      requires Valid() && t in finished
      modifies this, queue
      ensures Valid() && Value() == Apply(old(Value()), Schedule(t))
    {
      finished, pool := finished - {t}, Without(pool, t);
      var next := queue.Pop();
      if next.Some? {
        pool := pool + [next.value];
      } else {
        pending := false;
      }
    }

    method MayJoin() returns (ready: bool)
      requires Valid()
      ensures ready <==> Joinable(Value())
    {
      return !pending && queue.items == [];
    }
  }
}
