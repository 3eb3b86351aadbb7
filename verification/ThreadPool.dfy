/**
 The thread pool: a queue of tasks under one mutex, and workers that take from it.  Its
 destructor stops it and lets the workers drain the queue; `Shutdown` drops the queue.
 Tasks are numbered in the order in which they are submitted.
 */
module ThreadPool {
  import opened Tally
  import opened Wrappers

  datatype Worker = Idle | Running(task: nat) | Exited

  datatype TaskState = Queued | Started | Finished | Dropped

  /** A task, with the number of times a worker took it. */
  datatype Task = Task(state: TaskState, runs: nat)

  /** `lateSubmits` counts the tasks submitted after the stop; no step reads it. */
  datatype Pool = Pool(queue: seq<nat>, stop: bool, workers: seq<Worker>, tasks: seq<Task>, lateSubmits: nat)

  datatype Action = Submit | Take(worker: nat) | Finish(worker: nat) | Exit(worker: nat) | Destroy | Shutdown

  function Initial(workers: nat): Pool {
    Pool([], false, seq(workers, _ => Idle), [], 0)
  }

  function DropQueued(tasks: seq<Task>): (r: seq<Task>)
    ensures |r| == |tasks|
  {
    seq(|tasks|, i requires 0 <= i < |tasks| => if tasks[i].state.Queued? then tasks[i].(state := Dropped) else tasks[i])
  }

  function Next(p: Pool, a: Action): Option<Pool> {
    match a
    case Submit =>
      Some(p.(queue := p.queue + [|p.tasks|], tasks := p.tasks + [Task(Queued, 0)],
              lateSubmits := p.lateSubmits + if p.stop then 1 else 0))
    case Take(w) =>
      if w < |p.workers| && p.workers[w].Idle? && p.queue != [] && p.queue[0] < |p.tasks| then
        var t := p.queue[0];
        Some(p.(queue := p.queue[1..], workers := p.workers[w := Running(t)],
                tasks := p.tasks[t := Task(Started, p.tasks[t].runs + 1)]))
      else None
    case Finish(w) =>
      if w < |p.workers| && p.workers[w].Running? && p.workers[w].task < |p.tasks| then
        var t := p.workers[w].task;
        Some(p.(workers := p.workers[w := Idle], tasks := p.tasks[t := p.tasks[t].(state := Finished)]))
      else None
    case Exit(w) =>
      if w < |p.workers| && p.workers[w].Idle? && p.stop && p.queue == [] then Some(p.(workers := p.workers[w := Exited]))
      else None
    case Destroy => Some(p.(stop := true))
    case Shutdown => Some(p.(stop := true, queue := [], tasks := DropQueued(p.tasks)))
  }

  predicate Gone(w: Worker) {
    w.Exited?
  }

  /** The queue holds exactly the queued tasks, in the order of submission. */
  ghost predicate Holds(p: Pool) {
    && (forall i :: 0 <= i < |p.queue| ==> p.queue[i] < |p.tasks| && p.tasks[p.queue[i]].state.Queued?)
    && (forall i, j :: 0 <= i < j < |p.queue| ==> p.queue[i] < p.queue[j])
    && (forall t :: 0 <= t < |p.tasks| && p.tasks[t].state.Queued? ==> t in p.queue)
  }

  /** No task is taken before an earlier one. */
  ghost predicate Fifo(p: Pool) {
    forall t, u :: 0 <= t < u < |p.tasks| && p.tasks[t].state.Queued? ==> p.tasks[u].state.Queued?
  }

  /** Every started task has its worker, and each task was taken once if at all. */
  ghost predicate Served(p: Pool) {
    && (forall w :: 0 <= w < |p.workers| && p.workers[w].Running? ==>
          p.workers[w].task < |p.tasks| && p.tasks[p.workers[w].task].state.Started?)
    && (forall v, w :: 0 <= v < w < |p.workers| && p.workers[v].Running? && p.workers[w].Running? ==>
          p.workers[v].task != p.workers[w].task)
    && (forall t: nat :: t < |p.tasks| && p.tasks[t].state.Started? ==> HasWorker(p, t))
    && (forall t :: 0 <= t < |p.tasks| ==> p.tasks[t].runs == if p.tasks[t].state in {Started, Finished} then 1 else 0)
  }

  ghost predicate HasWorker(p: Pool, t: nat) {
    exists w :: 0 <= w < |p.workers| && p.workers[w] == Running(t)
  }

  /** A worker leaves a stopped pool only, and leaves no task behind that was submitted in time. */
  ghost predicate ExitsRight(p: Pool) {
    forall w :: 0 <= w < |p.workers| && Gone(p.workers[w]) ==> p.stop && (p.lateSubmits == 0 ==> p.queue == [])
  }

  ghost predicate Inv(p: Pool) {
    Holds(p) && Fifo(p) && Served(p) && ExitsRight(p)
  }

  lemma SubmitKeeps(p: Pool)
    requires Inv(p)
    ensures Inv(Next(p, Submit).value)
  {
    var n := Next(p, Submit).value;
    forall t | 0 <= t < |n.tasks| && n.tasks[t].state.Queued? ensures t in n.queue {
      if t == |p.tasks| {
        assert n.queue[|p.queue|] == t;
      }
    }
    forall t: nat | t < |n.tasks| && n.tasks[t].state.Started? ensures HasWorker(n, t) {
      assert HasWorker(p, t);
    }
  }

  lemma TakeHolds(p: Pool, w: nat)
    requires Holds(p) && Next(p, Take(w)).Some?
    ensures Holds(Next(p, Take(w)).value)
    ensures forall t :: 0 <= t < |p.tasks| && p.tasks[t].state.Queued? ==> p.queue[0] <= t
  {
    var n, q := Next(p, Take(w)).value, p.queue[0];
    assert p.queue == [q] + n.queue;
    forall i | 0 <= i < |n.queue| ensures n.queue[i] < |n.tasks| && n.tasks[n.queue[i]].state.Queued? {
      assert n.queue[i] == p.queue[i + 1] && q < p.queue[i + 1];
    }
  }

  lemma TakeFifo(p: Pool, w: nat)
    requires Fifo(p) && Next(p, Take(w)).Some?
    requires forall t :: 0 <= t < |p.tasks| && p.tasks[t].state.Queued? ==> p.queue[0] <= t
    ensures Fifo(Next(p, Take(w)).value)
  {
    var n := Next(p, Take(w)).value;
    assert n.tasks == p.tasks[p.queue[0] := n.tasks[p.queue[0]]];
  }

  lemma TakeServed(p: Pool, w: nat)
    requires Holds(p) && Served(p) && Next(p, Take(w)).Some?
    ensures Served(Next(p, Take(w)).value)
  {
    var n, q := Next(p, Take(w)).value, p.queue[0];
    assert p.tasks[q].state.Queued?;
    forall t: nat | t < |n.tasks| && n.tasks[t].state.Started? ensures HasWorker(n, t) {
      if t == q {
        assert n.workers[w] == Running(t);
      } else {
        assert HasWorker(p, t);
        var v :| 0 <= v < |p.workers| && p.workers[v] == Running(t);
        assert n.workers[v] == Running(t);
      }
    }
  }

  lemma FinishServed(p: Pool, w: nat)
    requires Served(p) && Next(p, Finish(w)).Some?
    ensures Served(Next(p, Finish(w)).value)
  {
    var n := Next(p, Finish(w)).value;
    forall t: nat | t < |n.tasks| && n.tasks[t].state.Started? ensures HasWorker(n, t) {
      assert HasWorker(p, t);
      var v :| 0 <= v < |p.workers| && p.workers[v] == Running(t);
      assert n.workers[v] == Running(t);
    }
  }

  /** A worker that leaves has no task. */
  lemma OtherServed(p: Pool, a: Action)
    requires Served(p) && Next(p, a).Some? && (a.Exit? || a.Destroy? || a.Shutdown?)
    ensures Served(Next(p, a).value)
  {
    var n := Next(p, a).value;
    forall t: nat | t < |n.tasks| && n.tasks[t].state.Started? ensures HasWorker(n, t) {
      assert HasWorker(p, t);
      var v :| 0 <= v < |p.workers| && p.workers[v] == Running(t);
      assert n.workers[v] == Running(t);
    }
  }

  lemma OtherQueue(p: Pool, a: Action)
    requires Inv(p) && Next(p, a).Some? && !a.Submit? && !a.Take?
    ensures Holds(Next(p, a).value) && Fifo(Next(p, a).value)
  {
  }

  lemma StepKeeps(p: Pool, a: Action)
    requires Inv(p) && Next(p, a).Some?
    ensures Inv(Next(p, a).value)
  {
    match a
    case Submit => SubmitKeeps(p);
    case Take(w) =>
      TakeHolds(p, w);
      TakeFifo(p, w);
      TakeServed(p, w);
    case Finish(w) =>
      FinishServed(p, w);
      OtherQueue(p, a);
    case _ =>
      OtherServed(p, a);
      OtherQueue(p, a);
  }

  lemma StepKeepsWorkers(p: Pool, a: Action)
    requires Next(p, a).Some?
    ensures |Next(p, a).value.workers| == |p.workers| && (p.stop ==> Next(p, a).value.stop)
  {
  }

  function Run(p: Pool, actions: seq<Action>): Option<Pool> {
    if actions == [] then Some(p)
    else
      var r := Run(p, actions[..|actions| - 1]);
      if r.None? then None else Next(r.value, actions[|actions| - 1])
  }

  lemma {:induction false} RunKeeps(p: Pool, actions: seq<Action>)
    requires Inv(p) && Run(p, actions).Some?
    ensures var n := Run(p, actions).value; Inv(n) && |n.workers| == |p.workers| && (p.stop ==> n.stop)
    decreases |actions|
  {
    if actions != [] {
      var before, last := actions[..|actions| - 1], actions[|actions| - 1];
      RunKeeps(p, before);
      StepKeeps(Run(p, before).value, last);
      StepKeepsWorkers(Run(p, before).value, last);
    }
  }

  lemma RunInv(workers: nat, actions: seq<Action>)
    requires Run(Initial(workers), actions).Some?
    ensures Inv(Run(Initial(workers), actions).value)
    ensures |Run(Initial(workers), actions).value.workers| == workers
  {
    RunKeeps(Initial(workers), actions);
  }

  // ----------------------------------------------------------- main results

  /**
   In every interleaving, once all workers have left and nothing was submitted after the stop,
   every submitted task was taken once and has finished, or never and was dropped by `Shutdown`.
   */
  lemma DrainedPool(workers: nat, actions: seq<Action>)
    requires workers > 0 && Run(Initial(workers), actions).Some?
    requires var p := Run(Initial(workers), actions).value;
             p.lateSubmits == 0 && forall w :: 0 <= w < |p.workers| ==> Gone(p.workers[w])
    ensures var p := Run(Initial(workers), actions).value;
            forall t :: 0 <= t < |p.tasks| ==> p.tasks[t] == Task(Finished, 1) || p.tasks[t] == Task(Dropped, 0)
  {
    var p := Run(Initial(workers), actions).value;
    RunInv(workers, actions);
    assert Gone(p.workers[0]);
    assert forall t: nat :: t < |p.tasks| && p.tasks[t].state.Started? ==> HasWorker(p, t);
  }

  /** Only `Shutdown` drops tasks, so without it every one of them has finished. */
  lemma {:induction false} OnlyShutdownDrops(p: Pool, actions: seq<Action>)
    requires Run(p, actions).Some? && forall t :: 0 <= t < |p.tasks| ==> !p.tasks[t].state.Dropped?
    requires forall i :: 0 <= i < |actions| ==> !actions[i].Shutdown?
    ensures var n := Run(p, actions).value; forall t :: 0 <= t < |n.tasks| ==> !n.tasks[t].state.Dropped?
    decreases |actions|
  {
    if actions != [] {
      var before := actions[..|actions| - 1];
      assert forall i :: 0 <= i < |before| ==> before[i] == actions[i];
      OnlyShutdownDrops(p, before);
      assert !actions[|actions| - 1].Shutdown?;
    }
  }

  /** Tasks are taken in the order of submission: while one waits, no later one has been taken. */
  lemma TakenInOrder(workers: nat, actions: seq<Action>, t: nat, u: nat)
    requires Run(Initial(workers), actions).Some?
    requires t < u < |Run(Initial(workers), actions).value.tasks|
    ensures var p := Run(Initial(workers), actions).value;
            p.tasks[t].state.Queued? ==> p.tasks[u].runs == 0
  {
    RunInv(workers, actions);
  }

  predicate Submits(actions: seq<Action>) {
    exists i :: 0 <= i < |actions| && actions[i].Submit?
  }

  /** After a shutdown no task is taken any more. */
  lemma {:induction false} NothingStartsAfterShutdown(p: Pool, actions: seq<Action>)
    requires p.queue == [] && Run(p, actions).Some? && !Submits(actions)
    ensures var n := Run(p, actions).value;
            n.queue == [] && |n.tasks| == |p.tasks| && forall t :: 0 <= t < |p.tasks| ==> n.tasks[t].runs == p.tasks[t].runs
    decreases |actions|
  {
    if actions != [] {
      var before := actions[..|actions| - 1];
      assert forall i :: 0 <= i < |before| ==> before[i] == actions[i];
      NothingStartsAfterShutdown(p, before);
    }
  }

  /** A stopped pool with a worker left can move: the joins of the destructor and of `Shutdown` return. */
  lemma StoppedPoolMoves(p: Pool, w: nat)
    requires Inv(p) && p.stop && w < |p.workers| && !Gone(p.workers[w])
    ensures Next(p, Take(w)).Some? || Next(p, Finish(w)).Some? || Next(p, Exit(w)).Some?
  {
  }

  function Left(w: Worker): nat {
    match w
    case Idle => 1
    case Running(_) => 2
    case Exited => 0
  }

  function Measure(p: Pool): nat {
    2 * |p.queue| + Total(p.workers, Left)
  }

  predicate OfWorker(a: Action) {
    a.Take? || a.Finish? || a.Exit?
  }

  /** Every step of a worker brings the pool nearer to its end. */
  lemma WorkerAdvances(p: Pool, a: Action)
    requires Next(p, a).Some? && OfWorker(a)
    ensures Measure(Next(p, a).value) < Measure(p)
  {
    var n := Next(p, a).value;
    TotalUpdate(p.workers, a.worker, n.workers[a.worker], Left);
    assert n.workers == p.workers[a.worker := n.workers[a.worker]];
  }

  function WorkerSteps(actions: seq<Action>): nat {
    if actions == [] then 0
    else WorkerSteps(actions[..|actions| - 1]) + if OfWorker(actions[|actions| - 1]) then 1 else 0
  }

  /** However the stops come between, a run without submissions has no more worker steps than the measure it starts with. */
  lemma {:induction false} RunsAreBounded(p: Pool, actions: seq<Action>)
    requires Run(p, actions).Some? && !Submits(actions)
    ensures WorkerSteps(actions) + Measure(Run(p, actions).value) <= Measure(p)
    decreases |actions|
  {
    if actions != [] {
      var before, last := actions[..|actions| - 1], actions[|actions| - 1];
      assert forall i :: 0 <= i < |before| ==> before[i] == actions[i];
      RunsAreBounded(p, before);
      if OfWorker(last) {
        WorkerAdvances(Run(p, before).value, last);
      }
    }
  }

  /**
   From any reachable state in which the pool was stopped, the workers make a bounded number
   of steps unless tasks are submitted, and when no worker can move any more all have left.
   */
  lemma StoppedPoolEnds(workers: nat, before: seq<Action>, actions: seq<Action>)
    requires Run(Initial(workers), before).Some? && Run(Initial(workers), before).value.stop
    requires Run(Run(Initial(workers), before).value, actions).Some? && !Submits(actions)
    ensures var p := Run(Initial(workers), before).value;
            var n := Run(p, actions).value;
            && WorkerSteps(actions) <= Measure(p)
            && ((forall a :: OfWorker(a) ==> Next(n, a).None?) ==> forall w :: 0 <= w < |n.workers| ==> Gone(n.workers[w]))
  {
    var p := Run(Initial(workers), before).value;
    RunInv(workers, before);
    RunKeeps(p, actions);
    RunsAreBounded(p, actions);
    var n := Run(p, actions).value;
    if forall a :: OfWorker(a) ==> Next(n, a).None? {
      forall w: nat | w < |n.workers| ensures Gone(n.workers[w]) {
        assert OfWorker(Take(w)) && OfWorker(Finish(w)) && OfWorker(Exit(w));
        if !Gone(n.workers[w]) {
          StoppedPoolMoves(n, w);
        }
      }
    }
  }
}
