/**
 Exporting all queued pictures over the thread pool.  The submitting thread and the workers
 interleave at every access to the shared queue, result list and counters.
 */
module ExportJob {
  import opened Tally
  import opened Wrappers

  /** Where a task is; `finished` is what its increment of the completion counter returned. */
  datatype Phase =
    | Waiting
    | Taken
    | Rendered(ok: bool)
    | Stored(ok: bool)
    | Counted(ok: bool)
    | Completed(ok: bool, finished: nat)
    | Ended(ok: bool, finished: nat)

  datatype TaskResult = TaskResult(task: nat, ok: bool)

  datatype Job = Job(
    tasks: seq<Phase>,       // one per drained queue entry
    submitted: nat,          // how many the submitting thread handed to the pool
    queue: seq<nat>,         // the pool's queue
    idle: nat,               // workers without a task
    results: seq<TaskResult>,
    succeeded: nat,
    failed: nat,
    completed: nat,
    callbacks: nat)

  datatype Action = Submit | Take | Work(task: nat, ok: bool)

  function Initial(total: nat, workers: nat): Job {
    Job(seq(total, _ => Waiting), 0, [], workers, [], 0, 0, 0, if total == 0 then 1 else 0)
  }

  /** One step of a worker on its task; rendering may succeed or fail. */
  function WorkStep(j: Job, t: nat, ok: bool): Option<Job>
    requires t < |j.tasks|
  {
    match j.tasks[t]
    case Waiting => None
    case Taken => Some(j.(tasks := j.tasks[t := Rendered(ok)]))
    case Rendered(o) => Some(j.(tasks := j.tasks[t := Stored(o)], results := j.results + [TaskResult(t, o)]))
    case Stored(o) =>
      if o then Some(j.(tasks := j.tasks[t := Counted(o)], succeeded := j.succeeded + 1))
      else Some(j.(tasks := j.tasks[t := Counted(o)], failed := j.failed + 1))
    case Counted(o) => Some(j.(tasks := j.tasks[t := Completed(o, j.completed + 1)], completed := j.completed + 1))
    case Completed(o, f) =>
      Some(j.(tasks := j.tasks[t := Ended(o, f)], idle := j.idle + 1,
              callbacks := if f == |j.tasks| then j.callbacks + 1 else j.callbacks))
    case Ended(_, _) => None
  }

  function Next(j: Job, a: Action): Option<Job> {
    match a
    case Submit => if j.submitted < |j.tasks| then Some(j.(submitted := j.submitted + 1, queue := j.queue + [j.submitted])) else None
    case Take =>
      if j.queue == [] || j.idle == 0 || j.queue[0] >= |j.tasks| then None
      else Some(j.(tasks := j.tasks[j.queue[0] := Taken], queue := j.queue[1..], idle := j.idle - 1))
    case Work(t, ok) => if t < |j.tasks| then WorkStep(j, t, ok) else None
  }

  // ---------------------------------------------------------- the invariant

  function IsStored(p: Phase): nat { if p.Stored? || p.Counted? || p.Completed? || p.Ended? then 1 else 0 }

  function IsCounted(p: Phase): nat { if p.Counted? || p.Completed? || p.Ended? then 1 else 0 }

  function IsGood(p: Phase): nat { if IsCounted(p) == 1 && p.ok then 1 else 0 }

  function IsBad(p: Phase): nat { if IsCounted(p) == 1 && !p.ok then 1 else 0 }

  function IsDone(p: Phase): nat { if p.Completed? || p.Ended? then 1 else 0 }

  function IsRunning(p: Phase): nat { if p.Waiting? || p.Ended? then 0 else 1 }

  /** The queue is FIFO: it holds the next tasks in order, and exactly they and the unsubmitted ones wait. */
  ghost predicate Queued(j: Job) {
    && |j.queue| <= j.submitted <= |j.tasks|
    && (forall k :: 0 <= k < |j.queue| ==> j.queue[k] == j.submitted - |j.queue| + k)
    && (forall t :: 0 <= t < |j.tasks| ==> (j.tasks[t].Waiting? <==> t >= j.submitted - |j.queue|))
  }

  ghost predicate Tallied(j: Job, workers: nat) {
    && j.succeeded == Total(j.tasks, IsGood)
    && j.failed == Total(j.tasks, IsBad)
    && j.completed == Total(j.tasks, IsDone)
    && |j.results| == Total(j.tasks, IsStored)
    && j.idle + Total(j.tasks, IsRunning) == workers
  }

  /** One result for each task that stored one, with its outcome. */
  ghost predicate ResultsMatch(j: Job) {
    && (forall i :: 0 <= i < |j.results| ==>
          && j.results[i].task < |j.tasks| && IsStored(j.tasks[j.results[i].task]) == 1
          && j.results[i].ok == j.tasks[j.results[i].task].ok)
    && (forall i, k :: 0 <= i < k < |j.results| ==> j.results[i].task != j.results[k].task)
    && (forall t :: 0 <= t < |j.tasks| && IsStored(j.tasks[t]) == 1 ==> TaskResult(t, j.tasks[t].ok) in j.results)
  }

  /** The completion counter gave each finishing task its own number, and the last number was given to one. */
  ghost predicate Numbered(j: Job) {
    && (forall t :: 0 <= t < |j.tasks| && IsDone(j.tasks[t]) == 1 ==> 1 <= j.tasks[t].finished <= j.completed)
    && (forall t, u :: 0 <= t < u < |j.tasks| && IsDone(j.tasks[t]) == 1 && IsDone(j.tasks[u]) == 1 ==>
          j.tasks[t].finished != j.tasks[u].finished)
    && (j.completed > 0 ==> exists t: nat :: HasNumber(j, t, j.completed))
  }

  ghost predicate HasNumber(j: Job, t: nat, f: nat) {
    t < |j.tasks| && IsDone(j.tasks[t]) == 1 && j.tasks[t].finished == f
  }

  /** The task that drew the last number and has gone on to call back. */
  ghost predicate Caller(j: Job, t: nat) {
    HasNumber(j, t, |j.tasks|) && j.tasks[t].Ended?
  }

  ghost predicate CalledBack(j: Job) {
    |j.tasks| == 0 || exists t: nat :: Caller(j, t)
  }

  ghost predicate Inv(j: Job, workers: nat) {
    Queued(j) && Tallied(j, workers) && ResultsMatch(j) && Numbered(j) && CallbackCounted(j)
  }

  ghost predicate CallbackCounted(j: Job) {
    j.callbacks == if CalledBack(j) then 1 else 0
  }

  lemma InitialInv(total: nat, workers: nat)
    ensures Inv(Initial(total, workers), workers)
  {
    var j := Initial(total, workers);
    TotalConstant(j.tasks, IsGood, 0);
    TotalConstant(j.tasks, IsBad, 0);
    TotalConstant(j.tasks, IsDone, 0);
    TotalConstant(j.tasks, IsStored, 0);
    TotalConstant(j.tasks, IsRunning, 0);
  }

  lemma UpdateTotals(tasks: seq<Phase>, t: nat, p: Phase)
    requires t < |tasks|
    ensures Total(tasks[t := p], IsGood) + IsGood(tasks[t]) == Total(tasks, IsGood) + IsGood(p)
    ensures Total(tasks[t := p], IsBad) + IsBad(tasks[t]) == Total(tasks, IsBad) + IsBad(p)
    ensures Total(tasks[t := p], IsDone) + IsDone(tasks[t]) == Total(tasks, IsDone) + IsDone(p)
    ensures Total(tasks[t := p], IsStored) + IsStored(tasks[t]) == Total(tasks, IsStored) + IsStored(p)
    ensures Total(tasks[t := p], IsRunning) + IsRunning(tasks[t]) == Total(tasks, IsRunning) + IsRunning(p)
  {
    TotalUpdate(tasks, t, p, IsGood);
    TotalUpdate(tasks, t, p, IsBad);
    TotalUpdate(tasks, t, p, IsDone);
    TotalUpdate(tasks, t, p, IsStored);
    TotalUpdate(tasks, t, p, IsRunning);
  }

  lemma SubmitKeeps(j: Job, workers: nat)
    requires Inv(j, workers) && Next(j, Submit).Some?
    ensures Inv(Next(j, Submit).value, workers)
  {
    SameTasks(j, Next(j, Submit).value);
  }

  /** Numbers and callbacks depend on the tasks and their counters only. */
  lemma SameTasks(j: Job, n: Job)
    requires Numbered(j) && CallbackCounted(j) && ResultsMatch(j)
    requires n.tasks == j.tasks && n.completed == j.completed && n.callbacks == j.callbacks && n.results == j.results
    ensures Numbered(n) && CallbackCounted(n) && ResultsMatch(n)
  {
    assert forall t: nat, f: nat :: HasNumber(n, t, f) == HasNumber(j, t, f);
    assert forall t: nat :: Caller(n, t) == Caller(j, t);
  }

  lemma TakeQueued(j: Job)
    requires Queued(j) && Next(j, Take).Some?
    ensures Queued(Next(j, Take).value)
  {
    var n := Next(j, Take).value;
    assert |n.queue| == |j.queue| - 1 && forall k :: 0 <= k < |n.queue| ==> n.queue[k] == j.queue[k + 1];
  }

  /** Taking a waiting task changes no other task, and the one taken has stored and counted nothing. */
  lemma TakenTask(j: Job, t: nat)
    requires Queued(j) && Next(j, Take).Some? && t < |j.tasks|
    ensures var n := Next(j, Take).value;
            n.tasks[t] == j.tasks[t] || (IsStored(n.tasks[t]) == IsStored(j.tasks[t]) == 0)
  {
    assert j.tasks[j.queue[0]].Waiting?;
  }

  lemma TakeTallied(j: Job, workers: nat)
    requires Queued(j) && Tallied(j, workers) && Next(j, Take).Some?
    ensures Tallied(Next(j, Take).value, workers)
  {
    UpdateTotals(j.tasks, j.queue[0], Taken);
  }

  /** Taking a waiting task touches no result, number or callback. */
  lemma TakeResults(j: Job)
    requires Queued(j) && ResultsMatch(j) && Next(j, Take).Some?
    ensures ResultsMatch(Next(j, Take).value)
  {
    forall t: nat | t < |j.tasks| { TakenTask(j, t); }
  }

  lemma TakeNumbered(j: Job)
    requires Queued(j) && Numbered(j) && Next(j, Take).Some?
    ensures Numbered(Next(j, Take).value)
  {
    var n := Next(j, Take).value;
    forall t: nat | t < |j.tasks| { TakenTask(j, t); }
    assert forall t: nat, f: nat :: HasNumber(n, t, f) == HasNumber(j, t, f);
  }

  lemma TakeCalledBack(j: Job)
    requires Queued(j) && CallbackCounted(j) && Next(j, Take).Some?
    ensures CallbackCounted(Next(j, Take).value)
  {
    var n := Next(j, Take).value;
    forall t: nat ensures Caller(n, t) == Caller(j, t) {
      if t < |j.tasks| {
        TakenTask(j, t);
      }
    }
  }

  /** Only a worker without a task takes one, and it takes the first that waits. */
  lemma TakeKeeps(j: Job, workers: nat)
    requires Inv(j, workers) && Next(j, Take).Some?
    ensures Inv(Next(j, Take).value, workers)
    ensures Total(j.tasks, IsRunning) < workers
    ensures var taken, n := j.queue[0], Next(j, Take).value;
            && taken < |j.tasks| && n.tasks == j.tasks[taken := Taken]
            && forall t :: 0 <= t < |j.tasks| && j.tasks[t].Waiting? ==> taken <= t
  {
    TakeQueued(j);
    TakeTallied(j, workers);
    TakeResults(j);
    TakeNumbered(j);
    TakeCalledBack(j);
  }

  lemma WorkQueued(j: Job, t: nat, ok: bool)
    requires Queued(j) && t < |j.tasks| && WorkStep(j, t, ok).Some?
    ensures Queued(WorkStep(j, t, ok).value)
  {
    var n := WorkStep(j, t, ok).value;
    assert !j.tasks[t].Waiting? && !n.tasks[t].Waiting? && n.tasks == j.tasks[t := n.tasks[t]];
  }

  lemma WorkTallied(j: Job, workers: nat, t: nat, ok: bool)
    requires Tallied(j, workers) && t < |j.tasks| && WorkStep(j, t, ok).Some?
    ensures Tallied(WorkStep(j, t, ok).value, workers)
  {
    var n := WorkStep(j, t, ok).value;
    UpdateTotals(j.tasks, t, n.tasks[t]);
    assert n.tasks == j.tasks[t := n.tasks[t]];
  }

  lemma StoreResults(j: Job, t: nat, ok: bool)
    requires ResultsMatch(j) && t < |j.tasks| && j.tasks[t].Rendered?
    ensures ResultsMatch(WorkStep(j, t, ok).value)
  {
    var n := WorkStep(j, t, ok).value;
    var r := TaskResult(t, j.tasks[t].ok);
    assert n.results == j.results + [r] && n.tasks == j.tasks[t := Stored(r.ok)];
    assert n.results[|j.results|] == r;
    forall u | 0 <= u < |n.tasks| && IsStored(n.tasks[u]) == 1 ensures TaskResult(u, n.tasks[u].ok) in n.results {
      if u != t {
        assert TaskResult(u, j.tasks[u].ok) in j.results;
      }
    }
  }

  lemma WorkResults(j: Job, t: nat, ok: bool)
    requires ResultsMatch(j) && t < |j.tasks| && WorkStep(j, t, ok).Some?
    ensures ResultsMatch(WorkStep(j, t, ok).value)
  {
    if j.tasks[t].Rendered? {
      StoreResults(j, t, ok);
    } else {
      var n := WorkStep(j, t, ok).value;
      assert n.results == j.results && n.tasks == j.tasks[t := n.tasks[t]];
      assert IsStored(n.tasks[t]) == IsStored(j.tasks[t]) && (IsStored(j.tasks[t]) == 1 ==> n.tasks[t].ok == j.tasks[t].ok);
    }
  }

  lemma WorkNumbered(j: Job, t: nat, ok: bool)
    requires Numbered(j) && t < |j.tasks| && WorkStep(j, t, ok).Some?
    ensures Numbered(WorkStep(j, t, ok).value)
  {
    var n := WorkStep(j, t, ok).value;
    if n.completed > j.completed {
      assert HasNumber(n, t, n.completed);
    } else if j.completed > 0 {
      var u: nat :| HasNumber(j, u, j.completed);
      assert HasNumber(n, u, n.completed);
    }
  }

  lemma WorkCallbacks(j: Job, t: nat, ok: bool)
    requires Numbered(j) && CallbackCounted(j) && t < |j.tasks| && WorkStep(j, t, ok).Some?
    ensures CallbackCounted(WorkStep(j, t, ok).value)
  {
    var n := WorkStep(j, t, ok).value;
    assert forall u: nat :: u != t ==> (Caller(n, u) <==> Caller(j, u));
    if j.tasks[t].Completed? && j.tasks[t].finished == |j.tasks| {
      assert Caller(n, t);
      OneCaller(j, t);
    } else {
      assert Caller(n, t) <==> Caller(j, t);
    }
  }

  /** The task that drew the last number is the only one that can have called back. */
  lemma OneCaller(j: Job, t: nat)
    requires Numbered(j) && t < |j.tasks| && j.tasks[t].Completed? && j.tasks[t].finished == |j.tasks|
    ensures !CalledBack(j)
  {
    forall u: nat ensures !Caller(j, u) {
    }
  }

  lemma WorkKeeps(j: Job, workers: nat, t: nat, ok: bool)
    requires Inv(j, workers) && t < |j.tasks| && WorkStep(j, t, ok).Some?
    ensures Inv(WorkStep(j, t, ok).value, workers)
  {
    WorkQueued(j, t, ok);
    WorkTallied(j, workers, t, ok);
    WorkResults(j, t, ok);
    WorkNumbered(j, t, ok);
    WorkCallbacks(j, t, ok);
  }

  lemma StepKeeps(j: Job, workers: nat, a: Action)
    requires Inv(j, workers) && Next(j, a).Some?
    ensures Inv(Next(j, a).value, workers)
  {
    match a
    case Submit => SubmitKeeps(j, workers);
    case Take => TakeKeeps(j, workers);
    case Work(t, ok) => WorkKeeps(j, workers, t, ok);
  }

  lemma StepKeepsTotal(j: Job, a: Action)
    requires Next(j, a).Some?
    ensures |Next(j, a).value.tasks| == |j.tasks|
  {
  }

  /** The job after the actions, if each of them was possible. */
  function Run(j: Job, actions: seq<Action>): Option<Job> {
    if actions == [] then Some(j)
    else
      var r := Run(j, actions[..|actions| - 1]);
      if r.None? then None else Next(r.value, actions[|actions| - 1])
  }

  lemma {:induction false} RunInv(total: nat, workers: nat, actions: seq<Action>)
    requires Run(Initial(total, workers), actions).Some?
    ensures Inv(Run(Initial(total, workers), actions).value, workers)
    ensures |Run(Initial(total, workers), actions).value.tasks| == total
    decreases |actions|
  {
    if actions == [] {
      InitialInv(total, workers);
    } else {
      var before := Run(Initial(total, workers), actions[..|actions| - 1]);
      RunInv(total, workers, actions[..|actions| - 1]);
      StepKeeps(before.value, workers, actions[|actions| - 1]);
      StepKeepsTotal(before.value, actions[|actions| - 1]);
    }
  }

  // ----------------------------------------------------------- main results

  ghost predicate HasResult(j: Job, t: nat) {
    exists i :: 0 <= i < |j.results| && j.results[i].task == t
  }

  /** What holds once the final callback has run. */
  ghost predicate Complete(j: Job) {
    && |j.results| == |j.tasks|
    && (forall t: nat :: t < |j.tasks| ==> HasResult(j, t))
    && (forall i, k :: 0 <= i < k < |j.results| ==> j.results[i].task != j.results[k].task)
    && (forall i :: 0 <= i < |j.results| ==>
          j.results[i].task < |j.tasks| && IsGood(j.tasks[j.results[i].task]) == if j.results[i].ok then 1 else 0)
    && j.succeeded == Total(j.tasks, IsGood) && j.failed == Total(j.tasks, IsBad)
    && j.succeeded + j.failed == |j.tasks| && j.completed == |j.tasks|
    && (forall t :: 0 <= t < |j.tasks| ==> j.tasks[t].Completed? || j.tasks[t].Ended?)
  }

  lemma AllCompleted(j: Job, workers: nat)
    requires Inv(j, workers) && j.completed == |j.tasks|
    ensures Complete(j)
  {
    TotalBound(j.tasks, IsDone, 1);
    assert forall t :: 0 <= t < |j.tasks| ==> IsDone(j.tasks[t]) == 1;
    TotalConstant(j.tasks, IsStored, 1);
    TotalConstant(j.tasks, IsCounted, 1);
    TotalSum(j.tasks, IsGood, IsBad, IsCounted);
    forall t: nat | t < |j.tasks| ensures HasResult(j, t) {
      assert TaskResult(t, j.tasks[t].ok) in j.results;
    }
  }

  /** In every interleaving the callback runs at most once, and only after every task has stored its result and counted. */
  lemma CallbackAfterEverything(total: nat, workers: nat, actions: seq<Action>)
    requires Run(Initial(total, workers), actions).Some?
    ensures var j := Run(Initial(total, workers), actions).value;
            j.callbacks <= 1 && (j.callbacks == 1 ==> Complete(j))
  {
    var j := Run(Initial(total, workers), actions).value;
    RunInv(total, workers, actions);
    if j.callbacks == 1 {
      TotalBound(j.tasks, IsDone, 1);
      if |j.tasks| > 0 {
        var t: nat :| Caller(j, t);
      }
      AllCompleted(j, workers);
    }
  }

  // What a result stands for.

  predicate IsRendered(p: Phase) {
    !p.Waiting? && !p.Taken?
  }

  /** At that place of the run the picture of task t was rendered, or not. */
  ghost predicate RendersAt(j: Job, actions: seq<Action>, k: nat, t: nat, ok: bool) {
    && k < |actions| && actions[k] == Work(t, ok) && Run(j, actions[..k]).Some?
    && t < |Run(j, actions[..k]).value.tasks| && Run(j, actions[..k]).value.tasks[t].Taken?
  }

  ghost predicate Renders(j: Job, actions: seq<Action>, t: nat, ok: bool) {
    exists k :: RendersAt(j, actions, k, t, ok)
  }

  /** One more action adds at most the rendering it is. */
  lemma RendersOneMore(j: Job, actions: seq<Action>, a: Action, t: nat, ok: bool)
    requires Run(j, actions).Some?
    ensures Renders(j, actions + [a], t, ok) <==>
            Renders(j, actions, t, ok) || RendersAt(j, actions + [a], |actions|, t, ok)
  {
    var longer := actions + [a];
    forall k: nat | k < |actions| ensures RendersAt(j, longer, k, t, ok) <==> RendersAt(j, actions, k, t, ok) {
      assert longer[..k] == actions[..k];
    }
  }

  lemma StepKeepsOutcomes(j: Job, a: Action, t: nat)
    requires Next(j, a).Some? && t < |j.tasks|
    requires a.Take? ==> j.tasks[j.queue[0]].Waiting?
    ensures var n := Next(j, a).value;
            && t < |n.tasks| && (IsRendered(j.tasks[t]) ==> IsRendered(n.tasks[t]) && n.tasks[t].ok == j.tasks[t].ok)
            && (!IsRendered(j.tasks[t]) && IsRendered(n.tasks[t]) ==>
                  j.tasks[t].Taken? && a == Work(t, n.tasks[t].ok))
            && (j.tasks[t].Taken? && a.Work? && a.task == t ==> IsRendered(n.tasks[t]) && n.tasks[t].ok == a.ok)
  {
  }

  /** A task carries the outcome with which it was rendered, once it was. */
  lemma {:induction false} OutcomesKept(total: nat, workers: nat, actions: seq<Action>, t: nat, ok: bool)
    requires Run(Initial(total, workers), actions).Some? && t < total
    ensures var j := Run(Initial(total, workers), actions).value;
            |j.tasks| == total
            && (Renders(Initial(total, workers), actions, t, ok) <==> IsRendered(j.tasks[t]) && j.tasks[t].ok == ok)
    decreases |actions|
  {
    var s := Initial(total, workers);
    RunInv(total, workers, actions);
    if actions != [] {
      var before, a := actions[..|actions| - 1], actions[|actions| - 1];
      assert actions == before + [a];
      var j := Run(s, before).value;
      RunInv(total, workers, before);
      OutcomesKept(total, workers, before, t, ok);
      RendersOneMore(s, before, a, t, ok);
      assert actions[..|before|] == before;
      StepKeepsOutcomes(j, a, t);
    }
  }

  /**
   In every interleaving each result reports how the picture of its task was rendered, and the two
   counters count the tasks that were rendered, and those that were not.
   */
  lemma ResultsReportRendering(total: nat, workers: nat, actions: seq<Action>)
    requires Run(Initial(total, workers), actions).Some?
    ensures var s, j := Initial(total, workers), Run(Initial(total, workers), actions).value;
            && |j.tasks| == total
            && (forall i :: 0 <= i < |j.results| ==> Renders(s, actions, j.results[i].task, j.results[i].ok))
            && (forall i :: 0 <= i < |j.results| ==> !Renders(s, actions, j.results[i].task, !j.results[i].ok))
            && j.succeeded == Total(j.tasks, IsGood) && j.failed == Total(j.tasks, IsBad)
            && (forall t: nat :: t < total && IsGood(j.tasks[t]) == 1 ==> Renders(s, actions, t, true))
            && (forall t: nat :: t < total && IsBad(j.tasks[t]) == 1 ==> Renders(s, actions, t, false))
  {
    var j := Run(Initial(total, workers), actions).value;
    RunInv(total, workers, actions);
    forall t: nat, ok | t < total
      ensures Renders(Initial(total, workers), actions, t, ok) <==> IsRendered(j.tasks[t]) && j.tasks[t].ok == ok
    {
      OutcomesKept(total, workers, actions, t, ok);
    }
    forall i | 0 <= i < |j.results| ensures j.results[i].task < total && IsRendered(j.tasks[j.results[i].task]) {
      assert IsStored(j.tasks[j.results[i].task]) == 1;
    }
  }

  ghost predicate Stuck(j: Job) {
    forall a :: Next(j, a).None?
  }

  /** With a worker in the pool, a run that cannot go on has called back exactly once, after every task. */
  lemma FinishedRunCalledBack(total: nat, workers: nat, actions: seq<Action>)
    requires workers > 0 && Run(Initial(total, workers), actions).Some?
    requires Stuck(Run(Initial(total, workers), actions).value)
    ensures var j := Run(Initial(total, workers), actions).value; j.callbacks == 1 && Complete(j)
  {
    var j := Run(Initial(total, workers), actions).value;
    RunInv(total, workers, actions);
    StuckHasEnded(j, workers);
    TotalConstant(j.tasks, IsDone, 1);
    if total > 0 {
      var t: nat :| HasNumber(j, t, j.completed);
      assert Caller(j, t);
    }
    CallbackAfterEverything(total, workers, actions);
  }

  lemma StuckHasEnded(j: Job, workers: nat)
    requires workers > 0 && Inv(j, workers) && Stuck(j)
    ensures forall t :: 0 <= t < |j.tasks| ==> j.tasks[t].Ended?
  {
    assert Next(j, Submit).None?;
    forall t | 0 <= t < |j.tasks| ensures j.tasks[t].Waiting? || j.tasks[t].Ended? {
      assert Next(j, Work(t, true)).None?;
    }
    TotalConstant(j.tasks, IsRunning, 0);
    assert Next(j, Take).None?;
    assert j.queue == [];
  }

  /** How many steps the tasks still have to take. */
  function Remaining(p: Phase): nat {
    match p
    case Waiting => 6
    case Taken => 5
    case Rendered(_) => 4
    case Stored(_) => 3
    case Counted(_) => 2
    case Completed(_, _) => 1
    case Ended(_, _) => 0
  }

  function Measure(j: Job): int {
    Total(j.tasks, Remaining) + |j.tasks| - j.submitted
  }

  lemma TakeAdvances(j: Job)
    requires Queued(j) && Next(j, Take).Some?
    ensures Measure(Next(j, Take).value) == Measure(j) - 1
  {
    TotalUpdate(j.tasks, j.queue[0], Taken, Remaining);
  }

  lemma WorkAdvances(j: Job, t: nat, ok: bool)
    requires t < |j.tasks| && WorkStep(j, t, ok).Some?
    ensures Measure(WorkStep(j, t, ok).value) == Measure(j) - 1
  {
    var n := WorkStep(j, t, ok).value;
    TotalUpdate(j.tasks, t, n.tasks[t], Remaining);
    assert n.tasks == j.tasks[t := n.tasks[t]];
  }

  lemma StepAdvances(j: Job, a: Action)
    requires Queued(j) && Next(j, a).Some?
    ensures Measure(Next(j, a).value) == Measure(j) - 1
  {
    match a
    case Submit =>
    case Take => TakeAdvances(j);
    case Work(t, ok) => WorkAdvances(j, t, ok);
  }

  /** Every run ends: it has at most seven steps a task. */
  lemma {:induction false} RunsAreBounded(total: nat, workers: nat, actions: seq<Action>)
    requires Run(Initial(total, workers), actions).Some?
    ensures |actions| + Measure(Run(Initial(total, workers), actions).value) == 7 * total
    ensures |actions| <= 7 * total
    decreases |actions|
  {
    RunInv(total, workers, actions);
    if actions == [] {
      TotalConstant(Initial(total, workers).tasks, Remaining, 6);
    } else {
      var before := actions[..|actions| - 1];
      RunsAreBounded(total, workers, before);
      RunInv(total, workers, before);
      StepAdvances(Run(Initial(total, workers), before).value, actions[|actions| - 1]);
    }
  }
}
