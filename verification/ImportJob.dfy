/**
 Importing files: the submitting thread counts early failures and hands one metadata task per
 placeholder to the pool; it and every task try to finish the job.  Each load and increment
 of a shared counter is a step of its own.  The job is not cancelled.
 */
module ImportJob {
  import opened Wrappers
  import opened Tally

  /** A call of TryFinishImportJob, between its loads. */
  datatype Finish =
    | ReadClosed
    | ReadFinished
    | ReadSubmitted(finished: nat)
    | ReadDone
    | ReadFailed(done: nat)
    | Exchange(done: nat, failed: nat)
    | Over

  /** A requested path: not reached, failed before a task was made, or with a task. */
  datatype Phase =
    | Unseen
    | EarlyFailed
    | Announced                 // counted as submitted, not yet in the pool's queue
    | Waiting
    | Taken
    | Counted(ok: bool)
    | Finishing(ok: bool, finish: Finish)

  datatype Main = Looping | Closing | MainFinishing(finish: Finish)

  datatype Report = Report(requested: nat, imported: nat, failed: nat)

  datatype Job = Job(
    paths: seq<Phase>,
    seen: nat,
    main: Main,
    queue: seq<nat>,
    idle: nat,
    closed: bool,
    submitted: nat,
    finished: nat,
    done: nat,
    failed: nat,
    acked: bool,
    reports: seq<Report>)

  datatype Action =
    | Fail                      // the next path fails early
    | Announce                  // the next path gets a task
    | Submit                    // which goes into the pool
    | EndLoop
    | MainStep
    | Take
    | Work(path: nat, ok: bool)

  /** An empty list of paths is reported at once. */
  function Initial(total: nat, workers: nat): Job {
    if total == 0 then Job([], 0, MainFinishing(Over), [], workers, true, 0, 0, 0, 0, true, [Report(0, 0, 0)])
    else Job(seq(total, _ => Unseen), 0, Looping, [], workers, false, 0, 0, 0, 0, false, [])
  }

  /** One step of a finishing thread; only the exchange changes anything shared. */
  function FinishStep(j: Job, f: Finish): Finish {
    match f
    case ReadClosed => if j.closed then ReadFinished else Over
    case ReadFinished => ReadSubmitted(j.finished)
    case ReadSubmitted(v) => if v == j.submitted then ReadDone else Over
    case ReadDone => ReadFailed(j.done)
    case ReadFailed(d) => Exchange(d, j.failed)
    case Exchange(_, _) => Over
    case Over => Over
  }

  /** The first exchange reports. */
  function Reported(j: Job, f: Finish): Job {
    if f.Exchange? then
      if j.acked then j else j.(acked := true, reports := j.reports + [Report(|j.paths|, f.done, f.failed)])
    else j
  }

  function WorkStep(j: Job, t: nat, ok: bool): Option<Job>
    requires t < |j.paths|
  {
    match j.paths[t]
    case Taken =>
      if ok then Some(j.(paths := j.paths[t := Counted(ok)], done := j.done + 1))
      else Some(j.(paths := j.paths[t := Counted(ok)], failed := j.failed + 1))
    case Counted(o) => Some(j.(paths := j.paths[t := Finishing(o, ReadClosed)], finished := j.finished + 1))
    case Finishing(o, f) =>
      if f.Over? then None
      else
        var n := Reported(j, f).(paths := j.paths[t := Finishing(o, FinishStep(j, f))]);
        Some(if FinishStep(j, f).Over? then n.(idle := j.idle + 1) else n)
    case _ => None
  }

  function Next(j: Job, a: Action): Option<Job> {
    match a
    case Fail =>
      if j.main.Looping? && j.seen < |j.paths| && j.paths[j.seen].Unseen?
      then Some(j.(paths := j.paths[j.seen := EarlyFailed], seen := j.seen + 1, failed := j.failed + 1)) else None
    case Announce =>
      if j.main.Looping? && j.seen < |j.paths| && j.paths[j.seen].Unseen?
      then Some(j.(paths := j.paths[j.seen := Announced], submitted := j.submitted + 1)) else None
    case Submit =>
      if j.main.Looping? && j.seen < |j.paths| && j.paths[j.seen].Announced?
      then Some(j.(paths := j.paths[j.seen := Waiting], seen := j.seen + 1, queue := j.queue + [j.seen])) else None
    case EndLoop => if j.main.Looping? && j.seen == |j.paths| then Some(j.(main := Closing)) else None
    case MainStep =>
      if j.main.Closing? then Some(j.(closed := true, main := MainFinishing(ReadClosed)))
      else if j.main.MainFinishing? && !j.main.finish.Over? then
        Some(Reported(j, j.main.finish).(main := MainFinishing(FinishStep(j, j.main.finish))))
      else None
    case Take =>
      if j.queue == [] || j.idle == 0 || j.queue[0] >= |j.paths| then None
      else Some(j.(paths := j.paths[j.queue[0] := Taken], queue := j.queue[1..], idle := j.idle - 1))
    case Work(t, ok) => if t < |j.paths| then WorkStep(j, t, ok) else None
  }

  // ---------------------------------------------------------- the invariant

  function IsSubmitted(p: Phase): nat { if p.Unseen? || p.EarlyFailed? then 0 else 1 }

  function IsFinished(p: Phase): nat { if p.Finishing? then 1 else 0 }

  function IsDone(p: Phase): nat { if (p.Counted? || p.Finishing?) && p.ok then 1 else 0 }

  function IsFailed(p: Phase): nat { if p.EarlyFailed? || ((p.Counted? || p.Finishing?) && !p.ok) then 1 else 0 }

  function IsRunning(p: Phase): nat { if p.Taken? || p.Counted? || (p.Finishing? && !p.finish.Over?) then 1 else 0 }

  /** Paths are taken in order; the queue holds tasks that wait, all of them, each once. */
  ghost predicate Queued(j: Job) {
    && j.seen <= |j.paths|
    && (forall t :: 0 <= t < |j.paths| ==>
          (t > j.seen ==> j.paths[t].Unseen?) && (t < j.seen ==> !j.paths[t].Unseen? && !j.paths[t].Announced?))
    && (j.seen < |j.paths| ==> j.paths[j.seen].Unseen? || j.paths[j.seen].Announced?)
    && (forall k :: 0 <= k < |j.queue| ==> j.queue[k] < j.seen && j.paths[j.queue[k]].Waiting?)
    && (forall k, l :: 0 <= k < l < |j.queue| ==> j.queue[k] < j.queue[l])
    && (forall t :: 0 <= t < |j.paths| && j.paths[t].Waiting? ==> t in j.queue)
    && (!j.main.Looping? ==> j.seen == |j.paths|)
    && (j.closed <==> j.main.MainFinishing?)
  }

  ghost predicate Tallied(j: Job, workers: nat) {
    && j.submitted == Total(j.paths, IsSubmitted)
    && j.finished == Total(j.paths, IsFinished)
    && j.done == Total(j.paths, IsDone)
    && j.failed == Total(j.paths, IsFailed)
    && j.idle + Total(j.paths, IsRunning) == workers
  }

  /** Submission is closed and every task has ended, so no counter changes any more. */
  ghost predicate Settled(j: Job) {
    j.closed && j.finished == j.submitted
  }

  /** What a finishing thread has read is still true. */
  ghost predicate ReadsHold(j: Job, f: Finish) {
    match f
    case ReadClosed => true
    case ReadFinished => j.closed
    case ReadSubmitted(v) => j.closed && v <= j.finished
    case ReadDone => Settled(j)
    case ReadFailed(d) => Settled(j) && d == j.done
    case Exchange(d, x) => Settled(j) && d == j.done && x == j.failed
    case Over => true
  }

  ghost predicate AllReadsHold(j: Job) {
    && (j.main.MainFinishing? ==> ReadsHold(j, j.main.finish))
    && forall t :: 0 <= t < |j.paths| && j.paths[t].Finishing? ==> ReadsHold(j, j.paths[t].finish)
  }

  ghost predicate ReportsRight(j: Job) {
    && |j.reports| == (if j.acked then 1 else 0)
    && (j.acked ==> Settled(j) && j.reports[0] == Report(|j.paths|, j.done, j.failed))
  }

  /** A thread in this state will report, or find the report made. */
  predicate Hopeful(j: Job, f: Finish) {
    !f.Over? && (f.ReadSubmitted? ==> f.finished == j.submitted)
  }

  ghost predicate SomeHope(j: Job) {
    (j.main.MainFinishing? && Hopeful(j, j.main.finish)) || exists t :: HopefulTask(j, t)
  }

  ghost predicate HopefulTask(j: Job, t: nat) {
    t < |j.paths| && j.paths[t].Finishing? && Hopeful(j, j.paths[t].finish)
  }

  /** Once settled, the report is made or some thread will make it. */
  ghost predicate NotForgotten(j: Job) {
    Settled(j) ==> j.acked || SomeHope(j)
  }

  ghost predicate Inv(j: Job, workers: nat) {
    Queued(j) && Tallied(j, workers) && AllReadsHold(j) && ReportsRight(j) && NotForgotten(j)
  }

  lemma UpdateTotals(paths: seq<Phase>, t: nat, p: Phase)
    requires t < |paths|
    ensures Total(paths[t := p], IsSubmitted) + IsSubmitted(paths[t]) == Total(paths, IsSubmitted) + IsSubmitted(p)
    ensures Total(paths[t := p], IsFinished) + IsFinished(paths[t]) == Total(paths, IsFinished) + IsFinished(p)
    ensures Total(paths[t := p], IsDone) + IsDone(paths[t]) == Total(paths, IsDone) + IsDone(p)
    ensures Total(paths[t := p], IsFailed) + IsFailed(paths[t]) == Total(paths, IsFailed) + IsFailed(p)
    ensures Total(paths[t := p], IsRunning) + IsRunning(paths[t]) == Total(paths, IsRunning) + IsRunning(p)
  {
    TotalUpdate(paths, t, p, IsSubmitted);
    TotalUpdate(paths, t, p, IsFinished);
    TotalUpdate(paths, t, p, IsDone);
    TotalUpdate(paths, t, p, IsFailed);
    TotalUpdate(paths, t, p, IsRunning);
  }

  /** The submitted tasks that have not finished. */
  function IsOpen(p: Phase): nat { if IsSubmitted(p) == 1 && IsFinished(p) == 0 then 1 else 0 }

  lemma OpenTasks(j: Job, workers: nat)
    requires Tallied(j, workers)
    ensures j.submitted == j.finished + Total(j.paths, IsOpen)
  {
    TotalSum(j.paths, IsFinished, IsOpen, IsSubmitted);
  }

  lemma {:induction false} NoneOpen(paths: seq<Phase>)
    requires Total(paths, IsOpen) == 0
    ensures forall t :: 0 <= t < |paths| ==> IsOpen(paths[t]) == 0
  {
    if paths != [] {
      NoneOpen(paths[1..]);
      forall t | 0 <= t < |paths| ensures IsOpen(paths[t]) == 0 {
        if t > 0 {
          assert paths[t] == paths[1..][t - 1];
        }
      }
    }
  }

  /** Once settled, every path failed early or has a finishing task, and all are accounted for. */
  lemma SettledMeans(j: Job, workers: nat)
    requires Queued(j) && Tallied(j, workers) && Settled(j)
    ensures forall t :: 0 <= t < |j.paths| ==> j.paths[t].EarlyFailed? || j.paths[t].Finishing?
    ensures j.done + j.failed == |j.paths|
  {
    OpenTasks(j, workers);
    NoneOpen(j.paths);
    forall t | 0 <= t < |j.paths| ensures j.paths[t].EarlyFailed? || j.paths[t].Finishing? {
      assert IsOpen(j.paths[t]) == 0 && t < j.seen;
    }
    TotalSum(j.paths, IsDone, IsFailed, (p: Phase) => IsDone(p) + IsFailed(p));
    TotalConstant(j.paths, (p: Phase) => IsDone(p) + IsFailed(p), 1);
  }

  // ------------------------------------------------- what a step preserves

  /** Counters only grow, and not at all once settled. */
  ghost predicate Grows(j: Job, n: Job) {
    && |n.paths| == |j.paths| && j.finished <= n.finished
    && (j.closed ==> n.closed && n.submitted == j.submitted)
    && (Settled(j) ==> Settled(n) && n.done == j.done && n.failed == j.failed)
  }

  lemma ReadsStay(j: Job, n: Job, f: Finish)
    requires Grows(j, n) && ReadsHold(j, f)
    ensures ReadsHold(n, f)
  {
  }

  ghost predicate SameFinishing(j: Job, n: Job) {
    && |n.paths| == |j.paths|
    && (forall t :: 0 <= t < |j.paths| ==>
          (n.paths[t].Finishing? <==> j.paths[t].Finishing?) && (j.paths[t].Finishing? ==> n.paths[t] == j.paths[t]))
    && (n.main.MainFinishing? <==> j.main.MainFinishing?) && (j.main.MainFinishing? ==> n.main == j.main)
    && n.acked == j.acked && n.reports == j.reports
  }

  ghost predicate Finishers(j: Job) {
    AllReadsHold(j) && ReportsRight(j) && NotForgotten(j)
  }

  /** A step of a thread that is not finishing. */
  lemma QuietStep(j: Job, n: Job)
    requires Grows(j, n) && SameFinishing(j, n) && Finishers(j) && (Settled(n) ==> Settled(j))
    ensures Finishers(n)
  {
    if j.main.MainFinishing? {
      ReadsStay(j, n, j.main.finish);
    }
    forall t | 0 <= t < |n.paths| && n.paths[t].Finishing? ensures ReadsHold(n, n.paths[t].finish) {
      ReadsStay(j, n, j.paths[t].finish);
    }
    if Settled(n) && !j.acked && exists t :: HopefulTask(j, t) {
      var t: nat :| HopefulTask(j, t);
      assert HopefulTask(n, t);
    }
  }

  lemma LoopQueued(j: Job, a: Action)
    requires Queued(j) && Next(j, a).Some? && (a.Fail? || a.Announce? || a.Submit? || a.EndLoop?)
    ensures Queued(Next(j, a).value)
  {
    var n := Next(j, a).value;
    if a.Submit? {
      assert n.queue[|j.queue|] == j.seen;
    }
  }

  lemma LoopKeeps(j: Job, workers: nat, a: Action)
    requires Inv(j, workers) && Next(j, a).Some? && (a.Fail? || a.Announce? || a.Submit? || a.EndLoop?)
    ensures Inv(Next(j, a).value, workers)
  {
    var n := Next(j, a).value;
    LoopQueued(j, a);
    if !a.EndLoop? {
      RetalliedAt(j, n, workers, j.seen, n.paths[j.seen]);
    }
    QuietStep(j, n);
  }

  lemma TakeQueued(j: Job)
    requires Queued(j) && Next(j, Take).Some?
    ensures Queued(Next(j, Take).value)
  {
    var n, q := Next(j, Take).value, j.queue[0];
    assert n.queue == j.queue[1..] && forall k :: 0 <= k < |n.queue| ==> n.queue[k] == j.queue[k + 1];
    forall k | 0 <= k < |n.queue| ensures n.queue[k] < j.seen && n.paths[n.queue[k]].Waiting? {
      assert n.queue[k] == j.queue[k + 1] && q < j.queue[k + 1];
    }
    forall t | 0 <= t < |n.paths| && n.paths[t].Waiting? ensures t in n.queue {
      assert t in j.queue && t != q;
      assert j.queue == [q] + n.queue;
    }
  }

  lemma TakeKeeps(j: Job, workers: nat)
    requires Inv(j, workers) && Next(j, Take).Some?
    ensures Inv(Next(j, Take).value, workers)
  {
    var n := Next(j, Take).value;
    TakeQueued(j);
    RetalliedAt(j, n, workers, j.queue[0], Taken);
    QuietStep(j, n);
  }

  lemma WorkQueued(j: Job, t: nat, ok: bool)
    requires Queued(j) && t < |j.paths| && WorkStep(j, t, ok).Some?
    ensures Queued(WorkStep(j, t, ok).value)
  {
    var n := WorkStep(j, t, ok).value;
    assert n.paths == j.paths[t := n.paths[t]] && n.queue == j.queue && n.main == j.main && n.seen == j.seen && n.closed == j.closed;
    assert t !in j.queue;
    assert t < j.seen;
  }

  /** The counters of n follow from those of j when one path changes its phase. */
  lemma RetalliedAt(j: Job, n: Job, workers: nat, t: nat, p: Phase)
    requires Tallied(j, workers) && t < |j.paths| && n.paths == j.paths[t := p]
    requires n.submitted + IsSubmitted(j.paths[t]) == j.submitted + IsSubmitted(p)
    requires n.finished + IsFinished(j.paths[t]) == j.finished + IsFinished(p)
    requires n.done + IsDone(j.paths[t]) == j.done + IsDone(p)
    requires n.failed + IsFailed(j.paths[t]) == j.failed + IsFailed(p)
    requires n.idle + IsRunning(p) == j.idle + IsRunning(j.paths[t])
    ensures Tallied(n, workers)
  {
    UpdateTotals(j.paths, t, p);
  }

  lemma WorkTallied(j: Job, workers: nat, t: nat, ok: bool)
    requires Tallied(j, workers) && t < |j.paths| && WorkStep(j, t, ok).Some?
    ensures Tallied(WorkStep(j, t, ok).value, workers)
  {
    var n := WorkStep(j, t, ok).value;
    RetalliedAt(j, n, workers, t, n.paths[t]);
  }

  /** A task counts its outcome. */
  lemma CountKeeps(j: Job, workers: nat, t: nat, ok: bool)
    requires Inv(j, workers) && t < |j.paths| && j.paths[t].Taken?
    ensures Finishers(WorkStep(j, t, ok).value)
  {
    var n := WorkStep(j, t, ok).value;
    if Settled(j) {
      SettledMeans(j, workers);
      assert false;
    }
    QuietStep(j, n);
  }

  /** A thread starts to finish the job. */
  lemma NewFinisher(j: Job, n: Job)
    requires Grows(j, n) && Finishers(j) && !Settled(j) && n.acked == j.acked && n.reports == j.reports
    requires j.main.MainFinishing? ==> n.main == j.main
    requires !j.main.MainFinishing? ==> n.main.MainFinishing? ==> n.main.finish.ReadClosed?
    requires forall t :: 0 <= t < |j.paths| && j.paths[t].Finishing? ==> n.paths[t] == j.paths[t]
    requires forall t :: 0 <= t < |j.paths| && !j.paths[t].Finishing? && n.paths[t].Finishing? ==> n.paths[t].finish.ReadClosed?
    requires SomeHope(n)
    ensures Finishers(n)
  {
    if j.main.MainFinishing? {
      ReadsStay(j, n, j.main.finish);
    }
    forall t | 0 <= t < |n.paths| && n.paths[t].Finishing? ensures ReadsHold(n, n.paths[t].finish) {
      if j.paths[t].Finishing? {
        ReadsStay(j, n, j.paths[t].finish);
      }
    }
  }

  lemma FinishedKeeps(j: Job, workers: nat, t: nat, ok: bool)
    requires Inv(j, workers) && t < |j.paths| && j.paths[t].Counted?
    ensures Finishers(WorkStep(j, t, ok).value)
  {
    var n := WorkStep(j, t, ok).value;
    if Settled(j) {
      SettledMeans(j, workers);
      assert false;
    }
    assert HopefulTask(n, t);
    NewFinisher(j, n);
  }

  lemma CloseKeeps(j: Job, workers: nat)
    requires Inv(j, workers) && j.main.Closing?
    ensures Inv(Next(j, MainStep).value, workers)
  {
    NewFinisher(j, Next(j, MainStep).value);
  }

  /** What the next read finds holds, given what the earlier ones found. */
  lemma FinishReads(j: Job, workers: nat, f: Finish)
    requires Tallied(j, workers) && ReadsHold(j, f)
    ensures ReadsHold(j, FinishStep(j, f))
  {
    OpenTasks(j, workers);
  }

  /** A step of one finishing thread from f, given that all others stand still. */
  lemma FinishKeeps(j: Job, n: Job, workers: nat, f: Finish)
    requires Tallied(j, workers) && Finishers(j) && ReadsHold(j, f) && !f.Over?
    requires |n.paths| == |j.paths| && n.closed == j.closed && n.submitted == j.submitted && n.finished == j.finished
    requires n.done == j.done && n.failed == j.failed
    requires n.acked == Reported(j, f).acked && n.reports == Reported(j, f).reports
    ensures Grows(j, n) && ReportsRight(n) && ReadsHold(n, FinishStep(j, f))
    ensures Settled(n) && Hopeful(j, f) ==> n.acked || Hopeful(n, FinishStep(j, f))
  {
    FinishReads(j, workers, f);
    ReadsStay(j, n, FinishStep(j, f));
  }

  lemma MainFinishKeeps(j: Job, workers: nat)
    requires Inv(j, workers) && j.main.MainFinishing? && Next(j, MainStep).Some?
    ensures Inv(Next(j, MainStep).value, workers)
  {
    var n := Next(j, MainStep).value;
    FinishKeeps(j, n, workers, j.main.finish);
    forall t | 0 <= t < |n.paths| && n.paths[t].Finishing? ensures ReadsHold(n, n.paths[t].finish) {
      ReadsStay(j, n, j.paths[t].finish);
    }
    if Settled(n) && !n.acked && exists t :: HopefulTask(j, t) {
      var t: nat :| HopefulTask(j, t);
      assert HopefulTask(n, t);
    }
  }

  lemma TaskFinishKeeps(j: Job, workers: nat, t: nat, ok: bool)
    requires Inv(j, workers) && t < |j.paths| && j.paths[t].Finishing? && WorkStep(j, t, ok).Some?
    ensures Finishers(WorkStep(j, t, ok).value)
  {
    var n := WorkStep(j, t, ok).value;
    var f := j.paths[t].finish;
    assert n.paths == j.paths[t := Finishing(j.paths[t].ok, FinishStep(j, f))];
    FinishKeeps(j, n, workers, f);
    if j.main.MainFinishing? {
      ReadsStay(j, n, j.main.finish);
    }
    forall u | 0 <= u < |n.paths| && n.paths[u].Finishing? ensures ReadsHold(n, n.paths[u].finish) {
      if u != t {
        ReadsStay(j, n, j.paths[u].finish);
      }
    }
    if Settled(n) && !n.acked {
      if u: nat :| HopefulTask(j, u) {
        assert HopefulTask(n, u);
      }
    }
  }

  lemma StepKeeps(j: Job, workers: nat, a: Action)
    requires Inv(j, workers) && Next(j, a).Some?
    ensures Inv(Next(j, a).value, workers)
  {
    match a
    case MainStep => if j.main.Closing? { CloseKeeps(j, workers); } else { MainFinishKeeps(j, workers); }
    case Take => TakeKeeps(j, workers);
    case Work(t, ok) =>
      WorkQueued(j, t, ok);
      WorkTallied(j, workers, t, ok);
      if j.paths[t].Taken? {
        CountKeeps(j, workers, t, ok);
      } else if j.paths[t].Counted? {
        FinishedKeeps(j, workers, t, ok);
      } else {
        TaskFinishKeeps(j, workers, t, ok);
      }
    case _ => LoopKeeps(j, workers, a);
  }

  lemma InitialInv(total: nat, workers: nat)
    ensures Inv(Initial(total, workers), workers)
  {
    var j := Initial(total, workers);
    TotalConstant(j.paths, IsSubmitted, 0);
    TotalConstant(j.paths, IsFinished, 0);
    TotalConstant(j.paths, IsDone, 0);
    TotalConstant(j.paths, IsFailed, 0);
    TotalConstant(j.paths, IsRunning, 0);
  }

  lemma StepKeepsTotal(j: Job, a: Action)
    requires Next(j, a).Some?
    ensures |Next(j, a).value.paths| == |j.paths|
  {
  }

  /** The job after the actions, if each of them was possible. */
  function Run(j: Job, actions: seq<Action>): Option<Job> {
    if actions == [] then Some(j)
    else
      var r := Run(j, actions[..|actions| - 1]);
      if r.None? then None else Next(r.value, actions[|actions| - 1])
  }

  lemma {:induction false} RunInv(total: nat, workers: nat, actions: seq<Action>)
    requires Run(Initial(total, workers), actions).Some?
    ensures Inv(Run(Initial(total, workers), actions).value, workers)
    ensures |Run(Initial(total, workers), actions).value.paths| == total
    decreases |actions|
  {
    if actions == [] {
      InitialInv(total, workers);
    } else {
      var before := Run(Initial(total, workers), actions[..|actions| - 1]);
      RunInv(total, workers, actions[..|actions| - 1]);
      StepKeeps(before.value, workers, actions[|actions| - 1]);
      StepKeepsTotal(before.value, actions[|actions| - 1]);
    }
  }

  // ----------------------------------------------------------- main results

  /** In every interleaving the job reports at most once, only after every task has ended, and accounts for every path. */
  lemma ReportAccountsForAll(total: nat, workers: nat, actions: seq<Action>)
    requires Run(Initial(total, workers), actions).Some?
    ensures var j := Run(Initial(total, workers), actions).value;
            && |j.paths| == total && |j.reports| <= 1
            && (|j.reports| == 1 ==>
                  && j.reports[0].requested == total
                  && j.reports[0].imported == Total(j.paths, IsDone)
                  && j.reports[0].failed == Total(j.paths, IsFailed)
                  && j.reports[0].imported + j.reports[0].failed == total
                  && forall t :: 0 <= t < |j.paths| ==> j.paths[t].EarlyFailed? || j.paths[t].Finishing?)
  {
    var j := Run(Initial(total, workers), actions).value;
    RunInv(total, workers, actions);
    if j.acked {
      SettledMeans(j, workers);
    }
  }

  // What the counters stand for.

  predicate Ended(p: Phase) {
    p.Counted? || p.Finishing?
  }

  /** At that place of the run the task of a path ended, well or not. */
  ghost predicate EndsAt(j: Job, actions: seq<Action>, k: nat, t: nat, ok: bool) {
    && k < |actions| && actions[k] == Work(t, ok) && Run(j, actions[..k]).Some?
    && t < |Run(j, actions[..k]).value.paths| && Run(j, actions[..k]).value.paths[t].Taken?
  }

  ghost predicate Ends(j: Job, actions: seq<Action>, t: nat, ok: bool) {
    exists k :: EndsAt(j, actions, k, t, ok)
  }

  /** At that place of the run the path failed before it had a task. */
  ghost predicate FailsAt(j: Job, actions: seq<Action>, k: nat, t: nat) {
    k < |actions| && actions[k] == Fail && Run(j, actions[..k]).Some? && Run(j, actions[..k]).value.seen == t
  }

  ghost predicate FailsEarly(j: Job, actions: seq<Action>, t: nat) {
    exists k :: FailsAt(j, actions, k, t)
  }

  /** One more action adds at most the end that it is. */
  lemma EndsOneMore(j: Job, actions: seq<Action>, a: Action, t: nat, ok: bool)
    requires Run(j, actions).Some?
    ensures Ends(j, actions + [a], t, ok) <==> Ends(j, actions, t, ok) || EndsAt(j, actions + [a], |actions|, t, ok)
    ensures FailsEarly(j, actions + [a], t) <==> FailsEarly(j, actions, t) || FailsAt(j, actions + [a], |actions|, t)
  {
    var longer := actions + [a];
    forall k: nat | k < |actions|
      ensures EndsAt(j, longer, k, t, ok) <==> EndsAt(j, actions, k, t, ok)
      ensures FailsAt(j, longer, k, t) <==> FailsAt(j, actions, k, t)
    {
      assert longer[..k] == actions[..k];
    }
  }

  lemma WorkKeepsEnds(j: Job, p: nat, ok: bool, t: nat)
    requires p < |j.paths| && t < |j.paths| && WorkStep(j, p, ok).Some?
    ensures var n := WorkStep(j, p, ok).value;
            && |n.paths| == |j.paths| && (t != p ==> n.paths[t] == j.paths[t])
            && (t == p ==> Ended(n.paths[t]) && (j.paths[t].Taken? || Ended(j.paths[t]))
                           && n.paths[t].ok == if j.paths[t].Taken? then ok else j.paths[t].ok)
  {
  }

  lemma StepKeepsEnds(j: Job, a: Action, t: nat)
    requires Queued(j) && Next(j, a).Some? && t < |j.paths|
    ensures var n := Next(j, a).value;
            && t < |n.paths| && (Ended(j.paths[t]) ==> Ended(n.paths[t]) && n.paths[t].ok == j.paths[t].ok)
            && (!Ended(j.paths[t]) && Ended(n.paths[t]) ==> j.paths[t].Taken? && a == Work(t, n.paths[t].ok))
            && (j.paths[t].Taken? && a.Work? && a.path == t ==> Ended(n.paths[t]) && n.paths[t].ok == a.ok)
            && (n.paths[t].EarlyFailed? <==> j.paths[t].EarlyFailed? || (a.Fail? && j.seen == t))
  {
    if a.Work? {
      WorkKeepsEnds(j, a.path, a.ok, t);
    }
  }

  /** A path carries the outcome with which its task ended, once it did. */
  ghost predicate Carries(s: Job, actions: seq<Action>, j: Job, t: nat, ok: bool) {
    && t < |j.paths|
    && (Ends(s, actions, t, ok) <==> Ended(j.paths[t]) && j.paths[t].ok == ok)
    && (FailsEarly(s, actions, t) <==> j.paths[t].EarlyFailed?)
  }

  lemma StepCarries(s: Job, before: seq<Action>, a: Action, t: nat, ok: bool)
    requires Run(s, before + [a]).Some? && Run(s, before).Some? && Queued(Run(s, before).value)
    requires Next(Run(s, before).value, a) == Run(s, before + [a])
    requires Carries(s, before, Run(s, before).value, t, ok)
    ensures Carries(s, before + [a], Run(s, before + [a]).value, t, ok)
  {
    EndsOneMore(s, before, a, t, ok);
    assert (before + [a])[..|before|] == before;
    StepKeepsEnds(Run(s, before).value, a, t);
  }

  lemma {:induction false} OutcomesKept(total: nat, workers: nat, actions: seq<Action>, t: nat, ok: bool)
    requires Run(Initial(total, workers), actions).Some? && t < total
    ensures Carries(Initial(total, workers), actions, Run(Initial(total, workers), actions).value, t, ok)
    decreases |actions|
  {
    var s := Initial(total, workers);
    if actions != [] {
      var before, a := actions[..|actions| - 1], actions[|actions| - 1];
      assert actions == before + [a];
      assert Queued(Run(s, before).value) by {
        RunInv(total, workers, before);
      }
      OutcomesKept(total, workers, before, t, ok);
      StepCarries(s, before, a, t, ok);
    }
  }

  /**
   In every interleaving the two counters count the paths whose task ended well, and those that
   failed early or whose task did not end well.
   */
  lemma CountersReportTasks(total: nat, workers: nat, actions: seq<Action>)
    requires Run(Initial(total, workers), actions).Some?
    ensures var s, j := Initial(total, workers), Run(Initial(total, workers), actions).value;
            && |j.paths| == total && j.done == Total(j.paths, IsDone) && j.failed == Total(j.paths, IsFailed)
            && forall t: nat :: t < total ==>
                 && (IsDone(j.paths[t]) == 1 <==> Ends(s, actions, t, true))
                 && (IsFailed(j.paths[t]) == 1 <==> Ends(s, actions, t, false) || FailsEarly(s, actions, t))
  {
    RunInv(total, workers, actions);
    forall t: nat | t < total
      ensures var s, j := Initial(total, workers), Run(Initial(total, workers), actions).value;
              && (IsDone(j.paths[t]) == 1 <==> Ends(s, actions, t, true))
              && (IsFailed(j.paths[t]) == 1 <==> Ends(s, actions, t, false) || FailsEarly(s, actions, t))
    {
      OutcomesKept(total, workers, actions, t, true);
      OutcomesKept(total, workers, actions, t, false);
    }
  }

  ghost predicate Stuck(j: Job) {
    forall a :: Next(j, a).None?
  }

  /** With a worker in the pool, a run that cannot go on has reported exactly once. */
  lemma FinishedRunReported(total: nat, workers: nat, actions: seq<Action>)
    requires workers > 0 && Run(Initial(total, workers), actions).Some?
    requires Stuck(Run(Initial(total, workers), actions).value)
    ensures |Run(Initial(total, workers), actions).value.reports| == 1
  {
    var j := Run(Initial(total, workers), actions).value;
    RunInv(total, workers, actions);
    StuckIsOver(j, workers);
    OpenTasks(j, workers);
    TotalConstant(j.paths, IsOpen, 0);
  }

  lemma StuckIsOver(j: Job, workers: nat)
    requires workers > 0 && Inv(j, workers) && Stuck(j)
    ensures j.main == MainFinishing(Over) && j.closed
    ensures forall t :: 0 <= t < |j.paths| ==> j.paths[t].EarlyFailed? || (j.paths[t].Finishing? && j.paths[t].finish.Over?)
  {
    assert Next(j, Announce).None? && Next(j, Submit).None? && Next(j, EndLoop).None? && Next(j, MainStep).None?;
    StuckWorkers(j, workers);
  }

  lemma StuckWorkers(j: Job, workers: nat)
    requires workers > 0 && Queued(j) && Tallied(j, workers) && Stuck(j) && j.seen == |j.paths|
    ensures forall t :: 0 <= t < |j.paths| ==> j.paths[t].EarlyFailed? || (j.paths[t].Finishing? && j.paths[t].finish.Over?)
  {
    forall t: nat | t < |j.paths| ensures IsRunning(j.paths[t]) == 0 {
      assert Next(j, Work(t, true)).None?;
    }
    TotalConstant(j.paths, IsRunning, 0);
    assert Next(j, Take).None?;
    assert j.queue == [];
  }

  /** How many steps a path, and the submitting thread, still have to take at most. */
  function Left(f: Finish): nat {
    match f
    case ReadClosed => 6
    case ReadFinished => 5
    case ReadSubmitted(_) => 4
    case ReadDone => 3
    case ReadFailed(_) => 2
    case Exchange(_, _) => 1
    case Over => 0
  }

  function Remaining(p: Phase): nat {
    match p
    case Unseen => 11
    case Announced => 10
    case Waiting => 9
    case Taken => 8
    case Counted(_) => 7
    case Finishing(_, f) => Left(f)
    case EarlyFailed => 0
  }

  function MainLeft(m: Main): nat {
    match m
    case Looping => 8
    case Closing => 7
    case MainFinishing(f) => Left(f)
  }

  function Measure(j: Job): nat {
    Total(j.paths, Remaining) + MainLeft(j.main)
  }

  lemma LessLeft(j: Job, n: Job, t: nat, p: Phase)
    requires t < |j.paths| && n.paths == j.paths[t := p] && n.main == j.main
    requires Remaining(p) < Remaining(j.paths[t])
    ensures Measure(n) < Measure(j)
  {
    TotalUpdate(j.paths, t, p, Remaining);
  }

  lemma WorkAdvances(j: Job, t: nat, ok: bool)
    requires t < |j.paths| && WorkStep(j, t, ok).Some?
    ensures Measure(WorkStep(j, t, ok).value) < Measure(j)
  {
    var n := WorkStep(j, t, ok).value;
    LessLeft(j, n, t, n.paths[t]);
  }

  lemma StepAdvances(j: Job, a: Action)
    requires Next(j, a).Some? && Queued(j)
    ensures Measure(Next(j, a).value) < Measure(j)
  {
    var n := Next(j, a).value;
    match a
    case Fail => LessLeft(j, n, j.seen, EarlyFailed);
    case Announce => LessLeft(j, n, j.seen, Announced);
    case Submit => LessLeft(j, n, j.seen, Waiting);
    case Take => LessLeft(j, n, j.queue[0], Taken);
    case Work(t, ok) => WorkAdvances(j, t, ok);
    case _ =>
  }

  /** Every run ends. */
  lemma {:induction false} RunsAreBounded(total: nat, workers: nat, actions: seq<Action>)
    requires Run(Initial(total, workers), actions).Some?
    ensures |actions| + Measure(Run(Initial(total, workers), actions).value) <= 11 * total + 8
    decreases |actions|
  {
    if actions == [] {
      TotalBound(Initial(total, workers).paths, Remaining, 11);
    } else {
      var before := actions[..|actions| - 1];
      RunsAreBounded(total, workers, before);
      RunInv(total, workers, before);
      StepAdvances(Run(Initial(total, workers), before).value, actions[|actions| - 1]);
    }
  }
}
