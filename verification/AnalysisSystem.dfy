/**
 Any number of analysis jobs sharing one in-flight gate: mutual exclusion of the remote
 calls, what `Cancel` can still see, and what every run ends with.
 */
module AnalysisSystem {
  import opened Wrappers
  import opened AnalysisJob

  datatype System = System(jobs: seq<Job>, gate: Gate)

  datatype Action = Produce(thumb: Thumb) | Consume(rpc: Rpc) | Cancel

  datatype Event = Event(job: nat, action: Action)

  /** What one action of job number `me` makes of that job and the gate; `None` when blocked. */
  function Act(j: Job, gate: Gate, me: nat, action: Action): Option<(Job, Gate)> {
    match action
    case Produce(thumb) =>
      var k := ProducerStep(j, thumb);
      if k.None? then None else Some((k.value, gate))
    case Consume(rpc) => ConsumerStep(j, gate, me, rpc)
    case Cancel => Some((CancelStep(j, gate), gate))
  }

  function Next(s: System, e: Event): Option<System> {
    if e.job >= |s.jobs| then None
    else
      var k := Act(s.jobs[e.job], s.gate, e.job, e.action);
      if k.None? then None else Some(System(s.jobs[e.job := k.value.0], k.value.1))
  }

  /** A run: each event happens, in order, or the whole run is not one. */
  function Run(s: System, events: seq<Event>): Option<System>
    decreases |events|
  {
    if events == [] then Some(s)
    else
      var t := Next(s, events[0]);
      if t.None? then None else Run(t.value, events[1..])
  }

  datatype Order = Order(task: Task, n: nat, prefetch: int)

  function Initial(orders: seq<Order>): (s: System)
    ensures |s.jobs| == |orders|
  {
    System(seq(|orders|, i requires 0 <= i < |orders| => NewJob(orders[i].task, orders[i].n, orders[i].prefetch)),
           Gate(false, None))
  }

  // ------------------------------------------------------------- the gate

  /** Between publishing the request id and clearing it. */
  predicate Publishes(c: Consumer) {
    || (c.Send? && c.send in {SetFlag, Recheck, AbortId, Start, Calling})
    || (c.Drop? && (c.drop == DropFlag || c.drop == DropId))
  }

  ghost predicate GateInv(s: System) {
    && (forall i, j :: 0 <= i < |s.jobs| && 0 <= j < |s.jobs| && Holds(s.jobs[i].consumer) && Holds(s.jobs[j].consumer) ==> i == j)
    && (s.gate.inFlight <==> exists i :: 0 <= i < |s.jobs| && Holds(s.jobs[i].consumer))
    && (s.gate.id.Some? ==> s.gate.id.value < |s.jobs| && Publishes(s.jobs[s.gate.id.value].consumer))
    && (forall i :: 0 <= i < |s.jobs| && Publishes(s.jobs[i].consumer) ==> s.gate.id == Some(i))
  }

  ghost predicate JobsInv(jobs: seq<Job>) {
    forall i :: 0 <= i < |jobs| ==> JobInv(jobs[i])
  }

  ghost predicate SystemInv(s: System) {
    GateInv(s) && JobsInv(s.jobs)
  }

  /** How one consumer step may move a job and the gate. */
  predicate GateMove(c: Consumer, g: Gate, c': Consumer, g': Gate, me: nat) {
    || (Holds(c') == Holds(c) && Publishes(c') == Publishes(c) && g' == g)
    || (!g.inFlight && !Holds(c) && Holds(c') && Publishes(c') && g' == Gate(true, Some(me)))
    || (Holds(c) && Holds(c') && Publishes(c) && !Publishes(c') && g' == g.(id := None))
    || (Holds(c) && !Holds(c') && !Publishes(c) && !Publishes(c') && g' == g.(inFlight := false))
  }

  lemma ConsumerMovesGate(j: Job, gate: Gate, me: nat, rpc: Rpc)
    requires ConsumerStep(j, gate, me, rpc).Some?
    ensures var (k, g) := ConsumerStep(j, gate, me, rpc).value; GateMove(j.consumer, gate, k.consumer, g, me)
  {
    if j.consumer.Send? {
      SendMovesGate(j, gate, me, rpc, j.consumer.send, j.consumer.batch);
    }
  }

  lemma SendMovesGate(j: Job, gate: Gate, me: nat, rpc: Rpc, at: SendAt, batch: seq<Entry>)
    requires j.consumer == Send(at, batch) && SendStep(j, gate, me, rpc, at, batch).Some?
    ensures var (k, g) := SendStep(j, gate, me, rpc, at, batch).value; GateMove(j.consumer, gate, k.consumer, g, me)
  {
  }

  lemma GateKeeps(s: System, i: nat, k: Job, g: Gate)
    requires GateInv(s) && i < |s.jobs| && GateMove(s.jobs[i].consumer, s.gate, k.consumer, g, i)
    ensures GateInv(System(s.jobs[i := k], g))
  {
    var t := System(s.jobs[i := k], g);
    if s.gate.inFlight && g.inFlight {
      var h :| 0 <= h < |s.jobs| && Holds(s.jobs[h].consumer);
      assert Holds(t.jobs[h].consumer);
    } else if g.inFlight {
      assert Holds(t.jobs[i].consumer);
    }
    assert forall j :: 0 <= j < |t.jobs| && j != i ==> t.jobs[j] == s.jobs[j];
  }

  lemma ActKeeps(j: Job, gate: Gate, me: nat, action: Action)
    requires JobInv(j) && Act(j, gate, me, action).Some?
    ensures JobInv(Act(j, gate, me, action).value.0)
  {
    match action
    case Produce(thumb) => ProducerKeeps(j, thumb);
    case Consume(rpc) => ConsumerKeeps(j, gate, me, rpc);
    case Cancel => CancelKeeps(j, gate);
  }

  lemma ActMovesGate(j: Job, gate: Gate, me: nat, action: Action)
    requires Act(j, gate, me, action).Some?
    ensures var (k, g) := Act(j, gate, me, action).value; GateMove(j.consumer, gate, k.consumer, g, me)
  {
    if action.Consume? {
      ConsumerMovesGate(j, gate, me, action.rpc);
    }
  }

  lemma StepKeeps(s: System, e: Event)
    requires SystemInv(s) && Next(s, e).Some?
    ensures SystemInv(Next(s, e).value)
  {
    var (k, g) := Act(s.jobs[e.job], s.gate, e.job, e.action).value;
    assert GateInv(System(s.jobs[e.job := k], g)) by {
      ActMovesGate(s.jobs[e.job], s.gate, e.job, e.action);
      GateKeeps(s, e.job, k, g);
    }
    assert JobsInv(s.jobs[e.job := k]) by {
      ActKeeps(s.jobs[e.job], s.gate, e.job, e.action);
    }
  }

  lemma {:induction false} RunKeeps(s: System, events: seq<Event>)
    requires SystemInv(s) && Run(s, events).Some?
    ensures SystemInv(Run(s, events).value)
    decreases |events|
  {
    if events != [] {
      StepKeeps(s, events[0]);
      RunKeeps(Next(s, events[0]).value, events[1..]);
    }
  }

  lemma InitialInv(orders: seq<Order>)
    ensures SystemInv(Initial(orders))
  {
    forall i | 0 <= i < |orders| ensures JobInv(Initial(orders).jobs[i]) {
      NewJobInv(orders[i].task, orders[i].n, orders[i].prefetch);
    }
  }

  ghost predicate Reachable(s: System) {
    exists orders, events :: Run(Initial(orders), events) == Some(s)
  }

  lemma ReachableInv(s: System)
    requires Reachable(s)
    ensures SystemInv(s)
  {
    var orders, events :| Run(Initial(orders), events) == Some(s);
    InitialInv(orders);
    RunKeeps(Initial(orders), events);
  }

  // ---------------------------------------------------- the remote calls

  /** At most one remote call is in flight, and a raised in-flight flag means holding the slot. */
  lemma OneCallAtATime(s: System, i: nat, j: nat)
    requires Reachable(s) && i < |s.jobs| && j < |s.jobs|
    ensures InCall(s.jobs[i].consumer) && InCall(s.jobs[j].consumer) ==> i == j
    ensures s.jobs[i].amInFlight && s.jobs[j].amInFlight ==> i == j
    ensures s.jobs[i].amInFlight ==> s.gate.inFlight && (s.gate.id == None || s.gate.id == Some(i))
    ensures CommittedToCall(s.jobs[i].consumer) || InCall(s.jobs[i].consumer) ==>
              s.jobs[i].amInFlight && s.gate == Gate(true, Some(i))
  {
    ReachableInv(s);
    assert JobInv(s.jobs[i]) && JobInv(s.jobs[j]);
  }

  /** After the cancel flag is stored at most one more call begins and one more hit is recorded. */
  lemma LateCallsBounded(s: System, i: nat)
    requires Reachable(s) && i < |s.jobs|
    ensures s.jobs[i].past.lateCalls <= 1 && s.jobs[i].past.lateHits <= 1
  {
    ReachableInv(s);
    assert JobInv(s.jobs[i]);
  }

  lemma QuietStep(j: Job, gate: Gate, me: nat, action: Action)
    requires Cancels(j) && j.past.quiet && Act(j, gate, me, action).Some?
    ensures var k := Act(j, gate, me, action).value.0; k.past.quiet && k.past.lateCalls == j.past.lateCalls
  {
  }

  /** Once some `Cancel` has read the in-flight flag as clear, no run begins another call for that job. */
  lemma {:induction false} QuietForever(s: System, events: seq<Event>, i: nat)
    requires SystemInv(s) && i < |s.jobs| && s.jobs[i].past.quiet
    requires Run(s, events).Some?
    ensures i < |Run(s, events).value.jobs|
    ensures Run(s, events).value.jobs[i].past.lateCalls == s.jobs[i].past.lateCalls
    ensures !InCall(Run(s, events).value.jobs[i].consumer)
    decreases |events|
  {
    assert JobInv(s.jobs[i]);
    if events != [] {
      StepKeeps(s, events[0]);
      if events[0].job == i {
        QuietStep(s.jobs[i], s.gate, i, events[0].action);
      }
      QuietForever(Next(s, events[0]).value, events[1..], i);
    }
  }

  /** `Cancel` reads the flag, then the gate's id: it names this job exactly while the job still publishes. */
  lemma CancelNamesOwn(s: System, i: nat)
    requires Reachable(s) && i < |s.jobs| && s.jobs[i].canceller == SawFlag
    ensures (CancelStep(s.jobs[i], s.gate).canceller == Sent(Some(i))) <==> Publishes(s.jobs[i].consumer)
  {
    ReachableInv(s);
  }

  lemma {:induction false} RunAppend(s: System, events: seq<Event>, e: Event)
    requires Run(s, events).Some?
    ensures Run(s, events + [e]) == Next(Run(s, events).value, e)
    decreases |events|
  {
    if events == [] {
      assert ([e])[1..] == [];
      assert Run(s, [e]) == (var t := Next(s, e); if t.None? then None else Run(t.value, []));
    } else {
      assert (events + [e])[1..] == events[1..] + [e];
      RunAppend(Next(s, events[0]).value, events[1..], e);
    }
  }

  lemma ReachNext(s: System, e: Event, t: System)
    requires Reachable(s) && Next(s, e) == Some(t)
    ensures Reachable(t)
  {
    var orders, events :| Run(Initial(orders), events) == Some(s);
    RunAppend(Initial(orders), events, e);
    assert Run(Initial(orders), events + [e]) == Some(t);
  }

  // A run of two jobs with one item each, in which `Cancel` of job 0 names job 1.

  /** Job number `i` is `x`, the other one is `y`. */
  ghost predicate Paired(i: nat, x: Job, y: Job, g: Gate) {
    Reachable(System(if i == 0 then [x, y] else [y, x], g))
  }

  lemma Leads(i: nat, x: Job, y: Job, g: Gate, action: Action, x': Job, g': Gate)
    requires i < 2 && Paired(i, x, y, g) && Act(x, g, i, action) == Some((x', g'))
    ensures Paired(i, x', y, g') && Paired(1 - i, y, x', g')
  {
    var jobs := if i == 0 then [x, y] else [y, x];
    assert jobs[i := x'] == if i == 0 then [x', y] else [y, x'];
    ReachNext(System(jobs, g), Event(i, action), System(jobs[i := x'], g'));
  }

  const FRESH := NewJob(Describe, 1, 1)
  const ENTRY := [Entry(0, false)]
  const REPLY := [Reply(0, true)]
  const OPEN := Gate(false, None)

  function AtSend(at: SendAt): Job {
    FRESH.(producer := Loop(1), consumer := Send(at, ENTRY))
  }

  const PUSHING := FRESH.(producer := Pushing(0, false), consumer := Pop)

  lemma BringToPushing(i: nat, y: Job)
    requires i < 2 && Paired(i, FRESH, y, OPEN)
    ensures Paired(i, PUSHING, y, OPEN)
  {
    var j1 := FRESH.(producer := Loop(0), consumer := Head);
    Leads(i, FRESH, y, OPEN, Consume(Returned([])), j1, OPEN);
    var j2 := j1.(consumer := Pop);
    Leads(i, j1, y, OPEN, Consume(Threw), j2, OPEN);
    var j3 := j2.(producer := Preparing(0));
    Leads(i, j2, y, OPEN, Produce(ThumbEncoded), j3, OPEN);
    Leads(i, j3, y, OPEN, Produce(ThumbEncoded), PUSHING, OPEN);
  }

  lemma BringToAcquire(i: nat, y: Job)
    requires i < 2 && Paired(i, FRESH, y, OPEN)
    ensures Paired(i, AtSend(Acquire), y, OPEN) && Paired(1 - i, y, AtSend(Acquire), OPEN)
  {
    BringToPushing(i, y);
    assert PUSHING.queue + ENTRY == ENTRY && ENTRY[..1] == ENTRY && ENTRY[1..] == [];
    var j5 := PUSHING.(producer := Loop(1), queue := ENTRY);
    Leads(i, PUSHING, y, OPEN, Produce(ThumbEncoded), j5, OPEN);
    var j6 := j5.(queue := [], consumer := Sift(ENTRY, []));
    Leads(i, j5, y, OPEN, Consume(Threw), j6, OPEN);
    Leads(i, j6, y, OPEN, Consume(Threw), AtSend(Acquire), OPEN);
  }

  lemma BringToFlagSeen(y: Job, seen: Job)
    requires Paired(0, AtSend(Acquire), y, OPEN)
    requires seen == AtSend(Calling).(amInFlight := true, isCanceled := true, canceller := SawFlag)
    ensures Paired(0, seen, y, Gate(true, Some(0)))
  {
    var held := Gate(true, Some(0));
    Leads(0, AtSend(Acquire), y, OPEN, Consume(Threw), AtSend(SetFlag), held);
    Leads(0, AtSend(SetFlag), y, held, Consume(Threw), AtSend(Recheck).(amInFlight := true), held);
    Leads(0, AtSend(Recheck).(amInFlight := true), y, held, Consume(Threw), AtSend(Start).(amInFlight := true), held);
    Leads(0, AtSend(Start).(amInFlight := true), y, held, Consume(Threw), AtSend(Calling).(amInFlight := true), held);
    var stored := seen.(canceller := Stored);
    Leads(0, AtSend(Calling).(amInFlight := true), y, held, Cancel, stored, held);
    Leads(0, stored, y, held, Cancel, seen, held);
  }

  lemma BringToReleased(y: Job, seen: Job)
    requires Paired(0, seen, y, Gate(true, Some(0)))
    requires seen == AtSend(Calling).(amInFlight := true, isCanceled := true, canceller := SawFlag)
    ensures Paired(0, seen.(amInFlight := false, consumer := Judge(REPLY)), y, OPEN)
  {
    var held, cleared := Gate(true, Some(0)), Gate(true, None);
    assert Replies(ENTRY, Returned([true])) == REPLY;
    var a1 := seen.(consumer := Drop(DropFlag, REPLY));
    Leads(0, seen, y, held, Consume(Returned([true])), a1, held);
    var a2 := seen.(consumer := Drop(DropId, REPLY), amInFlight := false);
    Leads(0, a1, y, held, Consume(Threw), a2, held);
    var a3 := a2.(consumer := Drop(DropSlot, REPLY));
    Leads(0, a2, y, held, Consume(Threw), a3, cleared);
    Leads(0, a3, y, cleared, Consume(Threw), a3.(consumer := Judge(REPLY)), OPEN);
  }

  /**
   The comment on `Cancel` says the id it sends is this job's own.  It need not be: in this run
   the call ends, and another job wins the gate, between the two reads.
   */
  lemma CancelCanNameAnotherJob()
    ensures exists s: System :: Reachable(s) && |s.jobs| == 2 && s.jobs[0].canceller == Sent(Some(1))
  {
    var order := Order(Describe, 1, 1);
    var y := AtSend(Acquire);
    var seen := AtSend(Calling).(amInFlight := true, isCanceled := true, canceller := SawFlag);
    assert Initial([order, order]) == System([FRESH, FRESH], OPEN);
    assert Run(Initial([order, order]), []) == Some(System([FRESH, FRESH], OPEN));
    assert Paired(1, FRESH, FRESH, OPEN);
    BringToAcquire(1, FRESH);
    BringToAcquire(0, y);
    BringToFlagSeen(y, seen);
    BringToReleased(y, seen);
    var late, other := seen.(amInFlight := false, consumer := Judge(REPLY)), Gate(true, Some(1));
    assert Paired(1, y, late, OPEN);
    Leads(1, y, late, OPEN, Consume(Threw), AtSend(SetFlag), other);
    Leads(0, late, AtSend(SetFlag), other, Cancel, late.(canceller := Sent(Some(1))), other);
    var s := System([late.(canceller := Sent(Some(1))), AtSend(SetFlag)], other);
    assert Reachable(s) && s.jobs[0].canceller == Sent(Some(1));
  }

  // --------------------------------------------------- what a run ends with

  lemma TakeOut(items: seq<nat>, i: nat)
    requires i < |items|
    ensures multiset(items) == multiset(items[..i] + items[i + 1..]) + multiset{items[i]}
  {
    assert items == items[..i] + [items[i]] + items[i + 1..];
  }

  /** Every key but the one taken out is still there. */
  lemma Remains(items: seq<nat>, i: nat, k: nat)
    requires i < |items| && k in items && k != items[i]
    ensures k in items[..i] + items[i + 1..]
  {
    var rest := items[..i] + items[i + 1..];
    var x :| 0 <= x < |items| && items[x] == k;
    assert rest[if x < i then x else x - 1] == k;
  }

  lemma PermutationByCount(items: seq<nat>, n: nat)
    requires |items| == n && forall k: nat :: k < n ==> k in items
    ensures multiset(items) == multiset(seq(n, i => i))
  {
    if n > 0 {
      assert n - 1 in items;
      var i :| 0 <= i < n && items[i] == n - 1;
      var rest := items[..i] + items[i + 1..];
      forall k: nat | k < n - 1 ensures k in rest {
        Remains(items, i, k);
      }
      PermutationByCount(rest, n - 1);
      TakeOut(items, i);
      assert seq(n, i => i) == seq(n - 1, i => i) + [n - 1];
    }
  }

  lemma CountsSum(rs: seq<ItemResult>)
    ensures Count(rs, Analyzed) + Count(rs, Failed) + Count(rs, Canceled) == |rs|
  {
  }

  function ItemsOf(rs: seq<ItemResult>): (r: seq<nat>)
    ensures |r| == |rs| && forall i :: 0 <= i < |r| ==> r[i] == rs[i].item
  {
    Mapped((r: ItemResult) => r.item, rs)
  }

  /**
   However producer, consumer and cancels interleave, a finished job has exactly one result
   per input item, in batches that are permutations of consecutive slices (so in item order
   for describe and score), and counters that count the results and sum to the total.
   */
  lemma FinishedJobComplete(s: System, i: nat)
    requires Reachable(s) && i < |s.jobs| && s.jobs[i].consumer == Finished
    ensures var j := s.jobs[i];
            && multiset(ItemsOf(j.tally.results)) == multiset(seq(j.cfg.n, k => k))
            && Batched(j.tally.results, j.cfg.n, BatchSize(j.cfg.task))
            && (j.cfg.task != Analyze ==> forall k :: 0 <= k < j.cfg.n ==> j.tally.results[k].item == k)
            && Counted(j.tally)
            && j.tally.analyzed + j.tally.failed + j.tally.canceled == j.cfg.n
            && j.finishedCalls == 1
  {
    ReachableInv(s);
    var j := s.jobs[i];
    assert JobInv(j);
    CountsSum(j.tally.results);
    var items := ItemsOf(j.tally.results);
    forall k: nat | k < j.cfg.n ensures k in items {
      assert HasResult(j.tally.results, k);
      var x :| 0 <= x < |j.tally.results| && j.tally.results[x].item == k;
      assert items[x] == k;
    }
    PermutationByCount(items, j.cfg.n);
  }

  // ------------------------------------------------------------- liveness

  predicate IsThreadAction(a: Action) {
    !a.Cancel?
  }

  ghost predicate Stuck(s: System) {
    forall e: Event :: IsThreadAction(e.action) ==> Next(s, e).None?
  }

  lemma HolderMoves(j: Job, gate: Gate, me: nat, rpc: Rpc)
    requires Holds(j.consumer)
    ensures ConsumerStep(j, gate, me, rpc).Some?
  {
  }

  /** No deadlock: while some job is unfinished, some thread can take a step. */
  lemma SomeThreadMoves(s: System, i: nat)
    requires Reachable(s) && i < |s.jobs| && s.jobs[i].consumer != Finished
    ensures !Stuck(s)
  {
    ReachableInv(s);
    var j := s.jobs[i];
    assert JobInv(j);
    if WaitsForGate(j) && s.gate.inFlight {
      var h :| 0 <= h < |s.jobs| && Holds(s.jobs[h].consumer);
      HolderMoves(s.jobs[h], s.gate, h, Threw);
      assert Next(s, Event(h, Consume(Threw))).Some?;
    } else {
      JobNotStuck(j, s.gate, i, ThumbEncoded, Threw);
      assert Next(s, Event(i, Produce(ThumbEncoded))).Some? || Next(s, Event(i, Consume(Threw))).Some?;
    }
  }

  function Total(jobs: seq<Job>): int {
    if jobs == [] then 0 else Total(jobs[..|jobs| - 1]) + Measure(jobs[|jobs| - 1])
  }

  lemma {:induction false} TotalUpdate(jobs: seq<Job>, i: nat, k: Job)
    requires i < |jobs|
    ensures Total(jobs[i := k]) == Total(jobs) - Measure(jobs[i]) + Measure(k)
  {
    var last := |jobs| - 1;
    if i < last {
      TotalUpdate(jobs[..last], i, k);
      assert jobs[i := k][..last] == jobs[..last][i := k];
    } else {
      assert jobs[i := k][..last] == jobs[..last];
    }
  }

  lemma {:induction false} TotalBounded(jobs: seq<Job>)
    requires JobsInv(jobs)
    ensures Total(jobs) >= 0
  {
    if jobs != [] {
      TotalBounded(jobs[..|jobs| - 1]);
      assert JobInv(jobs[|jobs| - 1]);
      MeasureBounded(jobs[|jobs| - 1]);
    }
  }

  lemma ActProgress(j: Job, gate: Gate, me: nat, action: Action)
    requires JobInv(j) && Act(j, gate, me, action).Some?
    ensures IsThreadAction(action) ==> Measure(Act(j, gate, me, action).value.0) < Measure(j)
    ensures !IsThreadAction(action) ==> Measure(Act(j, gate, me, action).value.0) == Measure(j)
  {
    match action
    case Produce(thumb) => ProducerProgress(j, thumb);
    case Consume(rpc) => ConsumerProgress(j, gate, me, rpc);
    case Cancel =>
  }

  function ThreadSteps(events: seq<Event>): nat {
    if events == [] then 0
    else (if IsThreadAction(events[0].action) then 1 else 0) + ThreadSteps(events[1..])
  }

  /** Whatever the interleaving, a run holds no more thread steps than the measure it starts with. */
  lemma {:induction false} RunsAreBounded(s: System, events: seq<Event>)
    requires SystemInv(s) && Run(s, events).Some?
    ensures ThreadSteps(events) + Total(Run(s, events).value.jobs) <= Total(s.jobs)
    ensures ThreadSteps(events) <= Total(s.jobs)
    decreases |events|
  {
    if events == [] {
      TotalBounded(s.jobs);
    } else {
      var e := events[0];
      var (k, _) := Act(s.jobs[e.job], s.gate, e.job, e.action).value;
      assert JobInv(s.jobs[e.job]);
      ActProgress(s.jobs[e.job], s.gate, e.job, e.action);
      TotalUpdate(s.jobs, e.job, k);
      StepKeeps(s, e);
      RunsAreBounded(Next(s, e).value, events[1..]);
    }
  }

  /** A run that can go no further has finished every job. */
  lemma MaximalRunFinishes(s: System, i: nat)
    requires Reachable(s) && Stuck(s) && i < |s.jobs|
    ensures s.jobs[i].consumer == Finished && s.jobs[i].producer in {Unborn, Exited}
  {
    if s.jobs[i].consumer != Finished {
      SomeThreadMoves(s, i);
    }
    ReachableInv(s);
    assert JobInv(s.jobs[i]);
  }
}
