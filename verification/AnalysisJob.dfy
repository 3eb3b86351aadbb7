/**
 The image-analysis job protocol: a producer thread prepares items into a bounded
 queue, a consumer thread sends them to a remote provider one call at a time behind a
 gate shared by every job, and `Cancel` may land between any two steps.

 Each thread is a step function over a `Job`.  One step is one atomic read or write of
 shared state, one critical section, or one environment answer; `None` means blocked.
 Items are named by their index in the input.
 */
module AnalysisJob {
  import opened Wrappers

  const BATCH: nat := 3
  const MAX_PREFETCH: nat := 6

  datatype Task = Describe | Score | Analyze

  /** How many entries one pop may take, hence one remote call may carry. */
  function BatchSize(task: Task): nat {
    if task == Analyze then BATCH else 1
  }

  /** The prefetch option clamped into its range. */
  function Capacity(task: Task, prefetch: int): nat {
    if prefetch < BatchSize(task) then BatchSize(task)
    else if prefetch > MAX_PREFETCH then MAX_PREFETCH
    else prefetch
  }

  datatype Status = Analyzed | Failed | Canceled
  datatype ItemResult = ItemResult(item: nat, status: Status)
  datatype Entry = Entry(item: nat, prepFailed: bool)
  datatype Reply = Reply(item: nat, ok: bool)

  /** What the thumbnail service and the encoder made of one item. */
  datatype Thumb = ThumbCanceled | ThumbUnusable | ThumbEncoded

  /** What the remote side did with one call; it may answer fewer items than it was sent. */
  datatype Rpc = Threw | Returned(oks: seq<bool>)

  datatype Producer =
    | Unborn
    | Loop(next: nat)
    | Preparing(next: nat)
    | Pushing(next: nat, prepFailed: bool)
    | Stopping
    | Exited

  /** The atomic actions between winning the gate and having, or giving up, the call. */
  datatype SendAt = Acquire | SetFlag | Recheck | AbortId | AbortFlag | AbortSlot | AbortRecord | Start | Calling

  /** The atomic actions of the scope guard after the call. */
  datatype DropAt = DropFlag | DropId | DropSlot

  datatype Consumer =
    | Register
    | Head
    | Pop
    | Sift(todo: seq<Entry>, kept: seq<Entry>)
    | Send(send: SendAt, batch: seq<Entry>)
    | Drop(drop: DropAt, replies: seq<Reply>)
    | Judge(replies: seq<Reply>)
    | Decided(result: ItemResult, replies: seq<Reply>)
    | Join
    | Finish
    | Finished

  /** The thread inside `Cancel`, between its atomic actions. */
  datatype Canceller = Idle | Stored | SawFlag | Sent(named: Option<nat>)

  datatype Config = Config(task: Task, n: nat, capacity: nat)

  /** The results so far, with the progress counters. */
  datatype Tally = Tally(results: seq<ItemResult>, analyzed: nat, failed: nat, canceled: nat)

  /** History variables: read by no step, only by the properties. */
  datatype Past = Past(
    cut: nat,          // number of results when the batch in hand was popped
    quiet: bool,       // some `Cancel` has read the in-flight flag as clear
    lateCalls: nat,    // remote calls begun after the cancel flag was stored
    lateHits: nat)     // results recorded as analyzed after the cancel flag was stored

  datatype Job = Job(
    cfg: Config,
    queue: seq<Entry>,
    producer: Producer,
    consumer: Consumer,
    canceller: Canceller,
    isCanceled: bool,
    amInFlight: bool,
    consumed: nat,
    tally: Tally,
    finishedCalls: nat,
    past: Past)

  /** The gate shared by the jobs: the slot, and the request id published with it. */
  datatype Gate = Gate(inFlight: bool, id: Option<nat>)

  function NewJob(task: Task, n: nat, prefetch: int): Job {
    Job(Config(task, n, Capacity(task, prefetch)), [], Unborn, Register, Idle, false, false,
        0, Tally([], 0, 0, 0), 0, Past(0, false, 0, 0))
  }

  // ------------------------------------------------------------------ steps

  function Bump(t: Tally, r: ItemResult): Tally {
    Tally(t.results + [r],
          t.analyzed + (if r.status == Analyzed then 1 else 0),
          t.failed + (if r.status == Failed then 1 else 0),
          t.canceled + (if r.status == Canceled then 1 else 0))
  }

  /** Appends one result, bumps the counter of its status, and moves on to `next`. */
  function Record(j: Job, r: ItemResult, next: Consumer): Job {
    j.(consumer := next,
       consumed := j.consumed + 1,
       tally := Bump(j.tally, r),
       past := j.past.(lateHits := j.past.lateHits + (if r.status == Analyzed && j.isCanceled then 1 else 0)))
  }

  function AllWith(first: nat, n: nat, status: Status): (rs: seq<ItemResult>)
    requires first <= n
    ensures |rs| == n - first
    ensures forall i :: 0 <= i < |rs| ==> rs[i] == ItemResult(first + i, status)
  {
    seq(n - first, i requires 0 <= i < n - first => ItemResult(first + i, status))
  }

  function CanceledBatch(batch: seq<Entry>): (rs: seq<ItemResult>)
    ensures |rs| == |batch|
    ensures forall i :: 0 <= i < |rs| ==> rs[i] == ItemResult(batch[i].item, Canceled)
  {
    seq(|batch|, i requires 0 <= i < |batch| => ItemResult(batch[i].item, Canceled))
  }

  /** The answers to a batch: a thrown call, or a missing answer, counts against its item. */
  function Replies(batch: seq<Entry>, rpc: Rpc): (rs: seq<Reply>)
    ensures |rs| == |batch|
    ensures forall i :: 0 <= i < |rs| ==> rs[i].item == batch[i].item
  {
    seq(|batch|, i requires 0 <= i < |batch| =>
      Reply(batch[i].item, rpc.Returned? && i < |rpc.oks| && rpc.oks[i]))
  }

  function ProducerStep(j: Job, thumb: Thumb): Option<Job> {
    match j.producer
    case Unborn => None
    case Loop(next) =>
      Some(j.(producer := if next >= j.cfg.n || j.isCanceled then Stopping else Preparing(next)))
    case Preparing(next) =>
      Some(j.(producer := if j.isCanceled || thumb == ThumbCanceled then Stopping
                          else Pushing(next, thumb == ThumbUnusable)))
    case Pushing(next, prepFailed) =>
      if j.isCanceled then Some(j.(producer := Stopping))
      else if |j.queue| >= j.cfg.capacity then None
      else Some(j.(queue := j.queue + [Entry(next, prepFailed)], producer := Loop(next + 1)))
    case Stopping => Some(j.(producer := Exited))
    case Exited => None
  }

  function AfterSift(rest: seq<Entry>, kept: seq<Entry>): Consumer {
    if rest != [] then Sift(rest, kept) else if kept == [] then Head else Send(Acquire, kept)
  }

  /** Looks at the next popped entry: failed ones are recorded, the others kept for the call. */
  function SiftStep(j: Job, todo: seq<Entry>, kept: seq<Entry>): Job
    requires todo != []
  {
    var e, rest := todo[0], todo[1..];
    if e.prepFailed then Record(j, ItemResult(e.item, Failed), AfterSift(rest, kept))
    else if rest == [] && j.cfg.task != Analyze && j.isCanceled && kept == [] then
      Record(j, ItemResult(e.item, Canceled), Head)
    else j.(consumer := AfterSift(rest, kept + [e]))
  }

  function PopStep(j: Job): Option<Job> {
    var size := BatchSize(j.cfg.task);
    if !j.isCanceled && j.producer != Exited && |j.queue| < size then None
    else if j.isCanceled || j.queue == [] then Some(j.(consumer := Join))
    else
      var k := if |j.queue| < size then |j.queue| else size;
      Some(j.(queue := j.queue[k..], consumer := Sift(j.queue[..k], []),
              past := j.past.(cut := |j.tally.results|)))
  }

  function SendStep(j: Job, gate: Gate, me: nat, rpc: Rpc, at: SendAt, batch: seq<Entry>): Option<(Job, Gate)> {
    match at
    case Acquire =>
      if j.isCanceled then Some((j.(consumer := Send(AbortRecord, batch)), gate))
      else if gate.inFlight then None
      else Some((j.(consumer := Send(SetFlag, batch)), Gate(true, Some(me))))
    case SetFlag => Some((j.(amInFlight := true, consumer := Send(Recheck, batch)), gate))
    case Recheck =>
      Some((j.(consumer := Send(if j.isCanceled then AbortId else Start, batch)), gate))
    case AbortId => Some((j.(consumer := Send(AbortFlag, batch)), gate.(id := None)))
    case AbortFlag => Some((j.(amInFlight := false, consumer := Send(AbortSlot, batch)), gate))
    case AbortSlot => Some((j.(consumer := Send(AbortRecord, batch)), gate.(inFlight := false)))
    case AbortRecord =>
      Some((j.(consumer := Head, consumed := j.consumed + |batch|,
               tally := j.tally.(results := j.tally.results + CanceledBatch(batch),
                                 canceled := j.tally.canceled + |batch|)), gate))
    case Start =>
      Some((j.(consumer := Send(Calling, batch),
               past := j.past.(lateCalls := j.past.lateCalls + (if j.isCanceled then 1 else 0))), gate))
    case Calling =>
      if rpc.Threw? && j.cfg.task != Analyze && batch != [] then
        Some((Record(j, ItemResult(batch[0].item, Failed), Drop(DropFlag, [])), gate))
      else
        Some((j.(consumer := Drop(DropFlag, Replies(batch, rpc))), gate))
  }

  function DropStep(j: Job, gate: Gate, at: DropAt, replies: seq<Reply>): (Job, Gate) {
    match at
    case DropFlag => (j.(amInFlight := false, consumer := Drop(DropId, replies)), gate)
    case DropId => (j.(consumer := Drop(DropSlot, replies)), gate.(id := None))
    case DropSlot => (j.(consumer := if replies == [] then Head else Judge(replies)), gate.(inFlight := false))
  }

  function ConsumerStep(j: Job, gate: Gate, me: nat, rpc: Rpc): Option<(Job, Gate)> {
    match j.consumer
    case Register =>
      if rpc.Threw? then
        Some((j.(consumer := Finish,
                 tally := Tally(j.tally.results + AllWith(0, j.cfg.n, Failed), j.tally.analyzed,
                                j.tally.failed + j.cfg.n, j.tally.canceled)), gate))
      else
        Some((j.(producer := Loop(0), consumer := Head), gate))
    case Head => Some((j.(consumer := if j.consumed >= j.cfg.n || j.isCanceled then Join else Pop), gate))
    case Pop =>
      var next := PopStep(j);
      if next.None? then None else Some((next.value, gate))
    case Sift(todo, kept) => if todo == [] then None else Some((SiftStep(j, todo, kept), gate))
    case Send(at, batch) => SendStep(j, gate, me, rpc, at, batch)
    case Drop(at, replies) => Some(DropStep(j, gate, at, replies))
    case Judge(replies) =>
      if replies == [] then None
      else
        var status := if j.isCanceled then Canceled else if replies[0].ok then Analyzed else Failed;
        Some((j.(consumer := Decided(ItemResult(replies[0].item, status), replies[1..])), gate))
    case Decided(r, replies) => Some((Record(j, r, if replies == [] then Head else Judge(replies)), gate))
    case Join =>
      if j.producer != Exited || j.consumed > j.cfg.n then None
      else Some((j.(consumer := Finish,
                    tally := j.tally.(results := j.tally.results + AllWith(j.consumed, j.cfg.n, Canceled),
                                      canceled := j.tally.canceled + (j.cfg.n - j.consumed))), gate))
    case Finish => Some((j.(finishedCalls := j.finishedCalls + 1, consumer := Finished), gate))
    case Finished => None
  }

  /** One atomic action of a thread inside `Cancel`; a finished call may be followed by another. */
  function CancelStep(j: Job, gate: Gate): Job {
    match j.canceller
    case Stored =>
      if j.amInFlight then j.(canceller := SawFlag)
      else j.(canceller := Idle, past := j.past.(quiet := true))
    case SawFlag => j.(canceller := Sent(gate.id))
    case _ => j.(isCanceled := true, canceller := Stored)
  }

  // ------------------------------------------------- invariant of one job

  function EntryItems(es: seq<Entry>): (r: seq<nat>)
    ensures |r| == |es| && forall i :: 0 <= i < |r| ==> r[i] == es[i].item
  {
    Mapped((e: Entry) => e.item, es)
  }

  function ReplyItems(rs: seq<Reply>): (r: seq<nat>)
    ensures |r| == |rs| && forall i :: 0 <= i < |r| ==> r[i] == rs[i].item
  {
    Mapped((r: Reply) => r.item, rs)
  }

  /** The popped items the consumer still owes a result. */
  function Hand(c: Consumer): seq<nat> {
    match c
    case Sift(todo, kept) => EntryItems(kept) + EntryItems(todo)
    case Send(_, batch) => EntryItems(batch)
    case Drop(_, replies) => ReplyItems(replies)
    case Judge(replies) => ReplyItems(replies)
    case Decided(r, replies) => [r.item] + ReplyItems(replies)
    case _ => []
  }

  predicate Over(c: Consumer) {
    c.Finish? || c.Finished?
  }

  predicate HasResult(results: seq<ItemResult>, k: nat) {
    exists i :: 0 <= i < |results| && results[i].item == k
  }

  /** Every item below `bound` has a result or is in hand. */
  ghost predicate Accounted(results: seq<ItemResult>, hand: seq<nat>, bound: nat) {
    forall k :: 0 <= k < bound ==> HasResult(results, k) || k in hand
  }

  /** Every result sits within `b` places of its item's own place. */
  ghost predicate InPlace(results: seq<ItemResult>, b: nat) {
    forall i :: 0 <= i < |results| ==> i < results[i].item + b && results[i].item < i + b
  }

  /** The first `p` results are for the first `p` items. */
  ghost predicate Boundary(results: seq<ItemResult>, p: nat) {
    p <= |results| && forall i :: 0 <= i < p ==> results[i].item < p
  }

  /** The first `upto` results split into batches of at most `b`, each for its own slice of items. */
  ghost predicate Batched(results: seq<ItemResult>, upto: nat, b: nat)
    decreases upto
  {
    && Boundary(results, upto)
    && (upto == 0 || exists p: nat :: p < upto <= p + b && Batched(results, p, b))
  }

  /** What was popped since `cut`, recorded or not, lies in [cut, bound). */
  ghost predicate Window(results: seq<ItemResult>, hand: seq<nat>, cut: nat, bound: nat) {
    && cut <= |results|
    && (forall i :: cut <= i < |results| ==> cut <= results[i].item < bound)
    && (forall i :: 0 <= i < |hand| ==> cut <= hand[i] < bound)
  }

  /** Processed items are a prefix of the input, up to the order inside a batch. */
  ghost predicate ResultsInv(results: seq<ItemResult>, hand: seq<nat>, cut: nat, b: nat, n: nat) {
    && |results| + |hand| <= n
    && |results| + |hand| <= cut + b
    && Accounted(results, hand, |results| + |hand|)
    && InPlace(results, b)
    && Batched(results, cut, b)
    && Window(results, hand, cut, |results| + |hand|)
  }

  /** The queue holds the next contiguous slice, and the producer is just behind it. */
  ghost predicate QueueInv(queue: seq<Entry>, p: Producer, popped: nat, n: nat) {
    && (forall i :: 0 <= i < |queue| ==> queue[i].item == popped + i)
    && popped + |queue| <= n
    && (p.Loop? ==> p.next == popped + |queue|)
    && (p.Preparing? || p.Pushing? ==> p.next == popped + |queue| < n)
  }

  function Count(rs: seq<ItemResult>, s: Status): (c: nat) {
    if rs == [] then 0
    else Count(rs[..|rs| - 1], s) + (if rs[|rs| - 1].status == s then 1 else 0)
  }

  ghost predicate Counted(t: Tally) {
    && t.analyzed == Count(t.results, Analyzed)
    && t.failed == Count(t.results, Failed)
    && t.canceled == Count(t.results, Canceled)
  }

  predicate MarksFlag(c: Consumer) {
    || (c.Send? && c.send in {Recheck, AbortId, AbortFlag, Start, Calling})
    || (c.Drop? && c.drop == DropFlag)
  }

  predicate Holds(c: Consumer) {
    || (c.Send? && c.send != Acquire && c.send != AbortRecord)
    || c.Drop?
  }

  predicate InCall(c: Consumer) {
    c.Send? && c.send == Calling
  }

  predicate CommittedToCall(c: Consumer) {
    c.Send? && c.send == Start
  }

  /** Where the consumer can be, and what the shared flags say there. */
  ghost predicate ShapeInv(j: Job) {
    && BatchSize(j.cfg.task) <= j.cfg.capacity <= MAX_PREFETCH
    && |j.queue| <= j.cfg.capacity
    && (j.consumer.Sift? ==> j.consumer.todo != [] && |j.consumer.todo| <= BATCH)
    && (j.consumer.Send? ==> j.consumer.batch != [])
    && (j.consumer.Judge? ==> j.consumer.replies != [])
    && (j.consumer.Join? ==> j.isCanceled || j.consumed >= j.cfg.n || (j.producer.Exited? && j.queue == []))
    && (j.consumer.Register? ==> j.producer.Unborn? && j.tally == Tally([], 0, 0, 0) && j.queue == [])
    && (j.producer.Unborn? ==> j.consumer.Register? || Over(j.consumer))
    && (j.amInFlight <==> MarksFlag(j.consumer))
    && j.finishedCalls == (if j.consumer.Finished? then 1 else 0)
  }

  /** What a stored cancel flag bounds. */
  ghost predicate CancelInv(c: Consumer, isCanceled: bool, canceller: Canceller, past: Past) {
    && (!isCanceled ==> past.lateCalls == 0 && past.lateHits == 0 && !past.quiet && canceller == Idle)
    && past.lateCalls + (if CommittedToCall(c) then 1 else 0) <= 1
    && past.lateHits + (if c.Decided? && c.result.status == Analyzed then 1 else 0) <= 1
    && (past.quiet ==> !CommittedToCall(c) && !InCall(c))
  }

  /** A finished job: one result per item, each within its batch of its place in the input. */
  ghost predicate Complete(results: seq<ItemResult>, n: nat, b: nat) {
    && |results| == n
    && (forall k :: 0 <= k < n ==> HasResult(results, k))
    && InPlace(results, b)
    && Batched(results, n, b)
  }

  /** What the two threads have agreed on so far. */
  ghost predicate DataInv(cfg: Config, queue: seq<Entry>, p: Producer, c: Consumer, consumed: nat,
                          results: seq<ItemResult>, cut: nat) {
    if Over(c) then
      && Complete(results, cfg.n, BatchSize(cfg.task))
      && (p.Unborn? || p.Exited?)
    else
      && consumed == |results|
      && ResultsInv(results, Hand(c), cut, BatchSize(cfg.task), cfg.n)
      && QueueInv(queue, p, |results| + |Hand(c)|, cfg.n)
  }

  ghost predicate Data(j: Job) {
    DataInv(j.cfg, j.queue, j.producer, j.consumer, j.consumed, j.tally.results, j.past.cut)
  }

  ghost predicate Cancels(j: Job) {
    CancelInv(j.consumer, j.isCanceled, j.canceller, j.past)
  }

  ghost predicate JobInv(j: Job) {
    && ShapeInv(j)
    && Cancels(j)
    && Counted(j.tally)
    && Data(j)
  }

  // -------------------------------------------------- preservation lemmas

  lemma NewJobInv(task: Task, n: nat, prefetch: int)
    ensures JobInv(NewJob(task, n, prefetch))
  {
  }

  lemma CountAppend(rs: seq<ItemResult>, more: seq<ItemResult>, s: Status)
    ensures Count(rs + more, s) == Count(rs, s) + Count(more, s)
  {
    if more == [] {
      assert rs + more == rs;
    } else {
      var front := more[..|more| - 1];
      assert (rs + more)[..|rs + more| - 1] == rs + front;
      CountAppend(rs, front, s);
    }
  }

  lemma CountUniform(rs: seq<ItemResult>, s: Status)
    requires forall i :: 0 <= i < |rs| ==> rs[i].status == s
    ensures forall t :: Count(rs, t) == (if t == s then |rs| else 0)
  {
    if rs != [] {
      CountUniform(rs[..|rs| - 1], s);
    }
  }

  lemma BumpCounts(t: Tally, r: ItemResult)
    requires Counted(t)
    ensures Counted(Bump(t, r))
  {
    assert (t.results + [r])[..|t.results|] == t.results;
  }

  lemma BulkCounts(t: Tally, more: seq<ItemResult>, s: Status)
    requires Counted(t)
    requires forall i :: 0 <= i < |more| ==> more[i].status == s
    ensures Counted(Tally(t.results + more,
                          t.analyzed + (if s == Analyzed then |more| else 0),
                          t.failed + (if s == Failed then |more| else 0),
                          t.canceled + (if s == Canceled then |more| else 0)))
  {
    CountAppend(t.results, more, Analyzed);
    CountAppend(t.results, more, Failed);
    CountAppend(t.results, more, Canceled);
    CountUniform(more, s);
  }

  lemma ProducerKeeps(j: Job, thumb: Thumb)
    requires JobInv(j) && ProducerStep(j, thumb).Some?
    ensures JobInv(ProducerStep(j, thumb).value)
  {
    var k := ProducerStep(j, thumb).value;
    assert ShapeInv(k) by { ProducerShape(j, thumb); }
    assert Data(k) by { ProducerData(j, thumb); }
    assert Cancels(k) && Counted(k.tally) by { ProducerRest(j, thumb); }
  }

  lemma ProducerRest(j: Job, thumb: Thumb)
    requires Cancels(j) && Counted(j.tally) && ProducerStep(j, thumb).Some?
    ensures Cancels(ProducerStep(j, thumb).value) && Counted(ProducerStep(j, thumb).value.tally)
  {
  }

  lemma ProducerShape(j: Job, thumb: Thumb)
    requires ShapeInv(j) && ProducerStep(j, thumb).Some?
    ensures ShapeInv(ProducerStep(j, thumb).value)
  {
  }

  lemma ProducerData(j: Job, thumb: Thumb)
    requires Data(j) && ProducerStep(j, thumb).Some?
    ensures Data(ProducerStep(j, thumb).value)
  {
    if !Over(j.consumer) {
      var k := ProducerStep(j, thumb).value;
      assert k.cfg == j.cfg && k.consumer == j.consumer && k.tally == j.tally && k.past == j.past;
    }
  }

  lemma CancelKeeps(j: Job, gate: Gate)
    requires JobInv(j)
    ensures JobInv(CancelStep(j, gate))
  {
    CancelShape(j, gate);
    CancelData(j, gate);
  }

  lemma CancelShape(j: Job, gate: Gate)
    requires ShapeInv(j) && Cancels(j)
    ensures ShapeInv(CancelStep(j, gate)) && Cancels(CancelStep(j, gate))
  {
  }

  lemma CancelData(j: Job, gate: Gate)
    requires Data(j)
    ensures Data(CancelStep(j, gate)) && CancelStep(j, gate).tally == j.tally
  {
  }

  // Moving items from the hand to the results.

  /** The consumer moves on with the same items in hand. */
  lemma Moved(j: Job, k: Job)
    requires Data(j) && !Over(j.consumer) && !Over(k.consumer)
    requires k.cfg == j.cfg && k.queue == j.queue && k.producer == j.producer && k.consumed == j.consumed
    requires k.tally == j.tally && k.past.cut == j.past.cut
    requires Hand(k.consumer) == Hand(j.consumer)
    ensures Data(k)
  {
  }

  lemma {:induction false} BatchedAppend(results: seq<ItemResult>, more: seq<ItemResult>, upto: nat, b: nat)
    requires Batched(results, upto, b)
    ensures Batched(results + more, upto, b)
    decreases upto
  {
    if upto != 0 {
      var p: nat :| p < upto <= p + b && Batched(results, p, b);
      BatchedAppend(results, more, p, b);
    }
  }

  /** The batch in hand is done: its end is a boundary too. */
  lemma BatchedClose(results: seq<ItemResult>, cut: nat, b: nat)
    requires Batched(results, cut, b) && Window(results, [], cut, |results|) && |results| <= cut + b
    ensures Batched(results, |results|, b)
  {
    assert Boundary(results, |results|);
  }

  /** Results in item order are batches of one. */
  lemma {:induction false} BatchedSingles(results: seq<ItemResult>, first: nat, upto: nat, b: nat)
    requires Batched(results, first, b) && b >= 1 && first <= upto <= |results|
    requires forall i :: first <= i < upto ==> results[i].item == i
    ensures Batched(results, upto, b)
    decreases upto
  {
    if first < upto {
      BatchedSingles(results, first, upto - 1, b);
    }
  }

  /** Recording one item that was in hand. */
  lemma Settle(results: seq<ItemResult>, hand: seq<nat>, cut: nat, b: nat, n: nat, r: ItemResult, left: seq<nat>)
    requires ResultsInv(results, hand, cut, b, n)
    requires r.item in hand && |left| + 1 == |hand|
    requires forall k :: k in hand ==> k == r.item || k in left
    requires forall i :: 0 <= i < |left| ==> left[i] in hand
    ensures ResultsInv(results + [r], left, cut, b, n)
  {
    var done := results + [r];
    BatchedAppend(results, [r], cut, b);
    forall k: nat | k < |done| + |left| ensures HasResult(done, k) || k in left {
      if HasResult(results, k) {
        var i :| 0 <= i < |results| && results[i].item == k;
        assert done[i].item == k;
      } else {
        assert k == r.item ==> done[|results|].item == k;
      }
    }
  }

  lemma RecordData(j: Job, r: ItemResult, next: Consumer)
    requires Data(j) && !Over(j.consumer) && !Over(next)
    requires var hand, left := Hand(j.consumer), Hand(next);
             && r.item in hand && |left| + 1 == |hand|
             && (forall k :: k in hand ==> k == r.item || k in left)
             && (forall i :: 0 <= i < |left| ==> left[i] in hand)
    ensures Data(Record(j, r, next))
  {
    Settle(j.tally.results, Hand(j.consumer), j.past.cut, BatchSize(j.cfg.task), j.cfg.n, r, Hand(next));
  }

  lemma FirstOfHand(hand: seq<nat>, item: nat, left: seq<nat>)
    requires hand == [item] + left
    ensures item in hand && |left| + 1 == |hand| && forall k :: k in hand ==> k == item || k in left
    ensures forall i :: 0 <= i < |left| ==> left[i] in hand
  {
    forall i | 0 <= i < |left| ensures left[i] in hand {
      assert hand[i + 1] == left[i];
    }
  }

  /** Recording the item at the front of what is in hand. */
  lemma RecordFirst(j: Job, r: ItemResult, next: Consumer)
    requires Data(j) && !Over(j.consumer) && !Over(next)
    requires Hand(j.consumer) == [r.item] + Hand(next)
    ensures Data(Record(j, r, next))
  {
    FirstOfHand(Hand(j.consumer), r.item, Hand(next));
    RecordData(j, r, next);
  }

  /** Looking at a popped entry without recording it. */
  lemma SiftHand(rest: seq<Entry>, kept: seq<Entry>, e: Entry)
    ensures Hand(AfterSift(rest, kept + [e])) == EntryItems(kept) + EntryItems([e] + rest)
  {
  }

  lemma SiftRecordHand(rest: seq<Entry>, kept: seq<Entry>, e: Entry)
    ensures var hand, left := EntryItems(kept) + EntryItems([e] + rest), Hand(AfterSift(rest, kept));
            && e.item in hand && |left| + 1 == |hand|
            && (forall k :: k in hand ==> k == e.item || k in left)
            && (forall i :: 0 <= i < |left| ==> left[i] in hand)
  {
    var hand, left := EntryItems(kept) + EntryItems([e] + rest), EntryItems(kept) + EntryItems(rest);
    assert left == Hand(AfterSift(rest, kept));
    assert hand[|kept|] == e.item;
    forall i | 0 <= i < |left| ensures left[i] in hand {
      assert left[i] == hand[if i < |kept| then i else i + 1];
    }
    forall k | k in hand ensures k == e.item || k in left {
      var i :| 0 <= i < |hand| && hand[i] == k;
      assert i < |kept| ==> left[i] == k;
      assert i > |kept| ==> left[i - 1] == k;
    }
  }

  /** An entry whose preparation failed is recorded as such. */
  lemma SiftFailedData(j: Job, e: Entry, rest: seq<Entry>, kept: seq<Entry>)
    requires j.consumer == Sift([e] + rest, kept) && Data(j) && e.prepFailed
    ensures Data(SiftStep(j, [e] + rest, kept))
  {
    assert ([e] + rest)[0] == e && ([e] + rest)[1..] == rest;
    SiftRecordHand(rest, kept, e);
    RecordData(j, ItemResult(e.item, Failed), AfterSift(rest, kept));
  }

  lemma SiftData(j: Job, todo: seq<Entry>, kept: seq<Entry>)
    requires j.consumer == Sift(todo, kept) && todo != [] && Data(j)
    ensures Data(SiftStep(j, todo, kept))
  {
    var e, rest := todo[0], todo[1..];
    assert todo == [e] + rest;
    if e.prepFailed {
      SiftFailedData(j, e, rest, kept);
    } else if rest == [] && j.cfg.task != Analyze && j.isCanceled && kept == [] {
      RecordFirst(j, ItemResult(e.item, Canceled), Head);
    } else {
      SiftHand(rest, kept, e);
      Moved(j, SiftStep(j, todo, kept));
    }
  }

  lemma SiftShape(j: Job, todo: seq<Entry>, kept: seq<Entry>)
    requires j.consumer == Sift(todo, kept) && todo != [] && ShapeInv(j) && Cancels(j)
    ensures var k := SiftStep(j, todo, kept); ShapeInv(k) && Cancels(k)
  {
  }

  lemma SiftKeeps(j: Job, todo: seq<Entry>, kept: seq<Entry>)
    requires j.consumer == Sift(todo, kept) && todo != [] && JobInv(j)
    ensures JobInv(SiftStep(j, todo, kept))
  {
    SiftData(j, todo, kept);
    SiftShape(j, todo, kept);
    assert Counted(SiftStep(j, todo, kept).tally) by {
      BumpCounts(j.tally, ItemResult(todo[0].item, Failed));
      BumpCounts(j.tally, ItemResult(todo[0].item, Canceled));
    }
  }

  lemma PopShape(j: Job)
    requires j.consumer == Pop && ShapeInv(j) && Cancels(j) && PopStep(j).Some?
    ensures ShapeInv(PopStep(j).value) && Cancels(PopStep(j).value)
  {
  }

  /** A batch of the next items is taken in hand. */
  lemma TakenInHand(results: seq<ItemResult>, hand: seq<nat>, cut: nat, b: nat, n: nat)
    requires ResultsInv(results, [], cut, b, n) && |hand| <= b && |results| + |hand| <= n
    requires forall i :: 0 <= i < |hand| ==> hand[i] == |results| + i
    ensures ResultsInv(results, hand, |results|, b, n)
  {
    BatchedClose(results, cut, b);
    forall x: nat | x < |results| + |hand| ensures HasResult(results, x) || x in hand {
      if x >= |results| {
        assert hand[x - |results|] == x;
      }
    }
  }

  lemma PopData(j: Job)
    requires j.consumer == Pop && Data(j) && PopStep(j).Some?
    ensures Data(PopStep(j).value)
  {
    var k := PopStep(j).value;
    if k.consumer != Join {
      TakenInHand(j.tally.results, Hand(k.consumer), j.past.cut, BatchSize(j.cfg.task), j.cfg.n);
    }
  }

  lemma SendShape(j: Job, gate: Gate, me: nat, rpc: Rpc, at: SendAt, batch: seq<Entry>)
    requires j.consumer == Send(at, batch) && ShapeInv(j) && Cancels(j)
    requires SendStep(j, gate, me, rpc, at, batch).Some?
    ensures var k := SendStep(j, gate, me, rpc, at, batch).value.0; ShapeInv(k) && Cancels(k)
  {
  }

  lemma SettleAll(results: seq<ItemResult>, hand: seq<nat>, cut: nat, b: nat, n: nat, more: seq<ItemResult>)
    requires ResultsInv(results, hand, cut, b, n)
    requires |more| == |hand| && forall i :: 0 <= i < |more| ==> more[i].item == hand[i]
    ensures ResultsInv(results + more, [], cut, b, n)
    decreases |more|
  {
    if more == [] {
      assert results + more == results;
    } else {
      forall k | k in hand ensures k == more[0].item || k in hand[1..] {
        var i :| 0 <= i < |hand| && hand[i] == k;
        assert i > 0 ==> hand[1..][i - 1] == k;
      }
      Settle(results, hand, cut, b, n, more[0], hand[1..]);
      assert results + more == results + [more[0]] + more[1..];
      SettleAll(results + [more[0]], hand[1..], cut, b, n, more[1..]);
    }
  }

  lemma AbortRecordData(j: Job, gate: Gate, me: nat, rpc: Rpc, batch: seq<Entry>)
    requires j.consumer == Send(AbortRecord, batch) && Data(j)
    ensures Data(SendStep(j, gate, me, rpc, AbortRecord, batch).value.0)
  {
    SettleAll(j.tally.results, EntryItems(batch), j.past.cut, BatchSize(j.cfg.task), j.cfg.n, CanceledBatch(batch));
  }

  lemma CallingData(j: Job, gate: Gate, me: nat, rpc: Rpc, batch: seq<Entry>)
    requires j.consumer == Send(Calling, batch) && Data(j)
    requires SendStep(j, gate, me, rpc, Calling, batch).Some?
    ensures Data(SendStep(j, gate, me, rpc, Calling, batch).value.0)
  {
    if rpc.Threw? && j.cfg.task != Analyze && batch != [] {
      RecordFirst(j, ItemResult(batch[0].item, Failed), Drop(DropFlag, []));
    } else {
      var k := SendStep(j, gate, me, rpc, Calling, batch).value.0;
      assert Hand(k.consumer) == Hand(j.consumer);
      Moved(j, k);
    }
  }

  /** Every other step with a batch in hand only goes on. */
  lemma GateData(j: Job, gate: Gate, me: nat, rpc: Rpc, at: SendAt, batch: seq<Entry>)
    requires j.consumer == Send(at, batch) && Data(j) && at != AbortRecord && at != Calling
    requires SendStep(j, gate, me, rpc, at, batch).Some?
    ensures Data(SendStep(j, gate, me, rpc, at, batch).value.0)
  {
    Moved(j, SendStep(j, gate, me, rpc, at, batch).value.0);
  }

  lemma SendData(j: Job, gate: Gate, me: nat, rpc: Rpc, at: SendAt, batch: seq<Entry>)
    requires j.consumer == Send(at, batch) && Data(j)
    requires SendStep(j, gate, me, rpc, at, batch).Some?
    ensures Data(SendStep(j, gate, me, rpc, at, batch).value.0)
  {
    match at
    case AbortRecord => AbortRecordData(j, gate, me, rpc, batch);
    case Calling => CallingData(j, gate, me, rpc, batch);
    case _ => GateData(j, gate, me, rpc, at, batch);
  }

  lemma DropShape(j: Job, gate: Gate, at: DropAt, replies: seq<Reply>)
    requires j.consumer == Drop(at, replies) && ShapeInv(j) && Cancels(j)
    ensures var k := DropStep(j, gate, at, replies).0; ShapeInv(k) && Cancels(k)
  {
  }

  lemma DropKeeps(j: Job, gate: Gate, at: DropAt, replies: seq<Reply>)
    requires j.consumer == Drop(at, replies) && JobInv(j)
    ensures JobInv(DropStep(j, gate, at, replies).0)
  {
    DropShape(j, gate, at, replies);
    Moved(j, DropStep(j, gate, at, replies).0);
  }

  /** The steps outside the batch: registration, the loop head, the verdicts and the end. */
  lemma EdgeShape(j: Job, gate: Gate, me: nat, rpc: Rpc)
    requires !j.consumer.Send? && !j.consumer.Drop? && !j.consumer.Sift? && !j.consumer.Pop?
    requires ShapeInv(j) && Cancels(j) && ConsumerStep(j, gate, me, rpc).Some?
    ensures var k := ConsumerStep(j, gate, me, rpc).value.0; ShapeInv(k) && Cancels(k)
  {
  }

  lemma VerdictData(j: Job, gate: Gate, me: nat, rpc: Rpc)
    requires j.consumer.Judge? || j.consumer.Decided?
    requires Data(j) && ConsumerStep(j, gate, me, rpc).Some?
    ensures Data(ConsumerStep(j, gate, me, rpc).value.0)
  {
    var k := ConsumerStep(j, gate, me, rpc).value.0;
    match j.consumer
    case Judge(replies) =>
      assert [replies[0].item] + ReplyItems(replies[1..]) == ReplyItems(replies);
      Moved(j, k);
    case Decided(r, replies) =>
      assert Hand(k.consumer) == ReplyItems(replies);
      RecordFirst(j, r, k.consumer);
  }

  lemma EndData(j: Job, gate: Gate, me: nat, rpc: Rpc)
    requires j.consumer.Register? || j.consumer.Head? || j.consumer.Join? || j.consumer.Finish?
    requires Data(j) && ConsumerStep(j, gate, me, rpc).Some?
    requires j.consumer.Register? ==> j.producer.Unborn? && j.queue == [] && j.tally.results == []
    ensures Data(ConsumerStep(j, gate, me, rpc).value.0)
  {
    if !Over(j.consumer) {
      FinalizeData(j.tally.results, j.past.cut, BatchSize(j.cfg.task), j.cfg.n, Failed);
      FinalizeData(j.tally.results, j.past.cut, BatchSize(j.cfg.task), j.cfg.n, Canceled);
    }
  }

  lemma FinalizeData(results: seq<ItemResult>, cut: nat, b: nat, n: nat, status: Status)
    requires ResultsInv(results, [], cut, b, n) && b >= 1
    ensures Complete(results + AllWith(|results|, n, status), n, b)
  {
    var done := results + AllWith(|results|, n, status);
    BatchedClose(results, cut, b);
    BatchedAppend(results, AllWith(|results|, n, status), |results|, b);
    BatchedSingles(done, |results|, n, b);
    forall k: nat | k < n ensures HasResult(done, k) {
      if k < |results| {
        assert k !in [];
        var i :| 0 <= i < |results| && results[i].item == k;
        assert done[i].item == k;
      } else {
        assert done[k].item == k;
      }
    }
  }

  lemma SendCounts(j: Job, gate: Gate, me: nat, rpc: Rpc, at: SendAt, batch: seq<Entry>)
    requires Counted(j.tally) && SendStep(j, gate, me, rpc, at, batch).Some?
    ensures Counted(SendStep(j, gate, me, rpc, at, batch).value.0.tally)
  {
    if at == AbortRecord {
      BulkCounts(j.tally, CanceledBatch(batch), Canceled);
    } else if at == Calling && batch != [] {
      BumpCounts(j.tally, ItemResult(batch[0].item, Failed));
    }
  }

  lemma EdgeCounts(j: Job, gate: Gate, me: nat, rpc: Rpc)
    requires !j.consumer.Send? && !j.consumer.Drop? && !j.consumer.Sift? && !j.consumer.Pop?
    requires Counted(j.tally) && ConsumerStep(j, gate, me, rpc).Some?
    ensures Counted(ConsumerStep(j, gate, me, rpc).value.0.tally)
  {
    match j.consumer
    case Register => BulkCounts(j.tally, AllWith(0, j.cfg.n, Failed), Failed);
    case Decided(r, _) => BumpCounts(j.tally, r);
    case Join => BulkCounts(j.tally, AllWith(j.consumed, j.cfg.n, Canceled), Canceled);
    case _ =>
  }

  lemma SendKeeps(j: Job, gate: Gate, me: nat, rpc: Rpc, at: SendAt, batch: seq<Entry>)
    requires j.consumer == Send(at, batch) && JobInv(j)
    requires SendStep(j, gate, me, rpc, at, batch).Some?
    ensures JobInv(SendStep(j, gate, me, rpc, at, batch).value.0)
  {
    SendShape(j, gate, me, rpc, at, batch);
    SendData(j, gate, me, rpc, at, batch);
    SendCounts(j, gate, me, rpc, at, batch);
  }

  lemma EdgeKeeps(j: Job, gate: Gate, me: nat, rpc: Rpc)
    requires !j.consumer.Send? && !j.consumer.Drop? && !j.consumer.Sift? && !j.consumer.Pop?
    requires JobInv(j) && ConsumerStep(j, gate, me, rpc).Some?
    ensures JobInv(ConsumerStep(j, gate, me, rpc).value.0)
  {
    EdgeShape(j, gate, me, rpc);
    EdgeCounts(j, gate, me, rpc);
    if j.consumer.Judge? || j.consumer.Decided? {
      VerdictData(j, gate, me, rpc);
    } else {
      EndData(j, gate, me, rpc);
    }
  }

  lemma ConsumerKeeps(j: Job, gate: Gate, me: nat, rpc: Rpc)
    requires JobInv(j) && ConsumerStep(j, gate, me, rpc).Some?
    ensures JobInv(ConsumerStep(j, gate, me, rpc).value.0)
  {
    match j.consumer
    case Sift(todo, kept) => SiftKeeps(j, todo, kept);
    case Pop => PopShape(j); PopData(j);
    case Send(at, batch) => SendKeeps(j, gate, me, rpc, at, batch);
    case Drop(at, replies) => DropKeeps(j, gate, at, replies);
    case _ => EdgeKeeps(j, gate, me, rpc);
  }

  // ------------------------------------------------------------- progress

  function ProducerRank(p: Producer, n: nat): int {
    match p
    case Unborn => 3 * n + 3
    case Loop(next) => 3 * (n - next) + 2
    case Preparing(next) => 3 * (n - next) + 1
    case Pushing(next, _) => 3 * (n - next)
    case Stopping => 1
    case Exited => 0
  }

  function SendRank(at: SendAt): nat {
    match at
    case Acquire => 19
    case SetFlag => 18
    case Recheck => 17
    case AbortId => 16
    case AbortFlag => 15
    case AbortSlot => 14
    case AbortRecord => 13
    case Start => 12
    case Calling => 11
  }

  function DropRank(at: DropAt): nat {
    match at
    case DropFlag => 2
    case DropId => 1
    case DropSlot => 0
  }

  /** Steps the consumer can take before the next result is recorded; below 40. */
  function Rank(c: Consumer): nat {
    match c
    case Register => 29
    case Head => 28
    case Pop => 27
    case Sift(todo, _) => 20 + |todo|
    case Send(at, _) => SendRank(at)
    case Drop(at, replies) => (if replies == [] then 30 else 8) + DropRank(at)
    case Judge(_) => 7
    case Decided(_, _) => 6
    case Join => 3
    case Finish => 2
    case Finished => 1
  }

  function Measure(j: Job): int {
    ProducerRank(j.producer, j.cfg.n) + 40 * (j.cfg.n - |j.tally.results|) + Rank(j.consumer)
  }

  lemma MeasureBounded(j: Job)
    requires Data(j)
    ensures Measure(j) >= 0
  {
  }

  lemma ProducerProgress(j: Job, thumb: Thumb)
    requires Data(j) && ProducerStep(j, thumb).Some?
    ensures Measure(ProducerStep(j, thumb).value) < Measure(j)
  {
    assert !Over(j.consumer);
    ProducerRankFalls(j, thumb);
  }

  lemma ProducerRankFalls(j: Job, thumb: Thumb)
    requires QueueInv(j.queue, j.producer, |j.tally.results| + |Hand(j.consumer)|, j.cfg.n)
    requires ProducerStep(j, thumb).Some?
    ensures var k := ProducerStep(j, thumb).value;
            && ProducerRank(k.producer, j.cfg.n) < ProducerRank(j.producer, j.cfg.n)
            && k.cfg == j.cfg && k.tally == j.tally && k.consumer == j.consumer
  {
  }

  lemma SendProgress(j: Job, gate: Gate, me: nat, rpc: Rpc, at: SendAt, batch: seq<Entry>)
    requires j.consumer == Send(at, batch) && batch != []
    requires SendStep(j, gate, me, rpc, at, batch).Some?
    ensures Measure(SendStep(j, gate, me, rpc, at, batch).value.0) < Measure(j)
  {
  }

  lemma SiftProgress(j: Job, todo: seq<Entry>, kept: seq<Entry>)
    requires j.consumer == Sift(todo, kept) && todo != []
    ensures Measure(SiftStep(j, todo, kept)) < Measure(j)
  {
    assert |todo[1..]| < |todo|;
  }

  lemma DropProgress(j: Job, gate: Gate, at: DropAt, replies: seq<Reply>)
    requires j.consumer == Drop(at, replies)
    ensures Measure(DropStep(j, gate, at, replies).0) < Measure(j)
  {
  }

  lemma EndProgress(j: Job, gate: Gate, me: nat, rpc: Rpc)
    requires j.consumer.Register? || j.consumer.Join?
    requires ShapeInv(j) && Data(j) && ConsumerStep(j, gate, me, rpc).Some?
    ensures Measure(ConsumerStep(j, gate, me, rpc).value.0) < Measure(j)
  {
  }

  lemma EdgeProgress(j: Job, gate: Gate, me: nat, rpc: Rpc)
    requires !j.consumer.Send? && !j.consumer.Drop? && !j.consumer.Sift? && !j.consumer.Register? && !j.consumer.Join?
    requires ShapeInv(j) && ConsumerStep(j, gate, me, rpc).Some?
    ensures Measure(ConsumerStep(j, gate, me, rpc).value.0) < Measure(j)
  {
  }

  lemma ConsumerProgress(j: Job, gate: Gate, me: nat, rpc: Rpc)
    requires ShapeInv(j) && Data(j) && ConsumerStep(j, gate, me, rpc).Some?
    ensures Measure(ConsumerStep(j, gate, me, rpc).value.0) < Measure(j)
  {
    match j.consumer
    case Send(at, batch) => SendProgress(j, gate, me, rpc, at, batch);
    case Sift(todo, kept) => SiftProgress(j, todo, kept);
    case Drop(at, replies) => DropProgress(j, gate, at, replies);
    case Register => EndProgress(j, gate, me, rpc);
    case Join => EndProgress(j, gate, me, rpc);
    case _ => EdgeProgress(j, gate, me, rpc);
  }

  /** Consumer states that wait for the gate. */
  predicate WaitsForGate(j: Job) {
    j.consumer.Send? && j.consumer.send == Acquire && !j.isCanceled
  }

  /** A job never waits for itself: a full queue and a short batch cannot block each other. */
  lemma JobNotStuck(j: Job, gate: Gate, me: nat, thumb: Thumb, rpc: Rpc)
    requires JobInv(j) && j.consumer != Finished
    requires !(WaitsForGate(j) && gate.inFlight)
    ensures ProducerStep(j, thumb).Some? || ConsumerStep(j, gate, me, rpc).Some?
  {
  }
}
