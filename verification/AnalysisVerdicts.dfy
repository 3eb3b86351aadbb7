/**
 What the verdicts of an analysis job say about its surroundings: which answers, failures and
 cancellations of a run an item's result stands for.
 */
module AnalysisVerdicts {
  import opened Wrappers
  import opened AnalysisJob
  import opened AnalysisSystem

  /** What the surroundings of one job did during a run; no step of the job reads it. */
  datatype Witness = Witness(
    unregistered: bool,    // the registration threw
    unusable: set<nat>,    // items whose thumbnail or encoding failed
    taken: set<nat>,       // items the consumer took up
    thrown: set<nat>,      // items whose own call threw
    yes: set<nat>,         // items with an answer that was a success
    no: set<nat>,          // items with an answer that was none, or with none in the answer to their batch
    passed: set<nat>,      // items whose answer was looked at with no cancel stored
    cancelled: bool,       // `Cancel` was called
    skipped: bool)         // the thumbnail service reported a request as cancelled

  const NOTHING := Witness(false, {}, {}, {}, {}, {}, {}, false, false)

  /** The item at place i of the batch was answered with a success. */
  predicate Succeeded(batch: seq<Entry>, rpc: Rpc, i: nat) {
    i < |batch| && rpc.Returned? && i < |rpc.oks| && rpc.oks[i]
  }

  /** What an answer tells of the items of its batch. */
  function WithAnswers(w: Witness, batch: seq<Entry>, rpc: Rpc): Witness {
    w.(yes := w.yes + (set i | 0 <= i < |batch| && Succeeded(batch, rpc, i) :: batch[i].item),
       no := w.no + (set i | 0 <= i < |batch| && !Succeeded(batch, rpc, i) :: batch[i].item))
  }

  function SeenConsume(w: Witness, j: Job, rpc: Rpc): Witness {
    match j.consumer
    case Register => w.(unregistered := rpc.Threw?)
    case Sift(todo, _) => if todo == [] then w else w.(taken := w.taken + {todo[0].item})
    case Send(at, batch) =>
      if at != Calling then w
      else if rpc.Threw? && j.cfg.task != Analyze then
        w.(thrown := w.thrown + set i | 0 <= i < |batch| :: batch[i].item)
      else WithAnswers(w, batch, rpc)
    case Judge(replies) => if replies == [] || j.isCanceled then w else w.(passed := w.passed + {replies[0].item})
    case _ => w
  }

  /** What one action adds, by where the job stands. */
  function Seen(w: Witness, j: Job, action: Action): Witness {
    match action
    case Cancel => w.(cancelled := true)
    case Consume(rpc) => SeenConsume(w, j, rpc)
    case Produce(thumb) =>
      if !j.producer.Preparing? then w
      else
        match thumb
        case ThumbCanceled => w.(skipped := true)
        case ThumbUnusable => w.(unusable := w.unusable + {j.producer.next})
        case ThumbEncoded => w
  }

  predicate Hit(w: Witness, x: nat) {
    x in w.yes && x in w.passed
  }

  predicate Fault(w: Witness, x: nat) {
    w.unregistered || x in w.thrown || (x in w.unusable && x in w.taken) || (x in w.no && x in w.passed)
  }

  /** The result says what happened to its item. */
  predicate Earned(w: Witness, r: ItemResult) {
    && (r.status == Analyzed <==> Hit(w, r.item))
    && (r.status == Failed <==> Fault(w, r.item))
    && (r.status == Canceled ==> w.cancelled || w.skipped)
  }

  // ---------------------------------------------------------- the invariant

  predicate Uncalled(w: Witness, x: nat) {
    x !in w.thrown && x !in w.yes && x !in w.no && x !in w.passed
  }

  predicate Untouched(w: Witness, x: nat) {
    Uncalled(w, x) && x !in w.taken
  }

  predicate Answered(w: Witness, reply: Reply) {
    && (reply.ok <==> reply.item in w.yes) && (!reply.ok <==> reply.item in w.no)
    && reply.item !in w.thrown && reply.item !in w.passed && reply.item !in w.unusable
  }

  ghost predicate HandTraced(c: Consumer, w: Witness) {
    match c
    case Sift(todo, kept) =>
      && (forall i :: 0 <= i < |todo| ==> Untouched(w, todo[i].item) && (todo[i].prepFailed <==> todo[i].item in w.unusable))
      && (forall i :: 0 <= i < |kept| ==> Uncalled(w, kept[i].item) && kept[i].item !in w.unusable)
    case Send(_, batch) => forall i :: 0 <= i < |batch| ==> Uncalled(w, batch[i].item) && batch[i].item !in w.unusable
    case Drop(_, replies) => forall i :: 0 <= i < |replies| ==> Answered(w, replies[i])
    case Judge(replies) => forall i :: 0 <= i < |replies| ==> Answered(w, replies[i])
    case Decided(r, replies) => Earned(w, r) && forall i :: 0 <= i < |replies| ==> Answered(w, replies[i])
    case _ => true
  }

  /** The entries carry what was made of their thumbnails. */
  ghost predicate QueueTraced(queue: seq<Entry>, p: Producer, w: Witness) {
    && (forall i :: 0 <= i < |queue| ==> (queue[i].prepFailed <==> queue[i].item in w.unusable))
    && (p.Loop? || p.Preparing? ==> forall x: nat :: x >= p.next ==> x !in w.unusable)
    && (p.Pushing? ==> (p.prepFailed <==> p.next in w.unusable) && forall x: nat :: x > p.next ==> x !in w.unusable)
    && (p.Unborn? ==> w.unusable == {})
  }

  /** No item has two results, or a result while it is in hand. */
  ghost predicate Apart(results: seq<ItemResult>, hand: seq<nat>) {
    && (forall i, k :: 0 <= i < |results| && 0 <= k < |hand| ==> results[i].item != hand[k])
    && (forall i, k :: 0 <= i < k < |hand| ==> hand[i] != hand[k])
  }

  ghost predicate AllEarned(results: seq<ItemResult>, w: Witness) {
    forall i :: 0 <= i < |results| ==> Earned(w, results[i])
  }

  ghost predicate Ahead(popped: nat, w: Witness) {
    forall x: nat :: x >= popped ==> Untouched(w, x)
  }

  /** A producer ends early only when the run was cancelled or a thumbnail was, a call is given up only in a cancelled run. */
  ghost predicate EndsRight(j: Job, w: Witness) {
    && (j.isCanceled <==> w.cancelled)
    && (j.producer.Stopping? || j.producer.Exited? ==>
          w.cancelled || w.skipped || |j.tally.results| + |Hand(j.consumer)| + |j.queue| == j.cfg.n)
    && (j.consumer.Send? && j.consumer.send in {AbortId, AbortFlag, AbortSlot, AbortRecord} ==> j.isCanceled)
    && !w.unregistered
  }

  ghost predicate Traced(j: Job, w: Witness) {
    && AllEarned(j.tally.results, w)
    && (if Over(j.consumer) then j.isCanceled ==> w.cancelled
        else
          && HandTraced(j.consumer, w)
          && QueueTraced(j.queue, j.producer, w)
          && Apart(j.tally.results, Hand(j.consumer))
          && Ahead(|j.tally.results| + |Hand(j.consumer)|, w)
          && EndsRight(j, w))
  }

  lemma NewJobTraced(task: Task, n: nat, prefetch: int)
    ensures Traced(NewJob(task, n, prefetch), NOTHING)
  {
  }

  // ------------------------------------------------------------- the steps

  /** Nothing new is known of the item. */
  predicate SameAt(w: Witness, v: Witness, x: nat) {
    && w.unregistered == v.unregistered && (w.cancelled ==> v.cancelled) && (w.skipped ==> v.skipped)
    && (x in w.unusable <==> x in v.unusable) && (x in w.taken <==> x in v.taken)
    && (x in w.thrown <==> x in v.thrown) && (x in w.yes <==> x in v.yes) && (x in w.no <==> x in v.no)
    && (x in w.passed <==> x in v.passed)
  }

  lemma EarnedKept(results: seq<ItemResult>, w: Witness, v: Witness)
    requires AllEarned(results, w) && forall i :: 0 <= i < |results| ==> SameAt(w, v, results[i].item)
    ensures AllEarned(results, v)
  {
    forall i | 0 <= i < |results| ensures Earned(v, results[i]) {
      assert Earned(w, results[i]) && SameAt(w, v, results[i].item);
    }
  }

  lemma SiftPlaces(todo: seq<Entry>, kept: seq<Entry>)
    ensures var hand := Hand(Sift(todo, kept));
            && |hand| == |kept| + |todo|
            && (forall i :: 0 <= i < |kept| ==> hand[i] == kept[i].item)
            && (forall i :: 0 <= i < |todo| ==> hand[|kept| + i] == todo[i].item)
  {
  }

  lemma SiftKept(todo: seq<Entry>, kept: seq<Entry>, w: Witness, v: Witness)
    requires HandTraced(Sift(todo, kept), w)
    requires forall i :: 0 <= i < |kept| + |todo| ==> SameAt(w, v, Hand(Sift(todo, kept))[i])
    ensures HandTraced(Sift(todo, kept), v)
  {
    var hand := Hand(Sift(todo, kept));
    SiftPlaces(todo, kept);
    forall i | 0 <= i < |todo| ensures SameAt(w, v, todo[i].item) {
      assert SameAt(w, v, hand[|kept| + i]);
    }
    forall i | 0 <= i < |kept| ensures SameAt(w, v, kept[i].item) {
      assert SameAt(w, v, hand[i]);
    }
  }

  lemma RepliesKept(replies: seq<Reply>, w: Witness, v: Witness)
    requires forall i :: 0 <= i < |replies| ==> Answered(w, replies[i]) && SameAt(w, v, replies[i].item)
    ensures forall i :: 0 <= i < |replies| ==> Answered(v, replies[i])
  {
  }

  lemma HandKept(c: Consumer, w: Witness, v: Witness)
    requires HandTraced(c, w) && forall i :: 0 <= i < |Hand(c)| ==> SameAt(w, v, Hand(c)[i])
    ensures HandTraced(c, v)
  {
    match c
    case Sift(todo, kept) => SiftKept(todo, kept, w, v);
    case Send(_, batch) => assert forall i :: 0 <= i < |batch| ==> Hand(c)[i] == batch[i].item;
    case Drop(_, replies) =>
      assert forall i :: 0 <= i < |replies| ==> Hand(c)[i] == replies[i].item;
      RepliesKept(replies, w, v);
    case Judge(replies) =>
      assert forall i :: 0 <= i < |replies| ==> Hand(c)[i] == replies[i].item;
      RepliesKept(replies, w, v);
    case Decided(r, replies) =>
      assert Hand(c)[0] == r.item && SameAt(w, v, Hand(c)[0]);
      assert forall i :: 0 <= i < |replies| ==> Hand(c)[i + 1] == replies[i].item;
      RepliesKept(replies, w, v);
    case _ =>
  }

  lemma AheadKept(popped: nat, bound: nat, w: Witness, v: Witness)
    requires Ahead(popped, w) && popped <= bound
    requires forall x: nat :: x >= bound && Untouched(w, x) ==> Untouched(v, x)
    ensures Ahead(bound, v)
  {
  }

  /** Results and hand lie below what was popped. */
  lemma Bounded(j: Job)
    requires Data(j) && !Over(j.consumer)
    ensures var popped := |j.tally.results| + |Hand(j.consumer)|;
            && (forall i :: 0 <= i < |j.tally.results| ==> j.tally.results[i].item < popped)
            && (forall i :: 0 <= i < |Hand(j.consumer)| ==> Hand(j.consumer)[i] < popped)
  {
  }

  lemma CancelTraced(j: Job, gate: Gate, w: Witness)
    requires Traced(j, w) && Cancels(j)
    ensures Traced(CancelStep(j, gate), Seen(w, j, Cancel))
  {
    var v := Seen(w, j, Cancel);
    EarnedKept(j.tally.results, w, v);
    if !Over(j.consumer) {
      var popped := |j.tally.results| + |Hand(j.consumer)|;
      HandKept(j.consumer, w, v);
      AheadKept(popped, popped, w, v);
    }
  }

  lemma ProduceQueue(j: Job, w: Witness, thumb: Thumb)
    requires Data(j) && !Over(j.consumer) && QueueTraced(j.queue, j.producer, w) && ProducerStep(j, thumb).Some?
    ensures var k := ProducerStep(j, thumb).value; QueueTraced(k.queue, k.producer, Seen(w, j, Produce(thumb)))
  {
  }

  lemma ProduceEnds(j: Job, w: Witness, thumb: Thumb)
    requires Data(j) && !Over(j.consumer) && EndsRight(j, w) && ProducerStep(j, thumb).Some?
    ensures EndsRight(ProducerStep(j, thumb).value, Seen(w, j, Produce(thumb)))
  {
  }

  /** The producer works on an item that was not popped yet. */
  lemma ProduceTells(j: Job, w: Witness, thumb: Thumb)
    requires Data(j) && !Over(j.consumer) && Ahead(|j.tally.results| + |Hand(j.consumer)|, w)
    ensures var v := Seen(w, j, Produce(thumb));
            && (forall i :: 0 <= i < |j.tally.results| ==> SameAt(w, v, j.tally.results[i].item))
            && (forall i :: 0 <= i < |Hand(j.consumer)| ==> SameAt(w, v, Hand(j.consumer)[i]))
            && Ahead(|j.tally.results| + |Hand(j.consumer)|, v)
  {
    var v, popped := Seen(w, j, Produce(thumb)), |j.tally.results| + |Hand(j.consumer)|;
    Bounded(j);
    AheadKept(popped, popped, w, v);
  }

  lemma ProduceTraced(j: Job, w: Witness, thumb: Thumb)
    requires Data(j) && Traced(j, w) && ProducerStep(j, thumb).Some?
    ensures Traced(ProducerStep(j, thumb).value, Seen(w, j, Produce(thumb)))
  {
    assert !Over(j.consumer);
    var v, k := Seen(w, j, Produce(thumb)), ProducerStep(j, thumb).value;
    ProduceTells(j, w, thumb);
    EarnedKept(j.tally.results, w, v);
    HandKept(j.consumer, w, v);
    ProduceQueue(j, w, thumb);
    ProduceEnds(j, w, thumb);
    assert k.consumer == j.consumer && k.tally == j.tally;
  }

  /** Moving on with the same items in hand, and nothing new known. */
  lemma MovedTraced(j: Job, k: Job, w: Witness)
    requires Traced(j, w) && !Over(j.consumer) && !Over(k.consumer)
    requires k.cfg == j.cfg && k.queue == j.queue && k.tally == j.tally && k.isCanceled == j.isCanceled
    requires k.producer == j.producer && Hand(k.consumer) == Hand(j.consumer) && HandTraced(k.consumer, w)
    requires k.consumer.Send? && k.consumer.send in {AbortId, AbortFlag, AbortSlot, AbortRecord} ==> k.isCanceled
    ensures Traced(k, w)
  {
  }

  /** The registration, which fails for every item or starts the producer. */
  lemma RegisterTraced(j: Job, gate: Gate, me: nat, rpc: Rpc, w: Witness)
    requires j.consumer == Register && j.producer.Unborn? && j.queue == [] && j.tally.results == [] && Traced(j, w)
    ensures Traced(ConsumerStep(j, gate, me, rpc).value.0, Seen(w, j, Consume(rpc)))
  {
    var k, v := ConsumerStep(j, gate, me, rpc).value.0, Seen(w, j, Consume(rpc));
    if rpc.Threw? {
      forall i | 0 <= i < |k.tally.results| ensures Earned(v, k.tally.results[i]) {
        assert Untouched(w, k.tally.results[i].item);
      }
    } else {
      AheadKept(0, 0, w, v);
    }
  }

  /** The popped entries are the next items, of which nothing is known but their thumbnails. */
  lemma PoppedTraced(j: Job, w: Witness, n: nat)
    requires j.consumer == Pop && Data(j) && Traced(j, w) && n <= |j.queue|
    ensures HandTraced(Sift(j.queue[..n], []), w)
    ensures Apart(j.tally.results, EntryItems(j.queue[..n])) && Ahead(|j.tally.results| + n, w)
    ensures QueueTraced(j.queue[n..], j.producer, w)
  {
    Bounded(j);
    assert forall i :: 0 <= i < n ==> EntryItems(j.queue[..n])[i] == |j.tally.results| + i;
    assert forall i :: 0 <= i < |j.queue| - n ==> j.queue[n..][i] == j.queue[n + i];
    AheadKept(|j.tally.results|, |j.tally.results| + n, w, w);
  }

  lemma PopTraced(j: Job, w: Witness)
    requires j.consumer == Pop && Data(j) && Traced(j, w) && PopStep(j).Some?
    ensures Traced(PopStep(j).value, w)
  {
    var k := PopStep(j).value;
    if k.consumer != Join {
      var n := |k.consumer.todo|;
      PoppedTraced(j, w, n);
      assert Hand(k.consumer) == EntryItems(j.queue[..n]);
    }
  }

  /** One item in hand is recorded, and the others stay apart. */
  lemma RecordApart(results: seq<ItemResult>, hand: seq<nat>, r: ItemResult, left: seq<nat>, at: nat)
    requires Apart(results, hand) && at <= |left| && hand == left[..at] + [r.item] + left[at..]
    ensures Apart(results + [r], left)
  {
    var place := (k: int) => if k < at then k else k + 1;
    assert forall k :: 0 <= k < |left| ==> hand[place(k)] == left[k];
    assert hand[at] == r.item;
    forall i, k | 0 <= i < k < |left| ensures left[i] != left[k] {
      assert hand[place(i)] != hand[place(k)];
    }
    forall i, k | 0 <= i < |results| + 1 && 0 <= k < |left| ensures (results + [r])[i].item != left[k] {
      assert hand[place(k)] != hand[at];
    }
  }

  /** Recording the item at one place of the hand, with what is known of the others unchanged. */
  lemma RecordTraced(j: Job, w: Witness, v: Witness, r: ItemResult, next: Consumer, at: nat)
    requires Traced(j, w) && !Over(j.consumer) && !Over(next) && (next.Send? ==> next.send == Acquire)
    requires at <= |Hand(next)| && Hand(j.consumer) == Hand(next)[..at] + [r.item] + Hand(next)[at..]
    requires forall i :: 0 <= i < |j.tally.results| ==> SameAt(w, v, j.tally.results[i].item)
    requires Ahead(|j.tally.results| + |Hand(j.consumer)|, v) && HandTraced(next, v) && Earned(v, r)
    requires v.unusable == w.unusable && v.unregistered == w.unregistered && v.cancelled == w.cancelled && v.skipped == w.skipped
    ensures Traced(Record(j, r, next), v)
  {
    EarnedKept(j.tally.results, w, v);
    RecordApart(j.tally.results, Hand(j.consumer), r, Hand(next), at);
    assert |Hand(j.consumer)| == |Hand(next)| + 1;
  }

  /** Taking an item up tells nothing of any other. */
  lemma TakenTells(j: Job, w: Witness, v: Witness, todo: seq<Entry>, kept: seq<Entry>)
    requires j.consumer == Sift(todo, kept) && todo != [] && Data(j) && Traced(j, w)
    requires v == w.(taken := w.taken + {todo[0].item})
    ensures forall i :: 0 <= i < |j.tally.results| ==> SameAt(w, v, j.tally.results[i].item)
    ensures Ahead(|j.tally.results| + |Hand(j.consumer)|, v)
  {
    var hand, popped := Hand(j.consumer), |j.tally.results| + |Hand(j.consumer)|;
    SiftPlaces(todo, kept);
    assert hand[|kept| + 0] == todo[0].item;
    Bounded(j);
    AheadKept(popped, popped, w, v);
    forall i | 0 <= i < |j.tally.results| ensures SameAt(w, v, j.tally.results[i].item) {
      assert j.tally.results[i].item != hand[|kept|];
    }
  }

  lemma StillUntouched(w: Witness, v: Witness, todo: seq<Entry>, kept: seq<Entry>, i: nat)
    requires HandTraced(Sift(todo, kept), w) && Apart([], Hand(Sift(todo, kept))) && 0 < i < |todo|
    requires v == w.(taken := w.taken + {todo[0].item})
    ensures Untouched(v, todo[i].item)
  {
    SiftPlaces(todo, kept);
    assert Hand(Sift(todo, kept))[|kept| + i] != Hand(Sift(todo, kept))[|kept|];
  }

  lemma FailedHand(kept: seq<Entry>, todo: seq<Entry>)
    requires todo != []
    ensures var hand := Hand(AfterSift(todo[1..], kept));
            && |kept| <= |hand|
            && EntryItems(kept) + EntryItems(todo) == hand[..|kept|] + [todo[0].item] + hand[|kept|..]
  {
    assert EntryItems(todo) == [todo[0].item] + EntryItems(todo[1..]);
    assert Hand(AfterSift(todo[1..], kept)) == EntryItems(kept) + EntryItems(todo[1..]);
  }

  lemma SiftFailedTraced(j: Job, w: Witness, v: Witness, todo: seq<Entry>, kept: seq<Entry>)
    requires j.consumer == Sift(todo, kept) && todo != [] && todo[0].prepFailed && Traced(j, w)
    requires v == w.(taken := w.taken + {todo[0].item})
    requires forall i :: 0 <= i < |j.tally.results| ==> SameAt(w, v, j.tally.results[i].item)
    requires Ahead(|j.tally.results| + |Hand(j.consumer)|, v) && HandTraced(AfterSift(todo[1..], kept), v)
    ensures Traced(Record(j, ItemResult(todo[0].item, Failed), AfterSift(todo[1..], kept)), v)
  {
    FailedHand(kept, todo);
    RecordTraced(j, w, v, ItemResult(todo[0].item, Failed), AfterSift(todo[1..], kept), |kept|);
  }

  /** What is left to look at, and what is kept for the call, is as it was. */
  lemma SiftHandTraced(j: Job, w: Witness, v: Witness, todo: seq<Entry>, kept: seq<Entry>, more: seq<Entry>)
    requires j.consumer == Sift(todo, kept) && todo != [] && HandTraced(j.consumer, w) && Apart([], Hand(j.consumer))
    requires v == w.(taken := w.taken + {todo[0].item})
    requires forall i :: 0 <= i < |more| ==> Uncalled(w, more[i].item) && more[i].item !in w.unusable
    ensures HandTraced(AfterSift(todo[1..], more), v)
  {
    forall i | 0 < i < |todo| ensures Untouched(v, todo[i].item) {
      StillUntouched(w, v, todo, kept, i);
    }
    assert forall i :: 0 <= i < |todo| - 1 ==> todo[1..][i] == todo[i + 1];
  }

  lemma KeptTraced(j: Job, w: Witness, v: Witness, todo: seq<Entry>, kept: seq<Entry>)
    requires j.consumer == Sift(todo, kept) && todo != [] && Traced(j, w)
    requires v == w.(taken := w.taken + {todo[0].item})
    requires forall i :: 0 <= i < |j.tally.results| ==> SameAt(w, v, j.tally.results[i].item)
    requires Ahead(|j.tally.results| + |Hand(j.consumer)|, v) && HandTraced(AfterSift(todo[1..], kept + [todo[0]]), v)
    ensures Traced(j.(consumer := AfterSift(todo[1..], kept + [todo[0]])), v)
  {
    EarnedKept(j.tally.results, w, v);
    SiftHand(todo[1..], kept, todo[0]);
    assert todo == [todo[0]] + todo[1..];
  }

  lemma SiftTraced(j: Job, w: Witness, todo: seq<Entry>, kept: seq<Entry>)
    requires j.consumer == Sift(todo, kept) && todo != [] && Data(j) && Traced(j, w)
    ensures Traced(SiftStep(j, todo, kept), w.(taken := w.taken + {todo[0].item}))
  {
    var v := w.(taken := w.taken + {todo[0].item});
    TakenTells(j, w, v, todo, kept);
    if todo[0].prepFailed {
      SiftHandTraced(j, w, v, todo, kept, kept);
      SiftFailedTraced(j, w, v, todo, kept);
    } else if todo[1..] == [] && j.cfg.task != Analyze && j.isCanceled && kept == [] {
      assert Hand(j.consumer) == [todo[0].item];
      RecordTraced(j, w, v, ItemResult(todo[0].item, Canceled), Head, 0);
    } else {
      SiftHandTraced(j, w, v, todo, kept, kept + [todo[0]]);
      KeptTraced(j, w, v, todo, kept);
    }
  }

  /** A call tells nothing of the items outside its batch. */
  lemma CallTells(j: Job, w: Witness, v: Witness, batch: seq<Entry>)
    requires j.consumer.Send? && j.consumer.batch == batch && Data(j) && Traced(j, w)
    requires forall x: nat :: x !in EntryItems(batch) ==> SameAt(w, v, x)
    ensures forall i :: 0 <= i < |j.tally.results| ==> SameAt(w, v, j.tally.results[i].item)
    ensures Ahead(|j.tally.results| + |Hand(j.consumer)|, v)
  {
    Bounded(j);
    var popped := |j.tally.results| + |Hand(j.consumer)|;
    forall x: nat | x >= popped && Untouched(w, x) ensures Untouched(v, x) {
      assert x !in EntryItems(batch) && SameAt(w, v, x);
    }
    AheadKept(popped, popped, w, v);
  }

  /** A thrown call of one item counts against it at once. */
  lemma ThrownTraced(j: Job, batch: seq<Entry>, w: Witness, v: Witness)
    requires j.consumer == Send(Calling, batch) && |batch| == 1 && Data(j) && Traced(j, w)
    requires v == w.(thrown := w.thrown + {batch[0].item})
    ensures Traced(Record(j, ItemResult(batch[0].item, Failed), Drop(DropFlag, [])), v)
  {
    CallTells(j, w, v, batch);
    assert Hand(j.consumer) == [batch[0].item];
    RecordTraced(j, w, v, ItemResult(batch[0].item, Failed), Drop(DropFlag, []), 0);
  }

  lemma AnsweredTraced(j: Job, rpc: Rpc, batch: seq<Entry>, w: Witness)
    requires j.consumer == Send(Calling, batch) && Data(j) && Traced(j, w)
    ensures Traced(j.(consumer := Drop(DropFlag, Replies(batch, rpc))), WithAnswers(w, batch, rpc))
  {
    var v, replies := WithAnswers(w, batch, rpc), Replies(batch, rpc);
    CallTells(j, w, v, batch);
    EarnedKept(j.tally.results, w, v);
    assert ReplyItems(replies) == EntryItems(batch);
    forall i | 0 <= i < |batch| ensures Answered(v, replies[i]) {
      assert forall k :: 0 <= k < |batch| ==> EntryItems(batch)[k] == batch[k].item;
      AnswerSeen(w, batch, rpc, i);
    }
  }

  lemma CallingTraced(j: Job, gate: Gate, me: nat, rpc: Rpc, batch: seq<Entry>, w: Witness)
    requires j.consumer == Send(Calling, batch) && batch != [] && Data(j) && Traced(j, w)
    ensures Traced(SendStep(j, gate, me, rpc, Calling, batch).value.0, Seen(w, j, Consume(rpc)))
  {
    if rpc.Threw? && j.cfg.task != Analyze {
      assert |EntryItems(batch)| == 1;
      assert (set i | 0 <= i < |batch| :: batch[i].item) == {batch[0].item};
      ThrownTraced(j, batch, w, Seen(w, j, Consume(rpc)));
    } else {
      AnsweredTraced(j, rpc, batch, w);
    }
  }

  /** Items of one batch are distinct, so an answer is that of its own place. */
  lemma AnswerSeen(w: Witness, batch: seq<Entry>, rpc: Rpc, i: nat)
    requires i < |batch| && Uncalled(w, batch[i].item) && batch[i].item !in w.unusable
    requires forall k, l :: 0 <= k < l < |batch| ==> batch[k].item != batch[l].item
    ensures Answered(WithAnswers(w, batch, rpc), Reply(batch[i].item, Succeeded(batch, rpc, i)))
  {
  }

  /** The batch is given up before its call. */
  lemma AbortTraced(j: Job, w: Witness, batch: seq<Entry>, k: Job)
    requires j.consumer == Send(AbortRecord, batch) && Data(j) && Traced(j, w) && j.isCanceled
    requires k == j.(consumer := Head, consumed := k.consumed, tally := k.tally)
    requires k.tally.results == j.tally.results + CanceledBatch(batch)
    ensures Traced(k, w)
  {
    forall i | 0 <= i < |k.tally.results| ensures Earned(w, k.tally.results[i]) {
      if i >= |j.tally.results| {
        assert k.tally.results[i].item == batch[i - |j.tally.results|].item;
      }
    }
  }

  /** The check of one answer tells nothing of any other item. */
  lemma JudgeTells(j: Job, replies: seq<Reply>, w: Witness, v: Witness)
    requires j.consumer == Judge(replies) && replies != [] && Data(j) && Traced(j, w)
    requires v == w || v == w.(passed := w.passed + {replies[0].item})
    ensures forall i :: 0 <= i < |j.tally.results| ==> SameAt(w, v, j.tally.results[i].item)
    ensures Ahead(|j.tally.results| + |Hand(j.consumer)|, v)
    ensures forall i :: 0 < i < |replies| ==> Answered(v, replies[i])
  {
    var hand, popped := Hand(j.consumer), |j.tally.results| + |Hand(j.consumer)|;
    assert hand[0] == replies[0].item;
    Bounded(j);
    AheadKept(popped, popped, w, v);
    forall i | 0 < i < |replies| ensures Answered(v, replies[i]) {
      assert hand[i] == replies[i].item && Answered(w, replies[i]);
    }
  }

  /** The check after the call: only here does an answer become a verdict. */
  lemma JudgeTraced(j: Job, gate: Gate, me: nat, rpc: Rpc, replies: seq<Reply>, w: Witness)
    requires j.consumer == Judge(replies) && replies != [] && Data(j) && Traced(j, w)
    ensures Traced(ConsumerStep(j, gate, me, rpc).value.0, Seen(w, j, Consume(rpc)))
  {
    var k, v := ConsumerStep(j, gate, me, rpc).value.0, Seen(w, j, Consume(rpc));
    JudgeTells(j, replies, w, v);
    assert Hand(k.consumer) == Hand(j.consumer);
    EarnedKept(j.tally.results, w, v);
    assert Answered(w, replies[0]);
    assert forall i :: 0 <= i < |replies| - 1 ==> replies[1..][i] == replies[i + 1];
  }

  lemma JoinTraced(j: Job, gate: Gate, me: nat, rpc: Rpc, w: Witness)
    requires j.consumer == Join && Data(j) && ShapeInv(j) && Traced(j, w) && ConsumerStep(j, gate, me, rpc).Some?
    ensures Traced(ConsumerStep(j, gate, me, rpc).value.0, w)
  {
    var k := ConsumerStep(j, gate, me, rpc).value.0;
    forall i | 0 <= i < |k.tally.results| ensures Earned(w, k.tally.results[i]) {
      if i >= |j.tally.results| {
        assert k.tally.results[i] == ItemResult(i, Canceled);
        assert Untouched(w, i);
      }
    }
  }

  lemma SendTraced(j: Job, gate: Gate, me: nat, rpc: Rpc, at: SendAt, batch: seq<Entry>, w: Witness)
    requires j.consumer == Send(at, batch) && batch != [] && Data(j) && Traced(j, w)
    requires SendStep(j, gate, me, rpc, at, batch).Some?
    ensures Traced(SendStep(j, gate, me, rpc, at, batch).value.0, Seen(w, j, Consume(rpc)))
  {
    var k := SendStep(j, gate, me, rpc, at, batch).value.0;
    match at
    case AbortRecord => AbortTraced(j, w, batch, k);
    case Calling => CallingTraced(j, gate, me, rpc, batch, w);
    case _ => MovedTraced(j, k, w);
  }

  lemma DecidedTraced(j: Job, r: ItemResult, replies: seq<Reply>, w: Witness)
    requires j.consumer == Decided(r, replies) && Data(j) && Traced(j, w)
    ensures Traced(Record(j, r, if replies == [] then Head else Judge(replies)), w)
  {
    var next := if replies == [] then Head else Judge(replies);
    assert Hand(next) == ReplyItems(replies) && Hand(j.consumer) == [r.item] + Hand(next);
    RecordTraced(j, w, w, r, next, 0);
  }

  /** The steps with no item in hand, and those that only move on. */
  lemma EdgeTraced(j: Job, gate: Gate, me: nat, rpc: Rpc, w: Witness)
    requires j.consumer.Register? || j.consumer.Head? || j.consumer.Drop? || j.consumer.Join? || j.consumer.Finish?
    requires Data(j) && ShapeInv(j) && Traced(j, w) && ConsumerStep(j, gate, me, rpc).Some?
    ensures Traced(ConsumerStep(j, gate, me, rpc).value.0, Seen(w, j, Consume(rpc)))
  {
    match j.consumer
    case Register => RegisterTraced(j, gate, me, rpc, w);
    case Join => JoinTraced(j, gate, me, rpc, w);
    case Head => MovedTraced(j, ConsumerStep(j, gate, me, rpc).value.0, w);
    case Drop(_, _) => MovedTraced(j, ConsumerStep(j, gate, me, rpc).value.0, w);
    case Finish =>
  }

  lemma ConsumeTraced(j: Job, gate: Gate, me: nat, rpc: Rpc, w: Witness)
    requires Data(j) && ShapeInv(j) && Traced(j, w) && ConsumerStep(j, gate, me, rpc).Some?
    ensures Traced(ConsumerStep(j, gate, me, rpc).value.0, Seen(w, j, Consume(rpc)))
  {
    match j.consumer
    case Pop => PopTraced(j, w);
    case Sift(todo, kept) => SiftTraced(j, w, todo, kept);
    case Send(at, batch) => SendTraced(j, gate, me, rpc, at, batch, w);
    case Judge(replies) => JudgeTraced(j, gate, me, rpc, replies, w);
    case Decided(r, replies) => DecidedTraced(j, r, replies, w);
    case _ => EdgeTraced(j, gate, me, rpc, w);
  }

  lemma ActTraced(j: Job, gate: Gate, me: nat, action: Action, w: Witness)
    requires JobInv(j) && Traced(j, w) && Act(j, gate, me, action).Some?
    ensures Traced(Act(j, gate, me, action).value.0, Seen(w, j, action))
  {
    match action
    case Produce(thumb) => ProduceTraced(j, w, thumb);
    case Consume(rpc) => ConsumeTraced(j, gate, me, rpc, w);
    case Cancel => CancelTraced(j, gate, w);
  }

  // ------------------------------------------------------------- whole runs

  /** What a run shows of job i, from a state of which w is known. */
  function Witnessed(w: Witness, s: System, events: seq<Event>, i: nat): Witness
    requires i < |s.jobs| && Run(s, events).Some?
    decreases |events|
  {
    if events == [] then w
    else
      var e := events[0];
      Witnessed(if e.job == i then Seen(w, s.jobs[i], e.action) else w, Next(s, e).value, events[1..], i)
  }

  lemma {:induction false} RunTraced(w: Witness, s: System, events: seq<Event>, i: nat)
    requires SystemInv(s) && i < |s.jobs| && Run(s, events).Some? && Traced(s.jobs[i], w)
    ensures i < |Run(s, events).value.jobs| && Traced(Run(s, events).value.jobs[i], Witnessed(w, s, events, i))
    decreases |events|
  {
    if events != [] {
      var e := events[0];
      assert JobInv(s.jobs[i]);
      StepKeeps(s, e);
      if e.job == i {
        ActTraced(s.jobs[i], s.gate, i, e.action, w);
      }
      RunTraced(if e.job == i then Seen(w, s.jobs[i], e.action) else w, Next(s, e).value, events[1..], i);
    }
  }

  /** What a run from the start shows of job i. */
  function History(orders: seq<Order>, events: seq<Event>, i: nat): Witness
    requires i < |orders| && Run(Initial(orders), events).Some?
  {
    Witnessed(NOTHING, Initial(orders), events, i)
  }

  /**
   In every run each result recorded so far is Analyzed exactly if its item was answered with a
   success and no cancel was stored at the check after the call; Failed exactly if the registration
   or the item's own call threw, or the item could not be prepared and was taken up, or its answer
   was no success and no cancel was stored at the check; and Canceled in every other case, which
   takes a call of `Cancel` or a cancelled thumbnail request.
   */
  lemma VerdictsAreEarned(orders: seq<Order>, events: seq<Event>, i: nat)
    requires i < |orders| && Run(Initial(orders), events).Some?
    ensures i < |Run(Initial(orders), events).value.jobs|
    ensures AllEarned(Run(Initial(orders), events).value.jobs[i].tally.results, History(orders, events, i))
  {
    InitialInv(orders);
    NewJobTraced(orders[i].task, orders[i].n, orders[i].prefetch);
    RunTraced(NOTHING, Initial(orders), events, i);
  }

  /** An event of job i. */
  predicate Happens(events: seq<Event>, i: nat, action: Action) {
    exists k :: 0 <= k < |events| && events[k] == Event(i, action)
  }

  /** A run shows a call of `Cancel`, or a cancelled thumbnail request, only if it has one. */
  lemma {:induction false} CancelsHappen(w: Witness, s: System, events: seq<Event>, i: nat)
    requires i < |s.jobs| && Run(s, events).Some?
    ensures Witnessed(w, s, events, i).cancelled <==> w.cancelled || Happens(events, i, Cancel)
    ensures Witnessed(w, s, events, i).skipped ==> w.skipped || Happens(events, i, Produce(ThumbCanceled))
    decreases |events|
  {
    if events != [] {
      var e, rest := events[0], events[1..];
      assert events == [e] + rest;
      var v := if e.job == i then Seen(w, s.jobs[i], e.action) else w;
      CancelsHappen(v, Next(s, e).value, rest, i);
      HappensLater(e, rest, i, Cancel);
      HappensLater(e, rest, i, Produce(ThumbCanceled));
    }
  }

  lemma HappensLater(e: Event, rest: seq<Event>, i: nat, action: Action)
    ensures Happens([e] + rest, i, action) <==> e == Event(i, action) || Happens(rest, i, action)
  {
    var events := [e] + rest;
    if e == Event(i, action) {
      assert events[0] == Event(i, action);
    }
    if Happens(rest, i, action) {
      var k :| 0 <= k < |rest| && rest[k] == Event(i, action);
      assert events[k + 1] == Event(i, action);
    }
    if Happens(events, i, action) && e != Event(i, action) {
      var k :| 0 <= k < |events| && events[k] == Event(i, action);
      assert rest[k - 1] == Event(i, action);
    }
  }

  // ----------------------------------------------------- undisturbed runs

  /** Nothing goes wrong on the way, and every answer is a success, or none is. */
  predicate Calm(action: Action, ok: bool) {
    match action
    case Cancel => false
    case Produce(thumb) => thumb == ThumbEncoded
    case Consume(rpc) =>
      rpc.Returned? && (ok ==> |rpc.oks| >= BATCH) && forall k :: 0 <= k < |rpc.oks| ==> rpc.oks[k] == ok
  }

  predicate CalmFor(events: seq<Event>, i: nat, ok: bool) {
    forall k :: 0 <= k < |events| && events[k].job == i ==> Calm(events[k].action, ok)
  }

  predicate Clear(w: Witness, ok: bool) {
    && !w.unregistered && !w.cancelled && !w.skipped && w.unusable == {} && w.thrown == {}
    && (if ok then w.no == {} else w.yes == {})
  }

  lemma CalmSeen(w: Witness, j: Job, action: Action, ok: bool)
    requires Clear(w, ok) && Calm(action, ok) && Data(j)
    ensures Clear(Seen(w, j, action), ok)
  {
    if action.Consume? && j.consumer.Send? {
      var batch := j.consumer.batch;
      assert |EntryItems(batch)| <= BATCH;
      assert forall k :: 0 <= k < |batch| ==> Succeeded(batch, action.rpc, k) == ok;
    }
  }

  lemma {:induction false} CalmRun(w: Witness, s: System, events: seq<Event>, i: nat, ok: bool)
    requires SystemInv(s) && i < |s.jobs| && Run(s, events).Some? && Clear(w, ok) && CalmFor(events, i, ok)
    ensures Clear(Witnessed(w, s, events, i), ok)
    decreases |events|
  {
    if events != [] {
      var e, rest := events[0], events[1..];
      assert JobInv(s.jobs[i]);
      assert forall k :: 0 <= k < |rest| ==> rest[k] == events[k + 1];
      if e.job == i {
        CalmSeen(w, s.jobs[i], e.action, ok);
      }
      StepKeeps(s, e);
      CalmRun(if e.job == i then Seen(w, s.jobs[i], e.action) else w, Next(s, e).value, rest, i, ok);
    }
  }

  /**
   A finished job that was not cancelled, with every thumbnail encoded, counts every item as
   analyzed if every answer was a success, and as failed if none was.
   */
  lemma CalmJob(orders: seq<Order>, events: seq<Event>, i: nat, ok: bool)
    requires i < |orders| && Run(Initial(orders), events).Some? && CalmFor(events, i, ok)
    requires i < |Run(Initial(orders), events).value.jobs| && Run(Initial(orders), events).value.jobs[i].consumer == Finished
    ensures var j := Run(Initial(orders), events).value.jobs[i];
            if ok then j.tally.analyzed == j.cfg.n else j.tally.failed == j.cfg.n
  {
    var s := Run(Initial(orders), events).value;
    var results := s.jobs[i].tally.results;
    InitialInv(orders);
    CalmRun(NOTHING, Initial(orders), events, i, ok);
    VerdictsAreEarned(orders, events, i);
    RunKeeps(Initial(orders), events);
    assert JobInv(s.jobs[i]);
    var verdict := if ok then Analyzed else Failed;
    forall k | 0 <= k < |results| ensures results[k].status == verdict {
      assert Earned(History(orders, events, i), results[k]);
    }
    CountUniform(results, verdict);
  }

  // -------------------------------------- cancelled without a call of `Cancel`

  lemma StepOfOne(x: Job, gate: Gate, action: Action, y: Job, rest: seq<Event>)
    requires Act(x, gate, 0, action) == Some((y, gate))
    ensures Run(System([x], gate), [Event(0, action)] + rest) == Run(System([y], gate), rest)
  {
    assert ([Event(0, action)] + rest)[1..] == rest && [x][0 := y] == [y];
  }

  /** The end of the run: the producer has stopped before the only item, and the consumer finds nothing to do. */
  lemma EndsWithoutItem(x: Job)
    requires x == FRESH.(producer := Exited, consumer := Pop)
    ensures var events := [Event(0, Consume(Threw)), Event(0, Consume(Threw)), Event(0, Consume(Threw))];
            Run(System([x], OPEN), events) ==
            Some(System([x.(consumer := Finished, finishedCalls := 1, tally := Tally([ItemResult(0, Canceled)], 0, 0, 1))], OPEN))
  {
    var last := Event(0, Consume(Threw));
    var y := x.(consumer := Join);
    var z := x.(consumer := Finish, tally := Tally([ItemResult(0, Canceled)], 0, 0, 1));
    assert y.tally.results + AllWith(0, 1, Canceled) == [ItemResult(0, Canceled)];
    StepOfOne(x, OPEN, Consume(Threw), y, [last, last]);
    StepOfOne(y, OPEN, Consume(Threw), z, [last]);
    StepOfOne(z, OPEN, Consume(Threw), z.(consumer := Finished, finishedCalls := 1), []);
    assert [last] + [last, last] == [last, last, last] && [last] + [last] == [last, last] && [last] + [] == [last];
  }

  /**
   A result can be Canceled though nobody called `Cancel`: the thumbnail service reports the request
   as cancelled, the producer stops, and the items it has not reached are recorded as cancelled.
   */
  lemma CancelledWithoutCancel() returns (orders: seq<Order>, events: seq<Event>)
    ensures |orders| == 1 && !Happens(events, 0, Cancel) && Run(Initial(orders), events).Some?
    ensures var s := Run(Initial(orders), events).value;
            |s.jobs| == 1 && s.jobs[0].consumer == Finished && s.jobs[0].tally.results == [ItemResult(0, Canceled)]
  {
    orders := [Order(Describe, 1, 1)];
    assert Initial(orders) == System([FRESH], OPEN);
    var j1 := FRESH.(producer := Loop(0), consumer := Head);
    var j2 := j1.(producer := Preparing(0));
    var j3 := j1.(producer := Stopping);
    var j4 := j1.(producer := Exited);
    var e0, e := Event(0, Consume(Returned([]))), Event(0, Consume(Threw));
    var r5 := [e, e, e];
    var r4 := [e] + r5;
    var r3 := [Event(0, Produce(ThumbEncoded))] + r4;
    var r2 := [Event(0, Produce(ThumbCanceled))] + r3;
    var r1 := [Event(0, Produce(ThumbEncoded))] + r2;
    events := [e0] + r1;
    StepOfOne(FRESH, OPEN, Consume(Returned([])), j1, r1);
    StepOfOne(j1, OPEN, Produce(ThumbEncoded), j2, r2);
    StepOfOne(j2, OPEN, Produce(ThumbCanceled), j3, r3);
    StepOfOne(j3, OPEN, Produce(ThumbEncoded), j4, r4);
    StepOfOne(j4, OPEN, Consume(Threw), j4.(consumer := Pop), r5);
    EndsWithoutItem(j4.(consumer := Pop));
  }
}
