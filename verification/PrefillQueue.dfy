/**
 The bounded ready queue between the two threads of a job, as the object the program has.
 A method is one critical section; where the program would keep waiting it answers so.
 */
module PrefillQueues {
  import opened AnalysisJob

  datatype PushOutcome = Pushed | Refused | Full
  datatype PopOutcome = Waiting | Batch(entries: seq<Entry>)

  class PrefillQueue {
    var items: seq<Entry>
    var producerDone: bool
    const capacity: nat

    constructor (requested: nat)
      ensures items == [] && !producerDone
      ensures capacity == if requested == 0 then 1 else requested
    {
      items, producerDone := [], false;
      capacity := if requested == 0 then 1 else requested;
    }

    /** Agrees with the step of a producer that is pushing. */
    method Push(e: Entry, isCanceled: bool) returns (r: PushOutcome)
      modifies this`items
      ensures r == Pushed ==> items == old(items) + [e]
      ensures r != Pushed ==> items == old(items)
      ensures old(|items|) <= capacity ==> |items| <= capacity
      ensures forall j: Job ::
                j.queue == old(items) && j.isCanceled == isCanceled && j.cfg.capacity == capacity
                && j.producer == Pushing(e.item, e.prepFailed) ==>
                  var k := ProducerStep(j, ThumbEncoded);
                  && (r == Full <==> k.None?)
                  && (k.Some? ==> k.value.queue == items && (r == Refused <==> k.value.producer == Stopping))
    {
      if |items| >= capacity && !isCanceled {
        return Full;
      }
      if isCanceled {
        return Refused;
      }
      items := items + [e];
      return Pushed;
    }

    /** Takes the first entry; agrees with the step of a describing or scoring consumer that pops. */
    method Pop(isCanceled: bool) returns (r: PopOutcome)
      modifies this`items
      ensures r == Waiting ==> items == old(items)
      ensures r.Batch? ==> r.entries + items == old(items)
      ensures forall j: Job ::
                j.queue == old(items) && j.isCanceled == isCanceled && BatchSize(j.cfg.task) == 1
                && (j.producer == Exited <==> producerDone) ==>
                  match PopStep(j)
                  case None => r == Waiting
                  case Some(k) => k.queue == items && r.Batch?
                                  && k.consumer == (if r.entries == [] then Join else Sift(r.entries, []))
    {
      if items == [] && !producerDone && !isCanceled {
        return Waiting;
      }
      if isCanceled {
        return Batch([]);
      }
      if items == [] {
        return Batch([]);
      }
      r := Batch([items[0]]);
      items := items[1..];
    }

    /** Takes the first entries, at most `max`, in order; agrees with the step of a consumer that pops. */
    method PopBatch(max: nat, isCanceled: bool) returns (r: PopOutcome)
      modifies this`items
      ensures r == Waiting ==> items == old(items)
      ensures r.Batch? ==> r.entries + items == old(items)
      ensures max > 0 ==> forall j: Job ::
                j.queue == old(items) && j.isCanceled == isCanceled && BatchSize(j.cfg.task) == max
                && (j.producer == Exited <==> producerDone) ==>
                  match PopStep(j)
                  case None => r == Waiting
                  case Some(k) => k.queue == items && r.Batch?
                                  && k.consumer == (if r.entries == [] then Join else Sift(r.entries, []))
    {
      if max == 0 {
        return Batch([]);
      }
      if items == [] && !producerDone && !isCanceled {
        return Waiting;
      }
      if |items| < max && !producerDone && !isCanceled {
        return Waiting;
      }
      if isCanceled || items == [] {
        return Batch([]);
      }
      var count := if max < |items| then max else |items|;
      var batch := [];
      var i := 0;
      while i < count
        invariant i <= count
        invariant batch == old(items)[..i] && items == old(items)[i..]
      {
        batch := batch + [items[0]];
        items := items[1..];
        i := i + 1;
      }
      return Batch(batch);
    }

    method MarkProducerDone()
      modifies this`producerDone
      ensures producerDone
    {
      producerDone := true;
    }
  }
}
