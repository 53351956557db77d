/** The event bus: a bounded queue that drops what does not fit. */
module MessageBus {
  import opened Numbers

  /** A run of the bus, as its users see it. */
  datatype Op<E> = Publish(event: E) | Consume(batchSize: int)

  datatype Tally<E> = Tally(queue: seq<E>, accepted: seq<E>, consumed: seq<E>, dropped: nat)

  /** How many events a batch takes. */
  function Taken(batchSize: int, queued: nat): nat {
    if batchSize < 0 then 0 else Min(batchSize, queued)
  }

  function After<E>(capacity: nat, t: Tally<E>, op: Op<E>): Tally<E> {
    match op
    case Publish(event) =>
      if |t.queue| < capacity then t.(queue := t.queue + [event], accepted := t.accepted + [event])
      else t.(dropped := t.dropped + 1)
    case Consume(batchSize) =>
      var n := Taken(batchSize, |t.queue|);
      t.(queue := t.queue[n..], consumed := t.consumed + t.queue[..n])
  }

  function Run<E>(capacity: nat, ops: seq<Op<E>>): Tally<E> {
    if ops == [] then Tally([], [], [], 0)
    else After(capacity, Run(capacity, ops[..|ops| - 1]), ops[|ops| - 1])
  }

  ghost function Published<E>(ops: seq<Op<E>>): nat {
    if ops == [] then 0 else Published(ops[..|ops| - 1]) + if ops[|ops| - 1].Publish? then 1 else 0
  }

  /** First in, first out, nothing lost or doubled: over any run the consumed events followed by the queued
      ones are the accepted ones in their order, every published event was accepted or dropped, and the queue
      keeps within its capacity. */
  lemma {:induction false} FifoConservation<E>(capacity: nat, ops: seq<Op<E>>)
    ensures
      var t := Run(capacity, ops);
      && t.consumed + t.queue == t.accepted
      && |t.accepted| + t.dropped == Published(ops)
      && |t.queue| <= capacity
    decreases |ops|
  {
    if ops != [] {
      var before := ops[..|ops| - 1];
      FifoConservation(capacity, before);
      var t := Run(capacity, before);
      match ops[|ops| - 1]
      case Publish(event) =>
        assert t.consumed + (t.queue + [event]) == t.consumed + t.queue + [event];
      case Consume(batchSize) =>
        var n := Taken(batchSize, |t.queue|);
        assert t.consumed + t.queue[..n] + t.queue[n..] == t.consumed + (t.queue[..n] + t.queue[n..]);
        assert t.queue[..n] + t.queue[n..] == t.queue;
    }
  }

  /** An event is dropped only when the queue is full of events accepted and not yet consumed. */
  lemma DropsOnlyWhenFull<E>(capacity: nat, ops: seq<Op<E>>, event: E)
    ensures
      var t := Run(capacity, ops);
      Run(capacity, ops + [Publish(event)]).dropped == t.dropped + 1 <==> |t.accepted| - |t.consumed| == capacity
  {
    FifoConservation(capacity, ops);
    var t := Run(capacity, ops);
    assert |t.consumed + t.queue| == |t.consumed| + |t.queue|;
    assert (ops + [Publish(event)])[..|ops|] == ops;
  }

  /** A batch takes exactly the oldest events, as many as it asks for or as there are, and appends them to what
      was consumed; the rest stay queued in order. */
  lemma BatchTakesTheOldest<E>(capacity: nat, ops: seq<Op<E>>, batchSize: int)
    ensures
      var t, after := Run(capacity, ops), Run(capacity, ops + [Consume(batchSize)]);
      var n: nat := if batchSize < 0 then 0 else if batchSize < |t.queue| then batchSize else |t.queue|;
      && after.consumed == t.consumed + t.queue[..n] && after.queue == t.queue[n..]
      && |after.consumed| == |t.consumed| + n
      && after.accepted == t.accepted && after.dropped == t.dropped
  {
    assert (ops + [Consume(batchSize)])[..|ops|] == ops;
  }

  /** Asking again and again empties the queue: batches of one or more, as many as there are queued events. */
  lemma {:induction false} BatchesDrainTheQueue<E>(capacity: nat, ops: seq<Op<E>>, batches: seq<Op<E>>)
    requires forall b :: b in batches ==> b.Consume? && b.batchSize >= 1
    ensures
      var t, after := Run(capacity, ops), Run(capacity, ops + batches);
      && |after.queue| <= (if |batches| < |t.queue| then |t.queue| - |batches| else 0)
      && after.accepted == t.accepted
    decreases |batches|
  {
    if batches == [] {
      assert ops + batches == ops;
    } else {
      var init, last := batches[..|batches| - 1], batches[|batches| - 1];
      BatchesDrainTheQueue(capacity, ops, init);
      assert ops + batches == (ops + init) + [last];
      BatchTakesTheOldest(capacity, ops + init, last.batchSize);
    }
  }

  class KafkaEmulator<E> {
    const maxCap: nat
    var topic: seq<E>
    ghost var tally: Tally<E>  // what happened so far

    ghost predicate Valid()
      reads this
    {
      tally.queue == topic
    }

    constructor (capacity: nat)
      ensures Valid() && maxCap == capacity && tally == Tally([], [], [], 0)
    {
      maxCap, topic, tally := capacity, [], Tally([], [], [], 0);
    }

    method Publish(event: E) returns (accepted: bool)
      requires Valid()
      modifies this
      ensures Valid() && tally == After(maxCap, old(tally), Op.Publish(event))
      ensures accepted <==> |old(topic)| < maxCap
    {
      tally := After(maxCap, tally, Op.Publish(event));
      if |topic| < maxCap {
        topic := topic + [event];
        return true;
      }
      return false;
    }

    /** A batch is the oldest events in order, as many as asked for or as there are. */
    method ConsumeBatch(batchSize: int) returns (batch: seq<E>)
      requires Valid()
      modifies this
      ensures Valid() && tally == After(maxCap, old(tally), Consume(batchSize))
      ensures |batch| == if batchSize < 0 then 0 else if batchSize < |old(topic)| then batchSize else |old(topic)|
      ensures batch + topic == old(topic)
    {
      tally := After(maxCap, tally, Consume(batchSize));
      batch := [];
      var i := 0;
      while i < batchSize
        invariant 0 <= i <= |old(topic)| && i <= Taken(batchSize, |old(topic)|)
        invariant batch == old(topic)[..i] && topic == old(topic)[i..]
        invariant tally == After(maxCap, old(tally), Consume(batchSize))
      {
        if topic == [] {
          return;
        }
        batch := batch + [topic[0]];
        topic := topic[1..];
        i := i + 1;
      }
    }
  }
}
