/**
 * The asynchronous batch executor (AsyncBatchExecutor) as a single-threaded
 * state machine.  Producers and the worker thread become steps: a producer's
 * `Add`/`Put`, the worker's `Drain` and `Deliver`, and the operator's
 * `Start`, `Flush` and `Stop`.  A call that blocks in the source (a put on a
 * full queue, the polling loop of flush and stop) becomes one attempt that
 * reports whether it could complete; the caller keeps blocking by repeating it.
 *
 * The sink (BatchHandler) is an oracle: its answer to `handle` is the argument
 * of `Deliver`, and every call the executor makes on it is recorded in the
 * ghost log `calls`.
 */
module BatchExecutor {

  /** One call the executor made on its sink: `handle` with the batch it was
      given and the answer it returned, or `done`. */
  datatype SinkCall<T> = Handle(batch: seq<T>, ok: bool) | Done

  /** The queue built from the configured size: bounded by a capacity, or unbounded. */
  datatype QueueBound = Bounded(capacity: nat) | Unbounded

  /** What one call of `Add` did with its item. */
  datatype AddOutcome =
    | Ignored   // the executor was not accepting items (not started, or stopped)
    | Enqueued  // the item is now at the tail of the queue
    | Blocked   // the queue is bounded and full: the producer waits in `Put`

  /** buildQueue: a positive size gives a bounded queue of that capacity,
      anything else an unbounded one. */
  function BuildQueue(queueSize: int): (b: QueueBound)
    ensures b.Bounded? <==> queueSize > 0
    ensures b.Bounded? ==> b.capacity == queueSize
  {
    if queueSize > 0 then Bounded(queueSize) else Unbounded
  }

  function Min(a: int, b: int): int { if a <= b then a else b }

  /** The items of a sequence of batches, in order. */
  function Concat<T>(batches: seq<seq<T>>): seq<T>
  {
    if batches == [] then [] else Concat(batches[..|batches| - 1]) + batches[|batches| - 1]
  }

  /** The batches the sink accepted (its `handle` returned true), in call order. */
  function Delivered<T>(calls: seq<SinkCall<T>>): seq<seq<T>>
  {
    if calls == [] then []
    else
      var last := calls[|calls| - 1];
      Delivered(calls[..|calls| - 1]) + (if last.Handle? && last.ok then [last.batch] else [])
  }

  /** The sink is never handed an empty batch. */
  ghost predicate NoEmptyHandle<T>(calls: seq<SinkCall<T>>)
  {
    forall i :: 0 <= i < |calls| && calls[i].Handle? ==> calls[i].batch != []
  }

  /** No batch handed to the sink holds more than `batchSize` items. */
  ghost predicate BatchesWithin<T>(calls: seq<SinkCall<T>>, batchSize: nat)
  {
    forall i :: 0 <= i < |calls| && calls[i].Handle? ==> |calls[i].batch| <= batchSize
  }

  /** A `handle` that answered false is followed by a `handle` of the identical batch. */
  ghost predicate RetriesExact<T>(calls: seq<SinkCall<T>>)
  {
    forall i :: 0 <= i < |calls| - 1 && calls[i].Handle? && !calls[i].ok ==>
      calls[i + 1].Handle? && calls[i + 1].batch == calls[i].batch
  }

  /** What the call log guarantees, given the batch the worker holds now. */
  ghost predicate LogInvariant<T>(calls: seq<SinkCall<T>>, messages: seq<T>, batchSize: nat)
  {
    && NoEmptyHandle(calls)
    && BatchesWithin(calls, batchSize)
    && RetriesExact(calls)
    // after a failed handle the worker still holds exactly that batch
    && (calls != [] && calls[|calls| - 1].Handle? && !calls[|calls| - 1].ok ==>
          messages == calls[|calls| - 1].batch)
  }

  lemma DeliveredSnoc<T>(calls: seq<SinkCall<T>>, c: SinkCall<T>)
    ensures Delivered(calls + [c]) == Delivered(calls) + (if c.Handle? && c.ok then [c.batch] else [])
  {
    assert (calls + [c])[..|calls|] == calls;
  }

  lemma ConcatSnoc<T>(batches: seq<seq<T>>, b: seq<T>)
    ensures Concat(batches + [b]) == Concat(batches) + b
  {
    assert (batches + [b])[..|batches|] == batches;
  }

  /** Delivering the worker's batch keeps the FIFO equation: on success the
      batch moves to the delivered ones, on a refusal it stays where it was. */
  lemma FifoAfterHandle<T>(calls: seq<SinkCall<T>>, messages: seq<T>, queue: seq<T>, added: seq<T>, ok: bool)
    requires Concat(Delivered(calls)) + messages + queue == added
    ensures Concat(Delivered(calls + [Handle(messages, ok)])) + (if ok then [] else messages) + queue == added
  {
    DeliveredSnoc(calls, Handle(messages, ok));
    if ok {
      assert Delivered(calls + [Handle(messages, ok)]) == Delivered(calls) + [messages];
      ConcatSnoc(Delivered(calls), messages);
      assert Concat(Delivered(calls) + [messages]) + [] + queue == Concat(Delivered(calls)) + messages + queue;
    } else {
      assert Delivered(calls + [Handle(messages, ok)]) == Delivered(calls);
    }
  }

  /** A handle of the batch the worker holds keeps the log invariant; the batch
      is kept on a refusal and emptied on success. */
  lemma {:induction false} LogAfterHandle<T>(calls: seq<SinkCall<T>>, messages: seq<T>, ok: bool, batchSize: nat)
    requires LogInvariant(calls, messages, batchSize)
    requires messages != [] && |messages| <= batchSize
    ensures LogInvariant(calls + [Handle(messages, ok)], if ok then [] else messages, batchSize)
  {
    var calls' := calls + [Handle(messages, ok)];
    forall i | 0 <= i < |calls'| - 1 && calls'[i].Handle? && !calls'[i].ok
      ensures calls'[i + 1].Handle? && calls'[i + 1].batch == calls'[i].batch
    {
      if i < |calls| - 1 {
        assert calls'[i] == calls[i] && calls'[i + 1] == calls[i + 1];
      }
    }
    forall i | 0 <= i < |calls'| && calls'[i].Handle?
      ensures calls'[i].batch != [] && |calls'[i].batch| <= batchSize
    {
      if i < |calls| {
        assert calls'[i] == calls[i];
      }
    }
  }

  /** With an empty batch, the last call was no refusal; so `done` may follow,
      and the worker may fill its batch, without breaking the log invariant. */
  lemma {:induction false} LogWhileIdle<T>(calls: seq<SinkCall<T>>, messages: seq<T>, batchSize: nat)
    requires LogInvariant(calls, [], batchSize)
    ensures LogInvariant(calls + [Done], [], batchSize)
    ensures LogInvariant(calls, messages, batchSize)
  {
    var calls' := calls + [Done];
    if calls != [] && calls[|calls| - 1].Handle? {
      assert calls[|calls| - 1].batch != [];
    }
    forall i | 0 <= i < |calls'| - 1
      ensures calls'[i].Handle? && !calls'[i].ok ==>
        calls'[i + 1].Handle? && calls'[i + 1].batch == calls'[i].batch
    {
      assert calls'[i] == calls[i];
      if i < |calls| - 1 {
        assert calls'[i + 1] == calls[i + 1];
      }
    }
    forall i | 0 <= i < |calls'| && calls'[i].Handle?
      ensures calls'[i].batch != [] && |calls'[i].batch| <= batchSize
    {
      assert calls'[i] == calls[i];
    }
  }

  /** Every batch the sink accepted is non-empty and holds at most `batchSize` items. */
  lemma {:induction false} DeliveredBatchesBounded<T>(calls: seq<SinkCall<T>>, batchSize: nat)
    requires NoEmptyHandle(calls) && BatchesWithin(calls, batchSize)
    ensures forall j :: 0 <= j < |Delivered(calls)| ==> 0 < |Delivered(calls)[j]| <= batchSize
  {
    if calls != [] {
      var init := calls[..|calls| - 1];
      assert NoEmptyHandle(init) && BatchesWithin(init, batchSize) by {
        forall i | 0 <= i < |init| ensures init[i] == calls[i] { }
      }
      DeliveredBatchesBounded(init, batchSize);
    }
  }

  /** Once a queue and batch have been flushed, everything accepted has been
      delivered, in the order it was accepted. */
  lemma FlushedMeansDelivered<T>(e: AsyncBatchExecutor<T>)
    requires e.Valid() && e.queue == [] && e.messages == []
    ensures Concat(Delivered(e.calls)) == e.added
  {
  }

  /** The facts about the fill ratio of a queue holding `size` items out of a
      configured `capacity`. */
  lemma RatioOfCapacity(size: nat, capacity: int)
    requires capacity != 0
    requires capacity > 0 ==> size <= capacity
    ensures (size as real) / (capacity as real) * (capacity as real) == size as real
    ensures capacity > 0 ==> 0.0 <= (size as real) / (capacity as real) <= 1.0
    ensures capacity > 0 ==> ((size as real) / (capacity as real) == 1.0 <==> size == capacity)
  {
  }

  class AsyncBatchExecutor<T> {
    /** Most items one drain moves into the batch. */
    const batchSize: nat
    /** The configured queue size; 0 (or less) means unbounded. */
    const queueSize: int
    /** The kind of queue buildQueue made from `queueSize`. */
    const queueBound: QueueBound

    /** Items waiting in the queue, head first. */
    var queue: seq<T>
    /** The worker's batch (`messages`). */
    var messages: seq<T>
    /** Whether `Add` accepts items. */
    var append: bool
    /** The worker's running flag. */
    var running: bool
    /** Whether the worker thread has been started. */
    var started: bool

    /** Every item the queue accepted, in order. */
    ghost var added: seq<T>
    /** Every call made on the sink, in order. */
    ghost var calls: seq<SinkCall<T>>

    ghost predicate Valid()
      reads this
    {
      && queueBound == BuildQueue(queueSize)
      && (queueBound.Bounded? ==> |queue| <= queueBound.capacity)
      && |messages| <= batchSize
      && (append ==> started)
      && (!started ==> added == [])
      && (!running ==> messages == [])
      // FIFO: delivered batches, then the batch, then the queue spell out the accepted items
      && Concat(Delivered(calls)) + messages + queue == added
      && LogInvariant(calls, messages, batchSize)
    }

    constructor (batchSize: nat, queueSize: int)
      ensures Valid()
      ensures this.batchSize == batchSize && this.queueSize == queueSize
      ensures MaxQueueSize() == queueSize && QueueSize() == 0
      ensures queue == [] && messages == []
      ensures !append && running && !started
      ensures added == [] && calls == []
    {
      this.batchSize := batchSize;
      this.queueSize := queueSize;
      queueBound := BuildQueue(queueSize);
      queue, messages := [], [];
      append, running, started := false, true, false;
      added, calls := [], [];
    }

    /** createAndStart: a new executor whose worker has been started. */
    static method CreateAndStart(batchSize: nat, queueSize: int) returns (e: AsyncBatchExecutor<T>)
      ensures fresh(e) && e.Valid()
      ensures e.batchSize == batchSize && e.queueSize == queueSize
      ensures e.queue == [] && e.messages == []
      ensures e.append && e.running && e.started
      ensures e.added == [] && e.calls == []
    {
      e := new AsyncBatchExecutor(batchSize, queueSize);
      var _ := e.Start();
    }

    function MaxQueueSize(): (n: int)
      ensures n == queueSize
    {
      queueSize
    }

    /** The number of items waiting in the queue; never above a bounded queue's capacity. */
    function QueueSize(): (n: nat)
      reads this
      requires Valid()
      ensures n == |queue|
      ensures queueSize > 0 ==> n <= queueSize
    {
      |queue|
    }

    /** getQueueFillFraction, as an exact ratio: 0 when the configured size is 0,
        otherwise the queue size divided by the configured size. */
    function QueueFillFraction(): (f: real)
      reads this
      requires Valid()
      ensures queueSize == 0 ==> f == 0.0
      ensures queueSize != 0 ==> f * (queueSize as real) == |queue| as real
      ensures queueSize > 0 ==> 0.0 <= f <= 1.0
      ensures queueSize > 0 ==> (f == 1.0 <==> |queue| == queueSize)
    {
      if queueSize == 0 then 0.0
      else
        RatioOfCapacity(|queue|, queueSize);
        (|queue| as real) / (queueSize as real)
    }

    /** start: launches the worker and starts accepting items.  Starting a thread
        a second time fails (IllegalThreadStateException) before `append` is set. */
    method Start() returns (ok: bool)
      requires Valid()
      modifies this
      ensures Valid()
      ensures ok <==> !old(started)
      ensures ok ==> started && append
      ensures !ok ==> append == old(append)
      ensures started
      ensures queue == old(queue) && messages == old(messages) && running == old(running)
      ensures added == old(added) && calls == old(calls)
    {
      if started {
        ok := false;
      } else {
        started := true;
        append := true;
        ok := true;
      }
    }

    /** queue.put, one attempt: on a bounded, full queue the item is not placed
        and the producer stays blocked. */
    method Put(x: T) returns (placed: bool)
      requires Valid() && started
      modifies this
      ensures Valid()
      ensures placed <==> (queueBound.Unbounded? || |old(queue)| < queueBound.capacity)
      ensures queue == (if placed then old(queue) + [x] else old(queue))
      ensures added == (if placed then old(added) + [x] else old(added))
      ensures messages == old(messages) && append == old(append)
      ensures running == old(running) && started == old(started) && calls == old(calls)
    {
      placed := queueBound.Unbounded? || |queue| < queueBound.capacity;
      if placed {
        queue := queue + [x];
        added := added + [x];
      }
    }

    /** add: nothing happens unless the executor accepts items; otherwise the
        item goes to the tail of the queue, or the producer blocks on a full one. */
    method Add(x: T) returns (r: AddOutcome)
      requires Valid()
      modifies this
      ensures Valid()
      ensures r == Ignored <==> !append
      ensures r == Blocked <==> append && queueBound.Bounded? && |old(queue)| == queueBound.capacity
      ensures queue == (if r == Enqueued then old(queue) + [x] else old(queue))
      ensures added == (if r == Enqueued then old(added) + [x] else old(added))
      ensures messages == old(messages) && append == old(append)
      ensures running == old(running) && started == old(started) && calls == old(calls)
    {
      if !append {
        r := Ignored;
      } else {
        var placed := Put(x);
        r := if placed then Enqueued else Blocked;
      }
    }

    /** One drain of the worker loop, from an empty batch: moves up to
        `batchSize` items from the head of the queue into the batch.  `budget`
        is how many items arrived before the drain time ran out. */
    method Drain(budget: nat) returns (moved: nat)
      requires Valid() && started && running && messages == []
      modifies this
      ensures Valid()
      ensures moved <= budget && moved <= batchSize && moved <= |old(queue)|
      ensures moved == budget || moved == batchSize || moved == |old(queue)|
      ensures messages == old(queue)[..moved] && queue == old(queue)[moved..]
      ensures append == old(append) && running == old(running) && started == old(started)
      ensures added == old(added) && calls == old(calls)
    {
      moved := Min(Min(budget, batchSize), |queue|);
      assert queue[..moved] + queue[moved..] == queue;
      LogWhileIdle(calls, queue[..moved], batchSize);
      messages := queue[..moved];
      queue := queue[moved..];
    }

    /** One delivery attempt of a non-empty batch; `ok` is the sink's answer.
        The batch is cleared only when the sink accepted it, and is otherwise
        kept unchanged for the next attempt. */
    method Deliver(ok: bool)
      requires Valid() && messages != []
      modifies this
      ensures Valid()
      ensures calls == old(calls) + [Handle(old(messages), ok)]
      ensures messages == (if ok then [] else old(messages))
      ensures Delivered(calls) == Delivered(old(calls)) + (if ok then [old(messages)] else [])
      ensures queue == old(queue) && append == old(append) && running == old(running)
      ensures started == old(started) && added == old(added)
    {
      LogAfterHandle(calls, messages, ok, batchSize);
      FifoAfterHandle(calls, messages, queue, added, ok);
      DeliveredSnoc(calls, Handle(messages, ok));
      calls := calls + [Handle(messages, ok)];
      if ok {
        messages := [];
      }
    }

    /** flush, one poll: it returns at once when the worker no longer runs,
        and otherwise only once both the queue and the batch are empty. */
    method Flush() returns (returned: bool)
      requires Valid()
      ensures returned <==> !running || (queue == [] && messages == [])
      ensures returned && running ==> Concat(Delivered(calls)) == added
    {
      returned := !running || (queue == [] && messages == []);
    }

    /** stop, one poll: stops accepting items; once the flush would return,
        halts the worker and calls the sink's `done`. */
    method Stop() returns (finished: bool)
      requires Valid()
      modifies this
      ensures Valid()
      ensures !append
      ensures finished <==> !old(running) || (old(queue) == [] && old(messages) == [])
      ensures finished ==> !running && calls == old(calls) + [Done]
      ensures !finished ==> running == old(running) && calls == old(calls)
      ensures queue == old(queue) && messages == old(messages)
      ensures started == old(started) && added == old(added)
    {
      append := false;
      if !running || (queue == [] && messages == []) {
        LogWhileIdle(calls, [], batchSize);
        DeliveredSnoc(calls, Done);
        assert Delivered(calls + [Done]) == Delivered(calls);
        running := false;
        calls := calls + [Done];
        finished := true;
      } else {
        finished := false;
      }
    }
  }

  /** A fresh executor of capacity 3 whose worker holds the first item in its
      batch: after one, two and three more items the fill fraction is 1/3, 2/3 and 1. */
  method FillFractionScenario() returns (f1: real, f2: real, f3: real)
    ensures f1 == 1.0 / 3.0 && f2 == 2.0 / 3.0 && f3 == 1.0
  {
    var e := new AsyncBatchExecutor<string>(1, 3);
    var _ := e.Start();
    var r := e.Add("bla");
    var _ := e.Drain(1);
    r := e.Add("bla");
    f1 := e.QueueFillFraction();
    r := e.Add("bla");
    f2 := e.QueueFillFraction();
    r := e.Add("bla");
    f3 := e.QueueFillFraction();
  }

  /** An executor that was never started ignores items, flushes at once and stops at once. */
  method NotStartedScenario() returns (outcome: AddOutcome, size: nat, flushed: bool, stopped: bool)
    ensures outcome == Ignored && size == 0 && flushed && stopped
  {
    var e := new AsyncBatchExecutor<string>(1, 1);
    outcome := e.Add("bla");
    size := e.QueueSize();
    flushed := e.Flush();
    stopped := e.Stop();
  }

  /** With a sink that refuses, flush does not return; once the sink accepts, it does. */
  method FlushScenario() returns (whileFailing: bool, afterSuccess: bool)
    ensures !whileFailing && afterSuccess
  {
    var e := AsyncBatchExecutor<string>.CreateAndStart(1, 1);
    var r := e.Add("bla");
    var _ := e.Drain(1);
    e.Deliver(false);
    whileFailing := e.Flush();
    e.Deliver(true);
    afterSuccess := e.Flush();
  }

  /** Capacity 1 and a refusing sink: the first item sits in the batch, the
      second fills the queue, and the third blocks until the sink accepts and
      the worker drains again. */
  method BackpressureScenario() returns (first: AddOutcome, second: AddOutcome, third: AddOutcome, retried: bool)
    ensures first == Enqueued && second == Enqueued && third == Blocked && retried
  {
    var e := AsyncBatchExecutor<string>.CreateAndStart(1, 1);
    first := e.Add("bla");
    var _ := e.Drain(1);
    e.Deliver(false);
    assert e.queue == [] && e.messages == ["bla"];
    second := e.Add("bla1");
    assert e.queue == ["bla1"];
    third := e.Add("bla2");
    e.Deliver(true);
    assert e.queue == ["bla1"] && e.messages == [];
    var _ := e.Drain(1);
    assert e.queue == [];
    retried := e.Put("bla2");
  }
}
