/**
 * Ordered stdout streaming (pkg/worker/stdout_batcher.go). Every flush spawns a sender that
 * waits on a gate its predecessor closes. Each function below is one atomic step: a critical
 * section under the batcher's mutex, or one action of a sender goroutine.
 */
module StdoutSpec {
  import opened ByteStrings
  import opened Options

  type Failure = string

  /** Waiting for the gate, inside the send, failed but not yet recorded, about to close its own
      gate, about to leave the wait group, gone. */
  datatype Phase = Waiting | Sending | Recording | Closing | Exiting | Done

  datatype Outcome = Unknown | Delivered | Refused(error: Failure)

  /** A sender goroutine: it receives from gate prev and closes gate next. */
  datatype Sender = Sender(chunk: Bytes, prev: nat, next: nat, phase: Phase, outcome: Outcome)

  /** gates counts the channels made so far and closed holds the closed ones; running is the wait
      group; log lists the payloads in the order they were passed to SendStdoutChunk; accepted is
      every byte Add has taken in. */
  datatype Batcher = Batcher(
    batchSize: nat,
    pending: seq<Bytes>,
    senders: seq<Sender>,
    prevSend: nat,
    gates: nat,
    closed: set<nat>,
    running: int,
    sendErr: Option<Failure>,
    cancelled: bool,
    log: seq<Bytes>,
    accepted: Bytes)

  function Fresh(batchSize: nat): Batcher {
    Batcher(batchSize, [], [], 0, 1, {0}, 0, None, false, [], [])
  }

  function Concat(chunks: seq<Bytes>): Bytes {
    if chunks == [] then [] else Concat(chunks[..|chunks| - 1]) + chunks[|chunks| - 1]
  }

  function Flushed(b: Batcher): Batcher {
    if b.pending == [] then b
    else
      b.(senders := b.senders + [Sender(Concat(b.pending), b.prevSend, b.gates, Waiting, Unknown)],
         prevSend := b.gates, gates := b.gates + 1, running := b.running + 1, pending := [])
  }

  function Added(b: Batcher, chunk: Bytes): Batcher {
    if b.cancelled then b
    else
      var c := b.(pending := b.pending + [chunk], accepted := b.accepted + chunk);
      if |c.pending| >= b.batchSize then Flushed(c) else c
  }

  function TimerFired(b: Batcher): Batcher { if b.cancelled then b else Flushed(b) }

  function Cancelled(b: Batcher): Batcher { b.(cancelled := true) }

  predicate At(b: Batcher, k: nat, phase: Phase) { k < |b.senders| && b.senders[k].phase == phase }

  function WithSender(b: Batcher, k: nat, s: Sender): Batcher
    requires k < |b.senders|
  {
    b.(senders := b.senders[k := s])
  }

  /** A receive from an open channel blocks, so nothing happens before the gate is closed. */
  function Received(b: Batcher, k: nat): Batcher {
    if At(b, k, Waiting) && b.senders[k].prev in b.closed
    then WithSender(b, k, b.senders[k].(phase := Sending)).(log := b.log + [b.senders[k].chunk])
    else b
  }

  function Returned(b: Batcher, k: nat, error: Option<Failure>): Batcher {
    if !At(b, k, Sending) then b
    else
      match error
      case None => WithSender(b, k, b.senders[k].(phase := Closing, outcome := Delivered))
      case Some(e) => WithSender(b, k, b.senders[k].(phase := Recording, outcome := Refused(e)))
  }

  function Recorded(b: Batcher, k: nat): Batcher {
    if At(b, k, Recording) && b.senders[k].outcome.Refused?
    then WithSender(b, k, b.senders[k].(phase := Closing))
         .(sendErr := if b.sendErr.None? then Some(b.senders[k].outcome.error) else b.sendErr)
    else b
  }

  function GateClosed(b: Batcher, k: nat): Batcher {
    if At(b, k, Closing)
    then WithSender(b, k, b.senders[k].(phase := Exiting)).(closed := b.closed + {b.senders[k].next})
    else b
  }

  function Exited(b: Batcher, k: nat): Batcher {
    if At(b, k, Exiting)
    then WithSender(b, k, b.senders[k].(phase := Done)).(running := b.running - 1)
    else b
  }
}

module StdoutBatchers {
  import opened ByteStrings
  import opened Options
  import opened StdoutSpec

  class StdoutBatcher {
    const batchSize: nat
    var chunks: seq<Bytes>
    var senders: seq<Sender>
    var prevSend: nat
    var gates: nat
    var closed: set<nat>
    var running: int
    var sendErr: Option<Failure>
    var cancelled: bool
    ghost var log: seq<Bytes>
    ghost var accepted: Bytes

    ghost function State(): Batcher
      reads this
    {
      Batcher(batchSize, chunks, senders, prevSend, gates, closed, running, sendErr, cancelled, log, accepted)
    }

    constructor (batchSize: nat)
      ensures State() == Fresh(batchSize)
    {
      this.batchSize := batchSize;
      chunks, senders, prevSend, gates, closed := [], [], 0, 1, {0};
      running, sendErr, cancelled, log, accepted := 0, None, false, [], [];
    }

    method Add(chunk: Bytes)
      modifies this
      ensures State() == Added(old(State()), chunk)
    {
      if cancelled { return; }
      chunks := chunks + [chunk];
      accepted := accepted + chunk;
      if |chunks| >= batchSize {
        FlushLocked();
      }
    }

    method TimedFlush()
      modifies this
      ensures State() == TimerFired(old(State()))
    {
      if cancelled { return; }
      if |chunks| > 0 {
        FlushLocked();
      }
    }

    method FlushLocked()
      modifies this
      ensures State() == Flushed(old(State()))
    {
      if |chunks| == 0 { return; }
      var combined: Bytes := [];
      for i := 0 to |chunks|
        invariant combined == Concat(chunks[..i])
      {
        assert chunks[..i + 1][..i] == chunks[..i];
        combined := combined + chunks[i];
      }
      assert chunks[..|chunks|] == chunks;
      var prev := prevSend;
      var next := gates;
      gates := gates + 1;
      prevSend := next;
      running := running + 1;
      senders := senders + [Sender(combined, prev, next, Waiting, Unknown)];
      chunks := [];
    }

    method Flush()
      modifies this
      ensures State() == Flushed(old(State()))
    {
      FlushLocked();
    }

    method Cancel()
      modifies `cancelled
      ensures State() == Cancelled(old(State()))
    {
      cancelled := true;
    }

    /** Sender k's receive from its predecessor's gate, once that gate is closed. */
    method Receive(k: nat)
      modifies this
      ensures State() == Received(old(State()), k)
    {
      if k < |senders| && senders[k].phase == Waiting && senders[k].prev in closed {
        log := log + [senders[k].chunk];
        senders := senders[k := senders[k].(phase := Sending)];
      }
    }

    /** Sender k's call returns with the given error. */
    method Return(k: nat, error: Option<Failure>)
      modifies `senders
      ensures State() == Returned(old(State()), k, error)
    {
      if k < |senders| && senders[k].phase == Sending {
        if error.None? {
          senders := senders[k := senders[k].(phase := Closing, outcome := Delivered)];
        } else {
          senders := senders[k := senders[k].(phase := Recording, outcome := Refused(error.value))];
        }
      }
    }

    /** Sender k records its failure under the mutex; only the first failure is kept. */
    method Record(k: nat)
      modifies `senders, `sendErr
      ensures State() == Recorded(old(State()), k)
    {
      if k < |senders| && senders[k].phase == Recording && senders[k].outcome.Refused? {
        if sendErr.None? {
          sendErr := Some(senders[k].outcome.error);
        }
        senders := senders[k := senders[k].(phase := Closing)];
      }
    }

    method CloseGate(k: nat)
      modifies `senders, `closed
      ensures State() == GateClosed(old(State()), k)
    {
      if k < |senders| && senders[k].phase == Closing {
        closed := closed + {senders[k].next};
        senders := senders[k := senders[k].(phase := Exiting)];
      }
    }

    method Exit(k: nat)
      modifies `senders, `running
      ensures State() == Exited(old(State()), k)
    {
      if k < |senders| && senders[k].phase == Exiting {
        running := running - 1;
        senders := senders[k := senders[k].(phase := Done)];
      }
    }
  }
}
