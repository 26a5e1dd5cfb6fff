/**
 * The streaming protocol over every interleaving: in-order delivery, no overlap, no deadlock,
 * and what a returned FlushAndWait or Close promises.
 */
module StdoutRuns {
  import opened ByteStrings
  import opened Options
  import opened StdoutSpec

  // ----- the invariant

  /** The sender's gate is closed. */
  predicate Through(s: Sender) { s.phase == Exiting || s.phase == Done }

  predicate Failed(s: Sender) { s.outcome.Refused? && s.phase != Recording }

  function Payload(ss: seq<Sender>): Bytes {
    if ss == [] then [] else Payload(ss[..|ss| - 1]) + ss[|ss| - 1].chunk
  }

  function Live(ss: seq<Sender>): nat {
    if ss == [] then 0 else Live(ss[..|ss| - 1]) + (if ss[|ss| - 1].phase == Done then 0 else 1)
  }

  /** Sender k listens on the gate sender k - 1 closes; the first gate was closed at the start. */
  ghost predicate Chained(b: Batcher) {
    && b.prevSend == |b.senders| && b.gates == |b.senders| + 1
    && (forall k :: 0 <= k < |b.senders| ==> b.senders[k].prev == k && b.senders[k].next == k + 1)
    && 0 in b.closed
    && (forall g :: g in b.closed ==> g <= |b.senders|)
    && (forall k :: 0 <= k < |b.senders| ==> (k + 1 in b.closed <==> Through(b.senders[k])))
  }

  /** A sender that has started is preceded only by senders whose gates are closed, and the log
      holds exactly the payloads of the started ones. */
  ghost predicate Ordered(b: Batcher) {
    && (forall j, k :: 0 <= j < k < |b.senders| && b.senders[k].phase != Waiting ==> Through(b.senders[j]))
    && |b.log| <= |b.senders|
    && (forall k :: 0 <= k < |b.senders| ==> (k < |b.log| <==> b.senders[k].phase != Waiting))
    && (forall k :: 0 <= k < |b.log| ==> b.log[k] == b.senders[k].chunk)
  }

  ghost predicate Conserved(b: Batcher) {
    && b.accepted == Payload(b.senders) + Concat(b.pending)
    && b.running == Live(b.senders)
  }

  ghost predicate FirstFailure(ss: seq<Sender>, k: int) {
    0 <= k < |ss| && Failed(ss[k]) && forall j :: 0 <= j < k ==> !Failed(ss[j])
  }

  ghost predicate Reported(b: Batcher) {
    && (forall k :: 0 <= k < |b.senders| ==>
          (b.senders[k].outcome == Unknown <==> b.senders[k].phase == Waiting || b.senders[k].phase == Sending))
    && (forall k :: 0 <= k < |b.senders| && b.senders[k].phase == Recording ==> b.senders[k].outcome.Refused?)
    && match b.sendErr
       case None => forall k :: 0 <= k < |b.senders| ==> !Failed(b.senders[k])
       case Some(e) => exists k :: FirstFailure(b.senders, k) && b.senders[k].outcome.error == e
  }

  ghost predicate Inv(b: Batcher) { Chained(b) && Ordered(b) && Conserved(b) && Reported(b) }

  lemma {:induction false} LiveUpdate(ss: seq<Sender>, k: nat, s: Sender)
    requires k < |ss|
    ensures Live(ss[k := s]) - (if s.phase == Done then 0 else 1) == Live(ss) - (if ss[k].phase == Done then 0 else 1)
    ensures s.chunk == ss[k].chunk ==> Payload(ss[k := s]) == Payload(ss)
  {
    var n := |ss| - 1;
    if k == n {
      assert ss[k := s][..n] == ss[..n];
    } else {
      assert ss[k := s][..n] == ss[..n][k := s];
      LiveUpdate(ss[..n], k, s);
    }
  }

  lemma {:induction false} LiveZero(ss: seq<Sender>)
    requires Live(ss) == 0
    ensures forall k :: 0 <= k < |ss| ==> ss[k].phase == Done
  {
    if ss != [] {
      LiveZero(ss[..|ss| - 1]);
      assert forall k :: 0 <= k < |ss| - 1 ==> ss[..|ss| - 1][k] == ss[k];
    }
  }

  // ----- every step keeps the invariant

  lemma FlushKeepsReported(b: Batcher)
    requires Reported(b)
    ensures Reported(Flushed(b))
  {
    var c := Flushed(b);
    if b.sendErr.Some? {
      var m :| FirstFailure(b.senders, m) && b.senders[m].outcome.error == b.sendErr.value;
      assert FirstFailure(c.senders, m);
    }
  }

  lemma FlushKeepsChained(b: Batcher)
    requires Chained(b)
    ensures Chained(Flushed(b))
  {
    hide Concat;
  }

  lemma FlushKeepsOrdered(b: Batcher)
    requires Ordered(b)
    ensures Ordered(Flushed(b))
  {
    hide Concat;
  }

  lemma FlushKeepsConserved(b: Batcher)
    requires Conserved(b)
    ensures Conserved(Flushed(b))
  {
    if b.pending != [] {
      assert Flushed(b).senders[..|b.senders|] == b.senders;
    }
  }

  lemma FlushKeepsInv(b: Batcher)
    requires Inv(b)
    ensures Inv(Flushed(b)) && Flushed(b).pending == []
  {
    hide Chained, Ordered, Conserved, Reported;
    FlushKeepsChained(b);
    FlushKeepsOrdered(b);
    FlushKeepsConserved(b);
    FlushKeepsReported(b);
  }

  lemma AcceptKeepsConserved(b: Batcher, chunk: Bytes)
    requires Conserved(b)
    ensures Conserved(b.(pending := b.pending + [chunk], accepted := b.accepted + chunk))
  {
    assert (b.pending + [chunk])[..|b.pending|] == b.pending;
  }

  lemma AddKeepsInv(b: Batcher, chunk: Bytes)
    requires Inv(b)
    ensures Inv(Added(b, chunk))
  {
    if !b.cancelled {
      var c := b.(pending := b.pending + [chunk], accepted := b.accepted + chunk);
      AcceptKeepsConserved(b, chunk);
      assert Chained(c) && Ordered(c);
      assert Reported(c) by { hide Chained, Ordered, Conserved; SameReport(b, c); }
      hide Chained, Ordered, Conserved, Reported, Flushed;
      FlushKeepsInv(c);
    }
  }

  lemma SameReport(b: Batcher, c: Batcher)
    requires Reported(b) && c.senders == b.senders && c.sendErr == b.sendErr
    ensures Reported(c)
  {
  }

  /** A sender's own step: only sender k changes, it keeps its payload and channels, and once its
      gate is closed it stays closed. */
  ghost predicate Moves(b: Batcher, c: Batcher, k: nat) {
    && k < |b.senders| && |c.senders| == |b.senders| && c.senders == b.senders[k := c.senders[k]]
    && c.senders[k].chunk == b.senders[k].chunk
    && c.senders[k].prev == b.senders[k].prev && c.senders[k].next == b.senders[k].next
    && (Through(b.senders[k]) ==> Through(c.senders[k]))
    && c.prevSend == b.prevSend && c.gates == b.gates
    && c.pending == b.pending && c.accepted == b.accepted
  }

  lemma MoveKeepsConserved(b: Batcher, c: Batcher, k: nat)
    requires Conserved(b) && Moves(b, c, k)
    requires c.running == b.running - (if c.senders[k].phase == Done && b.senders[k].phase != Done then 1 else 0)
    requires b.senders[k].phase == Done ==> c.senders[k].phase == Done
    ensures Conserved(c)
  {
    LiveUpdate(b.senders, k, c.senders[k]);
  }

  lemma MoveKeepsChained(b: Batcher, c: Batcher, k: nat)
    requires Chained(b) && Moves(b, c, k)
    requires c.closed == b.closed + (if Through(c.senders[k]) then {b.senders[k].next} else {})
    ensures Chained(c)
  {
  }

  /** A step of a sender that has already started. */
  lemma MoveKeepsOrdered(b: Batcher, c: Batcher, k: nat)
    requires Ordered(b) && Moves(b, c, k) && c.log == b.log
    requires b.senders[k].phase != Waiting && c.senders[k].phase != Waiting
    ensures Ordered(c)
  {
  }

  /** A waiting sender's gate is closed exactly when every earlier sender has closed its own: the
      oldest unfinished sender is the only one that can be let through. */
  lemma OpenGateMeansOldest(b: Batcher, k: nat)
    requires Chained(b) && Ordered(b) && k < |b.senders|
    ensures b.senders[k].phase == Waiting ==>
              (b.senders[k].prev in b.closed <==> forall j :: 0 <= j < k ==> Through(b.senders[j]))
  {
    if k > 0 {
      assert k - 1 + 1 in b.closed <==> Through(b.senders[k - 1]);
    }
  }

  lemma ReceiveKeepsOrdered(b: Batcher, k: nat)
    requires Chained(b) && Ordered(b)
    ensures Ordered(Received(b, k))
  {
    if Received(b, k) != b {
      OpenGateMeansOldest(b, k);
      assert |b.log| < k ==> Through(b.senders[|b.log|]);
      assert k == |b.log|;
    }
  }

  /** A step that records no failure leaves the failure report as it was. */
  lemma MoveKeepsReported(b: Batcher, c: Batcher, k: nat)
    requires Reported(b) && Moves(b, c, k) && c.sendErr == b.sendErr
    requires Failed(c.senders[k]) == Failed(b.senders[k])
    requires c.senders[k].outcome == Unknown <==> c.senders[k].phase == Waiting || c.senders[k].phase == Sending
    requires c.senders[k].phase == Recording ==> c.senders[k].outcome.Refused?
    requires Failed(b.senders[k]) ==> c.senders[k].outcome == b.senders[k].outcome
    ensures Reported(c)
  {
    if b.sendErr.Some? {
      var m :| FirstFailure(b.senders, m) && b.senders[m].outcome.error == b.sendErr.value;
      assert FirstFailure(c.senders, m);
    }
  }

  lemma RecordKeepsReported(b: Batcher, k: nat)
    requires Reported(b) && Ordered(b)
    ensures Reported(Recorded(b, k))
  {
    var c := Recorded(b, k);
    if c != b {
      if b.sendErr.None? {
        assert FirstFailure(c.senders, k);
      } else {
        var m :| FirstFailure(b.senders, m) && b.senders[m].outcome.error == b.sendErr.value;
        assert m > k ==> Through(b.senders[k]);
        assert FirstFailure(c.senders, m);
      }
    }
  }

  lemma ReceiveKeepsInv(b: Batcher, k: nat)
    requires Inv(b)
    ensures Inv(Received(b, k))
  {
    hide Chained, Ordered, Conserved, Reported;
    var c := Received(b, k);
    ReceiveKeepsOrdered(b, k);
    if c != b {
      MoveKeepsChained(b, c, k);
      MoveKeepsConserved(b, c, k);
      assert b.senders[k].outcome == Unknown by { OutcomeOf(b, k); }
      MoveKeepsReported(b, c, k);
    }
  }

  lemma OutcomeOf(b: Batcher, k: nat)
    requires Reported(b) && k < |b.senders|
    ensures b.senders[k].outcome == Unknown <==> b.senders[k].phase == Waiting || b.senders[k].phase == Sending
  {
  }

  lemma ReturnKeepsInv(b: Batcher, k: nat, error: Option<Failure>)
    requires Inv(b)
    ensures Inv(Returned(b, k, error))
  {
    hide Chained, Ordered, Conserved, Reported;
    var c := Returned(b, k, error);
    if c != b {
      OutcomeOf(b, k);
      MoveKeepsChained(b, c, k);
      MoveKeepsOrdered(b, c, k);
      MoveKeepsConserved(b, c, k);
      MoveKeepsReported(b, c, k);
    }
  }

  lemma RecordKeepsInv(b: Batcher, k: nat)
    requires Inv(b)
    ensures Inv(Recorded(b, k))
  {
    hide Chained, Ordered, Conserved, Reported;
    var c := Recorded(b, k);
    RecordKeepsReported(b, k);
    if c != b {
      MoveKeepsChained(b, c, k);
      MoveKeepsOrdered(b, c, k);
      MoveKeepsConserved(b, c, k);
    }
  }

  lemma CloseKeepsInv(b: Batcher, k: nat)
    requires Inv(b)
    ensures Inv(GateClosed(b, k))
  {
    hide Chained, Ordered, Conserved, Reported;
    var c := GateClosed(b, k);
    if c != b {
      OutcomeOf(b, k);
      MoveKeepsChained(b, c, k);
      MoveKeepsOrdered(b, c, k);
      MoveKeepsConserved(b, c, k);
      MoveKeepsReported(b, c, k);
    }
  }

  lemma ExitKeepsInv(b: Batcher, k: nat)
    requires Inv(b)
    ensures Inv(Exited(b, k))
  {
    hide Ordered, Conserved, Reported;
    var c := Exited(b, k);
    if c != b {
      OutcomeOf(b, k);
      assert Through(b.senders[k]);
      assert k + 1 in b.closed && b.senders[k].next == k + 1;
      hide Chained;
      MoveKeepsChained(b, c, k);
      MoveKeepsOrdered(b, c, k);
      MoveKeepsConserved(b, c, k);
      MoveKeepsReported(b, c, k);
    }
  }

  // ----- runs

  datatype Stage = Blocked | Passed | Answered(result: Option<Failure>)

  /** A call to FlushAndWait, or the flush and wait of Close when the context was cancelled first:
      how many bytes were accepted and how many senders existed when it took the lock. */
  datatype Waiter = Waiter(mark: nat, behind: nat, closing: bool, stage: Stage)

  datatype World = World(b: Batcher, waiters: seq<Waiter>)

  datatype Event =
    | Add(chunk: Bytes)
    | Timer
    | Flush
    | Cancel
    | WaitBegins
    | WaitPasses(w: nat)
    | WaitReturns(w: nat)
    | Receives(k: nat)
    | Returns(k: nat, error: Option<Failure>)
    | Records(k: nat)
    | Closes(k: nat)
    | Exits(k: nat)

  function BatcherStep(b: Batcher, e: Event): Batcher {
    match e
    case Add(chunk) => Added(b, chunk)
    case Timer => TimerFired(b)
    case Flush => Flushed(b)
    case Cancel => Cancelled(b)
    case WaitBegins => Flushed(b)
    case WaitPasses(_) => b
    case WaitReturns(_) => b
    case Receives(k) => Received(b, k)
    case Returns(k, error) => Returned(b, k, error)
    case Records(k) => Recorded(b, k)
    case Closes(k) => GateClosed(b, k)
    case Exits(k) => Exited(b, k)
  }

  function WaitersStep(v: World, e: Event): seq<Waiter> {
    match e
    case WaitBegins =>
      v.waiters + [Waiter(|v.b.accepted|, |Flushed(v.b).senders|, v.b.cancelled, Blocked)]
    case WaitPasses(w) =>
      if w < |v.waiters| && v.waiters[w].stage == Blocked && v.b.running == 0
      then v.waiters[w := v.waiters[w].(stage := Passed)] else v.waiters
    case WaitReturns(w) =>
      if w < |v.waiters| && v.waiters[w].stage == Passed
      then v.waiters[w := v.waiters[w].(stage := Answered(v.b.sendErr))] else v.waiters
    case _ => v.waiters
  }

  function Step(v: World, e: Event): World { World(BatcherStep(v.b, e), WaitersStep(v, e)) }

  function After(v: World, es: seq<Event>): World
    decreases |es|
  {
    if es == [] then v else After(Step(v, es[0]), es[1..])
  }

  lemma CancelKeepsInv(b: Batcher)
    requires Inv(b)
    ensures Inv(Cancelled(b))
  {
  }

  lemma BatcherStepKeepsInv(b: Batcher, e: Event)
    requires Inv(b)
    ensures Inv(BatcherStep(b, e))
  {
    hide Inv, Added, Flushed, Received, Returned, Recorded, GateClosed, Exited;
    match e
    case Add(chunk) => AddKeepsInv(b, chunk);
    case Timer => FlushKeepsInv(b);
    case Flush => FlushKeepsInv(b);
    case Cancel => CancelKeepsInv(b);
    case WaitBegins => FlushKeepsInv(b);
    case WaitPasses(_) =>
    case WaitReturns(_) =>
    case Receives(k) => ReceiveKeepsInv(b, k);
    case Returns(k, error) => ReturnKeepsInv(b, k, error);
    case Records(k) => RecordKeepsInv(b, k);
    case Closes(k) => CloseKeepsInv(b, k);
    case Exits(k) => ExitKeepsInv(b, k);
  }

  // ----- what a step never undoes

  predicate Settled(s: Sender) { s.outcome != Unknown }

  ghost predicate Extends(b: Batcher, c: Batcher) {
    && |b.senders| <= |c.senders|
    && (forall k :: 0 <= k < |b.senders| ==> c.senders[k].chunk == b.senders[k].chunk)
    && (forall k :: 0 <= k < |b.senders| && b.senders[k].phase == Done ==> c.senders[k] == b.senders[k])
    && (forall k :: 0 <= k < |b.senders| && Failed(b.senders[k]) ==> c.senders[k].outcome == b.senders[k].outcome)
    && b.accepted <= c.accepted
    && (b.cancelled ==> c.cancelled && c.accepted == b.accepted)
    && (b.cancelled && b.pending == [] ==> c.pending == [] && |c.senders| == |b.senders|)
    && (b.sendErr.Some? ==> c.sendErr == b.sendErr)
  }

  lemma FlushExtends(b: Batcher)
    ensures Extends(b, Flushed(b))
  {
    hide Concat;
  }

  lemma AddExtends(b: Batcher, chunk: Bytes)
    ensures Extends(b, Added(b, chunk))
  {
    hide Concat;
  }

  lemma MoveExtends(b: Batcher, c: Batcher, k: nat)
    requires Moves(b, c, k) && b.senders[k].phase != Done && c.cancelled == b.cancelled
    requires Failed(b.senders[k]) ==> c.senders[k].outcome == b.senders[k].outcome
    requires b.sendErr.Some? ==> c.sendErr == b.sendErr
    ensures Extends(b, c)
  {
  }

  lemma StepExtends(b: Batcher, e: Event)
    requires Inv(b)
    ensures Extends(b, BatcherStep(b, e))
  {
    hide Chained, Ordered, Conserved, Reported, Extends;
    var c := BatcherStep(b, e);
    match e
    case Add(chunk) => AddExtends(b, chunk);
    case Timer => if b.cancelled { SelfExtends(b, c); } else { FlushExtends(b); }
    case Flush => FlushExtends(b);
    case Cancel => SelfExtends(b, c);
    case WaitBegins => FlushExtends(b);
    case WaitPasses(_) => SelfExtends(b, c);
    case WaitReturns(_) => SelfExtends(b, c);
    case Receives(k) => if c == b { SelfExtends(b, c); } else { MoveExtends(b, c, k); }
    case Returns(k, error) =>
      if c == b {
        SelfExtends(b, c);
      } else {
        assert b.senders[k].outcome == Unknown by { OutcomeOf(b, k); }
        MoveExtends(b, c, k);
      }
    case Records(k) => if c == b { SelfExtends(b, c); } else { MoveExtends(b, c, k); }
    case Closes(k) => if c == b { SelfExtends(b, c); } else { MoveExtends(b, c, k); }
    case Exits(k) => if c == b { SelfExtends(b, c); } else { MoveExtends(b, c, k); }
  }

  lemma SelfExtends(b: Batcher, c: Batcher)
    requires c == b || c == Cancelled(b)
    ensures Extends(b, c)
  {
  }

  lemma {:induction false} StepsExtend(v: World, es: seq<Event>)
    requires WorldInv(v)
    ensures Keeps(v.b, After(v, es).b)
    decreases |es|
  {
    hide Inv, Keeps, Step, WorldInv;
    if es == [] {
      KeepsSelf(v.b);
    } else {
      var c := Step(v, es[0]).b;
      assert Inv(v.b) && c == BatcherStep(v.b, es[0]) by { StepOfWorld(v, es[0]); }
      StepExtends(v.b, es[0]);
      StepKeepsWorldInv(v, es[0]);
      StepsExtend(Step(v, es[0]), es[1..]);
      KeepsThrough(v.b, c, After(v, es).b);
    }
  }

  /** The payloads of c begin with those of b. */
  ghost predicate Keeps(b: Batcher, c: Batcher) {
    |b.senders| <= |c.senders| && forall k :: 0 <= k < |b.senders| ==> c.senders[k].chunk == b.senders[k].chunk
  }

  lemma KeepsSelf(b: Batcher)
    ensures Keeps(b, b)
  {
  }

  lemma KeepsThrough(b: Batcher, c: Batcher, d: Batcher)
    requires Extends(b, c) && Keeps(c, d)
    ensures Keeps(b, d)
  {
  }

  lemma StepOfWorld(v: World, e: Event)
    requires WorldInv(v)
    ensures Inv(v.b) && Step(v, e).b == BatcherStep(v.b, e)
  {
    hide Inv, Holds, BatcherStep;
  }

  lemma {:induction false} PayloadAgrees(ss: seq<Sender>, ts: seq<Sender>, n: nat)
    requires n <= |ss| && n <= |ts|
    requires forall k :: 0 <= k < n ==> ss[k].chunk == ts[k].chunk
    ensures Payload(ss[..n]) == Payload(ts[..n])
  {
    if n > 0 {
      PayloadAgrees(ss, ts, n - 1);
      assert ss[..n][..n - 1] == ss[..n - 1] && ts[..n][..n - 1] == ts[..n - 1];
    }
  }

  lemma {:induction false} PayloadPrefix(ss: seq<Sender>, n: nat)
    requires n <= |ss|
    ensures Payload(ss[..n]) <= Payload(ss)
  {
    if n < |ss| {
      PayloadPrefix(ss[..|ss| - 1], n);
      assert ss[..|ss| - 1][..n] == ss[..n];
    } else {
      assert ss[..n] == ss;
    }
  }

  lemma {:induction false} LogIsPayload(b: Batcher, n: nat)
    requires Ordered(b) && n <= |b.log|
    ensures Concat(b.log[..n]) == Payload(b.senders[..n])
  {
    if n > 0 {
      LogIsPayload(b, n - 1);
      assert b.log[..n][..n - 1] == b.log[..n - 1] && b.senders[..n][..n - 1] == b.senders[..n - 1];
    }
  }

  // ----- waiting callers

  ghost predicate FirstFailureIs(b: Batcher, e: Failure) {
    exists k :: FirstFailure(b.senders, k) && b.senders[k].outcome.error == e
  }

  ghost predicate Holds(b: Batcher, w: Waiter) {
    && w.behind <= |b.senders| && w.mark <= |b.accepted|
    && Payload(b.senders[..w.behind]) == b.accepted[..w.mark]
    && (w.closing ==> b.cancelled && b.pending == [] && w.behind == |b.senders| && w.mark == |b.accepted|)
    && (w.stage != Blocked ==> forall k :: 0 <= k < w.behind ==> b.senders[k].phase == Done)
    && (w.stage.Answered? && w.stage.result.None? ==>
          forall k :: 0 <= k < w.behind ==> b.senders[k].outcome == Delivered)
    && (w.stage.Answered? && w.stage.result.Some? ==> b.sendErr == w.stage.result)
  }

  ghost predicate WorldInv(v: World) {
    Inv(v.b) && forall i :: 0 <= i < |v.waiters| ==> Holds(v.b, v.waiters[i])
  }

  lemma ExtendsKeepsHolds(b: Batcher, c: Batcher, w: Waiter)
    requires Extends(b, c) && Holds(b, w)
    ensures Holds(c, w)
  {
    PayloadAgrees(b.senders, c.senders, w.behind);
    assert c.accepted[..w.mark] == b.accepted[..w.mark];
  }

  lemma BeginHolds(b: Batcher)
    requires Inv(b)
    ensures Holds(Flushed(b), Waiter(|b.accepted|, |Flushed(b).senders|, b.cancelled, Blocked))
  {
    FlushKeepsInv(b);
    var c := Flushed(b);
    assert Concat(c.pending) == [];
    assert c.senders[..|c.senders|] == c.senders && c.accepted[..|b.accepted|] == c.accepted;
  }

  lemma AnswerHolds(b: Batcher, w: Waiter)
    requires Inv(b) && Holds(b, w) && w.stage == Passed
    ensures Holds(b, w.(stage := Answered(b.sendErr)))
  {
    if b.sendErr.None? {
      forall k | 0 <= k < w.behind
        ensures b.senders[k].outcome == Delivered
      {
        OutcomeOf(b, k);
        assert !Failed(b.senders[k]);
      }
    }
  }

  lemma StepKeepsWorldInv(v: World, e: Event)
    requires WorldInv(v)
    ensures WorldInv(Step(v, e))
  {
    hide Inv, Holds, BatcherStep, Extends;
    var c := BatcherStep(v.b, e);
    BatcherStepKeepsInv(v.b, e);
    StepExtends(v.b, e);
    forall i | 0 <= i < |v.waiters|
      ensures Holds(c, v.waiters[i])
    {
      ExtendsKeepsHolds(v.b, c, v.waiters[i]);
    }
    match e
    case WaitBegins =>
      assert c == Flushed(v.b) by { StepOfWait(v.b, e); }
      BeginHolds(v.b);
    case WaitPasses(w) =>
      assert c == v.b by { StepOfWait(v.b, e); }
      if w < |v.waiters| && v.waiters[w].stage == Blocked && v.b.running == 0 {
        PassHolds(v.b, v.waiters[w]);
      }
    case WaitReturns(w) =>
      assert c == v.b by { StepOfWait(v.b, e); }
      if w < |v.waiters| && v.waiters[w].stage == Passed {
        AnswerHolds(v.b, v.waiters[w]);
      }
    case _ =>
  }

  lemma StepOfWait(b: Batcher, e: Event)
    ensures e == WaitBegins ==> BatcherStep(b, e) == Flushed(b)
    ensures e.WaitPasses? || e.WaitReturns? ==> BatcherStep(b, e) == b
  {
  }

  lemma PassHolds(b: Batcher, w: Waiter)
    requires Inv(b) && Holds(b, w) && b.running == 0 && w.stage == Blocked
    ensures Holds(b, w.(stage := Passed))
  {
    LiveZero(b.senders);
  }

  lemma {:induction false} RunKeepsWorldInv(v: World, es: seq<Event>)
    requires WorldInv(v)
    ensures WorldInv(After(v, es))
    decreases |es|
  {
    hide WorldInv, Step;
    if es != [] {
      StepKeepsWorldInv(v, es[0]);
      RunKeepsWorldInv(Step(v, es[0]), es[1..]);
    }
  }

  function Start(batchSize: nat): World { World(Fresh(batchSize), []) }

  lemma StartInv(batchSize: nat)
    ensures WorldInv(Start(batchSize))
  {
    var b := Fresh(batchSize);
    assert Payload(b.senders) == [] && Concat(b.pending) == [] && Live(b.senders) == 0;
    hide Payload, Concat, Live;
  }

  lemma ReachableInv(batchSize: nat, es: seq<Event>)
    ensures WorldInv(After(Start(batchSize), es))
  {
    StartInv(batchSize);
    hide WorldInv;
    RunKeepsWorldInv(Start(batchSize), es);
  }

  // ----- what a run accepted, read off its events

  ghost predicate HasCancel(es: seq<Event>) { exists k :: 0 <= k < |es| && es[k].Cancel? }

  /** The bytes of every Add before the first cancellation, in order. */
  ghost function Taken(es: seq<Event>): Bytes {
    if es == [] then []
    else
      var before, last := es[..|es| - 1], es[|es| - 1];
      Taken(before) + (if last.Add? && !HasCancel(before) then last.chunk else [])
  }

  lemma {:induction false} AfterLast(v: World, es: seq<Event>, e: Event)
    ensures After(v, es + [e]) == Step(After(v, es), e)
    decreases |es|
  {
    if es == [] {
      assert ([e])[1..] == [] && [] + [e] == [e];
    } else {
      AfterLast(Step(v, es[0]), es[1..], e);
      assert (es + [e])[1..] == es[1..] + [e];
    }
  }

  lemma {:induction false} AfterJoin(v: World, es: seq<Event>, fs: seq<Event>)
    ensures After(v, es + fs) == After(After(v, es), fs)
    decreases |es|
  {
    if es == [] {
      assert es + fs == fs;
    } else {
      AfterJoin(Step(v, es[0]), es[1..], fs);
      assert (es + fs)[1..] == es[1..] + fs;
    }
  }

  lemma StepTakes(b: Batcher, e: Event)
    ensures
      var c := BatcherStep(b, e);
      && c.cancelled == (b.cancelled || e.Cancel?)
      && c.accepted == b.accepted + (if e.Add? && !b.cancelled then e.chunk else [])
  {
    hide Concat;
  }

  /** A batcher has accepted exactly the bytes of the Adds before the first cancellation. */
  lemma {:induction false} AcceptedIsTaken(batchSize: nat, es: seq<Event>)
    ensures
      var b := After(Start(batchSize), es).b;
      b.accepted == Taken(es) && (b.cancelled <==> HasCancel(es))
    decreases |es|
  {
    hide BatcherStep;
    if es != [] {
      var before, last := es[..|es| - 1], es[|es| - 1];
      AcceptedIsTaken(batchSize, before);
      assert es == before + [last];
      AfterLast(Start(batchSize), before, last);
      StepTakes(After(Start(batchSize), before).b, last);
      if HasCancel(before) {
        var k :| 0 <= k < |before| && before[k].Cancel?;
        assert es[k].Cancel?;
      }
      if last.Cancel? {
        assert es[|es| - 1].Cancel?;
      }
    }
  }

  /** Where a waiting call's figures come from: the WaitBegins event that started it. */
  lemma {:induction false} WaiterBegan(batchSize: nat, es: seq<Event>, i: nat) returns (n: nat)
    requires i < |After(Start(batchSize), es).waiters|
    ensures n < |es| && es[n] == WaitBegins
    ensures
      var w := After(Start(batchSize), es).waiters[i];
      w.mark == |Taken(es[..n])| && (w.closing <==> HasCancel(es[..n]))
    decreases |es|
  {
    hide BatcherStep, Flushed;
    var before, last := es[..|es| - 1], es[|es| - 1];
    assert es == before + [last];
    AfterLast(Start(batchSize), before, last);
    if i < |After(Start(batchSize), before).waiters| {
      n := WaiterBegan(batchSize, before, i);
      assert before[..n] == es[..n];
    } else {
      AcceptedIsTaken(batchSize, before);
      n := |es| - 1;
    }
  }

  // ----- flushes reach the server

  /** After a flush - by call, by FlushAndWait, by a full batch or by the timer unless cancelled -
      nothing is pending and the senders hold every byte accepted. */
  lemma FlushPassesEverything(b: Batcher, e: Event)
    requires Inv(b) && (e.Flush? || e.WaitBegins? || (e.Timer? && !b.cancelled))
    ensures
      var c := BatcherStep(b, e);
      c.pending == [] && c.accepted == b.accepted == Payload(c.senders)
  {
    FlushKeepsInv(b);
    assert Concat([]) == [] && Payload(Flushed(b).senders) + [] == Payload(Flushed(b).senders);
    hide Chained, Ordered, Reported, Flushed;
  }

  /** An Add after the cancellation changes nothing; before it, a full batch becomes one sender that
      holds the pending chunks and the new one, and any other chunk stays pending. */
  lemma AddBatches(b: Batcher, chunk: Bytes)
    ensures
      var c := BatcherStep(b, Add(chunk));
      && (b.cancelled ==> c == b)
      && (!b.cancelled && |b.pending| + 1 < b.batchSize ==>
            c.pending == b.pending + [chunk] && c.senders == b.senders)
      && (!b.cancelled && |b.pending| + 1 >= b.batchSize ==>
            && c.pending == [] && |c.senders| == |b.senders| + 1 && c.senders[..|b.senders|] == b.senders
            && c.senders[|b.senders|].chunk == Concat(b.pending) + chunk)
  {
    assert (b.pending + [chunk])[..|b.pending|] == b.pending;
    hide Concat;
    ConcatLast(b.pending, chunk);
  }

  lemma ConcatLast(chunks: seq<Bytes>, chunk: Bytes)
    ensures Concat(chunks + [chunk]) == Concat(chunks) + chunk
  {
    assert (chunks + [chunk])[..|chunks|] == chunks;
  }

  lemma RunSplits(v: World, es: seq<Event>, n: nat)
    requires n < |es|
    ensures After(v, es[..n + 1]) == Step(After(v, es[..n]), es[n])
    ensures After(v, es) == After(After(v, es[..n + 1]), es[n + 1..])
  {
    hide Step;
    AfterLast(v, es[..n], es[n]);
    assert es[..n + 1] == es[..n] + [es[n]];
    AfterJoin(v, es[..n + 1], es[n + 1..]);
    assert es == es[..n + 1] + es[n + 1..];
  }

  lemma HeldBySenders(batchSize: nat, es: seq<Event>, n: nat)
    requires n < |es| && (es[n].Flush? || es[n].WaitBegins? || (es[n].Timer? && !HasCancel(es[..n])))
    ensures Taken(es[..n]) == Payload(After(Start(batchSize), es[..n + 1]).b.senders)
  {
    hide *;
    var v := After(Start(batchSize), es[..n]);
    AcceptedIsTaken(batchSize, es[..n]);
    ReachableInv(batchSize, es[..n]);
    StepOfWorld(v, es[n]);
    FlushPassesEverything(v.b, es[n]);
    RunSplits(Start(batchSize), es, n);
  }

  /** Nothing waits for the next full batch. Every byte added before a timer that fires ahead of any
      cancellation, or before any flush, is held by senders from then on; and whenever no sender is
      left running, it has been passed to the server. */
  lemma FlushedBytesReachTheServer(batchSize: nat, es: seq<Event>, n: nat)
    requires n < |es| && (es[n].Flush? || es[n].WaitBegins? || (es[n].Timer? && !HasCancel(es[..n])))
    ensures
      var b := After(Start(batchSize), es).b;
      && Taken(es[..n]) <= Payload(b.senders)
      && (b.running == 0 ==> Taken(es[..n]) <= Concat(b.log))
  {
    hide *;
    var w, end := After(Start(batchSize), es[..n + 1]), After(Start(batchSize), es);
    HeldBySenders(batchSize, es, n);
    ReachableInv(batchSize, es[..n + 1]);
    RunSplits(Start(batchSize), es, n);
    StepsExtend(w, es[n + 1..]);
    KeptPayload(w.b, end.b);
    ReachableInv(batchSize, es);
    StepOfWorld(end, Flush);
    if end.b.running == 0 {
      IdleMeansDrained(end.b);
    }
  }

  lemma KeptPayload(b: Batcher, c: Batcher)
    requires Keeps(b, c)
    ensures Payload(b.senders) <= Payload(c.senders)
  {
    var n := |b.senders|;
    PayloadAgrees(b.senders, c.senders, n);
    PayloadPrefix(c.senders, n);
    assert b.senders[..n] == b.senders;
  }

  lemma IdleMeansDrained(b: Batcher)
    requires Inv(b) && b.running == 0
    ensures Concat(b.log) == Payload(b.senders)
  {
    DoneMeansDrained(b);
  }

  // ----- the promises of the protocol

  /** In-order streaming. In every interleaving of callers, timer, cancellation and senders, the
      payloads passed to the server concatenate to a prefix of the bytes of the Adds, and at
      most one send is in flight. */
  lemma StreamsInOrder(batchSize: nat, es: seq<Event>)
    ensures
      var b := After(Start(batchSize), es).b;
      && Concat(b.log) <= Taken(es)
      && (forall j, k :: 0 <= j < k < |b.senders| ==> !(b.senders[j].phase == Sending && b.senders[k].phase == Sending))
  {
    ReachableInv(batchSize, es);
    AcceptedIsTaken(batchSize, es);
    var b := After(Start(batchSize), es).b;
    LogIsPayload(b, |b.log|);
    assert b.log[..|b.log|] == b.log;
    PayloadPrefix(b.senders, |b.log|);
  }

  /** FlushAndWait. When it has returned nil, the bytes accepted before it took the lock are
      exactly the payloads of the first sends, each of which succeeded; when it has returned an
      error, that is the error of the first send that failed. */
  lemma FlushAndWaitIsHonest(batchSize: nat, es: seq<Event>, i: nat)
    requires
      var v := After(Start(batchSize), es);
      i < |v.waiters| && v.waiters[i].stage.Answered?
    ensures
      var v := After(Start(batchSize), es);
      var w := v.waiters[i];
      && w.behind <= |v.b.log| && w.behind <= |v.b.senders| && w.mark <= |v.b.accepted|
      && Concat(v.b.log[..w.behind]) == v.b.accepted[..w.mark]
      && (w.stage.result.None? ==> forall k :: 0 <= k < w.behind ==> v.b.senders[k].outcome == Delivered)
      && (w.stage.result.Some? ==> FirstFailureIs(v.b, w.stage.result.value))
  {
    ReachableInv(batchSize, es);
    var v := After(Start(batchSize), es);
    var w := v.waiters[i];
    assert Holds(v.b, w);
    assert w.behind > 0 ==> v.b.senders[w.behind - 1].phase == Done;
    LogIsPayload(v.b, w.behind);
  }

  /** The same, said of the run: the bytes of the Adds before the call are the payloads of the first
      sends, and each of those succeeded when the call returned nil. */
  lemma FlushAndWaitCoversItsCaller(batchSize: nat, es: seq<Event>, i: nat) returns (n: nat, sends: nat)
    requires
      var v := After(Start(batchSize), es);
      i < |v.waiters| && v.waiters[i].stage.Answered?
    ensures n < |es| && es[n] == WaitBegins
    ensures
      var v := After(Start(batchSize), es);
      && sends <= |v.b.log| && sends <= |v.b.senders|
      && Concat(v.b.log[..sends]) == Taken(es[..n])
      && (v.waiters[i].stage.result.None? ==> forall k :: 0 <= k < sends ==> v.b.senders[k].outcome == Delivered)
  {
    hide BatcherStep, FirstFailureIs;
    n := WaiterBegan(batchSize, es, i);
    FlushAndWaitIsHonest(batchSize, es, i);
    var v := After(Start(batchSize), es);
    sends := v.waiters[i].behind;
    AcceptedIsTaken(batchSize, es);
    TakenPrefix(es, n);
  }

  lemma {:induction false} TakenPrefix(es: seq<Event>, n: nat)
    requires n <= |es|
    ensures Taken(es[..n]) <= Taken(es)
    decreases |es|
  {
    if n < |es| {
      TakenPrefix(es[..|es| - 1], n);
      assert es[..|es| - 1][..n] == es[..n];
    } else {
      assert es[..n] == es;
    }
  }

  /** Close. Once a flush that began after the cancellation has waited its turn, every byte Add
      ever accepted has been passed to the server and no sender is left. */
  lemma CloseDeliversEverything(batchSize: nat, es: seq<Event>, i: nat)
    requires
      var v := After(Start(batchSize), es);
      i < |v.waiters| && v.waiters[i].closing && v.waiters[i].stage != Blocked
    ensures
      var b := After(Start(batchSize), es).b;
      Concat(b.log) == Taken(es) && forall k :: 0 <= k < |b.senders| ==> b.senders[k].phase == Done
  {
    ReachableInv(batchSize, es);
    AcceptedIsTaken(batchSize, es);
    var v := After(Start(batchSize), es);
    var b := v.b;
    assert Holds(b, v.waiters[i]);
    assert b.senders != [] ==> b.senders[|b.senders| - 1].phase == Done;
    LogIsPayload(b, |b.log|);
    assert b.log[..|b.log|] == b.log && b.senders[..|b.senders|] == b.senders;
    assert b.accepted[..|b.accepted|] == b.accepted;
  }

  // ----- no deadlock

  function Rank(p: Phase): nat {
    match p
    case Waiting => 5
    case Sending => 4
    case Recording => 3
    case Closing => 2
    case Exiting => 1
    case Done => 0
  }

  function Work(ss: seq<Sender>): nat {
    if ss == [] then 0 else Work(ss[..|ss| - 1]) + Rank(ss[|ss| - 1].phase)
  }

  lemma {:induction false} WorkUpdate(ss: seq<Sender>, k: nat, s: Sender)
    requires k < |ss|
    ensures Work(ss[k := s]) == Work(ss) - Rank(ss[k].phase) + Rank(s.phase)
  {
    var n := |ss| - 1;
    if k == n {
      assert ss[k := s][..n] == ss[..n];
    } else {
      assert ss[k := s][..n] == ss[..n][k := s];
      WorkUpdate(ss[..n], k, s);
    }
  }

  lemma {:induction false} Oldest(ss: seq<Sender>) returns (k: nat)
    requires Live(ss) > 0
    ensures k < |ss| && ss[k].phase != Done && forall j :: 0 <= j < k ==> ss[j].phase == Done
  {
    var init := ss[..|ss| - 1];
    if Live(init) > 0 {
      k := Oldest(init);
    } else {
      LiveZero(init);
      assert forall j :: 0 <= j < |init| ==> ss[j] == init[j];
      k := |ss| - 1;
    }
  }

  /** The step the oldest unfinished sender can take; a send returns what the server answers. */
  function NextStep(b: Batcher, k: nat, answer: nat -> Option<Failure>): Event
    requires k < |b.senders|
  {
    match b.senders[k].phase
    case Waiting => Receives(k)
    case Sending => Returns(k, answer(k))
    case Recording => Records(k)
    case Closing => Closes(k)
    case _ => Exits(k)
  }

  /** While a sender is unfinished, the oldest one has an enabled step and the step is progress. */
  lemma OldestCanMove(b: Batcher, k: nat, answer: nat -> Option<Failure>)
    requires Inv(b) && k < |b.senders| && b.senders[k].phase != Done
    requires forall j :: 0 <= j < k ==> b.senders[j].phase == Done
    ensures Work(BatcherStep(b, NextStep(b, k, answer)).senders) < Work(b.senders)
  {
    OpenGateMeansOldest(b, k);
    assert b.senders[k].phase == Recording ==> b.senders[k].outcome.Refused?;
    hide Inv;
    NextStepDescends(b, k, answer);
    WorkUpdate(b.senders, k, BatcherStep(b, NextStep(b, k, answer)).senders[k]);
  }

  lemma NextStepDescends(b: Batcher, k: nat, answer: nat -> Option<Failure>)
    requires k < |b.senders| && b.senders[k].phase != Done
    requires b.senders[k].phase == Waiting ==> b.senders[k].prev in b.closed
    requires b.senders[k].phase == Recording ==> b.senders[k].outcome.Refused?
    ensures
      var ss := BatcherStep(b, NextStep(b, k, answer)).senders;
      && |ss| == |b.senders| && ss == b.senders[k := ss[k]]
      && Rank(ss[k].phase) < Rank(b.senders[k].phase)
  {
  }

  function AfterSteps(b: Batcher, es: seq<Event>): Batcher
    decreases |es|
  {
    if es == [] then b else AfterSteps(BatcherStep(b, es[0]), es[1..])
  }

  predicate OfSender(e: Event) { e.Receives? || e.Returns? || e.Records? || e.Closes? || e.Exits? }

  /** No deadlock. From every reachable state the senders alone, whatever the server answers, can
      finish every send: the wait group empties and all flushed bytes have been passed on. */
  lemma {:induction false} SendersDrain(b: Batcher, answer: nat -> Option<Failure>) returns (es: seq<Event>)
    requires Inv(b)
    ensures forall i :: 0 <= i < |es| ==> OfSender(es[i])
    ensures |es| <= Work(b.senders)
    ensures AfterSteps(b, es).running == 0
    ensures Concat(AfterSteps(b, es).log) == Payload(AfterSteps(b, es).senders)
    decreases Work(b.senders)
  {
    if Live(b.senders) == 0 {
      DoneMeansDrained(b);
      es := [];
    } else {
      var k := Oldest(b.senders);
      var e := NextStep(b, k, answer);
      OldestCanMove(b, k, answer);
      BatcherStepKeepsInv(b, e);
      var rest := SendersDrain(BatcherStep(b, e), answer);
      es := [e] + rest;
      assert es[1..] == rest;
    }
  }

  /** A step of a sender that changes anything is progress. */
  lemma SenderStepDescends(b: Batcher, e: Event)
    requires OfSender(e) && BatcherStep(b, e) != b
    ensures Work(BatcherStep(b, e).senders) < Work(b.senders)
  {
    var k := SenderOf(e);
    var c := BatcherStep(b, e);
    assert k < |b.senders| && c.senders == b.senders[k := c.senders[k]] && Rank(c.senders[k].phase) < Rank(b.senders[k].phase);
    hide BatcherStep;
    WorkUpdate(b.senders, k, c.senders[k]);
  }

  function SenderOf(e: Event): nat
    requires OfSender(e)
  {
    match e
    case Receives(k) => k
    case Returns(k, _) => k
    case Records(k) => k
    case Closes(k) => k
    case Exits(k) => k
  }

  /** No sender has a step that changes anything. */
  ghost predicate Stuck(b: Batcher) { forall e: Event :: OfSender(e) ==> BatcherStep(b, e) == b }

  lemma LiveMeansMoving(b: Batcher)
    requires Inv(b) && Live(b.senders) > 0
    ensures !Stuck(b)
  {
    var answer: nat -> Option<Failure> := _ => None;
    var k := Oldest(b.senders);
    OldestCanMove(b, k, answer);
    var e := NextStep(b, k, answer);
    assert OfSender(e) && BatcherStep(b, e) != b;
  }

  lemma DoneMeansDrained(b: Batcher)
    requires Inv(b) && Live(b.senders) == 0
    ensures b.running == 0 && Concat(b.log) == Payload(b.senders)
  {
    LiveZero(b.senders);
    assert b.senders != [] ==> b.senders[|b.senders| - 1].phase != Waiting;
    LogIsPayload(b, |b.log|);
    assert b.log[..|b.log|] == b.log && b.senders[..|b.log|] == b.senders;
  }

  /** Senders are stuck only when all of them are done. */
  lemma StuckMeansDrained(b: Batcher)
    requires Inv(b) && Stuck(b)
    ensures b.running == 0 && Concat(b.log) == Payload(b.senders)
  {
    hide Inv, Stuck;
    if Live(b.senders) > 0 {
      LiveMeansMoving(b);
    } else {
      DoneMeansDrained(b);
    }
  }

  /** Every event is a sender's and changes something. */
  ghost predicate SenderRun(b: Batcher, es: seq<Event>)
    decreases |es|
  {
    es != [] ==> OfSender(es[0]) && BatcherStep(b, es[0]) != b && SenderRun(BatcherStep(b, es[0]), es[1..])
  }

  /** Every run of senders alone ends, in whatever order they move and whatever the server answers,
      and where none can move any more the wait group is empty and all flushed bytes are passed on. */
  lemma {:induction false} EverySenderRunDrains(b: Batcher, es: seq<Event>)
    requires Inv(b) && SenderRun(b, es)
    ensures |es| <= Work(b.senders)
    ensures Stuck(AfterSteps(b, es)) ==>
      AfterSteps(b, es).running == 0 && Concat(AfterSteps(b, es).log) == Payload(AfterSteps(b, es).senders)
    decreases |es|
  {
    hide Inv, Stuck, BatcherStep;
    if es == [] {
      if Stuck(b) {
        StuckMeansDrained(b);
      }
    } else {
      SenderStepDescends(b, es[0]);
      BatcherStepKeepsInv(b, es[0]);
      EverySenderRunDrains(BatcherStep(b, es[0]), es[1..]);
    }
  }

  // ----- every waiting caller can return

  lemma {:induction false} SendersLeaveWaiters(v: World, es: seq<Event>)
    requires forall i :: 0 <= i < |es| ==> OfSender(es[i])
    ensures After(v, es) == World(AfterSteps(v.b, es), v.waiters)
    decreases |es|
  {
    hide BatcherStep;
    if es != [] {
      SendersLeaveWaiters(Step(v, es[0]), es[1..]);
    }
  }

  /** A caller passes exactly while the wait group is empty, and then returns the first failure. */
  lemma WaiterPasses(v: World, i: nat)
    requires i < |v.waiters| && v.waiters[i].stage == Blocked
    ensures Step(v, WaitPasses(i)).waiters[i].stage == (if v.b.running == 0 then Passed else Blocked)
    ensures v.b.running == 0 ==>
      var end := After(v, [WaitPasses(i), WaitReturns(i)]);
      |end.waiters| == |v.waiters| && end.waiters[i].stage == Answered(v.b.sendErr)
  {
    var es := [WaitPasses(i), WaitReturns(i)];
    assert es[1..] == [WaitReturns(i)] && es[1..][1..] == [];
    assert After(v, es) == After(Step(Step(v, es[0]), es[1]), []);
  }

  /** FlushAndWait returns. From every reachable state the senders alone, whatever the server answers,
      let a blocked caller return. */
  lemma FlushAndWaitReturns(batchSize: nat, es: seq<Event>, i: nat, answer: nat -> Option<Failure>) returns (rest: seq<Event>)
    requires
      var v := After(Start(batchSize), es);
      i < |v.waiters| && v.waiters[i].stage == Blocked
    ensures
      var end := After(Start(batchSize), es + rest);
      i < |end.waiters| && end.waiters[i].stage == Answered(end.b.sendErr)
  {
    hide Inv, BatcherStep;
    var v := After(Start(batchSize), es);
    ReachableInv(batchSize, es);
    StepOfWorld(v, Flush);
    var drain := SendersDrain(v.b, answer);
    SendersLeaveWaiters(v, drain);
    var w := After(v, drain);
    WaiterPasses(w, i);
    var last := [WaitPasses(i), WaitReturns(i)];
    rest := drain + last;
    AfterJoin(Start(batchSize), es, rest);
    AfterJoin(v, drain, last);
    WaitsLeaveBatcher(w, i);
  }

  lemma WaitsLeaveBatcher(v: World, i: nat)
    ensures After(v, [WaitPasses(i), WaitReturns(i)]).b == v.b
  {
    var es := [WaitPasses(i), WaitReturns(i)];
    assert es[1..] == [WaitReturns(i)] && es[1..][1..] == [];
    assert After(v, es) == After(Step(Step(v, es[0]), es[1]), []);
  }

  // ----- payload size

  ghost predicate Sized(b: Batcher, m: nat) {
    && 0 < b.batchSize && |b.pending| < b.batchSize
    && (forall i :: 0 <= i < |b.pending| ==> |b.pending[i]| <= m)
    && (forall k :: 0 <= k < |b.senders| ==> |b.senders[k].chunk| <= b.batchSize * m)
  }

  lemma {:induction false} ConcatSize(chunks: seq<Bytes>, m: nat)
    requires forall i :: 0 <= i < |chunks| ==> |chunks[i]| <= m
    ensures |Concat(chunks)| <= |chunks| * m
  {
    if chunks != [] {
      ConcatSize(chunks[..|chunks| - 1], m);
      assert |chunks| * m == (|chunks| - 1) * m + m;
    }
  }

  lemma TimesMonotone(a: nat, b: nat, m: nat)
    requires a <= b
    ensures a * m <= b * m
  {
  }

  lemma FlushKeepsSized(b: Batcher, m: nat)
    requires 0 < b.batchSize && |b.pending| <= b.batchSize
    requires forall i :: 0 <= i < |b.pending| ==> |b.pending[i]| <= m
    requires forall k :: 0 <= k < |b.senders| ==> |b.senders[k].chunk| <= b.batchSize * m
    ensures Sized(Flushed(b), m)
  {
    ConcatSize(b.pending, m);
    TimesMonotone(|b.pending|, b.batchSize, m);
    hide Concat;
    ghost var most := b.batchSize * m;
    ghost var c := Flushed(b);
    assert c.batchSize == b.batchSize;
    forall k | 0 <= k < |c.senders|
      ensures |c.senders[k].chunk| <= most
    {
      assert k < |b.senders| ==> c.senders[k] == b.senders[k];
    }
  }

  lemma StepKeepsSized(b: Batcher, e: Event, m: nat)
    requires Sized(b, m) && (e.Add? ==> |e.chunk| <= m)
    ensures Sized(BatcherStep(b, e), m) && BatcherStep(b, e).batchSize == b.batchSize
  {
    FlushKeepsSized(b, m);
    if e.Add? && !b.cancelled {
      FlushKeepsSized(b.(pending := b.pending + [e.chunk], accepted := b.accepted + e.chunk), m);
    }
  }

  lemma {:induction false} RunKeepsSized(v: World, es: seq<Event>, m: nat)
    requires Sized(v.b, m) && forall i :: 0 <= i < |es| && es[i].Add? ==> |es[i].chunk| <= m
    ensures Sized(After(v, es).b, m) && After(v, es).b.batchSize == v.b.batchSize
    decreases |es|
  {
    hide Sized, BatcherStep;
    if es != [] {
      StepKeepsSized(v.b, es[0], m);
      RunKeepsSized(Step(v, es[0]), es[1..], m);
    }
  }

  const WS_STDOUT_CHUNK_BYTES := 32 * 1024
  const WS_STDOUT_BATCH_CHUNKS := 10
  const WS_MAX_STDOUT_MESSAGE_BYTES := (WS_STDOUT_CHUNK_BYTES * WS_STDOUT_BATCH_CHUNKS + 2) / 3 * 4 + 1024

  function EncodedLen(n: nat): nat { (n + 2) / 3 * 4 }

  /** The wire sizing contract: with the default batch size and reads of at most one stdout
      chunk, every payload ever sent, base64-encoded, leaves the JSON envelope its 1024 bytes. */
  lemma PayloadsFitTheWire(es: seq<Event>, k: nat)
    requires forall i :: 0 <= i < |es| && es[i].Add? ==> |es[i].chunk| <= WS_STDOUT_CHUNK_BYTES
    requires k < |After(Start(WS_STDOUT_BATCH_CHUNKS), es).b.log|
    ensures EncodedLen(|After(Start(WS_STDOUT_BATCH_CHUNKS), es).b.log[k]|) + 1024 <= WS_MAX_STDOUT_MESSAGE_BYTES
  {
    RunKeepsSized(Start(WS_STDOUT_BATCH_CHUNKS), es, WS_STDOUT_CHUNK_BYTES);
    ReachableInv(WS_STDOUT_BATCH_CHUNKS, es);
    var b := After(Start(WS_STDOUT_BATCH_CHUNKS), es).b;
    assert b.log[k] == b.senders[k].chunk;
  }
}
