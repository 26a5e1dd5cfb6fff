/**
 * The client's wait for a job (cmd/cli/wait.go). Instants and durations are integers of
 * nanoseconds; the server and the clock answer from a script of rounds.
 */
module WaitLoop {
  import opened Options

  datatype Status = Unread | Pending | Queued | Running | Completed | FailedJob | Cancelled | TimedOut

  /** The part of a job's status the loop reads. */
  datatype Job = Job(status: Status, startedAt: Option<int>, noWorkerDeadline: Option<int>)

  const VERDICT_GRACE := 5_000_000_000

  /** The zero instant, which stands for the bound of a wait that has none. */
  const ZERO_INSTANT := -62_135_596_800_000_000_000

  predicate IsTerminal(s: Status) { s == Completed || s == FailedJob || s == Cancelled || s == TimedOut }

  // ----- the bound

  function ClientWaitDeadline(now: int, timeout: int, pollTimeout: int, status: Status, startedAt: Option<int>,
                              noWorkerDeadline: Option<int>): Option<int>
  {
    var budget :=
      if timeout > 0 && status != Queued then Some((if startedAt.Some? then startedAt.value else now) + timeout) else None;
    var bounded :=
      if noWorkerDeadline.Some? && (budget.None? || noWorkerDeadline.value > budget.value) then noWorkerDeadline else budget;
    if bounded.Some? then Some(bounded.value + VERDICT_GRACE)
    else if pollTimeout > 0 && status == Pending then Some(now + pollTimeout + VERDICT_GRACE)
    else None
  }

  predicate ExtendForNoWorkerDeadline(exhausted: int, noWorkerDeadline: Option<int>) {
    noWorkerDeadline.Some? && noWorkerDeadline.value > exhausted
  }

  predicate ExtendForStartedAt(exhausted: int, startedAt: Option<int>, timeout: int) {
    startedAt.Some? && (timeout <= 0 || startedAt.value + timeout + VERDICT_GRACE > exhausted)
  }

  predicate ExtendForQueued(status: Status) { status == Queued }

  predicate Extends(exhausted: int, job: Job, timeout: int) {
    || ExtendForNoWorkerDeadline(exhausted, job.noWorkerDeadline)
    || ExtendForStartedAt(exhausted, job.startedAt, timeout)
    || ExtendForQueued(job.status)
  }

  /** The bound of a snapshot: the latest of the applicable ones, and the poll cap only for want of
      any, each with five seconds of grace. */
  lemma BoundIsTheLatest(now: int, timeout: int, pollTimeout: int, job: Job)
    ensures var d := ClientWaitDeadline(now, timeout, pollTimeout, job.status, job.startedAt, job.noWorkerDeadline);
            var anchored := timeout > 0 && job.status != Queued;
            var anchor := if job.startedAt.Some? then job.startedAt.value else now;
            && (d.Some? <==> anchored || job.noWorkerDeadline.Some? || (pollTimeout > 0 && job.status == Pending))
            && (job.noWorkerDeadline.Some? ==> d.value >= job.noWorkerDeadline.value + 5_000_000_000)
            && (anchored ==> d.value >= anchor + timeout + 5_000_000_000)
            && (d.Some? ==>
                || (anchored && d.value == anchor + timeout + 5_000_000_000)
                || (job.noWorkerDeadline.Some? && d.value == job.noWorkerDeadline.value + 5_000_000_000)
                || (!anchored && job.noWorkerDeadline.None? && d.value == now + pollTimeout + 5_000_000_000))
  {
  }

  /** A bound computed from a snapshot is extended on that very snapshot exactly for a queued job,
      and for a job with a start time when no --timeout was given. */
  lemma SnapshotExtends(now: int, timeout: int, pollTimeout: int, job: Job)
    requires ClientWaitDeadline(now, timeout, pollTimeout, job.status, job.startedAt, job.noWorkerDeadline).Some?
    ensures Extends(ClientWaitDeadline(now, timeout, pollTimeout, job.status, job.startedAt, job.noWorkerDeadline).value,
                    job, timeout)
      <==> job.status == Queued || (timeout <= 0 && job.startedAt.Some?)
  {
    BoundIsTheLatest(now, timeout, pollTimeout, job);
  }

  // ----- the loop

  datatype Wait = Finished(job: Job) | RetriesExhausted | DeadlineExceeded | OtherError

  /** One round: the status read before the wait, the clock, how the wait ended, and the status read
      after it. */
  datatype Round = Round(submitted: Option<Job>, now: int, wait: Wait, final: Option<Job>)

  datatype Outcome = Ended(job: Job) | Disconnected | Failed | Detached | CancelledByClient | StillWaiting

  function ExitCode(o: Outcome): int {
    if o.Ended? then 0 else if o.Disconnected? || o.Detached? then 2 else 1
  }

  function BoundOf(r: Round, timeout: int, pollTimeout: int): Option<int> {
    var job := if r.submitted.Some? then r.submitted.value else Job(Unread, None, None);
    ClientWaitDeadline(r.now, timeout, pollTimeout, job.status, job.startedAt, job.noWorkerDeadline)
  }

  function Exhausted(r: Round, timeout: int, pollTimeout: int): int {
    var d := BoundOf(r, timeout, pollTimeout);
    if d.Some? then d.value else ZERO_INSTANT
  }

  /** How the loop leaves the round, or StillWaiting when it goes round again. */
  function RoundOutcome(r: Round, timeout: int, pollTimeout: int, cancels: bool): Outcome {
    match r.wait
    case Finished(job) => Ended(job)
    case RetriesExhausted => Disconnected
    case OtherError => Failed
    case DeadlineExceeded =>
      if r.final.Some? && IsTerminal(r.final.value.status) then Ended(r.final.value)
      else if r.final.Some? && Extends(Exhausted(r, timeout, pollTimeout), r.final.value, timeout) then StillWaiting
      else if cancels then CancelledByClient
      else Detached
  }

  function LoopOutcome(script: seq<Round>, timeout: int, pollTimeout: int, cancels: bool): Outcome {
    if script == [] then StillWaiting
    else
      var o := RoundOutcome(script[0], timeout, pollTimeout, cancels);
      if o.StillWaiting? then LoopOutcome(script[1..], timeout, pollTimeout, cancels) else o
  }

  /** jobCancels counts the CancelJob requests the loop sends. */
  method WaitForJobLoop(script: seq<Round>, timeout: int, pollTimeout: int, cancels: bool)
    returns (job: Option<Job>, code: int, jobCancels: nat, rounds: nat)
    ensures rounds <= |script|
    ensures var o := LoopOutcome(script, timeout, pollTimeout, cancels);
            && (o.StillWaiting? ==> rounds == |script| && jobCancels == 0)
            && (!o.StillWaiting? ==>
                && code == ExitCode(o)
                && job == (if o.Ended? then Some(o.job) else None)
                && jobCancels == (if o.CancelledByClient? then 1 else 0)
                && rounds >= 1
                && o == RoundOutcome(script[rounds - 1], timeout, pollTimeout, cancels)
                && forall k :: 0 <= k < rounds - 1 ==> RoundOutcome(script[k], timeout, pollTimeout, cancels).StillWaiting?)
  {
    hide ClientWaitDeadline, Extends;
    job, code, jobCancels, rounds := None, 0, 0, 0;
    while rounds < |script|
      invariant rounds <= |script|
      invariant job.None? && jobCancels == 0
      invariant forall k :: 0 <= k < rounds ==> RoundOutcome(script[k], timeout, pollTimeout, cancels).StillWaiting?
      invariant LoopOutcome(script, timeout, pollTimeout, cancels)
             == LoopOutcome(script[rounds..], timeout, pollTimeout, cancels)
    {
      var r := script[rounds];
      assert script[rounds..][1..] == script[rounds + 1..];
      rounds := rounds + 1;
      var read := if r.submitted.Some? then r.submitted.value else Job(Unread, None, None);
      var deadline := ClientWaitDeadline(r.now, timeout, pollTimeout, read.status, read.startedAt, read.noWorkerDeadline);
      var waitDeadline := if deadline.Some? then deadline.value else ZERO_INSTANT;
      if r.wait.Finished? {
        return Some(r.wait.job), 0, 0, rounds;
      }
      if r.wait.RetriesExhausted? {
        return None, 2, 0, rounds;
      }
      if !r.wait.DeadlineExceeded? {
        return None, 1, 0, rounds;
      }
      if r.final.Some? && IsTerminal(r.final.value.status) {
        return r.final, 0, 0, rounds;
      }
      if r.final.Some? && Extends(waitDeadline, r.final.value, timeout) {
        continue;
      }
      if !cancels {
        return None, 2, 0, rounds;
      }
      return None, 1, 1, rounds;
    }
  }

  /** The client gives up on a job it can read exactly when the job is neither finished nor queued,
      no verdict is due after the bound, and it either has not started or its whole budget with the
      grace lies before the bound. */
  lemma GivesUpExactly(r: Round, timeout: int, pollTimeout: int, cancels: bool)
    requires r.wait.DeadlineExceeded? && r.final.Some?
    ensures var job := r.final.value;
            var bound := Exhausted(r, timeout, pollTimeout);
            (RoundOutcome(r, timeout, pollTimeout, cancels) == (if cancels then CancelledByClient else Detached)
             <==> && !IsTerminal(job.status) && job.status != Queued
                  && (job.noWorkerDeadline.Some? ==> job.noWorkerDeadline.value <= bound)
                  && (job.startedAt.Some? ==> timeout > 0 && job.startedAt.value + timeout + VERDICT_GRACE <= bound))
  {
    hide ClientWaitDeadline;
  }

  /** Round k gave up on its job although it could be read: unfinished, unqueued, with no verdict due
      after the bound, and unstarted or past its whole budget. */
  ghost predicate GaveUpAt(script: seq<Round>, k: int, timeout: int, pollTimeout: int) {
    && 0 <= k < |script| && script[k].wait.DeadlineExceeded?
    && (script[k].final.Some? ==>
          var job := script[k].final.value;
          var bound := Exhausted(script[k], timeout, pollTimeout);
          && !IsTerminal(job.status) && job.status != Queued
          && (job.noWorkerDeadline.Some? ==> job.noWorkerDeadline.value <= bound)
          && (job.startedAt.Some? ==> timeout > 0 && job.startedAt.value + timeout + VERDICT_GRACE <= bound))
    && forall j :: 0 <= j < k ==> Extended(script[j], timeout, pollTimeout)
  }

  /** The round ended on an exhausted bound that the job it then read extends. */
  ghost predicate Extended(r: Round, timeout: int, pollTimeout: int) {
    && r.wait.DeadlineExceeded? && r.final.Some? && !IsTerminal(r.final.value.status)
    && Extends(Exhausted(r, timeout, pollTimeout), r.final.value, timeout)
  }

  /** Over every script: the loop gives up exactly when some round does, after rounds that were all
      extended. */
  lemma {:induction false} LoopGivesUpExactly(script: seq<Round>, timeout: int, pollTimeout: int, cancels: bool)
    ensures LoopOutcome(script, timeout, pollTimeout, cancels) == (if cancels then CancelledByClient else Detached)
      <==> exists k :: GaveUpAt(script, k, timeout, pollTimeout)
  {
    hide Exhausted, Extends;
    if script != [] {
      var rest := script[1..];
      LoopGivesUpExactly(rest, timeout, pollTimeout, cancels);
      FirstRound(script[0], timeout, pollTimeout, cancels);
      hide RoundOutcome;
      if k :| GaveUpAt(rest, k, timeout, pollTimeout) {
        GaveUpLater(script, k, timeout, pollTimeout);
      }
      if k :| GaveUpAt(script, k, timeout, pollTimeout) {
        if k > 0 {
          GaveUpLater(script, k - 1, timeout, pollTimeout);
        }
      }
      GaveUpNow(script, timeout, pollTimeout);
    }
  }

  /** A round goes on exactly when its bound ran out on a readable, unfinished job that is queued, has a
      verdict due after the bound, or has started and has no budget or one that, with five seconds of
      grace, outlasts the bound. */
  lemma ExtendedExactly(r: Round, timeout: int, pollTimeout: int)
    ensures Extended(r, timeout, pollTimeout)
      <==> && r.wait.DeadlineExceeded? && r.final.Some?
           && var job, bound := r.final.value, Exhausted(r, timeout, pollTimeout);
              && job.status !in {Completed, FailedJob, Cancelled, TimedOut}
              && (|| job.status == Queued
                  || (job.noWorkerDeadline.Some? && job.noWorkerDeadline.value > bound)
                  || (job.startedAt.Some? && (timeout <= 0 || job.startedAt.value + timeout + 5_000_000_000 > bound)))
  {
    hide Exhausted;
  }

  /** A wait without a bound that still reports an exceeded deadline is compared with the first instant of
      the year 1, so a verdict or a started budget of our era extends it. */
  lemma UnboundedIsZero(r: Round, timeout: int, pollTimeout: int, instant: int)
    requires BoundOf(r, timeout, pollTimeout).None? && instant >= 0
    ensures Exhausted(r, timeout, pollTimeout) == -62_135_596_800 * 1_000_000_000
    ensures ExtendForNoWorkerDeadline(Exhausted(r, timeout, pollTimeout), Some(instant))
    ensures ExtendForStartedAt(Exhausted(r, timeout, pollTimeout), Some(instant), timeout)
  {
    hide ClientWaitDeadline;
  }

  /** How the loop ends: by its first round that does not go on. A finished job exits with 0 however the
      job ended, an unreachable server and a detached wait with 2, any other error and a cancelled job
      with 1; and without such a round the client is still waiting. */
  lemma {:induction false} LoopLeaves(script: seq<Round>, timeout: int, pollTimeout: int, cancels: bool, k: nat)
    requires k <= |script| && forall j :: 0 <= j < k ==> Extended(script[j], timeout, pollTimeout)
    requires k < |script| ==> !Extended(script[k], timeout, pollTimeout)
    ensures
      var o := LoopOutcome(script, timeout, pollTimeout, cancels);
      if k == |script| then o == StillWaiting
      else
        match script[k].wait
        case Finished(job) => o == Ended(job) && ExitCode(o) == 0
        case RetriesExhausted => o == Disconnected && ExitCode(o) == 2
        case OtherError => o == Failed && ExitCode(o) == 1
        case DeadlineExceeded =>
          if script[k].final.Some? && script[k].final.value.status in {Completed, FailedJob, Cancelled, TimedOut}
          then o == Ended(script[k].final.value) && ExitCode(o) == 0
          else if cancels then o == CancelledByClient && ExitCode(o) == 1
          else o == Detached && ExitCode(o) == 2
    decreases |script|
  {
    hide Exhausted, Extends;
    if script != [] {
      FirstRound(script[0], timeout, pollTimeout, cancels);
      if k > 0 {
        assert forall j :: 0 <= j < |script| - 1 ==> script[1..][j] == script[j + 1];
        LoopLeaves(script[1..], timeout, pollTimeout, cancels, k - 1);
      }
    }
  }

  lemma FirstRound(r: Round, timeout: int, pollTimeout: int, cancels: bool)
    ensures RoundOutcome(r, timeout, pollTimeout, cancels).StillWaiting? <==> Extended(r, timeout, pollTimeout)
    ensures RoundOutcome(r, timeout, pollTimeout, cancels) == (if cancels then CancelledByClient else Detached)
      <==> GaveUpAt([r], 0, timeout, pollTimeout)
  {
    hide Exhausted;
  }

  lemma GaveUpNow(script: seq<Round>, timeout: int, pollTimeout: int)
    requires script != []
    ensures GaveUpAt(script, 0, timeout, pollTimeout) <==> GaveUpAt([script[0]], 0, timeout, pollTimeout)
    ensures GaveUpAt(script, 0, timeout, pollTimeout) ==> !Extended(script[0], timeout, pollTimeout)
  {
    hide Exhausted;
  }

  lemma GaveUpLater(script: seq<Round>, k: int, timeout: int, pollTimeout: int)
    requires script != [] && k >= 0
    ensures GaveUpAt(script, k + 1, timeout, pollTimeout)
      <==> Extended(script[0], timeout, pollTimeout) && GaveUpAt(script[1..], k, timeout, pollTimeout)
  {
    hide Exhausted, Extended;
    assert forall j :: 0 <= j < |script| - 1 ==> script[1..][j] == script[j + 1];
    assert forall j :: 0 < j < |script| ==> script[j] == script[1..][j - 1];
  }

  /** A verdict the wait was bounded by has had its whole grace when the client gives up. */
  lemma GraceIsKept(r: Round, timeout: int, pollTimeout: int, cancels: bool)
    requires r.submitted.Some? && r.final.Some? && r.final.value.noWorkerDeadline.Some?
    requires r.submitted.value.noWorkerDeadline == r.final.value.noWorkerDeadline
    ensures r.final.value.noWorkerDeadline.value + VERDICT_GRACE <= Exhausted(r, timeout, pollTimeout)
    ensures !ExtendForNoWorkerDeadline(Exhausted(r, timeout, pollTimeout), r.final.value.noWorkerDeadline)
  {
    BoundIsTheLatest(r.now, timeout, pollTimeout, r.submitted.value);
  }

  /** The client gives up with less than the grace after a verdict exactly when the verdict falls
      inside the last grace period before the bound and nothing else keeps it waiting: the extension
      compares the bare verdict with a bound that already contains the grace. */
  lemma GraceIsCutExactly(r: Round, timeout: int, pollTimeout: int, cancels: bool)
    requires r.wait.DeadlineExceeded? && r.final.Some? && r.final.value.noWorkerDeadline.Some?
    ensures var job := r.final.value;
            var verdict := job.noWorkerDeadline.value;
            var bound := Exhausted(r, timeout, pollTimeout);
            (RoundOutcome(r, timeout, pollTimeout, cancels) == (if cancels then CancelledByClient else Detached)
             && bound < verdict + VERDICT_GRACE
             <==> && bound - VERDICT_GRACE < verdict <= bound
                  && !IsTerminal(job.status) && job.status != Queued
                  && (job.startedAt.Some? ==> timeout > 0 && job.startedAt.value + timeout + VERDICT_GRACE <= bound))
  {
    GivesUpExactly(r, timeout, pollTimeout, cancels);
    hide RoundOutcome, Exhausted;
  }

  /** A verdict that loses grace was attached, or moved, after the bound had been computed. */
  lemma CutVerdictIsNews(r: Round, timeout: int, pollTimeout: int)
    requires r.final.Some? && r.final.value.noWorkerDeadline.Some?
    requires Exhausted(r, timeout, pollTimeout) < r.final.value.noWorkerDeadline.value + VERDICT_GRACE
    ensures r.submitted.None? || r.submitted.value.noWorkerDeadline != r.final.value.noWorkerDeadline
  {
    hide ClientWaitDeadline;
    if r.submitted.Some? && r.submitted.value.noWorkerDeadline == r.final.value.noWorkerDeadline {
      GraceIsKept(r, timeout, pollTimeout, true);
    }
  }

  lemma GraceCanBeCut() returns (r: Round)
    ensures RoundOutcome(r, 0, 600_000_000_000, true) == CancelledByClient
    ensures r.submitted.Some? && r.submitted.value.status == Pending
    ensures r.final.Some? && r.final.value.noWorkerDeadline == BoundOf(r, 0, 600_000_000_000)
  {
    var due := 600_000_000_000 + VERDICT_GRACE;
    r := Round(Some(Job(Pending, None, None)), 0, DeadlineExceeded, Some(Job(Pending, None, Some(due))));
  }

  // ----- termination

  /** The round ended with something the bound was not computed from, or with a queued job. */
  predicate News(r: Round) {
    r.submitted.None? || r.final.None? || r.final.value != r.submitted.value || r.final.value.status == Queued
  }

  /** With a --timeout an extension needs news. */
  lemma ExtensionNeedsNews(r: Round, timeout: int, pollTimeout: int, cancels: bool)
    requires timeout > 0 && RoundOutcome(r, timeout, pollTimeout, cancels).StillWaiting?
    ensures News(r)
  {
    hide ClientWaitDeadline, Extends;
    if !News(r) {
      BoundIsTheLatest(r.now, timeout, pollTimeout, r.submitted.value);
      SnapshotExtends(r.now, timeout, pollTimeout, r.submitted.value);
    }
  }

  function NewsCount(script: seq<Round>): nat {
    if script == [] then 0 else (if News(script[0]) then 1 else 0) + NewsCount(script[1..])
  }

  /** With a --timeout the wait outlasts its bound only as often as there is news. */
  lemma {:induction false} LoopEnds(script: seq<Round>, timeout: int, pollTimeout: int, cancels: bool)
    requires timeout > 0 && NewsCount(script) < |script|
    ensures !LoopOutcome(script, timeout, pollTimeout, cancels).StillWaiting?
  {
    hide News, RoundOutcome;
    if RoundOutcome(script[0], timeout, pollTimeout, cancels).StillWaiting? {
      ExtensionNeedsNews(script[0], timeout, pollTimeout, cancels);
      LoopEnds(script[1..], timeout, pollTimeout, cancels);
    }
  }

  /** A job that no longer changes extends the wait at most once. */
  lemma UnchangingJobExtendsOnce(script: seq<Round>, timeout: int, pollTimeout: int, cancels: bool, job: Job)
    requires timeout > 0 && job.status != Queued && |script| == 2
    requires script[0].final == Some(job) && script[1].submitted == Some(job) && script[1].final == Some(job)
    ensures !LoopOutcome(script, timeout, pollTimeout, cancels).StillWaiting?
  {
    hide RoundOutcome;
    assert NewsCount(script[1..][1..]) == 0;
    assert NewsCount(script[1..]) == 0;
    LoopEnds(script, timeout, pollTimeout, cancels);
  }

  /** Without a --timeout a pending job that carries a start time and a verdict is waited for without
      end: its bound is exhausted and extended on the same snapshot every time. */
  lemma {:induction false} StartedJobIsNeverGivenUp(script: seq<Round>, timeout: int, pollTimeout: int, cancels: bool)
    requires timeout <= 0
    requires forall k :: 0 <= k < |script| ==>
      && script[k].wait.DeadlineExceeded? && script[k].final.Some?
      && !IsTerminal(script[k].final.value.status) && script[k].final.value.startedAt.Some?
    ensures LoopOutcome(script, timeout, pollTimeout, cancels).StillWaiting?
  {
    hide ClientWaitDeadline;
    if script != [] {
      StartedJobIsNeverGivenUp(script[1..], timeout, pollTimeout, cancels);
    }
  }
}
