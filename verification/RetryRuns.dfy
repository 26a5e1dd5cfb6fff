/**
 * What a retry run promises, for every sequence of execution outcomes and every moment of
 * cancellation (pkg/worker/retry_executor.go).
 */
module RetryRuns {
  import opened Options
  import opened RetrySpec

  /** The events the audit trail accounts for. */
  function LogOf(env: Env, trail: seq<Entry>): seq<Event> {
    if trail == [] then [] else LogOf(env, trail[..|trail| - 1]) + Boundary(env, trail[|trail| - 1].args)
  }

  /** The k-th entry is the record of the k-th execution. */
  ghost predicate IsRecord(env: Env, e: Entry, k: nat) {
    && e.number == k + 1 && e.exec == env.execs(k) && e.encoder == env.encoderOf(e.args)
    && e.success == Inspect(env, k, e.encoder).success
    && (!e.success ==> e.error == Inspect(env, k, e.encoder).error)
  }

  /** The first n attempts all ran the encoder the user asked for. */
  ghost predicate Steady(env: Env, args: Args, trail: seq<Entry>, n: nat) {
    forall k :: 0 <= k < n && k < |trail| ==> trail[k].encoder == env.encoderOf(args)
  }

  ghost function StrategyAfter(env: Env, args: Args, trail: seq<Entry>, k: nat): Strategy
    requires k < |trail|
  {
    ApplyRetryStrategy(env, trail[k].args, trail[k].error, k + 1, Steady(env, args, trail, k + 1))
  }

  /** next are the arguments the strategy makes of the k-th attempt, which failed and may be retried,
      and the k-th entry lists what the strategy pruned. */
  ghost predicate Follows(env: Env, args: Args, trail: seq<Entry>, k: nat, next: Args)
    requires k < |trail|
  {
    var strategy := StrategyAfter(env, args, trail, k);
    && strategy.args == next && strategy.pruned == trail[k].pruned && strategy.stage != Exhausted
    && !StopsRetrying(trail[k])
  }

  ghost predicate Linked(env: Env, args: Args, trail: seq<Entry>, k: nat) {
    k + 1 < |trail| ==> Follows(env, args, trail, k, trail[k + 1].args)
  }

  ghost predicate Entries(env: Env, trail: seq<Entry>) {
    forall k :: 0 <= k < |trail| ==> IsRecord(env, trail[k], k) && trail[k].stage == DetermineStage(k + 1)
  }

  ghost predicate Links(env: Env, args: Args, trail: seq<Entry>) {
    forall k :: 0 <= k < |trail| ==> Linked(env, args, trail, k)
  }

  ghost predicate Recorded(env: Env, args: Args, s: Run) {
    && Entries(env, s.trail)
    && Links(env, args, s.trail)
    && s.log == LogOf(env, s.trail)
    && s.encoder == env.encoderOf(s.args)
    && s.userSelected == (Steady(env, args, s.trail, |s.trail|) && s.encoder == env.encoderOf(args))
    && (s.trail != [] ==> s.trail[0].args == args)
    && s.usedSoftware == (SoftwareSwitch(env, s.trail) || PendingSwitch(env, s.trail, s.encoder))
  }

  /** Some attempt ran another encoder than the one before it, and no hardware one. */
  ghost predicate SoftwareSwitch(env: Env, trail: seq<Entry>) {
    exists k :: 0 < k < |trail| && SwitchedAt(env, trail, k)
  }

  ghost predicate SwitchedAt(env: Env, trail: seq<Entry>, k: int)
    requires 0 < k < |trail|
  {
    trail[k].encoder != trail[k - 1].encoder && !env.isHardware(trail[k].encoder)
  }

  /** The encoder is a software one chosen after the last attempt. */
  ghost predicate PendingSwitch(env: Env, trail: seq<Entry>, encoder: string) {
    trail != [] && encoder != trail[|trail| - 1].encoder && !env.isHardware(encoder)
  }

  /** The run is about to make its next attempt. */
  ghost predicate Ready(env: Env, args: Args, s: Run) {
    if s.trail == [] then s.args == args
    else |s.trail| < env.maxRetries && Follows(env, args, s.trail, |s.trail| - 1, s.args)
  }

  /** The run ended with its last attempt. */
  ghost predicate Spent(env: Env, args: Args, s: Run) {
    && s.trail != [] && s.args == Last(s).args && Last(s).pruned == []
    && (StopsRetrying(Last(s)) || |s.trail| >= env.maxRetries
        || StrategyAfter(env, args, s.trail, |s.trail| - 1).stage == Exhausted)
  }

  lemma SteadyPrefix(env: Env, args: Args, a: seq<Entry>, b: seq<Entry>, n: nat)
    requires n <= |a| && n <= |b| && forall k :: 0 <= k < n ==> a[k].encoder == b[k].encoder
    ensures Steady(env, args, a, n) == Steady(env, args, b, n)
  {
    assert forall k :: 0 <= k < n ==> (a[k].encoder == env.encoderOf(args) <==> b[k].encoder == env.encoderOf(args));
  }

  lemma FollowsInLonger(env: Env, args: Args, a: seq<Entry>, b: seq<Entry>, k: nat, next: Args)
    requires k < |a| <= |b| && b[..k] == a[..k] && a[k].(pruned := []) == b[k].(pruned := [])
    ensures StrategyAfter(env, args, a, k) == StrategyAfter(env, args, b, k)
    ensures a[k] == b[k] ==> Follows(env, args, a, k, next) == Follows(env, args, b, k, next)
  {
    hide ApplyRetryStrategy, StopsRetrying;
    assert forall j :: 0 <= j < k ==> a[j] == a[..k][j] && b[j] == b[..k][j];
    SteadyPrefix(env, args, a, b, k + 1);
  }

  lemma LinksGrow(env: Env, args: Args, trail: seq<Entry>, e: Entry)
    requires Links(env, args, trail)
    requires trail == [] || Follows(env, args, trail, |trail| - 1, e.args)
    ensures Links(env, args, trail + [e])
  {
    hide Follows;
    var longer := trail + [e];
    assert longer[..|trail|] == trail;
    forall k | 0 <= k < |longer|
      ensures Linked(env, args, longer, k)
    {
      if k < |trail| {
        assert longer[..k] == trail[..k];
        FollowsInLonger(env, args, trail, longer, k, longer[k + 1].args);
        assert Linked(env, args, trail, k);
      }
    }
  }

  lemma EntryIsRecord(env: Env, s: Run, stage: Stage)
    requires s.encoder == env.encoderOf(s.args)
    ensures var t := Attempted(env, s, s.args, s.encoder, stage);
            var e := Last(t);
            && t == s.(trail := s.trail + [e], log := s.log + Boundary(env, s.args))
            && IsRecord(env, e, |s.trail|) && e.stage == stage && e.args == s.args && e.encoder == s.encoder && e.pruned == []
  {
    hide Inspect, Boundary;
  }

  lemma LogGrows(env: Env, trail: seq<Entry>, e: Entry)
    ensures LogOf(env, trail + [e]) == LogOf(env, trail) + Boundary(env, e.args)
  {
    hide Boundary;
    assert (trail + [e])[..|trail|] == trail;
  }

  lemma SteadyGrows(env: Env, args: Args, trail: seq<Entry>, e: Entry)
    ensures Steady(env, args, trail + [e], |trail| + 1)
         == (Steady(env, args, trail, |trail|) && e.encoder == env.encoderOf(args))
  {
    var longer := trail + [e];
    SteadyPrefix(env, args, trail, longer, |trail|);
    assert longer[|trail|] == e;
  }

  lemma SwitchGrows(env: Env, trail: seq<Entry>, e: Entry)
    ensures SoftwareSwitch(env, trail + [e]) == (SoftwareSwitch(env, trail) || PendingSwitch(env, trail, e.encoder))
    ensures !PendingSwitch(env, trail + [e], e.encoder)
  {
    var longer := trail + [e];
    if k :| 0 < k < |trail| && SwitchedAt(env, trail, k) {
      assert SwitchedAt(env, longer, k);
    }
    if PendingSwitch(env, trail, e.encoder) {
      assert SwitchedAt(env, longer, |trail|);
    }
    if k :| 0 < k < |longer| && SwitchedAt(env, longer, k) {
      assert k < |trail| ==> SwitchedAt(env, trail, k);
    }
  }

  lemma SameSwitches(env: Env, a: seq<Entry>, b: seq<Entry>)
    requires |a| == |b| && forall k :: 0 <= k < |a| ==> a[k].encoder == b[k].encoder
    ensures SoftwareSwitch(env, a) == SoftwareSwitch(env, b)
    ensures forall encoder :: PendingSwitch(env, a, encoder) == PendingSwitch(env, b, encoder)
  {
    if k :| 0 < k < |a| && SwitchedAt(env, a, k) {
      assert SwitchedAt(env, b, k);
    }
    if k :| 0 < k < |b| && SwitchedAt(env, b, k) {
      assert SwitchedAt(env, a, k);
    }
  }

  lemma AttemptKeepsRecord(env: Env, args: Args, s: Run)
    requires Recorded(env, args, s) && Ready(env, args, s)
    ensures var t := Attempted(env, s, s.args, s.encoder, DetermineStage(|s.trail| + 1));
            && Recorded(env, args, t) && t.args == Last(t).args && t.encoder == Last(t).encoder && Last(t).pruned == []
            && t.userSelected == Steady(env, args, t.trail, |t.trail|)
  {
    hide Attempted, LogOf, Steady, Links, Follows, IsRecord, DetermineStage, SoftwareSwitch, PendingSwitch;
    var t := Attempted(env, s, s.args, s.encoder, DetermineStage(|s.trail| + 1));
    EntryIsRecord(env, s, DetermineStage(|s.trail| + 1));
    LinksGrow(env, args, s.trail, Last(t));
    LogGrows(env, s.trail, Last(t));
    SteadyGrows(env, args, s.trail, Last(t));
    SwitchGrows(env, s.trail, Last(t));
  }

  lemma SameStop(a: Entry, b: Entry)
    requires a.(pruned := []) == b.(pruned := [])
    ensures StopsRetrying(a) == StopsRetrying(b) && a.success == b.success
  {
  }

  /** Naming what was pruned after the last attempt changes nothing else the trail says. */
  lemma PrunedLinks(env: Env, args: Args, trail: seq<Entry>, next: Strategy)
    requires trail != [] && Links(env, args, trail) && Entries(env, trail) && !StopsRetrying(trail[|trail| - 1])
    requires next == StrategyAfter(env, args, trail, |trail| - 1) && next.stage != Exhausted
    ensures var n := |trail| - 1;
            var pruned := trail[n := trail[n].(pruned := next.pruned)];
            && Links(env, args, pruned) && Follows(env, args, pruned, n, next.args) && Entries(env, pruned)
            && LogOf(env, pruned) == LogOf(env, trail)
            && Steady(env, args, pruned, |pruned|) == Steady(env, args, trail, |trail|)
            && SoftwareSwitch(env, pruned) == SoftwareSwitch(env, trail)
            && (forall encoder :: PendingSwitch(env, pruned, encoder) == PendingSwitch(env, trail, encoder))
  {
    hide StrategyAfter, StopsRetrying, Inspect, Steady, Boundary, SoftwareSwitch, PendingSwitch;
    var n := |trail| - 1;
    var pruned := trail[n := trail[n].(pruned := next.pruned)];
    assert pruned[..n] == trail[..n];
    FollowsInLonger(env, args, trail, pruned, n, next.args);
    SameStop(trail[n], pruned[n]);
    SteadyPrefix(env, args, trail, pruned, |trail|);
    SameSwitches(env, trail, pruned);
    forall k | 0 <= k < |pruned|
      ensures Linked(env, args, pruned, k)
    {
      if k < n {
        LinkedAfterPruning(env, args, trail, pruned, k);
      }
    }
  }

  lemma LinkedAfterPruning(env: Env, args: Args, trail: seq<Entry>, pruned: seq<Entry>, k: nat)
    requires |trail| == |pruned| && k + 1 < |trail| && pruned[..|trail| - 1] == trail[..|trail| - 1]
    requires pruned[|trail| - 1].args == trail[|trail| - 1].args && Linked(env, args, trail, k)
    ensures Linked(env, args, pruned, k)
  {
    hide Follows;
    var n := |trail| - 1;
    assert pruned[k] == pruned[..n][k] && trail[k] == trail[..n][k];
    assert pruned[..k] == pruned[..n][..k] && trail[..k] == trail[..n][..k];
    assert pruned[k + 1].args == trail[k + 1].args by {
      if k + 1 < n {
        assert pruned[k + 1] == pruned[..n][k + 1] && trail[k + 1] == trail[..n][k + 1];
      }
    }
    FollowsInLonger(env, args, trail, pruned, k, pruned[k + 1].args);
  }

  lemma SwitchKeepsRecord(env: Env, args: Args, t: Run, next: Strategy)
    requires Recorded(env, args, t) && t.trail != [] && t.encoder == Last(t).encoder
    requires t.userSelected == Steady(env, args, t.trail, |t.trail|)
    requires next == StrategyAfter(env, args, t.trail, |t.trail| - 1) && next.stage != Exhausted && !StopsRetrying(Last(t))
    ensures var u := Switched(env, t, next);
            && Recorded(env, args, u) && !Succeeded(u)
            && Follows(env, args, u.trail, |u.trail| - 1, u.args)
  {
    hide LogOf, Links, Entries, Follows, StrategyAfter, SoftwareSwitch;
    PrunedLinks(env, args, t.trail, next);
  }

  lemma OneAttemptKeepsRecord(env: Env, args: Args, s: Run)
    requires Recorded(env, args, s) && Ready(env, args, s) && |s.trail| < env.maxRetries
    ensures var step := OneAttempt(env, s, |s.trail| + 1);
            && Recorded(env, args, step.run) && |step.run.trail| == |s.trail| + 1
            && (step.stopped || |step.run.trail| >= env.maxRetries ==> Spent(env, args, step.run))
            && (!step.stopped && |step.run.trail| < env.maxRetries ==> Ready(env, args, step.run))
            && (!step.stopped ==> !Succeeded(step.run))
  {
    hide Recorded, Attempted, Switched, ApplyRetryStrategy, Steady;
    var t := Attempted(env, s, s.args, s.encoder, DetermineStage(|s.trail| + 1));
    AttemptKeepsRecord(env, args, s);
    if !StopsRetrying(Last(t)) && |t.trail| < env.maxRetries {
      var next := NextStrategy(env, t, |t.trail|);
      assert next == StrategyAfter(env, args, t.trail, |t.trail| - 1);
      if next.stage != Exhausted {
        SwitchKeepsRecord(env, args, t, next);
      }
    }
  }

  /** How the loop ends: it is spent, or it was cancelled on the way to an attempt. */
  lemma {:induction false} LoopEnds(env: Env, args: Args, s: Run, attempt: nat)
    requires Recorded(env, args, s) && Ready(env, args, s) && attempt == |s.trail| + 1 && !Succeeded(s)
    ensures var r := Retried(env, s, attempt);
            && Recorded(env, args, r)
            && |r.trail| <= (if env.maxRetries > |s.trail| then env.maxRetries else |s.trail|)
            && (Spent(env, args, r)
                || (Ready(env, args, r) && !Succeeded(r)
                    && (CancelledAt(env, |r.trail|) || (r.trail == [] && env.maxRetries <= 0))))
    decreases env.maxRetries - attempt
  {
    hide Recorded, OneAttempt, Spent, CancelledAt, Follows;
    if attempt <= env.maxRetries && !CancelledAt(env, attempt - 1) {
      OneAttemptKeepsRecord(env, args, s);
      var step := OneAttempt(env, s, attempt);
      if !step.stopped {
        if attempt < env.maxRetries {
          LoopEnds(env, args, step.run, attempt + 1);
        }
      }
    }
  }

  lemma StartIsRecorded(env: Env, args: Args)
    ensures Recorded(env, args, Start(env, args)) && Ready(env, args, Start(env, args))
  {
  }

  ghost function LoopRun(env: Env, args: Args): Run { Retried(env, Start(env, args), 1) }

  lemma LoopIsRecorded(env: Env, args: Args)
    ensures var r := LoopRun(env, args);
            && Recorded(env, args, r)
            && |r.trail| <= (if env.maxRetries > 0 then env.maxRetries else 0)
            && (Spent(env, args, r)
                || (Ready(env, args, r) && !Succeeded(r)
                    && (CancelledAt(env, |r.trail|) || (r.trail == [] && env.maxRetries <= 0))))
  {
    hide Recorded, Spent, Ready, Retried;
    StartIsRecorded(env, args);
    LoopEnds(env, args, Start(env, args), 1);
  }

  // ----- the whole run

  ghost function TrailOf(env: Env, args: Args): seq<Entry> { FinalRun(env, args).trail }

  /** The run is the loop's, or the loop's and one execution of the final fallback. */
  lemma RunIsLoopAndFallback(env: Env, args: Args)
    ensures var loop := LoopRun(env, args);
            var f := FinalFallback(env, loop);
            var s := FinalRun(env, args);
            && (Succeeded(loop) || f.None? ==> s == loop)
            && (!Succeeded(loop) && f.Some? ==>
                && |s.trail| == |loop.trail| + 1 && s.trail[..|loop.trail|] == loop.trail
                && IsRecord(env, Last(s), |loop.trail|) && Last(s).stage == SoftwareFallback
                && Last(s).args == f.value && s.encoder == Last(s).encoder && s.usedSoftware
                && s.log == loop.log + Boundary(env, f.value))
  {
    hide Retried, Inspect, Boundary;
  }

  /** Every execution is announced, cleared and recorded once: the entries are numbered from 1, hold
      the outcomes of the executions in order, and determine every event of the run; and there is at
      most one execution more than the retry limit. */
  lemma TrailIsTheRun(env: Env, args: Args)
    ensures var r := Reported(env, args, FinalRun(env, args));
            && r.trail == TrailOf(env, args) && r.totalAttempts == |r.trail|
            && |r.trail| <= (if env.maxRetries > 0 then env.maxRetries else 0) + 1
            && (forall k :: 0 <= k < |r.trail| ==> IsRecord(env, r.trail[k], k))
            && FinalRun(env, args).log == LogOf(env, r.trail)
            && (forall k :: 0 <= k < |r.trail| - 1 ==> !r.trail[k].success)
  {
    hide Retried, Inspect, Boundary, FinalFallback, ApplyRetryStrategy, Spent, Ready, FinalRun, IsRecord;
    var loop := LoopRun(env, args);
    var s := FinalRun(env, args);
    LoopIsRecorded(env, args);
    RunIsLoopAndFallback(env, args);
    forall k | 0 <= k < |s.trail| - 1
      ensures !s.trail[k].success
    {
      assert s.trail[k] == loop.trail[k];
      if k < |loop.trail| - 1 {
        assert Linked(env, args, loop.trail, k);
      }
    }
    forall k | 0 <= k < |s.trail|
      ensures IsRecord(env, s.trail[k], k)
    {
      assert k < |loop.trail| ==> s.trail[k] == loop.trail[k];
    }
  }

  /** The first attempt runs the user's arguments, every further one what the strategy made of the
      failure before it, and the final fallback follows a failed loop only, when it is enabled, the
      job is not cancelled and no software encoder was chosen before. */
  lemma ArgumentsFollow(env: Env, args: Args)
    ensures var loop := LoopRun(env, args);
            var trail := TrailOf(env, args);
            && (loop.trail != [] ==> loop.trail[0].args == args)
            && (forall k :: 0 <= k < |loop.trail| ==> Linked(env, args, loop.trail, k))
            && |loop.trail| <= |trail| <= |loop.trail| + 1 && trail[..|loop.trail|] == loop.trail
            && (|trail| > |loop.trail| <==> !Succeeded(loop) && FinalFallback(env, loop).Some?)
            && (|trail| > |loop.trail| ==>
                && Some(trail[|loop.trail|].args) == env.fallback(loop.args, loop.userSelected)
                && env.enableFallback && !loop.usedSoftware && !CancelledAt(env, FinalLook(env)))
  {
    hide Retried, FinalRun, Linked, Spent, Ready, Boundary, IsRecord, LogOf;
    LoopIsRecorded(env, args);
    RunIsLoopAndFallback(env, args);
    var loop := LoopRun(env, args);
    assert loop.trail[..|loop.trail|] == loop.trail;
  }

  /** The boundary of an attempt announces it exactly once, before ffmpeg runs, when asked to. */
  lemma BoundaryAnnounces(env: Env, args: Args)
    ensures var b := Boundary(env, args);
            && |b| >= 1 && b[|b| - 1] == Executed(args)
            && (env.announces <==> b[0] == Announced)
            && (forall k :: 0 < k < |b| ==> b[k] != Announced)
            && (forall k :: 0 <= k < |b| - 1 ==> !b[k].Executed?)
            && (ChecksOutput(env) <==> Cleared in b)
  {
  }

  /** The run succeeds exactly when its last execution did, and reports that execution. */
  lemma SuccessIsTheLastEntry(env: Env, args: Args)
    ensures var r := Reported(env, args, FinalRun(env, args));
            && (r.success <==> r.trail != [] && r.trail[|r.trail| - 1].success)
            && (r.success <==> exists k :: 0 <= k < |r.trail| && r.trail[k].success)
            && r.finalResult == (if r.trail == [] then None else Some(env.execs(|r.trail| - 1)))
            && (r.finalStage == Exhausted <==> !r.success)
            && (r.success ==> r.finalStage == r.trail[|r.trail| - 1].stage)
            && (r.success ==> Inspect(env, |r.trail| - 1, r.finalEncoder).success)
            && r.originalEncoder == env.encoderOf(args)
  {
    hide Inspect, FinalRun, LogOf;
    TrailIsTheRun(env, args);
    var s := FinalRun(env, args);
    if Succeeded(s) {
      StageIsNeverExhausted(env, args, |s.trail| - 1);
      SpentEncoder(env, args);
    }
  }

  lemma StageIsNeverExhausted(env: Env, args: Args, k: nat)
    requires k < |TrailOf(env, args)|
    ensures TrailOf(env, args)[k].stage == DetermineStage(k + 1) || TrailOf(env, args)[k].stage == SoftwareFallback
    ensures TrailOf(env, args)[k].stage != Exhausted
  {
    hide Retried, FinalRun, FinalFallback, Spent, Ready, IsRecord, Boundary;
    LoopIsRecorded(env, args);
    RunIsLoopAndFallback(env, args);
    var loop := LoopRun(env, args);
    assert k < |loop.trail| ==> TrailOf(env, args)[k] == loop.trail[k];
  }

  lemma SpentEncoder(env: Env, args: Args)
    requires Succeeded(FinalRun(env, args))
    ensures FinalRun(env, args).encoder == Last(FinalRun(env, args)).encoder
  {
    hide Retried, FinalRun, FinalFallback, Boundary, Inspect, Linked, LogOf;
    LoopIsRecorded(env, args);
    RunIsLoopAndFallback(env, args);
  }

  /** Cancelled between the choice of the next arguments and their attempt. */
  ghost predicate Interrupted(env: Env, args: Args, trail: seq<Entry>) {
    && 0 < |trail| < env.maxRetries && CancelledAt(env, |trail|) && !StopsRetrying(trail[|trail| - 1])
    && StrategyAfter(env, args, trail, |trail| - 1).stage != Exhausted
  }

  /** The reported encoder is the one of the last execution, unless the run was cancelled after the
      strategy had switched to another one. */
  lemma FinalEncoderExactly(env: Env, args: Args)
    requires TrailOf(env, args) != []
    ensures var r := Reported(env, args, FinalRun(env, args));
            var last := r.trail[|r.trail| - 1];
            (r.finalEncoder != last.encoder
             <==> && Interrupted(env, args, r.trail)
                  && env.encoderOf(StrategyAfter(env, args, r.trail, |r.trail| - 1).args) != last.encoder)
  {
    hide Retried, FinalRun, Boundary, Inspect, LogOf, ApplyRetryStrategy, IsRetryable;
    var loop := LoopRun(env, args);
    LoopIsRecorded(env, args);
    RunIsLoopAndFallback(env, args);
  }

  /** A software encoder is reported as used exactly when some attempt switched to one, or the final
      fallback ran, or the run was cancelled after the strategy had switched to one. */
  lemma UsedSoftwareExactly(env: Env, args: Args)
    ensures var r := Reported(env, args, FinalRun(env, args));
            (r.usedSoftware
             <==> || SoftwareSwitch(env, r.trail)
                  || |r.trail| > |LoopRun(env, args).trail|
                  || (Interrupted(env, args, r.trail)
                      && PendingSwitch(env, r.trail, env.encoderOf(StrategyAfter(env, args, r.trail, |r.trail| - 1).args))))
  {
    hide Retried, FinalRun, Boundary, Inspect, LogOf, ApplyRetryStrategy, IsRetryable, SoftwareSwitch;
    LoopIsRecorded(env, args);
    RunIsLoopAndFallback(env, args);
  }

  /** The encoder is missing, the strategy switches to software, and the job is cancelled before the
      software attempt: the run reports an encoder, and a software fallback, that never ran. */
  lemma FinalEncoderCanBeWrong() returns (env: Env, args: Args)
    ensures var r := Reported(env, args, FinalRun(env, args));
            && |r.trail| == 1 && r.trail[0].encoder == "h264_qsv"
            && r.finalEncoder == "libx264" && r.usedSoftware
  {
    args := ["h264_qsv"];
    env := Env(3, true, false, false, "out.mp4", Some(1), n => Exec(1, false, ""), n => Missing,
               e => Some(EncoderNotFound), (e, encoder) => false, a => if a == [] then "" else a[0],
               e => e == "h264_qsv", a => (a, []), a => (a, []),
               (a, selected) => if a == ["h264_qsv"] then Some(["libx264"]) else None);
    var s := Start(env, args);
    var step := OneAttempt(env, s, 1);
    assert step.run.encoder == "libx264" && !step.stopped && step.run.usedSoftware;
    assert Retried(env, step.run, 2) == step.run;
  }

  // ----- stages

  ghost predicate SwitchesAtOnce(env: Env, args: Args, error: Option<Kind>, userSelected: bool) {
    error == Some(EncoderNotFound) || SwitchesForEmptyOutput(env, args, error, userSelected)
  }

  /** The stage an attempt is recorded under is its number's, so it is the stage the strategy chose
      for it exactly when an early attempt was pruned or a later one fell back. */
  lemma StageFollowsStrategyExactly(env: Env, args: Args, error: Option<Kind>, attempt: nat, userSelected: bool)
    requires attempt >= 1 && ApplyRetryStrategy(env, args, error, attempt, userSelected).stage != Exhausted
    ensures ApplyRetryStrategy(env, args, error, attempt, userSelected).stage == DetermineStage(attempt + 1)
      <==> if attempt <= 2 then !SwitchesAtOnce(env, args, error, userSelected)
           else env.fallback(args, userSelected).Some?
  {
  }

  /** In the trail of every run, an attempt of the loop is recorded under the stage the strategy chose
      for it exactly when an early attempt was pruned or a later one fell back. */
  lemma RecordedStageExactly(env: Env, args: Args, k: nat)
    requires k + 1 < |LoopRun(env, args).trail|
    ensures var trail := TrailOf(env, args);
            && k + 1 < |trail|
            && (trail[k + 1].stage == StrategyAfter(env, args, trail, k).stage
                <==> if k < 2 then !SwitchesAtOnce(env, trail[k].args, trail[k].error, Steady(env, args, trail, k + 1))
                     else env.fallback(trail[k].args, Steady(env, args, trail, k + 1)).Some?)
  {
    hide Retried, FinalRun, FinalFallback, Spent, Ready, IsRecord, Boundary, LogOf, ApplyRetryStrategy, SwitchesAtOnce, DetermineStage;
    LoopIsRecorded(env, args);
    RunIsLoopAndFallback(env, args);
    var loop, trail := LoopRun(env, args).trail, TrailOf(env, args);
    assert loop[k] == trail[k] && loop[k + 1] == trail[k + 1];
    assert Linked(env, args, loop, k);
    assert trail[..k] == loop[..k];
    FollowsInLonger(env, args, loop, trail, k, trail[k + 1].args);
    StageFollowsStrategyExactly(env, trail[k].args, trail[k].error, k + 1, Steady(env, args, trail, k + 1));
  }

  /** An environment in which h264_qsv is missing and libx264 works. */
  function MissingEncoder(): Env {
    Env(3, true, false, false, "", None, n => if n == 0 then Exec(1, false, "") else Exec(0, false, ""), n => Present,
        (e: Exec) => if e.exitCode == 0 then None else Some(EncoderNotFound), (e, encoder) => false,
        a => if a == [] then "" else a[0], e => e == "h264_qsv", a => (a, []), a => (a, []),
        (a, selected) => if a == ["h264_qsv"] then Some(["libx264"]) else None)
  }

  function FirstFailure(): Entry {
    Entry(Initial, 1, ["h264_qsv"], Some(EncoderNotFound), ["fallback_to_software"], "h264_qsv", false, Exec(1, false, ""))
  }

  function SecondAttempt(): Entry { Entry(HardwarePruned, 2, ["libx264"], None, [], "libx264", true, Exec(0, false, "")) }

  lemma MissingOnce()
    ensures var step := OneAttempt(MissingEncoder(), Start(MissingEncoder(), ["h264_qsv"]), 1);
            && step.run.trail == [FirstFailure()] && step.run.args == ["libx264"] && step.run.encoder == "libx264"
            && !step.stopped && !step.run.userSelected
  {
  }

  lemma FoundThen(s: Run)
    requires s.trail == [FirstFailure()] && s.args == ["libx264"] && s.encoder == "libx264"
    ensures var step := OneAttempt(MissingEncoder(), s, 2);
            && step.run.trail == [FirstFailure(), SecondAttempt()] && step.stopped && step.run.encoder == "libx264"
  {
  }

  lemma MisledStrategy()
    ensures StrategyAfter(MissingEncoder(), ["h264_qsv"], [FirstFailure(), SecondAttempt()], 0).stage == SoftwareFallback
  {
  }

  /** The strategy falls back to software at once and the second attempt succeeds, but trail and
      result call it the attempt with pruned hardware parameters. */
  lemma StageCanMislead()
    ensures var env, args := MissingEncoder(), ["h264_qsv"];
            var r := Reported(env, args, FinalRun(env, args));
            && r.success && |r.trail| == 2 && r.trail[1].encoder == "libx264"
            && StrategyAfter(env, args, r.trail, 0).stage == SoftwareFallback
            && r.trail[1].stage == HardwarePruned && r.finalStage == HardwarePruned
            && r.trail[0].pruned == ["fallback_to_software"] && r.trail[1].pruned == []
  {
    var env, args := MissingEncoder(), ["h264_qsv"];
    MissingOnce();
    var first := OneAttempt(env, Start(env, args), 1).run;
    FoundThen(first);
    MisledStrategy();
    hide OneAttempt, StrategyAfter, Start;
    assert Retried(env, first, 2) == OneAttempt(env, first, 2).run;
    assert Retried(env, Start(env, args), 1) == Retried(env, first, 2);
    hide Retried;
  }

  // ----- the reported diagnosis

  /** A failed run inspects its last execution again without the requested encoder and without the
      output, so its diagnosis is a success exactly when ffmpeg itself reported none of the failure. */
  lemma DiagnosisIsLostExactly(env: Env, args: Args)
    requires TrailOf(env, args) != [] && !Succeeded(FinalRun(env, args))
    ensures var r := Reported(env, args, FinalRun(env, args));
            var last := r.trail[|r.trail| - 1];
            && r.intercepted.Some? && !r.success
            && (r.intercepted.value.success
                <==> last.exec.exitCode == 0 && !last.exec.failed && env.analyze(last.exec).None?)
            && (r.intercepted.value.success ==> last.error == Some(HWAccelFailed) || last.error == Some(OutputEmpty))
  {
    hide FinalRun, LogOf, Boundary;
    TrailIsTheRun(env, args);
    var s := FinalRun(env, args);
    assert IsRecord(env, Last(s), |s.trail| - 1);
  }

  /** ffmpeg exits cleanly and writes nothing: the run failed, and its diagnosis says success. */
  lemma DiagnosisCanSaySuccess() returns (env: Env, args: Args)
    ensures var r := Reported(env, args, FinalRun(env, args));
            && !r.success && |r.trail| == 1 && r.trail[0].error == Some(OutputEmpty)
            && r.intercepted == Some(Intercepted(true, None))
  {
    args := ["libx264"];
    env := Env(1, false, false, false, "out.mp4", None, n => Exec(0, false, ""), n => Missing,
               e => None, (e, encoder) => false, a => if a == [] then "" else a[0], e => false,
               a => (a, []), a => (a, []), (a, selected) => None);
    var step := OneAttempt(env, Start(env, args), 1);
    assert !step.stopped && |step.run.trail| == 1 && !Last(step.run).success;
    assert Retried(env, step.run, 2) == step.run;
    assert Retried(env, Start(env, args), 1) == step.run;
  }
}
