/**
 * The retry run entry by entry, in terms of the executions, the pruners and the fallback alone
 * (pkg/worker/retry_executor.go): when an attempt counts as a success, what runs after a failure, and
 * when the run ends.
 */
module RetryLaws {
  import opened Options
  import opened RetryRuns
  import opened RetrySpec

  // ----- one entry

  /** ffmpeg exited cleanly and its output shows no error. */
  ghost predicate Clean(env: Env, exec: Exec) { exec.exitCode == 0 && !exec.failed && env.analyze(exec).None? }

  /** stderr betrays another encoder than the one asked for. */
  ghost predicate Betrayed(env: Env, exec: Exec, encoder: string) { encoder != "" && env.silent(exec, encoder) }

  /** A file is expected and is missing or empty. */
  ghost predicate OutputLost(env: Env, k: nat) {
    !env.networkOutput && env.outputPath != "" && env.outputPath != "-" && env.outputs(k) != Present
  }

  /** An entry is a success exactly when ffmpeg exited cleanly, without a sign of an error or of another
      encoder, and left the file it was to leave; and a failure carries its reason. */
  lemma EntrySucceedsExactly(env: Env, args: Args, k: nat)
    requires k < |TrailOf(env, args)|
    ensures
      var e := TrailOf(env, args)[k];
      && e.exec == env.execs(k)
      && (e.success <==> Clean(env, e.exec) && !Betrayed(env, e.exec, e.encoder) && !OutputLost(env, k))
      && (!e.success ==> e.error == if !Clean(env, e.exec) then env.analyze(e.exec)
                                    else if Betrayed(env, e.exec, e.encoder) then Some(HWAccelFailed)
                                    else Some(OutputEmpty))
  {
    TrailIsTheRun(env, args);
    hide FinalRun, LogOf, Reported;
    assert IsRecord(env, TrailOf(env, args)[k], k);
  }

  /** The attempts of the loop are filed under the stages in order, the fourth and later ones and the
      final one under software fallback. */
  lemma StagesInOrder(env: Env, args: Args, k: nat)
    requires k < |TrailOf(env, args)|
    ensures
      TrailOf(env, args)[k].stage == if k >= |LoopRun(env, args).trail| then SoftwareFallback
                                     else if k == 0 then Initial
                                     else if k == 1 then HardwarePruned
                                     else if k == 2 then AdvancedPruned else SoftwareFallback
  {
    hide Retried, FinalRun, FinalFallback, Spent, Ready, IsRecord, Boundary, LogOf;
    LoopIsRecorded(env, args);
    RunIsLoopAndFallback(env, args);
    var loop := LoopRun(env, args);
    assert k < |loop.trail| ==> TrailOf(env, args)[k] == loop.trail[k];
  }

  // ----- from one attempt to the next

  /** The failures another attempt may mend. */
  ghost predicate MayRetry(error: Option<Kind>) {
    error.Some? ==> error.value in {InvalidArgument, EncoderNotFound, DeviceNotFound, UnsupportedCodec, HWAccelFailed,
                                    OutputEmpty, ProcessCrash}
  }

  lemma MayRetryMeans(e: Entry)
    ensures !StopsRetrying(e) <==> !e.success && MayRetry(e.error)
  {
  }

  /** A local file came out empty and the fallback offers another encoder. */
  ghost predicate OffersAnother(env: Env, e: Entry, f: Option<Args>) {
    && e.error == Some(OutputEmpty) && !env.networkOutput && f.Some?
    && env.encoderOf(f.value) != "" && env.encoderOf(f.value) != env.encoderOf(e.args)
  }

  /** next are the arguments after the failed k-th entry e, given the fallback's answer f. */
  ghost predicate Succeeds(env: Env, e: Entry, f: Option<Args>, k: nat, next: Args) {
    if OffersAnother(env, e, f) then
      next == f.value && e.pruned == ["fallback_to_software_output_empty"]
    else if e.error == Some(EncoderNotFound) then
      f == Some(next) && e.pruned == ["fallback_to_software"]
    else if k == 0 then env.pruneHardware(e.args) == (next, e.pruned)
    else if k == 1 then env.pruneAdvanced(e.args) == (next, e.pruned)
    else if f.Some? then next == f.value && e.pruned == ["fallback_to_software"]
    else next == e.args && e.pruned == []
  }

  /** The fallback's answer after the k-th entry; the encoder counts as the user's own as long as every
      attempt so far ran the one the job started with. */
  ghost function FallbackAfter(env: Env, args: Args, trail: seq<Entry>, k: nat): Option<Args>
    requires k < |trail|
  {
    env.fallback(trail[k].args, forall j :: 0 <= j <= k ==> trail[j].encoder == env.encoderOf(args))
  }

  lemma FollowsMeans(env: Env, args: Args, trail: seq<Entry>, k: nat, next: Args)
    requires k < |trail| && Follows(env, args, trail, k, next)
    ensures !trail[k].success && MayRetry(trail[k].error)
    ensures Succeeds(env, trail[k], FallbackAfter(env, args, trail, k), k, next)
  {
    MayRetryMeans(trail[k]);
    assert Steady(env, args, trail, k + 1) <==> forall j :: 0 <= j <= k ==> trail[j].encoder == env.encoderOf(args);
  }

  /** What runs after a failure. The hardware parameters are pruned after the first attempt and the
      advanced ones after the second; later attempts run the fallback or the same arguments again; a
      missing encoder, or an empty file where the fallback offers another encoder, brings the fallback
      in at once. */
  lemma NextAttempt(env: Env, args: Args, k: nat)
    requires k + 1 < |LoopRun(env, args).trail|
    ensures
      var trail := TrailOf(env, args);
      && k + 1 < |trail|
      && !trail[k].success && MayRetry(trail[k].error)
      && Succeeds(env, trail[k], FallbackAfter(env, args, trail, k), k, trail[k + 1].args)
  {
    hide *;
    ArgumentsFollow(env, args);
    var loop, trail := LoopRun(env, args).trail, TrailOf(env, args);
    assert forall j :: 0 <= j < |loop| ==> trail[j] == loop[j];
    LinkedFollows(env, args, loop, k);
    FollowsMeans(env, args, loop, k, loop[k + 1].args);
    SameFallback(env, args, loop, trail, k);
  }

  lemma LinkedFollows(env: Env, args: Args, trail: seq<Entry>, k: nat)
    requires k + 1 < |trail| && Linked(env, args, trail, k)
    ensures Follows(env, args, trail, k, trail[k + 1].args)
  {
  }

  lemma SameFallback(env: Env, args: Args, a: seq<Entry>, b: seq<Entry>, k: nat)
    requires k < |a| <= |b| && forall j :: 0 <= j < |a| ==> b[j] == a[j]
    ensures FallbackAfter(env, args, a, k) == FallbackAfter(env, args, b, k)
  {
    assert (forall j :: 0 <= j <= k ==> a[j].encoder == env.encoderOf(args))
      <==> (forall j :: 0 <= j <= k ==> b[j].encoder == env.encoderOf(args));
  }

  // ----- the end of the run

  /** Nothing more can be tried after the last of these entries. */
  ghost predicate NothingToTry(env: Env, args: Args, trail: seq<Entry>)
    requires trail != []
  {
    var e := trail[|trail| - 1];
    || e.success || !MayRetry(e.error)
    || (e.error == Some(EncoderNotFound) && FallbackAfter(env, args, trail, |trail| - 1).None?)
  }

  lemma SpentMeans(env: Env, args: Args, s: Run)
    requires Spent(env, args, s)
    ensures s.trail != [] && (|s.trail| >= env.maxRetries || NothingToTry(env, args, s.trail))
  {
    MayRetryMeans(Last(s));
    var n := |s.trail|;
    assert Steady(env, args, s.trail, n) <==> forall j :: 0 <= j <= n - 1 ==> s.trail[j].encoder == env.encoderOf(args);
  }

  /** The loop ends early only because nothing more can be tried or the job was cancelled. */
  lemma LoopEndsExactly(env: Env, args: Args)
    ensures
      var trail := LoopRun(env, args).trail;
      && |trail| <= (if env.maxRetries > 0 then env.maxRetries else 0)
      && (|trail| < env.maxRetries ==>
            || (env.cancelAt.Some? && env.cancelAt.value <= |trail|)
            || (trail != [] && NothingToTry(env, args, trail)))
  {
    LoopIsRecorded(env, args);
    var s := LoopRun(env, args);
    hide Recorded, LoopRun, Spent, Ready, NothingToTry;
    if Spent(env, args, s) {
      SpentMeans(env, args, s);
    }
  }

  lemma {:induction false} NoneAfterCancel(env: Env, s: Run, attempt: nat)
    requires attempt == |s.trail| + 1
    ensures forall k :: |s.trail| <= k < |Retried(env, s, attempt).trail| ==> !CancelledAt(env, k)
    decreases env.maxRetries - attempt
  {
    hide OneAttempt, CancelledAt;
    if attempt <= env.maxRetries && !CancelledAt(env, attempt - 1) {
      OneMore(env, s, attempt);
      var step := OneAttempt(env, s, attempt);
      if !step.stopped {
        NoneAfterCancel(env, step.run, attempt + 1);
      }
    }
  }

  lemma OneMore(env: Env, s: Run, attempt: nat)
    ensures |OneAttempt(env, s, attempt).run.trail| == |s.trail| + 1
  {
    hide ApplyRetryStrategy, DetermineStage, Attempted;
  }

  /** Cancellation stops the run: a job found cancelled at its c-th look, before the loop is over, makes
      at most c executions, and no final fallback. */
  lemma CancelStopsRun(env: Env, args: Args, c: nat)
    requires env.cancelAt == Some(c) && c <= (if env.maxRetries > 0 then env.maxRetries else 0)
    ensures |TrailOf(env, args)| == |LoopRun(env, args).trail| <= c
  {
    ArgumentsFollow(env, args);
    NoneAfterCancel(env, Start(env, args), 1);
    hide Retried, FinalRun, FinalFallback;
    var n := |LoopRun(env, args).trail|;
    assert forall k :: 0 <= k < n ==> !CancelledAt(env, k);
    assert CancelledAt(env, c);
  }

  /** The final fallback runs exactly when the loop failed, it is enabled, no software encoder was in
      use, the job is not cancelled, and the fallback has an answer. */
  lemma FallbackRunsExactly(env: Env, args: Args)
    ensures
      var loop := LoopRun(env, args);
      |TrailOf(env, args)| > |loop.trail|
      <==> && !(loop.trail != [] && loop.trail[|loop.trail| - 1].success)
           && env.enableFallback && !loop.usedSoftware
           && (env.cancelAt.Some? ==> env.maxRetries < env.cancelAt.value && 0 < env.cancelAt.value)
           && env.fallback(loop.args, loop.userSelected).Some?
  {
    ArgumentsFollow(env, args);
    hide LoopRun, FinalRun, TrailOf, Linked;
  }
}
