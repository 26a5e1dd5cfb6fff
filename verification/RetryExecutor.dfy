/**
 * The retry loop (pkg/worker/retry_executor.go). ffmpeg, its stderr analysis, the file system, the
 * parameter pruner and the encoder fallback are arbitrary functions; the loop around them is the
 * source's.
 */
module RetrySpec {
  import opened Options

  type Args = seq<string>

  datatype Stage = Initial | HardwarePruned | AdvancedPruned | SoftwareFallback | Exhausted

  datatype Kind =
    | UnknownError | InvalidArgument | EncoderNotFound | DeviceNotFound | UnsupportedCodec | MemoryAllocation
    | HWAccelFailed | InputOutput | PermissionDenied | OutputEmpty | OutputOpen | ProcessCrash

  predicate IsRetryable(k: Kind) {
    || k == InvalidArgument || k == EncoderNotFound || k == DeviceNotFound || k == UnsupportedCodec
    || k == HWAccelFailed || k == OutputEmpty || k == ProcessCrash
  }

  datatype Exec = Exec(exitCode: int, failed: bool, stderr: string)

  datatype Intercepted = Intercepted(success: bool, error: Option<Kind>)

  datatype OutputState = Missing | Empty | Present

  /** execs and outputs answer for the n-th execution; cancelAt is the first look at the context that
      finds it cancelled; silent tells that stderr betrays a software encoder under the requested one. */
  datatype Env = Env(
    maxRetries: int,
    enableFallback: bool,
    announces: bool,
    networkOutput: bool,
    outputPath: string,
    cancelAt: Option<nat>,
    execs: nat -> Exec,
    outputs: nat -> OutputState,
    analyze: Exec -> Option<Kind>,
    silent: (Exec, string) -> bool,
    encoderOf: Args -> string,
    isHardware: string -> bool,
    pruneHardware: Args -> (Args, seq<string>),
    pruneAdvanced: Args -> (Args, seq<string>),
    fallback: (Args, bool) -> Option<Args>)

  predicate CancelledAt(env: Env, look: nat) { env.cancelAt.Some? && env.cancelAt.value <= look }

  predicate ChecksOutput(env: Env) { !env.networkOutput && env.outputPath != "" && env.outputPath != "-" }

  function InterceptWithEncoder(env: Env, exec: Exec, encoder: string): Intercepted {
    var error := env.analyze(exec);
    if exec.exitCode == 0 && !exec.failed && error.None? && encoder != "" && env.silent(exec, encoder)
    then Intercepted(false, Some(HWAccelFailed))
    else Intercepted(exec.exitCode == 0 && !exec.failed && error.None?, error)
  }

  /** The n-th execution's outcome; a success must have left output where output is looked for. */
  function Inspect(env: Env, n: nat, encoder: string): Intercepted {
    var i := InterceptWithEncoder(env, env.execs(n), encoder);
    if i.success && ChecksOutput(env) && env.outputs(n) != Present then Intercepted(false, Some(OutputEmpty)) else i
  }

  datatype Entry = Entry(stage: Stage, number: nat, args: Args, error: Option<Kind>, pruned: seq<string>,
                         encoder: string, success: bool, exec: Exec)

  /** What the run does outside: it announces an attempt, clears the output and executes ffmpeg. */
  datatype Event = Announced | Cleared | Executed(args: Args)

  datatype Result = Result(finalResult: Option<Exec>, intercepted: Option<Intercepted>, trail: seq<Entry>,
                           totalAttempts: nat, finalStage: Stage, success: bool, usedSoftware: bool,
                           originalEncoder: string, finalEncoder: string)

  datatype Run = Run(trail: seq<Entry>, log: seq<Event>, args: Args, encoder: string, userSelected: bool, usedSoftware: bool)

  function DetermineStage(attempt: nat): Stage {
    if attempt == 1 then Initial
    else if attempt == 2 then HardwarePruned
    else if attempt == 3 then AdvancedPruned
    else SoftwareFallback
  }

  /** The events of one execution. */
  function Boundary(env: Env, args: Args): seq<Event> {
    (if env.announces then [Announced] else []) + (if ChecksOutput(env) then [Cleared] else []) + [Executed(args)]
  }

  /** One execution and its audit entry. */
  function Attempted(env: Env, s: Run, args: Args, encoder: string, stage: Stage): (t: Run)
    ensures |t.trail| == |s.trail| + 1
  {
    var n := |s.trail|;
    var i := Inspect(env, n, encoder);
    s.(trail := s.trail + [Entry(stage, n + 1, args, if i.success then None else i.error, [], encoder, i.success, env.execs(n))],
       log := s.log + Boundary(env, args))
  }

  datatype Strategy = Strategy(args: Args, stage: Stage, pruned: seq<string>)

  predicate SwitchesForEmptyOutput(env: Env, args: Args, error: Option<Kind>, userSelected: bool) {
    && !env.networkOutput && error == Some(OutputEmpty)
    && var f := env.fallback(args, userSelected);
       f.Some? && env.encoderOf(f.value) != "" && env.encoderOf(f.value) != env.encoderOf(args)
  }

  function ApplyRetryStrategy(env: Env, args: Args, error: Option<Kind>, attempt: nat, userSelected: bool): Strategy {
    var f := env.fallback(args, userSelected);
    if SwitchesForEmptyOutput(env, args, error, userSelected) && f.Some? then
      Strategy(f.value, SoftwareFallback, ["fallback_to_software_output_empty"])
    else if error == Some(EncoderNotFound) then
      if f.Some? then Strategy(f.value, SoftwareFallback, ["fallback_to_software"]) else Strategy(args, Exhausted, [])
    else if attempt == 1 then
      Strategy(env.pruneHardware(args).0, HardwarePruned, env.pruneHardware(args).1)
    else if attempt == 2 then
      Strategy(env.pruneAdvanced(args).0, AdvancedPruned, env.pruneAdvanced(args).1)
    else if f.Some? then Strategy(f.value, SoftwareFallback, ["fallback_to_software"])
    else Strategy(args, AdvancedPruned, [])
  }

  function Last(s: Run): Entry
    requires s.trail != []
  {
    s.trail[|s.trail| - 1]
  }

  /** The next attempt's arguments; the pruned names go to the entry of the attempt that failed. */
  function Switched(env: Env, s: Run, strategy: Strategy): (t: Run)
    requires s.trail != []
    ensures |t.trail| == |s.trail|
  {
    var encoder := env.encoderOf(strategy.args);
    s.(trail := s.trail[|s.trail| - 1 := Last(s).(pruned := strategy.pruned)],
       args := strategy.args,
       encoder := encoder,
       userSelected := s.userSelected && encoder == s.encoder,
       usedSoftware := s.usedSoftware || (encoder != s.encoder && !env.isHardware(encoder)))
  }

  predicate StopsRetrying(e: Entry) { e.success || (e.error.Some? && !IsRetryable(e.error.value)) }

  function NextStrategy(env: Env, s: Run, attempt: nat): Strategy
    requires s.trail != []
  {
    ApplyRetryStrategy(env, s.args, Last(s).error, attempt, s.userSelected)
  }

  /** What one attempt of the loop leaves; a stopped run goes no further round. */
  datatype Step = Step(run: Run, stopped: bool)

  function OneAttempt(env: Env, s: Run, attempt: nat): Step {
    var t := Attempted(env, s, s.args, s.encoder, DetermineStage(attempt));
    if StopsRetrying(Last(t)) then Step(t, true)
    else if attempt >= env.maxRetries then Step(t, false)
    else
      var next := NextStrategy(env, t, attempt);
      if next.stage == Exhausted then Step(t, true) else Step(Switched(env, t, next), false)
  }

  /** The loop from the given attempt on. */
  function Retried(env: Env, s: Run, attempt: nat): Run
    requires attempt >= 1
    decreases env.maxRetries - attempt
  {
    if attempt > env.maxRetries || CancelledAt(env, attempt - 1) then s
    else
      var step := OneAttempt(env, s, attempt);
      if step.stopped then step.run else Retried(env, step.run, attempt + 1)
  }

  function Start(env: Env, args: Args): Run { Run([], [], args, env.encoderOf(args), true, false) }

  function FinalLook(env: Env): nat { if env.maxRetries > 0 then env.maxRetries else 0 }

  predicate Succeeded(s: Run) { s.trail != [] && Last(s).success }

  /** Whether the loop is followed by the final software fallback, with these arguments. */
  function FinalFallback(env: Env, s: Run): Option<Args> {
    if CancelledAt(env, FinalLook(env)) || !env.enableFallback || s.usedSoftware then None
    else env.fallback(s.args, s.userSelected)
  }

  function Finished(env: Env, s: Run): Run {
    var f := FinalFallback(env, s);
    if Succeeded(s) || f.None? then s
    else
      Attempted(env, s, f.value, env.encoderOf(f.value), SoftwareFallback)
        .(encoder := env.encoderOf(f.value), usedSoftware := true)
  }

  function Reported(env: Env, args: Args, s: Run): Result {
    if Succeeded(s) then
      Result(Some(Last(s).exec), Some(Intercepted(true, None)), s.trail, |s.trail|, Last(s).stage, true, s.usedSoftware,
             env.encoderOf(args), s.encoder)
    else
      Result(if s.trail == [] then None else Some(Last(s).exec),
             if s.trail == [] then None else Some(InterceptWithEncoder(env, Last(s).exec, "")),
             s.trail, |s.trail|, Exhausted, false, s.usedSoftware, env.encoderOf(args), s.encoder)
  }

  function FinalRun(env: Env, args: Args): Run { Finished(env, Retried(env, Start(env, args), 1)) }
}

module RetryExecutors {
  import opened Options
  import opened RetrySpec

  /** Announces, clears, executes and inspects one attempt; entry is its audit record. */
  method Attempt(env: Env, n: nat, args: Args, encoder: string, stage: Stage, log: seq<Event>)
    returns (entry: Entry, log': seq<Event>, intercepted: Intercepted)
    ensures forall s: Run :: |s.trail| == n && s.log == log ==>
      Attempted(env, s, args, encoder, stage) == s.(trail := s.trail + [entry], log := log')
    ensures intercepted == Inspect(env, n, encoder)
  {
    log' := log;
    if env.announces {
      log' := log' + [Announced];
    }
    if !(env.networkOutput || env.outputPath == "" || env.outputPath == "-") {
      log' := log' + [Cleared];
    }
    log' := log' + [Executed(args)];
    var exec := env.execs(n);
    intercepted := InterceptWithEncoder(env, exec, encoder);
    if intercepted.success && !env.networkOutput && env.outputPath != "" && env.outputPath != "-" {
      if env.outputs(n) == Missing || env.outputs(n) == Empty {
        intercepted := Intercepted(false, Some(OutputEmpty));
      }
    }
    entry := Entry(stage, n + 1, args, if intercepted.success then None else intercepted.error, [], encoder,
                   intercepted.success, exec);
    assert log' == log + Boundary(env, args);
  }

  /** The body of the retry loop after the look at the context. */
  method RetryOnce(env: Env, s: Run, attempt: nat) returns (t: Run, stopped: bool)
    ensures Step(t, stopped) == OneAttempt(env, s, attempt)
  {
    hide Attempted, Inspect, ApplyRetryStrategy, DetermineStage;
    var entry, log, intercepted := Attempt(env, |s.trail|, s.args, s.encoder, DetermineStage(attempt), s.log);
    AttemptedEntry(env, s, s.args, s.encoder, DetermineStage(attempt));
    t := s.(trail := s.trail + [entry], log := log);
    if intercepted.success {
      return t, true;
    }
    if intercepted.error.Some? && !IsRetryable(intercepted.error.value) {
      return t, true;
    }
    if attempt < env.maxRetries {
      var next := ApplyRetryStrategy(env, s.args, intercepted.error, attempt, s.userSelected);
      if next.stage == Exhausted {
        return t, true;
      }
      t := t.(trail := t.trail[|t.trail| - 1 := entry.(pruned := next.pruned)]);
      var newEncoder := env.encoderOf(next.args);
      if newEncoder != s.encoder {
        t := t.(encoder := newEncoder, userSelected := false);
        if !env.isHardware(newEncoder) {
          t := t.(usedSoftware := true);
        }
      }
      t := t.(args := next.args);
    }
    stopped := false;
  }

  lemma AttemptedEntry(env: Env, s: Run, args: Args, encoder: string, stage: Stage)
    ensures Last(Attempted(env, s, args, encoder, stage)).success == Inspect(env, |s.trail|, encoder).success
    ensures !Last(Attempted(env, s, args, encoder, stage)).success ==>
      Last(Attempted(env, s, args, encoder, stage)).error == Inspect(env, |s.trail|, encoder).error
    ensures Inspect(env, |s.trail|, encoder).success ==> Inspect(env, |s.trail|, encoder).error.None?
    ensures Last(Attempted(env, s, args, encoder, stage)).stage == stage
  {
  }

  /** The loop; it ends early when a step stops it or the context is cancelled. */
  method Retry(env: Env, start: Run) returns (s: Run)
    ensures s == Retried(env, start, 1)
  {
    hide OneAttempt, CancelledAt;
    s := start;
    var attempt := 1;
    while attempt <= env.maxRetries
      invariant attempt >= 1 && Retried(env, start, 1) == Retried(env, s, attempt)
      decreases env.maxRetries - attempt
    {
      if CancelledAt(env, attempt - 1) {
        return;
      }
      var stopped;
      s, stopped := RetryOnce(env, s, attempt);
      if stopped {
        return;
      }
      attempt := attempt + 1;
    }
  }

  method ExecuteWithRetry(env: Env, args: Args) returns (result: Result, log: seq<Event>)
    ensures result == Reported(env, args, FinalRun(env, args)) && log == FinalRun(env, args).log
  {
    hide Retried, Attempted, Inspect, InterceptWithEncoder;
    var s := Retry(env, Start(env, args));
    var originalEncoder := env.encoderOf(args);
    if s.trail != [] && Last(s).success {
      return Result(Some(Last(s).exec), Some(Intercepted(true, None)), s.trail, |s.trail|, Last(s).stage, true,
                    s.usedSoftware, originalEncoder, s.encoder), s.log;
    }
    if !CancelledAt(env, FinalLook(env)) && env.enableFallback && !s.usedSoftware {
      var fallbackArgs := env.fallback(s.args, s.userSelected);
      if fallbackArgs.Some? {
        var encoder := env.encoderOf(fallbackArgs.value);
        var entry, log', intercepted := Attempt(env, |s.trail|, fallbackArgs.value, encoder, SoftwareFallback, s.log);
        AttemptedEntry(env, s, fallbackArgs.value, encoder, SoftwareFallback);
        s := s.(trail := s.trail + [entry], log := log', encoder := encoder, usedSoftware := true);
        if intercepted.success {
          return Result(Some(entry.exec), Some(intercepted), s.trail, |s.trail|, SoftwareFallback, true, true,
                        originalEncoder, encoder), s.log;
        }
      }
    }
    if s.trail == [] {
      return Result(None, None, s.trail, 0, Exhausted, false, s.usedSoftware, originalEncoder, s.encoder), s.log;
    }
    return Result(Some(Last(s).exec), Some(InterceptWithEncoder(env, Last(s).exec, "")), s.trail, |s.trail|, Exhausted,
                  false, s.usedSoftware, originalEncoder, s.encoder), s.log;
  }
}
