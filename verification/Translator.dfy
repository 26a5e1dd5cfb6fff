/**
 * The parameter translator (pkg/encoder/translator.go): one stage rewrites the parameters of a
 * source encoder for a target encoder, a chain composes stages, and hardware defaults are
 * injected after the user's parameters.
 */
module TranslatorSpec {
  import opened EncoderMapping
  import opened Options

  datatype Warning =
    | CrossCodec
    | NoDirectRules
    | Dropped(param: string)
    | KeptOriginal(param: string, value: string)
    | RemovedParam(param: string, value: string)
    | PassedThrough(param: string, value: string)
    | NotInjected(param: string, conflict: string)

  datatype Result = Result(params: Params, hardware: Params, errors: seq<string>, warnings: seq<Warning>)

  /** A strict translation stops at the first failure with what it has so far. */
  datatype Outcome = Done(result: Result) | Stopped(result: Result, error: string) | Unregistered(encoder: Encoder)

  // ----- hardware injection

  function FirstPresent(names: seq<string>, params: Params): Option<string> {
    if names == [] then None
    else if names[0] in params then Some(names[0])
    else FirstPresent(names[1..], params)
  }

  function InjectRule(r: Result, rule: HardwareRule): Result {
    if rule.param in r.params then r
    else
      var conflict := FirstPresent(rule.conflictsWith, r.params);
      if conflict.Some? then r.(warnings := r.warnings + [NotInjected(rule.param, conflict.value)])
      else r.(params := r.params[rule.param := rule.value], hardware := r.hardware[rule.param := rule.value])
  }

  function InjectRules(r: Result, rules: seq<HardwareRule>): Result {
    if rules == [] then r else InjectRule(InjectRules(r, rules[..|rules| - 1]), rules[|rules| - 1])
  }

  function Inject(m: Mapping, target: Encoder, r: Result): Result { InjectRules(r, GetHardwareParams(m, target)) }

  // ----- one stage

  predicate IsRemoved(m: Mapping, source: Encoder, target: Encoder, param: string, record: Record) {
    Contains(record.message, UNSUPPORTED) || (IsCodecScoped(param) && CodecsDiffer(m, source, target))
  }

  /** The binding one parameter contributes to the stage's result, if any. */
  function Binding(m: Mapping, source: Encoder, target: Encoder, param: string, value: string): Option<(string, string)> {
    var record := TranslateSingle(m, source, target, param, value);
    match record.status
    case Failed => if value == "" then None else Some((param, value))
    case Skipped => if IsRemoved(m, source, target, param, record) then None else Some((param, value))
    case _ => if record.targetParam == "" then None else Some((record.targetParam, record.targetValue))
  }

  function WarningsOf(m: Mapping, source: Encoder, target: Encoder, param: string, value: string): seq<Warning> {
    var record := TranslateSingle(m, source, target, param, value);
    match record.status
    case Failed => [if value == "" then Dropped(param) else KeptOriginal(param, value)]
    case Skipped =>
      [if IsRemoved(m, source, target, param, record) then RemovedParam(param, value) else PassedThrough(param, value)]
    case _ => []
  }

  function ErrorsOf(m: Mapping, source: Encoder, target: Encoder, param: string, value: string): seq<string> {
    var record := TranslateSingle(m, source, target, param, value);
    if record.status == Failed then [record.message] else []
  }

  function Bound(params: Params, binding: Option<(string, string)>): Params {
    if binding.None? then params else params[binding.value.0 := binding.value.1]
  }

  /** What one parameter adds to the stage's result. */
  function Step(m: Mapping, source: Encoder, target: Encoder, param: string, value: string, r: Result): Result {
    Result(Bound(r.params, Binding(m, source, target, param, value)), r.hardware,
           r.errors + ErrorsOf(m, source, target, param, value),
           r.warnings + WarningsOf(m, source, target, param, value))
  }

  /** The stage's result after the parameters names, in that order. */
  function Translated(m: Mapping, source: Encoder, target: Encoder, names: seq<string>, params: Params, start: Result): Result
    requires forall k :: 0 <= k < |names| ==> names[k] in params
  {
    if names == [] then start
    else
      var param := names[|names| - 1];
      Step(m, source, target, param, params[param],
           Translated(m, source, target, names[..|names| - 1], params, start))
  }

  predicate FailsAt(m: Mapping, source: Encoder, target: Encoder, param: string, value: string) {
    TranslateSingle(m, source, target, param, value).status == Failed
  }

  /** How many of names a strict stage processes: up to and including the first failure. */
  function Processed(m: Mapping, source: Encoder, target: Encoder, names: seq<string>, params: Params, i: nat): (n: nat)
    requires i <= |names| && forall k :: 0 <= k < |names| ==> names[k] in params
    ensures i <= n <= |names|
    decreases |names| - i
  {
    if i == |names| then i
    else if FailsAt(m, source, target, names[i], params[names[i]]) then i + 1
    else Processed(m, source, target, names, params, i + 1)
  }

  lemma ProcessedStep(m: Mapping, source: Encoder, target: Encoder, names: seq<string>, params: Params, i: nat)
    requires i < |names| && forall k :: 0 <= k < |names| ==> names[k] in params
    ensures Processed(m, source, target, names, params, |names|) == |names|
    ensures Processed(m, source, target, names, params, i)
         == if FailsAt(m, source, target, names[i], params[names[i]]) then i + 1
            else Processed(m, source, target, names, params, i + 1)
  {
    hide FailsAt;
  }

  lemma TranslatedStep(m: Mapping, source: Encoder, target: Encoder, names: seq<string>, params: Params, start: Result, i: nat)
    requires i < |names| && forall k :: 0 <= k < |names| ==> names[k] in params
    ensures Translated(m, source, target, names[..i + 1], params, start)
         == Step(m, source, target, names[i], params[names[i]], Translated(m, source, target, names[..i], params, start))
  {
    hide Step;
    assert names[..i + 1][..i] == names[..i];
  }

  function StageStart(m: Mapping, source: Encoder, target: Encoder): Result {
    Result(map[], map[], [],
           (if CodecsDiffer(m, source, target) then [CrossCodec] else []) +
           (if source + ":" + target in m.translations then [] else [NoDirectRules]))
  }

  function Stage(m: Mapping, source: Encoder, target: Encoder, strict: bool, inject: bool, params: Params, names: seq<string>): Outcome
    requires forall k :: 0 <= k < |names| ==> names[k] in params
  {
    if source !in m.families then Unregistered(source)
    else if target !in m.families then Unregistered(target)
    else
      var start := StageStart(m, source, target);
      var n := if strict then Processed(m, source, target, names, params, 0) else |names|;
      var r := Translated(m, source, target, names[..n], params, start);
      if strict && n > 0 && FailsAt(m, source, target, names[n - 1], params[names[n - 1]])
      then Stopped(r, names[n - 1])
      else Done(if inject then Inject(m, target, r) else r)
  }

  // ----- the order of parameter names

  /** Byte-wise lexicographic order, as sort.Strings uses it. */
  predicate Leq(a: string, b: string) {
    if a == "" then true
    else if b == "" then false
    else if a[0] != b[0] then a[0] < b[0]
    else Leq(a[1..], b[1..])
  }

  lemma {:induction false} LeqTotal(a: string, b: string)
    ensures Leq(a, b) || Leq(b, a)
    ensures Leq(a, b) && Leq(b, a) ==> a == b
  {
    if a != "" && b != "" && a[0] == b[0] {
      LeqTotal(a[1..], b[1..]);
      assert a == [a[0]] + a[1..] && b == [b[0]] + b[1..];
    }
  }

  lemma {:induction false} LeqTransitive(a: string, b: string, c: string)
    requires Leq(a, b) && Leq(b, c)
    ensures Leq(a, c)
  {
    if a != "" && b != "" && c != "" && a[0] == b[0] == c[0] {
      LeqTransitive(a[1..], b[1..], c[1..]);
    }
  }

  ghost predicate IsLeast(m: string, keys: set<string>) { m in keys && forall k :: k in keys ==> Leq(m, k) }

  lemma {:induction false} LeastExists(keys: set<string>) returns (m: string)
    requires keys != {}
    ensures IsLeast(m, keys)
    decreases |keys|
  {
    hide Leq;
    var c :| c in keys;
    LeqTotal(c, c);
    m := c;
    if keys - {c} == {} {
      assert keys == {c};
    } else {
      var rest := LeastExists(keys - {c});
      LeqTotal(c, rest);
      m := if Leq(c, rest) then c else rest;
      forall k | k in keys
        ensures Leq(m, k)
      {
        if k != c {
          assert Leq(rest, k);
          if m == c {
            LeqTransitive(c, rest, k);
          }
        }
      }
    }
  }

  lemma LeastIsThere(keys: set<string>)
    requires keys != {}
    ensures exists m :: IsLeast(m, keys)
  {
    var m := LeastExists(keys);
  }

  lemma LeastIsUnique(a: string, b: string, keys: set<string>)
    requires IsLeast(a, keys) && IsLeast(b, keys)
    ensures a == b
  {
    LeqTotal(a, b);
  }

  ghost function Least(keys: set<string>): (m: string)
    requires keys != {}
    ensures IsLeast(m, keys)
  {
    LeastIsThere(keys);
    var m :| IsLeast(m, keys);
    m
  }

  /** The keys in order. */
  ghost function SortedNames(keys: set<string>): (names: seq<string>)
    ensures forall k :: k in names <==> k in keys
  {
    if keys == {} then []
    else
      var m := Least(keys);
      [m] + SortedNames(keys - {m})
  }

  lemma SortedStep(keys: set<string>)
    ensures SortedNames({}) == []
    ensures keys != {} ==> SortedNames(keys) == [Least(keys)] + SortedNames(keys - {Least(keys)})
  {
  }

  // ----- a chain of stages

  datatype ChainState = ChainState(params: Params, errors: seq<string>, warnings: seq<Warning>, stopped: bool)

  datatype ChainOutcome = TooShort | ChainDone(result: Result) | ChainStopped(result: Result)

  function NotRegistered(encoder: Encoder): string { "encoder '" + encoder + "' is not registered" }

  /** What the chain makes of one stage's outcome: a failed stage ends a strict chain, and leaves the
      parameters of any other chain as they were. */
  function Advance(s: ChainState, strict: bool, o: Outcome): ChainState {
    match o
    case Done(r) => ChainState(r.params, s.errors + r.errors, s.warnings + r.warnings, false)
    case Stopped(_, error) => s.(stopped := true)
    case Unregistered(encoder) =>
      if strict then s.(stopped := true) else s.(errors := s.errors + [NotRegistered(encoder)])
  }

  ghost function NextStage(m: Mapping, source: Encoder, target: Encoder, strict: bool, inject: bool, s: ChainState): ChainState {
    Advance(s, strict, Stage(m, source, target, strict, inject, s.params, SortedNames(s.params.Keys)))
  }

  /** The chain after its first n stages; only a chain of one stage injects inside the stage. */
  ghost function ChainAfter(m: Mapping, strict: bool, inject: bool, chain: seq<Encoder>, params: Params, n: nat): ChainState
    requires n < |chain|
  {
    if n == 0 then ChainState(params, [], [], false)
    else
      var s := ChainAfter(m, strict, inject, chain, params, n - 1);
      if s.stopped then s
      else
        NextStage(m, chain[n - 1], chain[n], strict, inject && |chain| == 2, s)
  }

  /** A stopped chain reports no parameters; any other is completed for its last encoder. */
  function ChainEnd(m: Mapping, inject: bool, target: Encoder, s: ChainState): ChainOutcome {
    if s.stopped then ChainStopped(Result(map[], map[], s.errors, s.warnings))
    else
      var r := Result(s.params, map[], s.errors, s.warnings);
      ChainDone(if inject then Inject(m, target, r) else r)
  }

  ghost function Chain(m: Mapping, strict: bool, inject: bool, chain: seq<Encoder>, params: Params): ChainOutcome {
    if |chain| < 2 then TooShort
    else
      ChainEnd(m, inject, chain[|chain| - 1], ChainAfter(m, strict, inject, chain, params, |chain| - 1))
  }
}

module Translators {
  import opened EncoderMapping
  import opened Options
  import opened TranslatorSpec

  class Translator {
    const mapping: Mapping
    const strictMode: bool
    var injectHardwareParams: bool

    constructor (mapping: Mapping, strictMode: bool, inject: bool)
      ensures this.mapping == mapping && this.strictMode == strictMode && injectHardwareParams == inject
    {
      this.mapping, this.strictMode, injectHardwareParams := mapping, strictMode, inject;
    }

    /** Adds the hardware defaults of target that are neither bound nor in conflict. */
    method InjectHardwareParams(target: Encoder, start: Result) returns (r: Result)
      ensures r == Inject(mapping, target, start)
    {
      hide FirstPresent;
      var rules := GetHardwareParams(mapping, target);
      r := start;
      for i := 0 to |rules|
        invariant r == InjectRules(start, rules[..i])
      {
        assert rules[..i + 1][..i] == rules[..i];
        var rule := rules[i];
        if rule.param !in r.params {
          var conflict := FindConflict(rule, r.params);
          if conflict.Some? {
            r := r.(warnings := r.warnings + [NotInjected(rule.param, conflict.value)]);
          } else {
            r := r.(params := r.params[rule.param := rule.value], hardware := r.hardware[rule.param := rule.value]);
          }
        }
      }
      assert rules[..|rules|] == rules;
    }

    method FindConflict(rule: HardwareRule, params: Params) returns (conflict: Option<string>)
      ensures conflict == FirstPresent(rule.conflictsWith, params)
    {
      var i := 0;
      while i < |rule.conflictsWith|
        invariant 0 <= i <= |rule.conflictsWith|
        invariant FirstPresent(rule.conflictsWith, params) == FirstPresent(rule.conflictsWith[i..], params)
      {
        if rule.conflictsWith[i] in params {
          return Some(rule.conflictsWith[i]);
        }
        assert rule.conflictsWith[i..][1..] == rule.conflictsWith[i + 1..];
        i := i + 1;
      }
      return None;
    }

    method SortedParamNames(params: Params) returns (names: seq<string>)
      ensures names == SortedNames(params.Keys)
    {
      hide Leq, SortedNames, Least;
      SortedStep(params.Keys);
      names := [];
      var rest := params.Keys;
      while rest != {}
        invariant names + SortedNames(rest) == SortedNames(params.Keys)
        decreases rest
      {
        LeastIsThere(rest);
        SortedStep(rest);
        var least :| least in rest && forall k :: k in rest ==> Leq(least, k);
        assert IsLeast(least, rest);
        LeastIsUnique(least, Least(rest), rest);
        assert names + ([least] + SortedNames(rest - {least})) == (names + [least]) + SortedNames(rest - {least});
        names := names + [least];
        rest := rest - {least};
      }
      assert names + [] == names;
    }

    /** The body of the parameter loop. */
    method TranslateParam(source: Encoder, target: Encoder, param: string, value: string, start: Result)
      returns (r: Result, failed: bool)
      ensures r == Step(mapping, source, target, param, value, start)
      ensures failed == FailsAt(mapping, source, target, param, value)
    {
      hide TranslateSingle, IsRemoved;
      var record := TranslateSingle(mapping, source, target, param, value);
      r, failed := start, false;
      match record.status
      case Success =>
        if record.targetParam != "" {
          r := r.(params := r.params[record.targetParam := record.targetValue]);
        }
      case Default =>
        if record.targetParam != "" {
          r := r.(params := r.params[record.targetParam := record.targetValue]);
        }
      case Failed =>
        failed := true;
        r := r.(errors := r.errors + [record.message]);
        if value == "" {
          r := r.(warnings := r.warnings + [Dropped(param)]);
        } else {
          r := r.(params := r.params[param := value], warnings := r.warnings + [KeptOriginal(param, value)]);
        }
      case Skipped =>
        if IsRemoved(mapping, source, target, param, record) {
          r := r.(warnings := r.warnings + [RemovedParam(param, value)]);
        } else {
          r := r.(params := r.params[param := value], warnings := r.warnings + [PassedThrough(param, value)]);
        }
    }

    method Translate(source: Encoder, target: Encoder, params: Params) returns (o: Outcome)
      ensures o == Stage(mapping, source, target, strictMode, injectHardwareParams, params, SortedNames(params.Keys))
    {
      hide FailsAt, Step, Inject, StageStart, SortedNames, CodecsDiffer;
      if source !in mapping.families { return Unregistered(source); }
      if target !in mapping.families { return Unregistered(target); }
      var r := StageStart(mapping, source, target);
      ghost var start := r;
      var names := SortedParamNames(params);
      assert Translated(mapping, source, target, names[..0], params, start) == start;
      hide Translated, Processed;
      var i := 0;
      while i < |names|
        invariant 0 <= i <= |names|
        invariant r == Translated(mapping, source, target, names[..i], params, start)
        invariant strictMode ==>
          Processed(mapping, source, target, names, params, 0) == Processed(mapping, source, target, names, params, i)
        invariant strictMode && i > 0 ==> !FailsAt(mapping, source, target, names[i - 1], params[names[i - 1]])
      {
        ProcessedStep(mapping, source, target, names, params, i);
        TranslatedStep(mapping, source, target, names, params, start, i);
        var failed;
        r, failed := TranslateParam(source, target, names[i], params[names[i]], r);
        if failed && strictMode {
          return Stopped(r, names[i]);
        }
        i := i + 1;
      }
      assert names[..|names|] == names;
      if injectHardwareParams {
        r := InjectHardwareParams(target, r);
      }
      o := Done(r);
    }

    /** The body of the chain loop. */
    method ChainStage(source: Encoder, target: Encoder, s: ChainState) returns (next: ChainState)
      requires !s.stopped
      ensures next == NextStage(mapping, source, target, strictMode, injectHardwareParams, s)
    {
      hide Stage, SortedNames, NotRegistered;
      next := s;
      var stage := Translate(source, target, s.params);
      match stage
      case Done(r) =>
        next := ChainState(r.params, s.errors + r.errors, s.warnings + r.warnings, false);
      case Stopped(_, _) =>
        next := s.(stopped := true);
      case Unregistered(encoder) =>
        if strictMode {
          next := s.(stopped := true);
        } else {
          next := s.(errors := s.errors + [NotRegistered(encoder)]);
        }
    }

    /** The injection flag is switched off for the stages of a longer chain and restored on every
        way out. */
    method TranslateChain(chain: seq<Encoder>, params: Params) returns (o: ChainOutcome)
      modifies `injectHardwareParams
      ensures injectHardwareParams == old(injectHardwareParams)
      ensures o == Chain(mapping, strictMode, injectHardwareParams, chain, params)
    {
      hide *;
      ChainBegins(mapping, strictMode, injectHardwareParams, chain, params);
      if |chain| < 2 { return TooShort; }
      var s := ChainState(params, [], [], false);
      var savedInject := injectHardwareParams;
      if |chain| > 2 {
        injectHardwareParams := false;
      }
      for i := 0 to |chain| - 1
        invariant injectHardwareParams == (savedInject && |chain| == 2)
        invariant !s.stopped && ChainAfter(mapping, strictMode, savedInject, chain, params, i) == s
      {
        ChainStep(mapping, strictMode, savedInject, chain, params, i);
        s := ChainStage(chain[i], chain[i + 1], s);
        if s.stopped {
          injectHardwareParams := savedInject;
          ChainEnds(mapping, strictMode, savedInject, chain, params, i + 1);
          o := FinishChain(chain[|chain| - 1], s);
          return;
        }
      }
      injectHardwareParams := savedInject;
      ChainEnds(mapping, strictMode, savedInject, chain, params, |chain| - 1);
      o := FinishChain(chain[|chain| - 1], s);
    }

    method FinishChain(target: Encoder, s: ChainState) returns (o: ChainOutcome)
      ensures o == ChainEnd(mapping, injectHardwareParams, target, s)
    {
      hide Inject;
      if s.stopped {
        return ChainStopped(Result(map[], map[], s.errors, s.warnings));
      }
      var r := Result(s.params, map[], s.errors, s.warnings);
      if injectHardwareParams {
        r := InjectHardwareParams(target, r);
      }
      o := ChainDone(r);
    }
  }

  lemma ChainBegins(m: Mapping, strict: bool, inject: bool, chain: seq<Encoder>, params: Params)
    ensures |chain| < 2 ==> Chain(m, strict, inject, chain, params) == TooShort
    ensures |chain| >= 2 ==> ChainAfter(m, strict, inject, chain, params, 0) == ChainState(params, [], [], false)
  {
    hide NextStage, ChainEnd;
  }

  lemma ChainStep(m: Mapping, strict: bool, inject: bool, chain: seq<Encoder>, params: Params, i: nat)
    requires i + 1 < |chain| && !ChainAfter(m, strict, inject, chain, params, i).stopped
    ensures ChainAfter(m, strict, inject, chain, params, i + 1)
         == NextStage(m, chain[i], chain[i + 1], strict, inject && |chain| == 2,
                      ChainAfter(m, strict, inject, chain, params, i))
  {
    hide NextStage;
  }

  lemma {:induction false} StoppedStays(m: Mapping, strict: bool, inject: bool, chain: seq<Encoder>, params: Params, n: nat, k: nat)
    requires n <= k < |chain| && ChainAfter(m, strict, inject, chain, params, n).stopped
    ensures ChainAfter(m, strict, inject, chain, params, k) == ChainAfter(m, strict, inject, chain, params, n)
    decreases k
  {
    hide NextStage;
    if n < k {
      StoppedStays(m, strict, inject, chain, params, n, k - 1);
    }
  }

  lemma ChainEnds(m: Mapping, strict: bool, inject: bool, chain: seq<Encoder>, params: Params, n: nat)
    requires n < |chain| && 2 <= |chain|
    requires n == |chain| - 1 || ChainAfter(m, strict, inject, chain, params, n).stopped
    ensures Chain(m, strict, inject, chain, params)
         == ChainEnd(m, inject, chain[|chain| - 1], ChainAfter(m, strict, inject, chain, params, n))
  {
    hide NextStage, ChainEnd;
    if n < |chain| - 1 {
      StoppedStays(m, strict, inject, chain, params, n, |chain| - 1);
    }
  }
}
