/**
 * What the translator promises (pkg/encoder/translator.go): user parameters always win over
 * hardware defaults, a chain injects once and only for its last encoder, two parameters that meet
 * in one target are resolved by name, and no parameter is lost without a warning.
 */
module TranslatorLaws {
  import opened EncoderMapping
  import opened Options
  import opened TranslatorSpec

  // ----- hardware injection

  ghost predicate Extends(big: Params, small: Params) {
    forall k :: k in small ==> k in big && big[k] == small[k]
  }

  ghost predicate Conflicts(rule: HardwareRule, params: Params) {
    exists i :: 0 <= i < |rule.conflictsWith| && rule.conflictsWith[i] in params
  }

  lemma {:induction false} FirstPresentIsConflict(names: seq<string>, params: Params)
    ensures FirstPresent(names, params).Some? <==> exists i :: 0 <= i < |names| && names[i] in params
    ensures FirstPresent(names, params).Some? ==>
      FirstPresent(names, params).value in names && FirstPresent(names, params).value in params
  {
    if names != [] && names[0] !in params {
      FirstPresentIsConflict(names[1..], params);
      if i :| 0 <= i < |names| && names[i] in params {
        assert names[1..][i - 1] == names[i];
      }
    }
  }

  /** Only a rule that neither repeats nor conflicts with what is there is injected. */
  lemma RuleInjected(r: Result, rule: HardwareRule)
    ensures rule.param in r.params || Conflicts(rule, r.params) ==>
      InjectRule(r, rule).params == r.params && InjectRule(r, rule).hardware == r.hardware
    ensures rule.param !in r.params && !Conflicts(rule, r.params) ==>
      && InjectRule(r, rule).params == r.params[rule.param := rule.value]
      && InjectRule(r, rule).hardware == r.hardware[rule.param := rule.value]
  {
    FirstPresentIsConflict(rule.conflictsWith, r.params);
  }

  /** Whether the k-th rule was the one that bound its parameter. */
  ghost predicate InjectedAt(r: Result, rules: seq<HardwareRule>, k: nat)
    requires k < |rules|
  {
    var before := InjectRules(r, rules[..k]);
    rules[k].param !in before.params && !Conflicts(rules[k], before.params)
  }

  /** The k-th rule supplied the binding of q, and did not conflict with what was there at first. */
  ghost predicate SuppliedBy(r: Result, rules: seq<HardwareRule>, q: string, value: string, k: int) {
    0 <= k < |rules| && InjectedAt(r, rules, k) && rules[k].param == q && rules[k].value == value
    && !Conflicts(rules[k], r.params)
  }

  lemma SuppliedEarlier(r: Result, rules: seq<HardwareRule>, n: nat, q: string, value: string, k: int)
    requires n <= |rules| && SuppliedBy(r, rules[..n], q, value, k)
    ensures SuppliedBy(r, rules, q, value, k)
  {
    assert rules[..n][..k] == rules[..k];
  }

  lemma ConflictsStayAway(rule: HardwareRule, small: Params, big: Params)
    requires Extends(big, small) && !Conflicts(rule, big)
    ensures !Conflicts(rule, small)
  {
    if Conflicts(rule, small) {
      ConflictsGrow(rule, small, big);
    }
  }

  /** Injection keeps every binding; what it adds it reports as hardware; and every binding it adds
      comes from a rule that conflicted neither with the parameters translated before nor with any
      rule injected before it. */
  lemma {:induction false} InjectionOnlyAdds(r: Result, rules: seq<HardwareRule>)
    ensures Extends(InjectRules(r, rules).params, r.params)
    ensures forall q :: q in InjectRules(r, rules).params && q !in r.params ==>
      q in InjectRules(r, rules).hardware && InjectRules(r, rules).hardware[q] == InjectRules(r, rules).params[q]
    ensures forall q :: q in InjectRules(r, rules).hardware && q !in r.hardware ==>
      q in InjectRules(r, rules).params && q !in r.params
    ensures forall q :: q in r.hardware && q in r.params ==>
      q in InjectRules(r, rules).hardware && InjectRules(r, rules).hardware[q] == r.hardware[q]
    ensures forall q :: q in InjectRules(r, rules).params && q !in r.params ==>
      exists k :: SuppliedBy(r, rules, q, InjectRules(r, rules).params[q], k)
  {
    if rules != [] {
      var n := |rules| - 1;
      var before := InjectRules(r, rules[..n]);
      InjectionOnlyAdds(r, rules[..n]);
      RuleInjected(before, rules[n]);
      forall q | q in InjectRules(r, rules).params && q !in r.params
        ensures exists k :: SuppliedBy(r, rules, q, InjectRules(r, rules).params[q], k)
      {
        if q in before.params {
          var k :| SuppliedBy(r, rules[..n], q, before.params[q], k);
          SuppliedEarlier(r, rules, n, q, before.params[q], k);
        } else {
          ConflictsStayAway(rules[n], r.params, before.params);
          assert SuppliedBy(r, rules, q, rules[n].value, n);
        }
      }
    }
  }

  /** Injection is maximal: a default that is missing from the result is blocked by a conflict. */
  lemma {:induction false} InjectionIsMaximal(r: Result, rules: seq<HardwareRule>, k: nat)
    requires k < |rules|
    ensures rules[k].param in InjectRules(r, rules).params || Conflicts(rules[k], InjectRules(r, rules).params)
  {
    var n := |rules| - 1;
    var before := InjectRules(r, rules[..n]);
    RuleInjected(before, rules[n]);
    InjectionOnlyAdds(before, [rules[n]]);
    assert [rules[n]][..0] == [];
    if k < n {
      InjectionIsMaximal(r, rules[..n], k);
      if rules[k].param !in before.params {
        ConflictsGrow(rules[k], before.params, InjectRules(r, rules).params);
      }
    } else if Conflicts(rules[n], before.params) {
      ConflictsGrow(rules[n], before.params, InjectRules(r, rules).params);
    }
  }

  lemma ConflictsGrow(rule: HardwareRule, small: Params, big: Params)
    requires Extends(big, small) && Conflicts(rule, small)
    ensures Conflicts(rule, big)
  {
    var i :| 0 <= i < |rule.conflictsWith| && rule.conflictsWith[i] in small;
    assert rule.conflictsWith[i] in big;
  }

  /** Nothing is injected exactly when every default is present or in conflict beforehand. */
  lemma {:induction false} NothingToInject(r: Result, rules: seq<HardwareRule>)
    ensures InjectRules(r, rules).params == r.params
      <==> forall k :: 0 <= k < |rules| ==> rules[k].param in r.params || Conflicts(rules[k], r.params)
    ensures InjectRules(r, rules).params == r.params ==> InjectRules(r, rules).hardware == r.hardware
  {
    if rules != [] {
      var n := |rules| - 1;
      var before := InjectRules(r, rules[..n]);
      NothingToInject(r, rules[..n]);
      RuleInjected(before, rules[n]);
      InjectionOnlyAdds(r, rules[..n]);
      InjectionOnlyAdds(before, [rules[n]]);
      assert [rules[n]][..0] == [];
      assert forall k :: 0 <= k < n ==> rules[..n][k] == rules[k];
    }
  }

  /** Injecting twice is injecting once, whatever else the second result carries. */
  lemma InjectionIsIdempotent(r: Result, again: Result, rules: seq<HardwareRule>)
    requires again.params == InjectRules(r, rules).params
    ensures InjectRules(again, rules).params == again.params
    ensures InjectRules(again, rules).hardware == again.hardware
  {
    forall k | 0 <= k < |rules|
      ensures rules[k].param in again.params || Conflicts(rules[k], again.params)
    {
      InjectionIsMaximal(r, rules, k);
    }
    NothingToInject(again, rules);
  }

  /** The parameters and the newly injected ones depend on nothing but the parameters. */
  lemma {:induction false} InjectionReadsParamsOnly(a: Result, b: Result, rules: seq<HardwareRule>)
    requires a.params == b.params
    ensures InjectRules(a, rules).params == InjectRules(b, rules).params
    ensures a.hardware == b.hardware ==> InjectRules(a, rules).hardware == InjectRules(b, rules).hardware
  {
    if rules != [] {
      var n := |rules| - 1;
      InjectionReadsParamsOnly(a, b, rules[..n]);
    }
  }

  // ----- chains

  /** The parameters after n stages with no injection anywhere. */
  ghost function Plain(m: Mapping, chain: seq<Encoder>, params: Params, n: nat): Params
    requires n < |chain|
  {
    if n == 0 then params
    else PlainStage(m, chain[n - 1], chain[n], Plain(m, chain, params, n - 1))
  }

  ghost function PlainStage(m: Mapping, source: Encoder, target: Encoder, params: Params): Params {
    var o := Stage(m, source, target, false, false, params, SortedNames(params.Keys));
    if o.Unregistered? then params else o.result.params
  }

  ghost predicate Registered(m: Mapping, source: Encoder, target: Encoder) {
    source in m.families && target in m.families
  }

  lemma StageWithoutStrictness(m: Mapping, source: Encoder, target: Encoder, inject: bool, params: Params, names: seq<string>)
    requires forall k :: 0 <= k < |names| ==> names[k] in params
    ensures Registered(m, source, target) ==>
      var plain := Stage(m, source, target, false, false, params, names);
      && plain.Done?
      && Stage(m, source, target, false, inject, params, names)
         == Done(if inject then Inject(m, target, plain.result) else plain.result)
    ensures !Registered(m, source, target) ==> Stage(m, source, target, false, inject, params, names).Unregistered?
  {
    hide Inject, Translated, StageStart;
  }

  lemma NextPlain(m: Mapping, source: Encoder, target: Encoder, s: ChainState)
    requires !s.stopped
    ensures NextStage(m, source, target, false, false, s).params == PlainStage(m, source, target, s.params)
    ensures !NextStage(m, source, target, false, false, s).stopped
  {
    hide Stage;
    StageWithoutStrictness(m, source, target, false, s.params, SortedNames(s.params.Keys));
  }

  /** Stages of a chain that does not inject inside. */
  lemma {:induction false} ChainIsPlain(m: Mapping, inject: bool, chain: seq<Encoder>, params: Params, n: nat)
    requires n < |chain| && (inject ==> |chain| != 2)
    ensures ChainAfter(m, false, inject, chain, params, n).params == Plain(m, chain, params, n)
    ensures !ChainAfter(m, false, inject, chain, params, n).stopped
  {
    hide NextStage, PlainStage;
    if n > 0 {
      ChainIsPlain(m, inject, chain, params, n - 1);
      NextPlain(m, chain[n - 1], chain[n], ChainAfter(m, false, inject, chain, params, n - 1));
    }
  }

  /** The only stage of a chain of two injects by itself. */
  lemma ShortStage(m: Mapping, source: Encoder, target: Encoder, s: ChainState)
    requires !s.stopped
    ensures !NextStage(m, source, target, false, true, s).stopped
    ensures Registered(m, source, target) ==>
      exists r: Result :: r.params == PlainStage(m, source, target, s.params)
        && NextStage(m, source, target, false, true, s).params == Inject(m, target, r).params
    ensures !Registered(m, source, target) ==>
      && PlainStage(m, source, target, s.params) == s.params
      && NextStage(m, source, target, false, true, s).params == s.params
  {
    hide Stage, Inject;
    var names := SortedNames(s.params.Keys);
    StageWithoutStrictness(m, source, target, true, s.params, names);
    StageWithoutStrictness(m, source, target, false, s.params, names);
  }

  /** The chain theorem: the parameters of every chain are one injection for its last encoder,
      applied to the fold of injection-free stages. */
  lemma ChainInjectsOnce(m: Mapping, chain: seq<Encoder>, params: Params, r: Result)
    requires 2 <= |chain| && r.params == Plain(m, chain, params, |chain| - 1)
    ensures Chain(m, false, true, chain, params).ChainDone?
    ensures Chain(m, false, true, chain, params).result.params == Inject(m, chain[|chain| - 1], r).params
  {
    hide NextStage, PlainStage;
    var last := chain[|chain| - 1];
    var rules := GetHardwareParams(m, last);
    var s := ChainAfter(m, false, true, chain, params, |chain| - 1);
    var whole := Result(s.params, map[], s.errors, s.warnings);
    if |chain| != 2 {
      ChainIsPlain(m, true, chain, params, |chain| - 1);
      InjectionReadsParamsOnly(whole, r, rules);
    } else {
      ShortChain(m, chain, params);
      if Registered(m, chain[0], last) {
        var inner: Result :| inner.params == r.params && s.params == Inject(m, last, inner).params;
        InjectionIsIdempotent(inner, whole, rules);
        InjectionReadsParamsOnly(inner, r, rules);
      } else {
        InjectionReadsParamsOnly(whole, r, rules);
      }
    }
  }

  lemma ShortChain(m: Mapping, chain: seq<Encoder>, params: Params)
    requires |chain| == 2
    ensures !ChainAfter(m, false, true, chain, params, 1).stopped
    ensures Registered(m, chain[0], chain[1]) ==>
      exists r: Result :: r.params == Plain(m, chain, params, 1)
        && ChainAfter(m, false, true, chain, params, 1).params == Inject(m, chain[1], r).params
    ensures !Registered(m, chain[0], chain[1]) ==>
      ChainAfter(m, false, true, chain, params, 1).params == Plain(m, chain, params, 1)
  {
    hide NextStage, PlainStage, Inject;
    var start := ChainState(params, [], [], false);
    assert ChainAfter(m, false, true, chain, params, 0) == start;
    assert Plain(m, chain, params, 0) == params;
    ShortStage(m, chain[0], chain[1], start);
  }

  /** The hardware parameters a chain reports are the ones it injected exactly when the chain has
      more than two encoders, or one of the two is unregistered, or there was nothing to inject: a
      chain of two injects inside its only stage, whose report the chain discards. */
  lemma ChainReportsHardware(m: Mapping, chain: seq<Encoder>, params: Params)
    requires 2 <= |chain|
    ensures var plain := Plain(m, chain, params, |chain| - 1);
            var rules := GetHardwareParams(m, chain[|chain| - 1]);
            var o := Chain(m, false, true, chain, params);
            && o.ChainDone?
            && (o.result.hardware.Keys == o.result.params.Keys - plain.Keys
                <==> || |chain| > 2
                     || !Registered(m, chain[0], chain[1])
                     || forall k :: 0 <= k < |rules| ==> rules[k].param in plain || Conflicts(rules[k], plain))
            && (|chain| == 2 && Registered(m, chain[0], chain[1]) ==> o.result.hardware == map[])
  {
    hide NextStage, PlainStage;
    var last := chain[|chain| - 1];
    var rules := GetHardwareParams(m, last);
    var plain := Plain(m, chain, params, |chain| - 1);
    var s := ChainAfter(m, false, true, chain, params, |chain| - 1);
    var whole := Result(s.params, map[], s.errors, s.warnings);
    InjectionOnlyAdds(whole, rules);
    if |chain| > 2 {
      ChainIsPlain(m, true, chain, params, |chain| - 1);
    } else {
      ShortChain(m, chain, params);
      if Registered(m, chain[0], last) {
        var inner: Result :| inner.params == plain && s.params == Inject(m, last, inner).params;
        InjectionIsIdempotent(inner, whole, rules);
        NothingToInject(inner, rules);
        InjectionOnlyAdds(inner, rules);
        if s.params.Keys <= plain.Keys {
          assert s.params == plain;
        }
      }
    }
  }

  /** Two H.264 encoders, one default for the hardware one, and no rules at all. */
  const NVENC := Mapping(map["libx264" := H264, "h264_nvenc" := H264], map[],
                         map["h264_nvenc:nvidia" := [HardwareRule("rc", "constqp", [])]], map[],
                         (codec, param, target) => None, map["h264_nvenc" := "nvidia"])

  /** The default is injected into the parameters of this chain of two, and reported nowhere. */
  lemma ChainOfTwoReportsNone()
    ensures var o := Chain(NVENC, false, true, ["libx264", "h264_nvenc"], map[]);
            o.ChainDone? && o.result.params == map["rc" := "constqp"] && o.result.hardware == map[]
  {
    var chain := ["libx264", "h264_nvenc"];
    var r := Result(map[], map[], [], []);
    NoParamsNoNames(map[]);
    assert Plain(NVENC, chain, map[], 0) == map[];
    assert PlainStage(NVENC, "libx264", "h264_nvenc", map[]) == map[];
    assert Plain(NVENC, chain, map[], 1) == map[];
    ChainInjectsOnce(NVENC, chain, map[], r);
    ChainReportsHardware(NVENC, chain, map[]);
    OneDefault(r);
    hide Chain, Plain, PlainStage, Inject;
  }

  lemma NoParamsNoNames(params: Params)
    requires params == map[]
    ensures SortedNames(params.Keys) == []
  {
  }

  lemma OneDefault(r: Result)
    requires r == Result(map[], map[], [], [])
    ensures Inject(NVENC, "h264_nvenc", r).params == map["rc" := "constqp"]
  {
    var rules := [HardwareRule("rc", "constqp", [])];
    assert "h264_nvenc" + ":" + "nvidia" == "h264_nvenc:nvidia";
    assert GetHardwareParams(NVENC, "h264_nvenc") == rules;
    assert rules[..0] == [];
    assert InjectRules(r, []) == r;
    assert InjectRules(r, rules) == InjectRule(r, rules[0]);
  }

  // ----- one stage

  /** The names are the keys in strictly ascending order, each once. */
  lemma {:induction false} SortedNamesAscend(keys: set<string>, i: nat, j: nat)
    requires i < j < |SortedNames(keys)|
    ensures Leq(SortedNames(keys)[i], SortedNames(keys)[j]) && SortedNames(keys)[i] != SortedNames(keys)[j]
    decreases j
  {
    hide Leq, Least;
    SortedStep(keys);
    var m := Least(keys);
    var rest := SortedNames(keys - {m});
    assert SortedNames(keys)[j] == rest[j - 1];
    if i == 0 {
      assert rest[j - 1] in keys - {m};
    } else {
      SortedNamesAscend(keys - {m}, i - 1, j - 1);
    }
  }

  /** The k-th name binds q and no later one does. */
  ghost predicate LastToBind(m: Mapping, source: Encoder, target: Encoder, names: seq<string>, params: Params, q: string, k: int)
    requires forall k :: 0 <= k < |names| ==> names[k] in params
  {
    && 0 <= k < |names| && Binds(m, source, target, names[k], params, q)
    && forall j :: k < j < |names| ==> !Binds(m, source, target, names[j], params, q)
  }

  ghost predicate Binds(m: Mapping, source: Encoder, target: Encoder, param: string, params: Params, q: string)
    requires param in params
  {
    var b := Binding(m, source, target, param, params[param]);
    b.Some? && b.value.0 == q
  }

  /** A binding of the result is the one of the last name that binds it, or was there at the start
      and is bound by none. */
  lemma {:induction false} LastNameWins(m: Mapping, source: Encoder, target: Encoder, names: seq<string>, params: Params,
                                        start: Result, q: string)
    requires forall k :: 0 <= k < |names| ==> names[k] in params
    ensures var out := Translated(m, source, target, names, params, start).params;
            && (q in out && q !in start.params ==> exists k :: LastToBind(m, source, target, names, params, q, k))
            && (forall k :: LastToBind(m, source, target, names, params, q, k) ==>
                  q in out && out[q] == Binding(m, source, target, names[k], params[names[k]]).value.1)
            && (forall k :: 0 <= k < |names| && Binds(m, source, target, names[k], params, q) ==> q in out)
  {
    hide Binding, WarningsOf, ErrorsOf;
    if names != [] {
      var n := |names| - 1;
      LastNameWins(m, source, target, names[..n], params, start, q);
      var out := Translated(m, source, target, names, params, start).params;
      if q in out && q !in start.params {
        if Binds(m, source, target, names[n], params, q) {
          assert LastToBind(m, source, target, names, params, q, n);
        } else {
          var k :| LastToBind(m, source, target, names[..n], params, q, k);
          assert LastToBind(m, source, target, names, params, q, k);
        }
      }
      forall k | LastToBind(m, source, target, names, params, q, k)
        ensures q in out && out[q] == Binding(m, source, target, names[k], params[names[k]]).value.1
      {
        if k < n {
          assert LastToBind(m, source, target, names[..n], params, q, k);
        }
      }
    }
  }

  /** When two parameters meet in one target, the stage keeps the binding of the greatest name, on
      every run alike; and a target no parameter binds is absent. */
  lemma GreatestNameWins(m: Mapping, source: Encoder, target: Encoder, params: Params, q: string)
    requires Registered(m, source, target)
    ensures var o := Stage(m, source, target, false, false, params, SortedNames(params.Keys));
            && o.Done?
            && (q in o.result.params
                <==> exists p :: p in params && Binds(m, source, target, p, params, q))
            && (q in o.result.params ==>
                exists p :: p in params && Binds(m, source, target, p, params, q)
                  && o.result.params[q] == Binding(m, source, target, p, params[p]).value.1
                  && forall other :: other in params && Binds(m, source, target, other, params, q) ==> Leq(other, p))
  {
    hide Binding, Binds, Leq, StageStart, Translated, LastToBind, Stage, SortedNames;
    var names := SortedNames(params.Keys);
    var start := StageStart(m, source, target);
    StageIsTranslated(m, source, target, params, names);
    LastNameWins(m, source, target, names, params, start, q);
    if p :| p in params && Binds(m, source, target, p, params, q) {
      var k :| 0 <= k < |names| && names[k] == p;
    }
    if q in Translated(m, source, target, names, params, start).params {
      var k :| LastToBind(m, source, target, names, params, q, k);
      LastIsGreatest(m, source, target, params, q, k);
    }
  }

  lemma LastIsGreatest(m: Mapping, source: Encoder, target: Encoder, params: Params, q: string, k: int)
    requires LastToBind(m, source, target, SortedNames(params.Keys), params, q, k)
    ensures 0 <= k < |SortedNames(params.Keys)|
    ensures var p := SortedNames(params.Keys)[k];
            && p in params && Binds(m, source, target, p, params, q)
            && forall other :: other in params && Binds(m, source, target, other, params, q) ==> Leq(other, p)
  {
    hide Binding, Binds, Leq, SortedNames;
    var names := SortedNames(params.Keys);
    forall other | other in params && Binds(m, source, target, other, params, q)
      ensures Leq(other, names[k])
    {
      var j :| 0 <= j < |names| && names[j] == other;
      if j < k {
        SortedNamesAscend(params.Keys, j, k);
      } else {
        LeqTotal(other, other);
      }
    }
  }

  lemma StageIsTranslated(m: Mapping, source: Encoder, target: Encoder, params: Params, names: seq<string>)
    requires Registered(m, source, target) && forall k :: 0 <= k < |names| ==> names[k] in params
    ensures Stage(m, source, target, false, false, params, names)
         == Done(Translated(m, source, target, names, params, StageStart(m, source, target)))
    ensures StageStart(m, source, target).params == map[] && StageStart(m, source, target).hardware == map[]
  {
    hide Translated;
    assert names[..|names|] == names;
  }

  /** No parameter is lost in silence: each one either binds its target in the result or is named
      by a warning that says it was dropped or removed. */
  lemma NoSilentLoss(m: Mapping, source: Encoder, target: Encoder, params: Params, p: string)
    requires Registered(m, source, target) && p in params
    ensures var o := Stage(m, source, target, false, false, params, SortedNames(params.Keys));
            && o.Done?
            && ((exists q :: Binds(m, source, target, p, params, q) && q in o.result.params)
                || Dropped(p) in o.result.warnings || RemovedParam(p, params[p]) in o.result.warnings)
  {
    hide StageStart, Binding, WarningsOf;
    var names := SortedNames(params.Keys);
    var start := StageStart(m, source, target);
    StageIsTranslated(m, source, target, params, names);
    LostOnlyWithWarning(m, source, target, p, params[p]);
    WarningsAreKept(m, source, target, names, params, start, p);
    var b := Binding(m, source, target, p, params[p]);
    if b.Some? {
      LastNameWins(m, source, target, names, params, start, b.value.0);
      assert Binds(m, source, target, p, params, b.value.0);
    } else {
      var w := WarningsOf(m, source, target, p, params[p]);
      assert w[0] in Translated(m, source, target, names, params, start).warnings;
    }
  }

  lemma LostOnlyWithWarning(m: Mapping, source: Encoder, target: Encoder, p: string, value: string)
    ensures Binding(m, source, target, p, value).None? ==>
      || WarningsOf(m, source, target, p, value) == [Dropped(p)]
      || WarningsOf(m, source, target, p, value) == [RemovedParam(p, value)]
  {
    hide IsRemoved, CodecsDiffer, FirstRule;
  }

  lemma {:induction false} WarningsAreKept(m: Mapping, source: Encoder, target: Encoder, names: seq<string>, params: Params,
                                           start: Result, p: string)
    requires forall k :: 0 <= k < |names| ==> names[k] in params
    requires p in names
    ensures forall w :: w in WarningsOf(m, source, target, p, params[p]) ==>
      w in Translated(m, source, target, names, params, start).warnings
  {
    hide Binding, WarningsOf, ErrorsOf;
    var n := |names| - 1;
    if p != names[n] {
      WarningsAreKept(m, source, target, names[..n], params, start, p);
    }
  }

  /** The guard against empty values sits in the branch of a failed conversion only: an empty value
      is carried to the target whenever no rule converts or replaces it. */
  ghost predicate CarriesEmpty(m: Mapping, source: Encoder, target: Encoder, p: string) {
    var direct := GetParameterTranslation(m, source, target, p);
    var rule := if direct.Some? then direct else CodecSpecificRule(m, source, target, p);
    if rule.None? then ShouldPassThrough(m, source, target, p) || Unruled(m, source, target, p)
    else
      && rule.value.targetParam != ""
      && rule.value.defaultValue == ""
      && var converter := ConverterFor(m, rule.value, source, target, p);
         converter.None? || converter.value("") == Value("")
  }

  /** A parameter without any rule that is neither codec-scoped across codecs nor shaped like the
      declaration of an unsupported one. */
  ghost predicate Unruled(m: Mapping, source: Encoder, target: Encoder, p: string) {
    && !Contains("no translation rule for parameter '" + p + "'", UNSUPPORTED)
    && !(IsCodecScoped(p) && CodecsDiffer(m, source, target))
  }

  lemma EmptyValueCarried(m: Mapping, source: Encoder, target: Encoder, p: string)
    ensures Binding(m, source, target, p, "").Some? && Binding(m, source, target, p, "").value.1 == ""
      <==> CarriesEmpty(m, source, target, p)
  {
    hide Contains, FirstRule;
    ContainsItsEnd("parameter '" + p + "' ", UNSUPPORTED);
  }

  /** A converter turns a value into nothing. */
  ghost predicate Blanks(m: Mapping, source: Encoder, target: Encoder, p: string, value: string) {
    var direct := GetParameterTranslation(m, source, target, p);
    var rule := if direct.Some? then direct else CodecSpecificRule(m, source, target, p);
    && rule.Some? && rule.value.targetParam != ""
    && var converter := ConverterFor(m, rule.value, source, target, p);
       converter.Some? && converter.value(value) == Value("")
  }

  lemma BlankBinding(m: Mapping, source: Encoder, target: Encoder, p: string, value: string)
    requires value != ""
    ensures Binding(m, source, target, p, value).Some? && Binding(m, source, target, p, value).value.1 == ""
      <==> Blanks(m, source, target, p, value)
  {
    hide Contains, FirstRule;
    ContainsItsEnd("parameter '" + p + "' ", UNSUPPORTED);
  }

  /** p is the greatest of the names that bind q. */
  ghost predicate Decides(m: Mapping, source: Encoder, target: Encoder, params: Params, q: string, p: string) {
    && p in params && Binds(m, source, target, p, params, q)
    && forall other :: other in params && Binds(m, source, target, other, params, q) ==> Leq(other, p)
  }

  ghost predicate Empties(m: Mapping, source: Encoder, target: Encoder, p: string, value: string) {
    if value == "" then CarriesEmpty(m, source, target, p) else Blanks(m, source, target, p, value)
  }

  /** A stage's result holds an empty value exactly where the parameter that decides the target is
      empty and carried, or is blanked by its converter. */
  lemma EmptyValueReachesResult(m: Mapping, source: Encoder, target: Encoder, params: Params, q: string)
    requires Registered(m, source, target)
    ensures var o := Stage(m, source, target, false, false, params, SortedNames(params.Keys));
            && o.Done?
            && (q in o.result.params && o.result.params[q] == ""
                <==> exists p :: Decides(m, source, target, params, q, p) && Empties(m, source, target, p, params[p]))
  {
    hide Stage, SortedNames, Leq, Binding, CarriesEmpty, Blanks;
    GreatestNameWins(m, source, target, params, q);
    var out := Stage(m, source, target, false, false, params, SortedNames(params.Keys)).result.params;
    forall p | p in params
      ensures Empties(m, source, target, p, params[p])
          <==> Binding(m, source, target, p, params[p]).Some? && Binding(m, source, target, p, params[p]).value.1 == ""
    {
      if params[p] == "" {
        EmptyValueCarried(m, source, target, p);
      } else {
        BlankBinding(m, source, target, p, params[p]);
      }
    }
    if q in out {
      var w :| w in params && Binds(m, source, target, w, params, q)
        && out[q] == Binding(m, source, target, w, params[w]).value.1
        && forall other :: other in params && Binds(m, source, target, other, params, q) ==> Leq(other, w);
      assert Decides(m, source, target, params, q, w);
      forall p | Decides(m, source, target, params, q, p)
        ensures p == w
      {
        LeqTotal(p, w);
      }
    }
  }

  /** An empty bit rate passes through to the output parameters. */
  lemma EmptyBitRateReachesResult()
    ensures var o := Stage(NVENC, "libx264", "h264_nvenc", false, false, map["b:v" := ""], SortedNames({"b:v"}));
            o.Done? && "b:v" in o.result.params && o.result.params["b:v"] == ""
  {
    var params: Params := map["b:v" := ""];
    assert params.Keys == {"b:v"};
    EmptyValueReachesResult(NVENC, "libx264", "h264_nvenc", params, "b:v");
    assert Binding(NVENC, "libx264", "h264_nvenc", "b:v", "") == Some(("b:v", ""));
    EmptyValueCarried(NVENC, "libx264", "h264_nvenc", "b:v");
    LeqTotal("b:v", "b:v");
    hide Stage, SortedNames, Leq, Binding, CarriesEmpty;
    assert Decides(NVENC, "libx264", "h264_nvenc", params, "b:v", "b:v");
  }

  lemma {:induction false} ContainsItsEnd(s: string, part: string)
    ensures Contains(s + part, part)
  {
    if s == "" {
      assert s + part == part;
    } else {
      assert (s + part)[1..] == s[1..] + part;
      ContainsItsEnd(s[1..], part);
    }
  }

  /** A pair's own rule decides alone: the per-codec tables are consulted only where it has none. */
  lemma DirectRuleDecides(m: Mapping, other: Mapping, source: Encoder, target: Encoder, p: string, value: string)
    requires other == m.(names := other.names) && GetParameterTranslation(m, source, target, p).Some?
    ensures TranslateSingle(other, source, target, p, value) == TranslateSingle(m, source, target, p, value)
  {
    hide FirstRule;
  }

  /** profile, level and qp never cross from one codec to another except by a rule of the pair. */
  lemma CodecScopedStaysBehind(m: Mapping, source: Encoder, target: Encoder, p: string, value: string)
    requires IsCodecScoped(p) && CodecsDiffer(m, source, target)
    requires GetParameterTranslation(m, source, target, p).None?
    ensures Binding(m, source, target, p, value).None?
    ensures WarningsOf(m, source, target, p, value) == [RemovedParam(p, value)]
  {
    hide Contains, FirstRule;
  }

  // ----- strict mode

  lemma {:induction false} ProcessedFindsFirst(m: Mapping, source: Encoder, target: Encoder, names: seq<string>, params: Params, i: nat)
    requires i <= |names| && forall k :: 0 <= k < |names| ==> names[k] in params
    ensures var n := Processed(m, source, target, names, params, i);
            && (forall k :: i <= k < n - 1 ==> !FailsAt(m, source, target, names[k], params[names[k]]))
            && (n < |names| ==> i < n && FailsAt(m, source, target, names[n - 1], params[names[n - 1]]))
    decreases |names| - i
  {
    hide FailsAt;
    if i < |names| && !FailsAt(m, source, target, names[i], params[names[i]]) {
      ProcessedFindsFirst(m, source, target, names, params, i + 1);
    }
  }

  /** A strict stage stops exactly when some parameter fails to convert, at the least such name. */
  lemma StrictStopsAtLeastFailure(m: Mapping, source: Encoder, target: Encoder, inject: bool, params: Params)
    requires Registered(m, source, target)
    ensures var o := Stage(m, source, target, true, inject, params, SortedNames(params.Keys));
            && (o.Stopped? <==> exists p :: p in params && FailsAt(m, source, target, p, params[p]))
            && (o.Stopped? ==>
                && o.error in params && FailsAt(m, source, target, o.error, params[o.error])
                && forall p :: p in params && FailsAt(m, source, target, p, params[p]) ==> Leq(o.error, p))
  {
    hide FailsAt, Translated, StageStart, Inject, Leq, SortedNames, Processed;
    var names := SortedNames(params.Keys);
    var n := Processed(m, source, target, names, params, 0);
    ProcessedFindsFirst(m, source, target, names, params, 0);
    forall p | p in params && FailsAt(m, source, target, p, params[p])
      ensures n > 0 && FailsAt(m, source, target, names[n - 1], params[names[n - 1]]) && Leq(names[n - 1], p)
    {
      var k :| 0 <= k < |names| && names[k] == p;
      if n - 1 < k {
        SortedNamesAscend(params.Keys, n - 1, k);
      } else {
        LeqTotal(p, p);
      }
    }
  }
}
