/**
 * Which rule a parameter is translated by and what it is turned into, read off the tables
 * (pkg/encoder/translator.go, pkg/encoder/mapping.go); and what strictness changes in a chain.
 */
module TranslationRules {
  import opened EncoderMapping
  import opened Options
  import opened TranslatorLaws
  import opened TranslatorSpec

  // ----- words

  /** Names are ordered byte by byte: a is before b when it is a prefix of b, or smaller where they first
      differ. */
  lemma {:induction false} LeqExactly(a: string, b: string)
    ensures Leq(a, b) <==> a <= b || exists k :: DiffersAt(a, b, k) && a[k] < b[k]
  {
    if a != "" && b != "" && a[0] == b[0] {
      LeqExactly(a[1..], b[1..]);
      assert a <= b <==> a[1..] <= b[1..];
      forall k: int | 0 <= k < |a| - 1 && k < |b| - 1
        ensures DiffersAt(a[1..], b[1..], k) <==> DiffersAt(a, b, k + 1)
      {
        DiffersLater(a, b, k);
      }
      if k :| DiffersAt(a[1..], b[1..], k) && a[1..][k] < b[1..][k] {
        assert DiffersAt(a, b, k + 1) && a[k + 1] < b[k + 1];
      }
      if k :| DiffersAt(a, b, k) && a[k] < b[k] {
        assert k > 0 && DiffersAt(a[1..], b[1..], k - 1);
      }
    } else if a != "" && b != "" {
      assert DiffersAt(a, b, 0);
    }
  }

  /** a and b first differ at position k. */
  ghost predicate DiffersAt(a: string, b: string, k: int) {
    0 <= k < |a| && k < |b| && a[k] != b[k] && a[..k] == b[..k]
  }

  lemma DiffersLater(a: string, b: string, k: nat)
    requires k + 1 < |a| && k + 1 < |b| && a[0] == b[0]
    ensures DiffersAt(a[1..], b[1..], k) <==> DiffersAt(a, b, k + 1)
  {
    assert a[..k + 1] == [a[0]] + a[1..][..k] && b[..k + 1] == [b[0]] + b[1..][..k];
    assert a[1..][..k] == a[..k + 1][1..] && b[1..][..k] == b[..k + 1][1..];
  }

  ghost predicate OccursAt(s: string, part: string, k: int) { 0 <= k && k + |part| <= |s| && s[k..k + |part|] == part }

  lemma OccursLater(s: string, part: string, k: nat)
    requires s != ""
    ensures OccursAt(s[1..], part, k) <==> OccursAt(s, part, k + 1)
    ensures OccursAt(s, part, 0) <==> part <= s
  {
    assert k + |part| <= |s| - 1 ==> s[1..][k..k + |part|] == s[k + 1..k + 1 + |part|];
  }

  /** A text contains part exactly when part occurs somewhere in it. */
  lemma {:induction false} ContainsExactly(s: string, part: string)
    ensures Contains(s, part) <==> exists k: nat :: OccursAt(s, part, k)
  {
    if s == "" {
      assert part <= s <==> OccursAt(s, part, 0);
    } else {
      ContainsExactly(s[1..], part);
      OccursLater(s, part, 0);
      hide OccursAt;
      forall k: nat
        ensures OccursAt(s[1..], part, k) <==> OccursAt(s, part, k + 1)
      {
        OccursLater(s, part, k);
      }
      if k: nat :| OccursAt(s[1..], part, k) {
        assert OccursAt(s, part, k + 1);
      }
      if k: nat :| OccursAt(s, part, k) {
        assert k > 0 ==> OccursAt(s[1..], part, k - 1);
      }
    }
  }

  // ----- the rule of a parameter

  /** The k-th rule is the first one for the parameter. */
  ghost predicate FirstAt(rules: seq<Rule>, param: string, k: int) {
    && 0 <= k < |rules| && rules[k].sourceParam == param
    && forall j :: 0 <= j < k ==> rules[j].sourceParam != param
  }

  lemma FirstAtRest(rules: seq<Rule>, param: string, k: int)
    requires rules != [] && rules[0].sourceParam != param && FirstAt(rules[1..], param, k)
    ensures FirstAt(rules, param, k + 1)
  {
    assert forall j :: 0 < j < |rules| ==> rules[j] == rules[1..][j - 1];
  }

  /** The rule looked up is the first one for the parameter, and none is found only if there is none. */
  lemma {:induction false} FirstRuleIsFirst(rules: seq<Rule>, param: string)
    ensures match FirstRule(rules, param)
            case Some(rule) => exists k :: FirstAt(rules, param, k) && rules[k] == rule
            case None => forall k :: 0 <= k < |rules| ==> rules[k].sourceParam != param
  {
    if rules == [] {
    } else if rules[0].sourceParam == param {
      assert FirstAt(rules, param, 0);
    } else {
      FirstRuleIsFirst(rules[1..], param);
      if FirstRule(rules[1..], param).Some? {
        var k :| FirstAt(rules[1..], param, k) && rules[1..][k] == FirstRule(rules[1..], param).value;
        FirstAtRest(rules, param, k);
      } else {
        assert forall k :: 0 < k < |rules| ==> rules[k] == rules[1..][k - 1];
      }
    }
  }

  /** The pair of encoders has a rule of its own for the parameter, and rule is the first. */
  ghost predicate HasPairRule(m: Mapping, source: Encoder, target: Encoder, p: string, rule: Rule) {
    var key := source + ":" + target;
    key in m.translations && exists k :: FirstAt(m.translations[key], p, k) && m.translations[key][k] == rule
  }

  ghost predicate NoPairRule(m: Mapping, source: Encoder, target: Encoder, p: string) {
    var key := source + ":" + target;
    key in m.translations ==> forall k :: 0 <= k < |m.translations[key]| ==> m.translations[key][k].sourceParam != p
  }

  lemma PairRuleFound(m: Mapping, source: Encoder, target: Encoder, p: string)
    ensures forall rule :: HasPairRule(m, source, target, p, rule) <==> GetParameterTranslation(m, source, target, p) == Some(rule)
    ensures NoPairRule(m, source, target, p) <==> GetParameterTranslation(m, source, target, p).None?
  {
    var key := source + ":" + target;
    if key in m.translations {
      var rules := m.translations[key];
      FirstRuleIsFirst(rules, p);
      hide FirstRule;
      forall k | FirstAt(rules, p, k)
        ensures FirstRule(rules, p) == Some(rules[k])
      {
        assert FirstRule(rules, p).Some?;
        var j :| FirstAt(rules, p, j) && rules[j] == FirstRule(rules, p).value;
        assert j == k;
      }
    }
  }

  /** The parameters whose values mean something else in every codec. */
  ghost predicate Scoped(p: string) { p == "profile" || p == "level" || p == "qp" }

  ghost predicate SameCodec(m: Mapping, source: Encoder, target: Encoder) {
    source in m.families && target in m.families && m.families[source] == m.families[target]
  }

  /** The name table of the source's codec has an entry for the parameter, which crosses no codec
      boundary if it is codec-scoped. */
  ghost predicate HasTableName(m: Mapping, source: Encoder, target: Encoder, p: string, name: string) {
    && (Scoped(p) ==> SameCodec(m, source, target))
    && source in m.families && !m.families[source].OtherCodec?
    && m.families[source] in m.names && target in m.names[m.families[source]]
    && p in m.names[m.families[source]][target] && m.names[m.families[source]][target][p] == name
  }

  /** The converter of the source's codec for the parameter. */
  ghost function CodecConverter(m: Mapping, source: Encoder, target: Encoder, p: string): Option<Converter> {
    if source in m.families && !m.families[source].OtherCodec? then m.converters(m.families[source], p, target) else None
  }

  ghost function Converted(converter: Option<Converter>, value: string): Conversion {
    if converter.Some? then converter.value(value) else Value(value)
  }

  // ----- what the rule makes of the value

  /** What a parameter contributes to its stage: a binding, or the warning that names it. */
  ghost predicate Contributes(m: Mapping, source: Encoder, target: Encoder, p: string, value: string,
                              binding: Option<(string, string)>, warnings: seq<Warning>) {
    && Binding(m, source, target, p, value) == binding
    && WarningsOf(m, source, target, p, value) == warnings
  }

  /** A rule with a target and a converter: the converted value, or the default for an empty one; a
      failed conversion keeps a non-empty original and drops an empty one. */
  ghost predicate RuleApplied(m: Mapping, source: Encoder, target: Encoder, p: string, value: string,
                              targetParam: string, converter: Option<Converter>, defaultValue: string) {
    match Converted(converter, value)
    case Value(converted) =>
      && Contributes(m, source, target, p, value,
                     Some((targetParam, if value == "" && defaultValue != "" then defaultValue else converted)), [])
      && !FailsAt(m, source, target, p, value)
    case Rejected(_) =>
      && FailsAt(m, source, target, p, value)
      && (value != "" ==> Contributes(m, source, target, p, value, Some((p, value)), [KeptOriginal(p, value)]))
      && (value == "" ==> Contributes(m, source, target, p, value, None, [Dropped(p)]))
  }

  lemma RuleApplies(m: Mapping, source: Encoder, target: Encoder, p: string, value: string, rule: Rule)
    requires
      var direct := GetParameterTranslation(m, source, target, p);
      (if direct.Some? then direct else CodecSpecificRule(m, source, target, p)) == Some(rule)
    ensures rule.targetParam != "" ==>
      RuleApplied(m, source, target, p, value, rule.targetParam, ConverterFor(m, rule, source, target, p), rule.defaultValue)
    ensures rule.targetParam == "" ==>
      Contributes(m, source, target, p, value, None, [RemovedParam(p, value)]) && !FailsAt(m, source, target, p, value)
  {
    hide GetParameterTranslation, CodecSpecificRule, ConverterFor, Contains, CodecsDiffer, IsCodecScoped;
    if rule.targetParam == "" {
      ContainsItsEnd("parameter '" + p + "' ", UNSUPPORTED);
      var message := "parameter '" + p + "' " + UNSUPPORTED;
      assert Contains(message, UNSUPPORTED);
    }
  }

  /** A pair's own rule for a parameter decides, with its converter or else the codec's; an empty
      target takes the parameter out with a warning. */
  lemma PairRuleDecides(m: Mapping, source: Encoder, target: Encoder, p: string, value: string, rule: Rule)
    requires HasPairRule(m, source, target, p, rule)
    ensures rule.targetParam != "" ==>
      RuleApplied(m, source, target, p, value, rule.targetParam,
                  if rule.converter.Some? then rule.converter else CodecConverter(m, source, target, p), rule.defaultValue)
    ensures rule.targetParam == "" ==> Contributes(m, source, target, p, value, None, [RemovedParam(p, value)])
  {
    PairRuleFound(m, source, target, p);
    hide HasPairRule, NoPairRule, GetParameterTranslation, CodecSpecificRule;
    RuleApplies(m, source, target, p, value, rule);
    hide RuleApplied, Contributes;
  }

  lemma TableRuleFound(m: Mapping, source: Encoder, target: Encoder, p: string)
    ensures forall name :: HasTableName(m, source, target, p, name) ==>
      CodecSpecificRule(m, source, target, p)
      == Some(Rule(p, name, if name == "" then None else CodecConverter(m, source, target, p), ""))
    ensures (forall name :: !HasTableName(m, source, target, p, name)) ==> CodecSpecificRule(m, source, target, p).None?
  {
    if CodecSpecificRule(m, source, target, p).Some? {
      assert HasTableName(m, source, target, p, m.names[m.families[source]][target][p]);
    }
  }

  /** Without a rule of the pair the codec's name table decides, with the codec's converter. */
  lemma TableNameDecides(m: Mapping, source: Encoder, target: Encoder, p: string, value: string, name: string)
    requires NoPairRule(m, source, target, p) && HasTableName(m, source, target, p, name)
    ensures name != "" ==>
      RuleApplied(m, source, target, p, value, name, CodecConverter(m, source, target, p), "")
    ensures name == "" ==> Contributes(m, source, target, p, value, None, [RemovedParam(p, value)])
  {
    PairRuleFound(m, source, target, p);
    TableRuleFound(m, source, target, p);
    var converter := CodecConverter(m, source, target, p);
    var rule := Rule(p, name, if name == "" then None else converter, "");
    assert name != "" ==> ConverterFor(m, rule, source, target, p) == converter;
    hide HasTableName, HasPairRule, NoPairRule, GetParameterTranslation, CodecSpecificRule, ConverterFor, CodecConverter;
    RuleApplies(m, source, target, p, value, rule);
    hide RuleApplied, Contributes;
  }

  /** Without any rule a rate control parameter passes silently, a codec-scoped one passes silently
      within its codec and is removed across codecs, and every other one passes with a warning. The
      text of a parameter named like the declaration of an unsupported one gets it removed instead. */
  lemma UnruledPasses(m: Mapping, source: Encoder, target: Encoder, p: string, value: string)
    requires NoPairRule(m, source, target, p) && forall name :: !HasTableName(m, source, target, p, name)
    ensures !FailsAt(m, source, target, p, value)
    ensures
      if p in {"b:v", "maxrate", "bufsize", "g", "bf", "refs"} || (Scoped(p) && SameCodec(m, source, target))
      then Contributes(m, source, target, p, value, Some((p, value)), [])
      else if Scoped(p) || Contains("no translation rule for parameter '" + p + "'", "is not supported by target encoder")
      then Contributes(m, source, target, p, value, None, [RemovedParam(p, value)])
      else Contributes(m, source, target, p, value, Some((p, value)), [PassedThrough(p, value)])
  {
    PairRuleFound(m, source, target, p);
    TableRuleFound(m, source, target, p);
    hide HasTableName, HasPairRule, NoPairRule, GetParameterTranslation, CodecSpecificRule, Contains;
  }

  // ----- what a stage and a chain report

  lemma {:induction false} ReportsOf(m: Mapping, source: Encoder, target: Encoder, names: seq<string>, params: Params,
                                     start: Result, w: Warning, error: string)
    requires forall k :: 0 <= k < |names| ==> names[k] in params
    ensures
      var r := Translated(m, source, target, names, params, start);
      && (w in r.warnings
          <==> w in start.warnings
               || exists k :: 0 <= k < |names| && w in WarningsOf(m, source, target, names[k], params[names[k]]))
      && (error in r.errors
          <==> error in start.errors
               || exists k :: 0 <= k < |names| && error in ErrorsOf(m, source, target, names[k], params[names[k]]))
  {
    hide Binding, WarningsOf, ErrorsOf;
    if names != [] {
      var n := |names| - 1;
      ReportsOf(m, source, target, names[..n], params, start, w, error);
      assert forall k :: 0 <= k < n ==> names[..n][k] == names[k];
    }
  }

  /** A stage warns when it crosses codecs, when the pair has no rules of its own, and of each parameter
      what that parameter contributes; and its errors are those of the failed conversions. */
  lemma StageReportsExactly(m: Mapping, source: Encoder, target: Encoder, params: Params, w: Warning, error: string)
    requires Registered(m, source, target)
    ensures
      var o := Stage(m, source, target, false, false, params, SortedNames(params.Keys));
      && o.Done?
      && (w in o.result.warnings
          <==> || (w == CrossCodec && m.families[source] != m.families[target])
               || (w == NoDirectRules && source + ":" + target !in m.translations)
               || exists p :: p in params && w in WarningsOf(m, source, target, p, params[p]))
      && (error in o.result.errors
          <==> exists p :: p in params && FailsAt(m, source, target, p, params[p])
                           && TranslateSingle(m, source, target, p, params[p]).message == error)
  {
    var names := SortedNames(params.Keys);
    var start := StageStart(m, source, target);
    hide *;
    StageIsTranslated(m, source, target, params, names);
    ReportsOf(m, source, target, names, params, start, w, error);
    StartReports(m, source, target, w);
    forall p | p in params
      ensures error in ErrorsOf(m, source, target, p, params[p]) <==>
              FailsAt(m, source, target, p, params[p]) && TranslateSingle(m, source, target, p, params[p]).message == error
    {
      ErrorOf(m, source, target, p, params[p], error);
    }
    if p :| p in params && w in WarningsOf(m, source, target, p, params[p]) {
      var k :| 0 <= k < |names| && names[k] == p;
    }
    if p :| p in params && error in ErrorsOf(m, source, target, p, params[p]) {
      var k :| 0 <= k < |names| && names[k] == p;
    }
  }

  lemma StartReports(m: Mapping, source: Encoder, target: Encoder, w: Warning)
    requires Registered(m, source, target)
    ensures StageStart(m, source, target).errors == []
    ensures w in StageStart(m, source, target).warnings
       <==> || (w == CrossCodec && m.families[source] != m.families[target])
            || (w == NoDirectRules && source + ":" + target !in m.translations)
    ensures source in m.families && target in m.families
  {
  }

  lemma ErrorOf(m: Mapping, source: Encoder, target: Encoder, p: string, value: string, error: string)
    ensures error in ErrorsOf(m, source, target, p, value) <==>
            FailsAt(m, source, target, p, value) && TranslateSingle(m, source, target, p, value).message == error
  {
    hide TranslateSingle;
  }

  /** A default in conflict is named in a warning with the first present parameter of its conflict list,
      and a default already bound is not mentioned. */
  lemma ConflictIsNamed(r: Result, rule: HardwareRule, k: nat)
    requires rule.param !in r.params && k < |rule.conflictsWith| && rule.conflictsWith[k] in r.params
    requires forall j :: 0 <= j < k ==> rule.conflictsWith[j] !in r.params
    ensures InjectRule(r, rule).warnings == r.warnings + [NotInjected(rule.param, rule.conflictsWith[k])]
  {
    FirstPresentAt(rule.conflictsWith, r.params, k);
    hide FirstPresent;
  }

  lemma {:induction false} FirstPresentAt(names: seq<string>, params: Params, k: nat)
    requires k < |names| && names[k] in params && forall j :: 0 <= j < k ==> names[j] !in params
    ensures FirstPresent(names, params) == Some(names[k])
  {
    if k > 0 {
      assert forall j :: 0 <= j < k - 1 ==> names[1..][j] == names[j + 1];
      FirstPresentAt(names[1..], params, k - 1);
    }
  }

  lemma {:induction false} InjectionKeepsReports(r: Result, rules: seq<HardwareRule>)
    ensures InjectRules(r, rules).errors == r.errors && r.warnings <= InjectRules(r, rules).warnings
  {
    hide FirstPresent;
    if rules != [] {
      InjectionKeepsReports(r, rules[..|rules| - 1]);
    }
  }

  lemma {:induction false} ChainKeepsReports(m: Mapping, inject: bool, chain: seq<Encoder>, params: Params, i: nat, n: nat)
    requires i <= n < |chain|
    ensures ChainAfter(m, false, inject, chain, params, i).warnings <= ChainAfter(m, false, inject, chain, params, n).warnings
    ensures ChainAfter(m, false, inject, chain, params, i).errors <= ChainAfter(m, false, inject, chain, params, n).errors
    decreases n
  {
    hide Stage, NotRegistered;
    if i < n {
      ChainKeepsReports(m, inject, chain, params, i, n - 1);
    }
  }

  lemma AdvanceReports(s: ChainState, o: Outcome)
    requires !o.Stopped?
    ensures
      var t := Advance(s, false, o);
      match o
      case Done(r) => t.warnings == s.warnings + r.warnings && t.errors == s.errors + r.errors
      case Unregistered(encoder) => t.warnings == s.warnings && t.errors == s.errors + [NotRegistered(encoder)]
      case Stopped(_, _) => false
  {
    hide NotRegistered;
  }

  lemma EndReports(m: Mapping, inject: bool, target: Encoder, s: ChainState)
    requires !s.stopped
    ensures
      var c := ChainEnd(m, inject, target, s);
      c.ChainDone? && s.warnings <= c.result.warnings && s.errors == c.result.errors
  {
    InjectionKeepsReports(Result(s.params, map[], s.errors, s.warnings), GetHardwareParams(m, target));
    hide InjectRules, GetHardwareParams;
  }

  /** What the stage o of a lenient chain reported is in the report r of the chain: its warnings and
      errors, or the encoder nobody registered. */
  ghost predicate Includes(r: Result, o: Outcome) {
    match o
    case Done(stage) => (forall w :: w in stage.warnings ==> w in r.warnings)
                        && (forall error :: error in stage.errors ==> error in r.errors)
    case Unregistered(encoder) => NotRegistered(encoder) in r.errors
    case Stopped(_, _) => false
  }

  lemma ReportIncludes(s: ChainState, o: Outcome, t: ChainState, r: Result)
    requires !o.Stopped? && t == Advance(s, false, o) && t.warnings <= r.warnings && t.errors <= r.errors
    ensures Includes(r, o)
  {
    AdvanceReports(s, o);
    hide Advance, NotRegistered;
    match o
    case Done(stage) =>
      assert forall w :: w in stage.warnings ==> w in t.warnings;
      assert forall error :: error in stage.errors ==> error in t.errors;
    case Unregistered(encoder) => assert NotRegistered(encoder) in t.errors;
    case Stopped(_, _) =>
  }

  /** Nothing a stage of a lenient chain reports is lost in the report of the chain. */
  lemma ChainReportsStages(m: Mapping, inject: bool, chain: seq<Encoder>, params: Params, i: nat)
    requires i + 1 < |chain|
    ensures
      var s := ChainAfter(m, false, inject, chain, params, i);
      var o := Stage(m, chain[i], chain[i + 1], false, inject && |chain| == 2, s.params, SortedNames(s.params.Keys));
      Chain(m, false, inject, chain, params).ChainDone? && Includes(Chain(m, false, inject, chain, params).result, o)
  {
    hide *;
    var n := |chain| - 1;
    var s := ChainAfter(m, false, inject, chain, params, i);
    var t := ChainAfter(m, false, inject, chain, params, i + 1);
    var source, target, inside := chain[i], chain[i + 1], inject && |chain| == 2;
    StartIsPlain(m, inject, chain, params, i);
    StageWithoutStrictness(m, source, target, inside, s.params, SortedNames(s.params.Keys));
    OneStage(m, inject, chain, params, i);
    ChainKeepsReports(m, inject, chain, params, i + 1, n);
    NeverStops(m, inject, chain, params, n);
    EndReports(m, inject, chain[n], ChainAfter(m, false, inject, chain, params, n));
    ChainUnfolds(m, inject, chain, params);
    var o := Stage(m, source, target, false, inside, s.params, SortedNames(s.params.Keys));
    ReportIncludes(s, o, t, Chain(m, false, inject, chain, params).result);
  }

  lemma OneStage(m: Mapping, inject: bool, chain: seq<Encoder>, params: Params, i: nat)
    requires i + 1 < |chain| && !ChainAfter(m, false, inject, chain, params, i).stopped
    ensures
      var s := ChainAfter(m, false, inject, chain, params, i);
      ChainAfter(m, false, inject, chain, params, i + 1)
      == Advance(s, false, Stage(m, chain[i], chain[i + 1], false, inject && |chain| == 2, s.params, SortedNames(s.params.Keys)))
  {
    hide Stage, Advance, SortedNames;
  }

  lemma ChainUnfolds(m: Mapping, inject: bool, chain: seq<Encoder>, params: Params)
    requires |chain| >= 2
    ensures Chain(m, false, inject, chain, params)
         == ChainEnd(m, inject, chain[|chain| - 1], ChainAfter(m, false, inject, chain, params, |chain| - 1))
  {
    hide ChainEnd, ChainAfter;
  }

  lemma NeverStops(m: Mapping, inject: bool, chain: seq<Encoder>, params: Params, n: nat)
    requires 0 < n < |chain|
    ensures !ChainAfter(m, false, inject, chain, params, n).stopped
  {
    hide Stage, Plain;
    StartIsPlain(m, inject, chain, params, n - 1);
    var s := ChainAfter(m, false, inject, chain, params, n - 1);
    StageWithoutStrictness(m, chain[n - 1], chain[n], inject && |chain| == 2, s.params, SortedNames(s.params.Keys));
  }

  // ----- strictness

  /** A stage with an encoder nobody registered or a parameter that fails to convert. */
  ghost predicate StageFails(m: Mapping, source: Encoder, target: Encoder, params: Params) {
    !Registered(m, source, target) || exists p :: p in params && FailsAt(m, source, target, p, params[p])
  }

  /** A strict stage without a failure is the lenient one. */
  lemma StrictStage(m: Mapping, source: Encoder, target: Encoder, inject: bool, params: Params)
    ensures
      var strict := Stage(m, source, target, true, inject, params, SortedNames(params.Keys));
      if StageFails(m, source, target, params) then !strict.Done?
      else strict.Done? && strict == Stage(m, source, target, false, inject, params, SortedNames(params.Keys))
  {
    hide FailsAt, Translated, StageStart, Inject, Leq, SortedNames, Processed;
    var names := SortedNames(params.Keys);
    if Registered(m, source, target) {
      StrictStopsAtLeastFailure(m, source, target, inject, params);
      ProcessedFindsFirst(m, source, target, names, params, 0);
      if !StageFails(m, source, target, params) {
        assert forall k :: 0 <= k < |names| ==> !FailsAt(m, source, target, names[k], params[names[k]]);
        assert names[..|names|] == names;
      }
    }
  }

  lemma StrictStep(m: Mapping, source: Encoder, target: Encoder, inject: bool, s: ChainState)
    requires !s.stopped
    ensures
      var strict := NextStage(m, source, target, true, inject, s);
      if StageFails(m, source, target, s.params) then strict.stopped
      else !strict.stopped && strict == NextStage(m, source, target, false, inject, s)
  {
    StrictStage(m, source, target, inject, s.params);
    hide Stage, StageFails, SortedNames, NotRegistered;
  }

  lemma StartIsPlain(m: Mapping, inject: bool, chain: seq<Encoder>, params: Params, i: nat)
    requires i + 1 < |chain|
    ensures ChainAfter(m, false, inject, chain, params, i).params == Plain(m, chain, params, i)
    ensures !ChainAfter(m, false, inject, chain, params, i).stopped
  {
    if |chain| != 2 {
      ChainIsPlain(m, inject, chain, params, i);
    }
  }

  /** One of the first n stages fails on what the stages before it leave. */
  ghost predicate SomeStageFails(m: Mapping, chain: seq<Encoder>, params: Params, n: nat)
    requires n < |chain|
  {
    exists i :: 0 <= i < n && StageFails(m, chain[i], chain[i + 1], Plain(m, chain, params, i))
  }

  lemma {:induction false} StrictAfter(m: Mapping, inject: bool, chain: seq<Encoder>, params: Params, n: nat)
    requires n < |chain|
    ensures
      if SomeStageFails(m, chain, params, n)
      then ChainAfter(m, true, inject, chain, params, n).stopped
      else ChainAfter(m, true, inject, chain, params, n) == ChainAfter(m, false, inject, chain, params, n)
  {
    hide NextStage, StageFails, Plain;
    if n > 0 {
      StrictAfter(m, inject, chain, params, n - 1);
      StartIsPlain(m, inject, chain, params, n - 1);
      var s := ChainAfter(m, false, inject, chain, params, n - 1);
      StrictStep(m, chain[n - 1], chain[n], inject && |chain| == 2, s);
    }
  }

  /** What strictness changes: a chain with a failing stage, on the parameters the stages before it
      leave, reports no parameters at all; any other chain is translated as a lenient one. */
  lemma StrictChainExactly(m: Mapping, inject: bool, chain: seq<Encoder>, params: Params)
    requires 2 <= |chain|
    ensures
      var strict := Chain(m, true, inject, chain, params);
      if SomeStageFails(m, chain, params, |chain| - 1)
      then strict.ChainStopped? && strict.result.params == map[] && strict.result.hardware == map[]
      else strict == Chain(m, false, inject, chain, params)
  {
    StrictAfter(m, inject, chain, params, |chain| - 1);
    hide ChainAfter, SomeStageFails, Inject;
  }
}
