/**
 * The translation tables (pkg/encoder/mapping.go and the lookups of pkg/encoder/translator.go).
 * All tables are arbitrary, so every result about the translator holds for any of them.
 */
module EncoderMapping {
  import opened Options

  type Encoder = string
  type Params = map<string, string>

  datatype Codec = H264 | HEVC | VP9 | AV1 | OtherCodec(name: string)

  datatype Conversion = Value(value: string) | Rejected(error: string)

  type Converter = string -> Conversion

  datatype Rule = Rule(sourceParam: string, targetParam: string, converter: Option<Converter>, defaultValue: string)

  datatype HardwareRule = HardwareRule(param: string, value: string, conflictsWith: seq<string>)

  /** families registers the encoders; translations and hardware are keyed "a:b" as in the source;
      names holds the per-codec name tables and converters the per-codec value converters; vendors
      gives the GPU vendor of the hardware encoders. */
  datatype Mapping = Mapping(
    families: map<Encoder, Codec>,
    translations: map<string, seq<Rule>>,
    hardware: map<string, seq<HardwareRule>>,
    names: map<Codec, map<Encoder, map<string, string>>>,
    converters: (Codec, string, Encoder) -> Option<Converter>,
    vendors: map<Encoder, string>)

  function FirstRule(rules: seq<Rule>, param: string): Option<Rule> {
    if rules == [] then None
    else if rules[0].sourceParam == param then Some(rules[0])
    else FirstRule(rules[1..], param)
  }

  function GetParameterTranslation(m: Mapping, source: Encoder, target: Encoder, param: string): Option<Rule> {
    var key := source + ":" + target;
    if key in m.translations then FirstRule(m.translations[key], param) else None
  }

  function GetHardwareParams(m: Mapping, target: Encoder): seq<HardwareRule> {
    if target !in m.vendors then []
    else
      var key := target + ":" + m.vendors[target];
      if key in m.hardware then m.hardware[key] else []
  }

  predicate IsCodecScoped(param: string) { param == "profile" || param == "level" || param == "qp" }

  predicate CodecsDiffer(m: Mapping, source: Encoder, target: Encoder) {
    source !in m.families || target !in m.families || m.families[source] != m.families[target]
  }

  /** The rule of the per-codec name table; an empty entry declares the parameter unsupported. */
  function CodecSpecificRule(m: Mapping, source: Encoder, target: Encoder, param: string): Option<Rule> {
    if (IsCodecScoped(param) && CodecsDiffer(m, source, target)) || source !in m.families then None
    else
      var codec := m.families[source];
      if codec.OtherCodec? || codec !in m.names || target !in m.names[codec] || param !in m.names[codec][target] then None
      else
        var name := m.names[codec][target][param];
        Some(Rule(param, name, if name == "" then None else m.converters(codec, param, target), ""))
  }

  const PASS_THROUGH := {"b:v", "maxrate", "bufsize", "g", "bf", "refs"}

  predicate ShouldPassThrough(m: Mapping, source: Encoder, target: Encoder, param: string) {
    param in PASS_THROUGH || (IsCodecScoped(param) && !CodecsDiffer(m, source, target))
  }

  // ----- one parameter

  datatype Status = Success | Default | Failed | Skipped

  datatype Record = Record(status: Status, targetParam: string, targetValue: string, message: string)

  const UNSUPPORTED := "is not supported by target encoder"

  predicate Contains(s: string, part: string) { part <= s || (s != "" && Contains(s[1..], part)) }

  function ConverterFor(m: Mapping, rule: Rule, source: Encoder, target: Encoder, param: string): Option<Converter> {
    if rule.converter.Some? then rule.converter
    else if source in m.families && !m.families[source].OtherCodec? then m.converters(m.families[source], param, target)
    else None
  }

  function TranslateSingle(m: Mapping, source: Encoder, target: Encoder, param: string, value: string): Record {
    var direct := GetParameterTranslation(m, source, target, param);
    var rule := if direct.Some? then direct else CodecSpecificRule(m, source, target, param);
    if rule.None? then
      if ShouldPassThrough(m, source, target, param) then Record(Success, param, value, "")
      else Record(Skipped, "", "", "no translation rule for parameter '" + param + "'")
    else if rule.value.targetParam == "" then
      Record(Skipped, "", "", "parameter '" + param + "' " + UNSUPPORTED)
    else
      var converter := ConverterFor(m, rule.value, source, target, param);
      var conversion := if converter.Some? then converter.value(value) else Value(value);
      match conversion
      case Rejected(error) => Record(Failed, rule.value.targetParam, "", "value conversion failed: " + error)
      case Value(converted) =>
        if value == "" && rule.value.defaultValue != ""
        then Record(Default, rule.value.targetParam, rule.value.defaultValue, "")
        else Record(Success, rule.value.targetParam, converted, "")
  }
}
