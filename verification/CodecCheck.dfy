/**
 * Single-flight hardware codec probing (pkg/worker/hw_codec_check.go). The functions of
 * CodecCheckSpec are the two critical sections of Check and the publication of a result; the class
 * holds the state the source guards with its mutex.
 */
module CodecCheckSpec {
  import opened Options

  type Encoder = string

  /** The name of one Check call. */
  type CallId = string

  datatype Verdict = Inconclusive | Supported | Unsupported

  datatype CodecResult = CodecResult(verdict: Verdict, reason: string)

  /** What a probe run shows: the codec-gap line found on stderr ("" for none) settles the question
      before the exit status does. */
  function Classify(gap: string, failed: bool): CodecResult {
    if gap != "" then CodecResult(Unsupported, gap)
    else if !failed then CodecResult(Supported, "")
    else CodecResult(Inconclusive, "")
  }

  /** One probe: the call that runs it, its result once written, and whether done is closed. */
  datatype Probe = Probe(encoder: Encoder, owner: CallId, result: Option<CodecResult>, done: bool)

  /** The state calls share; inflight names probes by their position. */
  datatype Shared = Shared(cache: map<Encoder, CodecResult>, inflight: map<Encoder, nat>, probes: seq<Probe>)

  datatype Look = Hit(result: CodecResult) | Join(probe: nat) | Own(probe: nat)

  function LookAt(s: Shared, encoder: Encoder): Look {
    if encoder in s.cache then Hit(s.cache[encoder])
    else if encoder in s.inflight then Join(s.inflight[encoder])
    else Own(|s.probes|)
  }

  function Looked(s: Shared, encoder: Encoder, caller: CallId): Shared {
    if LookAt(s, encoder).Own?
    then s.(inflight := s.inflight[encoder := |s.probes|], probes := s.probes + [Probe(encoder, caller, None, false)])
    else s
  }

  function Written(s: Shared, probe: nat, result: CodecResult): Shared
    requires probe < |s.probes|
  {
    s.(probes := s.probes[probe := s.probes[probe].(result := Some(result))])
  }

  function Settled(s: Shared, encoder: Encoder, result: CodecResult): Shared {
    s.(inflight := s.inflight - {encoder},
       cache := if result.verdict.Inconclusive? then s.cache else s.cache[encoder := result])
  }

  function Closed(s: Shared, probe: nat): Shared
    requires probe < |s.probes|
  {
    s.(probes := s.probes[probe := s.probes[probe].(done := true)])
  }
}

module CodecCheckers {
  import opened CodecCheckSpec
  import opened Options

  class HardwareCodecChecker {
    var cache: map<Encoder, CodecResult>
    var inflight: map<Encoder, nat>
    var probes: seq<Probe>

    constructor ()
      ensures State() == Shared(map[], map[], [])
    {
      cache, inflight, probes := map[], map[], [];
    }

    ghost function State(): Shared reads this { Shared(cache, inflight, probes) }

    /** The first critical section: a cached verdict, a probe to wait for, or a probe to run. */
    method Look(encoder: Encoder, caller: CallId) returns (look: Look)
      modifies this
      ensures look == LookAt(old(State()), encoder)
      ensures State() == Looked(old(State()), encoder, caller)
    {
      if encoder in cache { return Hit(cache[encoder]); }
      if encoder in inflight { return Join(inflight[encoder]); }
      look := Own(|probes|);
      inflight := inflight[encoder := |probes|];
      probes := probes + [Probe(encoder, caller, None, false)];
    }

    /** The probe's owner writes the shared result before it takes the lock again. */
    method Write(probe: nat, result: CodecResult)
      requires probe < |probes|
      modifies `probes
      ensures State() == Written(old(State()), probe, result)
    {
      probes := probes[probe := probes[probe].(result := Some(result))];
    }

    /** The second critical section. */
    method Settle(encoder: Encoder, result: CodecResult)
      modifies `cache, `inflight
      ensures State() == Settled(old(State()), encoder, result)
    {
      inflight := inflight - {encoder};
      if !result.verdict.Inconclusive? {
        cache := cache[encoder := result];
      }
    }

    method Close(probe: nat)
      requires probe < |probes|
      modifies `probes
      ensures State() == Closed(old(State()), probe)
    {
      probes := probes[probe := probes[probe].(done := true)];
    }
  }
}
