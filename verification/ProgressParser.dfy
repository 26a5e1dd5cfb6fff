/**
 * The progress parser of one job (pkg/worker/progress_parser.go): percent against a fixed
 * denominator with a floor that survives retries, and the ETA over a pruned sample window.
 * A stderr line arrives as the values the source's regular expressions extract from it.
 */
module ProgressSpec {
  import opened Options
  import opened SeekWindows
  import opened EtaRates
  import opened EtaEstimate

  const SETTLE_MEDIA_US := 20_000_000
  const SETTLE_FRAMES := 120
  const SPEED_ALPHA := 0.3

  /** time= in microseconds, speed=, frame= and a Duration: header (0 when absent). */
  datatype Line = Line(time: Option<nat>, speed: Option<real>, frames: Option<int>, headerUs: nat)

  datatype Frame = Frame(timeUs: nat, durationUs: int, percent: real, speed: real, etaSeconds: int)

  datatype State = State(
    durationUs: int,
    attemptStart: Option<int>,
    attemptFrames: int,
    stepSeen: bool,
    samples: seq<Sample>,
    ewmaSpeed: real,
    maxPercent: real,
    hasSeekWindow: bool)

  const Fresh := State(0, None, 0, false, [], 0.0, -1.0, false)

  function WithDenominator(p: State, durationUs: int): State {
    p.(maxPercent := if durationUs != p.durationUs then -1.0 else p.maxPercent, durationUs := durationUs)
  }

  function SetDuration(p: State, durationUs: int): State {
    if p.hasSeekWindow then p else WithDenominator(p, durationUs)
  }

  function SetSeekWindow(p: State, inputUs: int, sw: SeekWindow): State {
    if inputUs <= 0 then p
    else WithDenominator(p.(hasSeekWindow := true), sw.WindowUs(inputUs))
  }

  function StartAttempt(p: State, now: int): State {
    p.(attemptStart := Some(now), attemptFrames := 0, stepSeen := false,
       samples := [Sample(now, 0.0)], ewmaSpeed := 0.0)
  }

  function Percent(timeUs: nat, durationUs: int): real {
    if durationUs <= 0 then -1.0
    else
      var percent := timeUs as real / durationUs as real * 100.0;
      if percent > 100.0 then 100.0 else percent
  }

  /** The percentage on the grid the progress line shows. */
  function Gridded(pct: real): real { Round(pct * 10.0) as real / 10.0 }

  /** Drops leading samples older than the window plus one block edge, keeping at least two. */
  function Prune(s: seq<Sample>, now: int): (kept: seq<Sample>)
    ensures |kept| <= |s|
  {
    if |s| > 2 && s[0].wall < now - (RATE_WINDOW + RATE_CHUNK) then Prune(s[1..], now) else s
  }

  /** The history after one observation; prune is false for the reference that keeps everything. */
  function Recorded(s: seq<Sample>, now: int, pct: real, prune: bool): seq<Sample> {
    var all := s + [Sample(now, Gridded(pct))];
    if prune then Prune(all, now) else all
  }

  function Smoothed(ewma: real, speed: real): real {
    if speed <= 0.0 then ewma
    else if ewma == 0.0 then speed
    else SPEED_ALPHA * speed + (1.0 - SPEED_ALPHA) * ewma
  }

  /** Everything ParseLine updates before the ETA: frame count, denominator and displayed speed. */
  function Observed(p: State, line: Line): State {
    var q := if line.frames.Some? && line.frames.value > p.attemptFrames
             then p.(attemptFrames := line.frames.value) else p;
    var r := if q.durationUs == 0 then SetDuration(q, line.headerUs) else q;
    r.(ewmaSpeed := Smoothed(r.ewmaSpeed, SpeedOf(line)))
  }

  function SpeedOf(line: Line): real { if line.speed.Some? then line.speed.value else 0.0 }

  /** A line with a known denominator, media and speed adds a sample. */
  predicate Samples(p: State, timeUs: nat, line: Line) {
    p.durationUs > 0 && timeUs > 0 && SpeedOf(line) > 0.0
  }

  function Sampled(p: State, timeUs: nat, now: int, prune: bool): State {
    var start := if p.attemptStart.Some? then p.attemptStart else Some(now);
    p.(attemptStart := start, samples := Recorded(p.samples, now, Percent(timeUs, p.durationUs), prune))
  }

  /** The start-up transient is over: enough media and enough frames were published. */
  predicate Ripe(p: State, timeUs: nat) {
    timeUs >= SETTLE_MEDIA_US && p.attemptFrames >= SETTLE_FRAMES
  }

  function EvidenceOf(p: State, now: int): (r: Option<Rates>)
    requires p.attemptStart.Some?
    ensures r.Some? ==> Sound(r.value)
  {
    Evidence(p.samples, p.durationUs, p.attemptStart.value, now)
  }

  /** Whether a pace step is known to be over once the evidence at now has been looked at. */
  function StepSeen(p: State, now: int): bool
    requires p.attemptStart.Some?
  {
    p.stepSeen || StepObserved(EvidenceOf(p, now), p.attemptStart.value, now)
  }

  function EtaOf(p: State, timeUs: nat, now: int): int
    requires p.attemptStart.Some?
  {
    Estimate(EvidenceOf(p, now), StepSeen(p, now), Seconds(now - p.attemptStart.value),
             MediaSeconds(p.durationUs - timeUs))
  }

  /** The state and the ETA of a line that carries time=, before the percent floor. */
  function Measured(p: State, line: Line, now: int, prune: bool): (State, int)
    requires line.time.Some?
  {
    var timeUs := line.time.value;
    var q := Observed(p, line);
    if !Samples(q, timeUs, line) then (q, 0)
    else
      var s := Sampled(q, timeUs, now, prune);
      if Ripe(s, timeUs) then (s.(stepSeen := StepSeen(s, now)), EtaOf(s, timeUs, now)) else (s, 0)
  }

  function Parse(p: State, line: Line, now: int, prune: bool): (State, Option<Frame>) {
    if line.time.None? then (p, None)
    else
      var timeUs := line.time.value;
      var (q, eta) := Measured(p, line, now, prune);
      var percent := Percent(timeUs, q.durationUs);
      var frame := Frame(timeUs, q.durationUs, percent, SpeedOf(line), eta);
      if percent < 0.0 then (q, Some(frame))
      else if q.maxPercent >= 0.0 && percent < q.maxPercent then (q, None)
      else (q.(maxPercent := percent), Some(frame))
  }
}

module ProgressParsers {
  import opened Options
  import opened SeekWindows
  import opened EtaRates
  import opened EtaEstimate
  import Estimator = EtaEstimate
  import Spec = ProgressSpec

  class ProgressParser {
    var durationUs: int
    var attemptStartTime: Option<int>
    var attemptFrames: int
    var startupStepSeen: bool
    var etaSamples: seq<Sample>
    var ewmaSpeed: real
    var maxPercent: real
    var hasSeekWindow: bool

    ghost function State(): Spec.State
      reads this
    {
      Spec.State(durationUs, attemptStartTime, attemptFrames, startupStepSeen, etaSamples,
                 ewmaSpeed, maxPercent, hasSeekWindow)
    }

    constructor ()
      ensures State() == Spec.Fresh
    {
      durationUs, attemptStartTime, attemptFrames, startupStepSeen := 0, None, 0, false;
      etaSamples, ewmaSpeed, maxPercent, hasSeekWindow := [], 0.0, -1.0, false;
    }

    method SetDuration(newUs: int)
      modifies this
      ensures State() == Spec.SetDuration(old(State()), newUs)
    {
      if hasSeekWindow { return; }
      SetDurationUs(newUs);
    }

    method SetDurationUs(newUs: int)
      modifies this
      ensures State() == Spec.WithDenominator(old(State()), newUs)
    {
      if newUs != durationUs {
        maxPercent := -1.0;
      }
      durationUs := newUs;
    }

    method SetSeekWindow(inputUs: int, sw: SeekWindow)
      modifies this
      ensures State() == Spec.SetSeekWindow(old(State()), inputUs, sw)
    {
      if inputUs <= 0 { return; }
      hasSeekWindow := true;
      SetDurationUs(sw.WindowUs(inputUs));
    }

    method StartAttempt(now: int)
      modifies this
      ensures State() == Spec.StartAttempt(old(State()), now)
    {
      attemptStartTime := Some(now);
      attemptFrames := 0;
      startupStepSeen := false;
      etaSamples := [Sample(now, 0.0)];
      ewmaSpeed := 0.0;
    }

    method Reset()
      modifies this
      ensures State() == Spec.Fresh
    {
      SetDurationUs(0);
      attemptStartTime := None;
      attemptFrames := 0;
      startupStepSeen := false;
      etaSamples := [];
      ewmaSpeed := 0.0;
      maxPercent := -1.0;
      hasSeekWindow := false;
    }

    method RecordEtaSample(now: int, pct: real)
      modifies `etaSamples
      ensures etaSamples == Spec.Recorded(old(etaSamples), now, pct, true)
    {
      etaSamples := etaSamples + [Sample(now, Spec.Gridded(pct))];
      ghost var target := Spec.Prune(etaSamples, now);
      var cutoff := now - (RATE_WINDOW + RATE_CHUNK);
      while |etaSamples| > 2 && etaSamples[0].wall < cutoff
        invariant Spec.Prune(etaSamples, now) == target
        decreases |etaSamples|
      {
        etaSamples := etaSamples[1..];
      }
    }

    /** The row of [base, i) nearest to start; base when the block has no earlier row. */
    method NearestRow(base: nat, i: nat, start: int) returns (j: nat)
      requires base <= i < |etaSamples|
      ensures j == Nearest(etaSamples, base, i, start)
    {
      j := base;
      var k := base + 1;
      while k < i
        invariant base + 1 <= k && (k <= i || k == base + 1)
        invariant base <= j < |etaSamples|
        invariant j == Nearest(etaSamples, base, if k <= i then k else i, start)
      {
        if AbsDuration(etaSamples[k].wall - start) < AbsDuration(etaSamples[j].wall - start) {
          j := k;
        }
        k := k + 1;
      }
    }

    method BlockRateAt(base: nat, i: nat) returns (rate: real)
      requires base <= i < |etaSamples|
      ensures rate == BlockRate(etaSamples, base, i, durationUs)
    {
      if i == 0 {
        return 0.0;
      }
      hide Speed;
      var j := NearestRow(base, i, etaSamples[i].wall - RATE_CHUNK);
      var span := etaSamples[i].wall - etaSamples[j].wall;
      var dp := etaSamples[i].pct - etaSamples[j].pct;
      rate := if span < RATE_CHUNK / 2 || dp <= 0.0 then 0.0 else Speed(dp, durationUs, span);
    }

    /** One rate per row of the window, 0 for a row whose block measures nothing. */
    method BlockRatesFrom(base: nat) returns (rates: array<real>)
      requires base < |etaSamples|
      ensures fresh(rates)
      ensures durationUs > 0 ==> rates[..] == BlockRates(etaSamples, base, durationUs)
      ensures durationUs <= 0 ==> rates.Length == 0
    {
      if durationUs <= 0 {
        rates := new real[0];
        return;
      }
      var last := |etaSamples| - 1;
      hide BlockRate;
      rates := new real[last - base + 1](_ => 0.0);
      var i := base;
      while i <= last
        invariant base <= i <= last + 1
        invariant forall m :: 0 <= m < i - base ==> rates[m] == BlockRate(etaSamples, base, base + m, durationUs)
      {
        rates[i - base] := BlockRateAt(base, i);
        i := i + 1;
      }
    }

    method EtaRateRange(now: int) returns (r: Option<Rates>)
      requires attemptStartTime.Some?
      modifies `startupStepSeen
      ensures r == old(Spec.EvidenceOf(State(), now))
      ensures startupStepSeen == old(Spec.StepSeen(State(), now))
    {
      hide Speed, Sum, Slowest, Fastest, Stepped, Positives, BlockRates;
      if durationUs <= 0 || now - attemptStartTime.value < RATE_WINDOW || etaSamples == [] {
        return None;
      }
      var base := |etaSamples| - 1;
      while base > 0 && now - etaSamples[base - 1].wall <= RATE_WINDOW
        invariant 0 <= base < |etaSamples|
        invariant BaseFrom(etaSamples, now, base) == WindowBase(etaSamples, now)
      {
        base := base - 1;
      }
      if |etaSamples| - base < 2 {
        return None;
      }
      var span := now - etaSamples[base].wall;
      if span < RATE_MIN_SPAN {
        return None;
      }
      var blocks := BlockRatesFrom(base);
      var rates := blocks[..];
      ghost var p := Positives(rates);
      var positive, low, high, stepped := Spread(rates);
      if positive < 2 {
        return None;
      }
      var windowRate := WindowRate(etaSamples, base, durationUs, now);
      if windowRate <= 0.0 {
        return None;
      }
      if stepped && now - attemptStartTime.value <= START_UP {
        startupStepSeen := true;
      }
      var sum := PositiveSum(rates);
      r := Some(Rates(sum / positive as real, if windowRate < low then windowRate else low, high, !stepped));
    }

    method Estimate(now: int, mediaUs: nat) returns (e: int)
      requires attemptStartTime.Some?
      modifies `startupStepSeen
      ensures e == old(Spec.EtaOf(State(), mediaUs, now))
      ensures startupStepSeen == old(Spec.StepSeen(State(), now))
    {
      hide Evidence, Estimator.Estimate;
      var rates := EtaRateRange(now);
      e := Estimator.Estimate(rates, startupStepSeen, Seconds(now - attemptStartTime.value),
                                MediaSeconds(durationUs - mediaUs));
    }

    method ParseLine(line: Spec.Line, now: int) returns (frame: Option<Spec.Frame>)
      modifies this
      ensures State() == Spec.Parse(old(State()), line, now, true).0
      ensures frame == Spec.Parse(old(State()), line, now, true).1
    {
      if line.time.None? {
        return None;
      }
      hide Spec.Measured, Spec.Percent;
      var timeUs := line.time.value;
      var eta := Measure(line, now);
      var percent := Spec.Percent(timeUs, durationUs);
      if percent >= 0.0 {
        if maxPercent >= 0.0 && percent < maxPercent {
          return None;
        }
        maxPercent := percent;
      }
      frame := Some(Spec.Frame(timeUs, durationUs, percent, Spec.SpeedOf(line), eta));
    }

    /** The part of ParseLine every progress line runs, dropped frames included. */
    method Measure(line: Spec.Line, now: int) returns (eta: int)
      requires line.time.Some?
      modifies this
      ensures (State(), eta) == Spec.Measured(old(State()), line, now, true)
    {
      hide Spec.EtaOf, Spec.StepSeen, Spec.Percent, Spec.Smoothed, Spec.Recorded;
      var timeUs := line.time.value;
      var speed := Spec.SpeedOf(line);
      if line.frames.Some? && line.frames.value > attemptFrames {
        attemptFrames := line.frames.value;
      }
      if durationUs == 0 {
        SetDuration(line.headerUs);
      }
      ewmaSpeed := Spec.Smoothed(ewmaSpeed, speed);
      assert State() == Spec.Observed(old(State()), line);
      hide Spec.Observed, Spec.SetDuration;
      eta := 0;
      if durationUs > 0 && timeUs > 0 && speed > 0.0 {
        if attemptStartTime.None? {
          attemptStartTime := Some(now);
        }
        RecordEtaSample(now, Spec.Percent(timeUs, durationUs));
        if timeUs >= Spec.SETTLE_MEDIA_US && attemptFrames >= Spec.SETTLE_FRAMES {
          eta := Estimate(now, timeUs);
        }
      }
    }
  }

  // ----- the accumulating loops of etaRateRange

  lemma PositivesStep(rates: seq<real>, k: nat)
    requires k < |rates|
    ensures Positives(rates[..k + 1])
         == if rates[k] > 0.0 then Positives(rates[..k]) + [rates[k]] else Positives(rates[..k])
  {
    assert rates[..k + 1][..k] == rates[..k];
  }

  lemma SteppedStep(p: seq<real>, r: real)
    requires AllPositive(p) && r > 0.0
    ensures Stepped(p + [r]) <==> Stepped(p) || (p != [] && Departs(p[|p| - 1], r))
  {
    hide Departs;
    var q := p + [r];
    if Stepped(p) {
      var k :| 0 < k < |p| && Departs(p[k - 1], p[k]);
      assert q[k - 1] == p[k - 1] && q[k] == p[k];
    }
    if p != [] && Departs(p[|p| - 1], r) {
      assert Departs(q[|p| - 1], q[|p|]);
    }
  }

  lemma ExtremesStep(p: seq<real>, r: real)
    ensures p == [] ==> Slowest(p + [r]) == Fastest(p + [r]) == r
    ensures p != [] ==> Slowest(p + [r]) == (if r < Slowest(p) then r else Slowest(p))
    ensures p != [] ==> Fastest(p + [r]) == (if r > Fastest(p) then r else Fastest(p))
  {
    assert (p + [r])[..|p|] == p;
  }

  /** The loop variables of etaRateRange after the measurable rates p. */
  ghost predicate Tracks(p: seq<real>, positive: nat, low: real, high: real, lastRate: real, stepped: bool) {
    && AllPositive(p) && positive == |p| && stepped == Stepped(p)
    && (p == [] ==> low == high == lastRate == 0.0)
    && (p != [] ==> low == Slowest(p) && high == Fastest(p) && lastRate == p[|p| - 1])
  }

  lemma TracksStep(p: seq<real>, positive: nat, low: real, high: real, lastRate: real, stepped: bool, r: real)
    requires Tracks(p, positive, low, high, lastRate, stepped) && r > 0.0
    ensures Tracks(p + [r], positive + 1, if low == 0.0 || r < low then r else low, if r > high then r else high,
                   r, stepped || (lastRate > 0.0 && Departs(lastRate, r)))
  {
    hide Departs, Slowest, Fastest, Stepped;
    ExtremesStep(p, r);
    SteppedStep(p, r);
    assert p != [] ==> lastRate > 0.0 && low > 0.0 && high > 0.0;
  }

  lemma NoRatesTracked()
    ensures Tracks([], 0, 0.0, 0.0, 0.0, false) && Positives([]) == []
  {
  }

  lemma TracksMeans(p: seq<real>, positive: nat, low: real, high: real, lastRate: real, stepped: bool)
    requires Tracks(p, positive, low, high, lastRate, stepped)
    ensures AllPositive(p) && positive == |p| && stepped == Stepped(p)
    ensures p != [] ==> low == Slowest(p) && high == Fastest(p)
  {
  }

  method Spread(rates: seq<real>) returns (positive: nat, low: real, high: real, stepped: bool)
    ensures positive == |Positives(rates)|
    ensures positive > 0 ==> low == Slowest(Positives(rates)) && high == Fastest(Positives(rates))
    ensures stepped == Stepped(Positives(rates))
  {
    positive, low, high, stepped := 0, 0.0, 0.0, false;
    var lastRate := 0.0;
    assert rates[..0] == [];
    NoRatesTracked();
    hide Tracks, Positives, Departs;
    for k := 0 to |rates|
      invariant Tracks(Positives(rates[..k]), positive, low, high, lastRate, stepped)
    {
      var r := rates[k];
      PositivesStep(rates, k);
      if r > 0.0 {
        TracksStep(Positives(rates[..k]), positive, low, high, lastRate, stepped, r);
        positive := positive + 1;
        if low == 0.0 || r < low {
          low := r;
        }
        if r > high {
          high := r;
        }
        if lastRate > 0.0 && Departs(lastRate, r) {
          stepped := true;
        }
        lastRate := r;
      }
    }
    assert rates[..|rates|] == rates;
    TracksMeans(Positives(rates), positive, low, high, lastRate, stepped);
  }

  method PositiveSum(rates: seq<real>) returns (sum: real)
    ensures sum == Sum(Positives(rates))
  {
    sum := 0.0;
    for k := 0 to |rates|
      invariant sum == Sum(Positives(rates[..k]))
    {
      PositivesStep(rates, k);
      if rates[k] > 0.0 {
        var p := Positives(rates[..k]);
        assert (p + [rates[k]])[..|p|] == p;
        sum := sum + rates[k];
      }
    }
    assert rates[..|rates|] == rates;
  }
}
