/**
 * What the progress parser keeps over whole runs: pruning never changes a frame, percent never
 * rewinds while the denominator stands, and every shown ETA is certified.
 */
module ProgressRuns {
  import opened Options
  import opened SeekWindows
  import opened EtaRates
  import opened EtaEstimate
  import Estimator = EtaEstimate
  import opened ProgressSpec

  datatype Event =
    | StderrLine(line: Line, now: int)
    | DurationKnown(durationUs: int)
    | WindowKnown(inputUs: int, sw: SeekWindow)
    | AttemptStarts(now: int)
    | JobEnds

  function Step(p: State, e: Event, prune: bool): (State, Option<Frame>) {
    match e
    case StderrLine(line, now) => Parse(p, line, now, prune)
    case DurationKnown(us) => (SetDuration(p, us), None)
    case WindowKnown(us, sw) => (SetSeekWindow(p, us, sw), None)
    case AttemptStarts(now) => (StartAttempt(p, now), None)
    case JobEnds => (Fresh, None)
  }

  /** The frames a run emits, in order. */
  function Frames(p: State, es: seq<Event>, prune: bool): seq<Frame>
    decreases |es|
  {
    if es == [] then []
    else
      var (q, frame) := Step(p, es[0], prune);
      (if frame.Some? then [frame.value] else []) + Frames(q, es[1..], prune)
  }

  // ----- lossless pruning

  /** Readings of the monotonic clock never go back. */
  ghost predicate Clocked(es: seq<Event>, t: int) {
    es != [] ==>
      match es[0]
      case StderrLine(_, now) => t <= now && Clocked(es[1..], now)
      case AttemptStarts(now) => t <= now && Clocked(es[1..], now)
      case _ => Clocked(es[1..], t)
  }

  ghost predicate Stale(s: seq<Sample>, now: int) {
    forall k :: 0 <= k < |s| ==> s[k].wall < now - (RATE_WINDOW + RATE_CHUNK)
  }

  lemma {:induction false} PruneDropsStale(s: seq<Sample>, now: int)
    ensures s[|s| - |Prune(s, now)|..] == Prune(s, now)
    ensures Stale(s[..|s| - |Prune(s, now)|], now)
    ensures s != [] ==> Prune(s, now) != []
  {
    if |s| > 2 && s[0].wall < now - (RATE_WINDOW + RATE_CHUNK) {
      PruneDropsStale(s[1..], now);
      var n := |s| - |Prune(s, now)|;
      assert s[n..] == s[1..][n - 1..];
      assert s[..n] == [s[0]] + s[1..][..n - 1];
    } else {
      assert s[0..] == s;
    }
  }

  /** q is p with some samples in front that are too old to matter at t or later. */
  ghost predicate Agree(p: State, q: State, stale: seq<Sample>, t: int) {
    && q == p.(samples := stale + p.samples)
    && Stale(stale, t)
    && (stale != [] ==> p.samples != [])
  }

  /** The samples in front after one more observation on both sides. */
  ghost function Dropped(s: seq<Sample>, now: int, pct: real): seq<Sample> {
    var all := s + [Sample(now, Gridded(pct))];
    all[..|all| - |Recorded(s, now, pct, true)|]
  }

  lemma StaleJoins(a: seq<Sample>, b: seq<Sample>, t: int, now: int)
    requires Stale(a, t) && t <= now && Stale(b, now)
    ensures Stale(a + b, now)
  {
  }

  lemma RecordedAgrees(stale: seq<Sample>, s: seq<Sample>, t: int, now: int, pct: real)
    requires Stale(stale, t) && t <= now
    ensures |Recorded(s, now, pct, true)| <= |s| + 1
    ensures Recorded(s, now, pct, true) != []
    ensures Recorded(stale + s, now, pct, false)
         == (stale + Dropped(s, now, pct)) + Recorded(s, now, pct, true)
    ensures Stale(stale + Dropped(s, now, pct), now)
  {
    hide Gridded, Prune, Stale;
    var all := s + [Sample(now, Gridded(pct))];
    PruneDropsStale(all, now);
    StaleJoins(stale, all[..|all| - |Prune(all, now)|], t, now);
    var kept := Recorded(s, now, pct, true);
    assert all == all[..|all| - |kept|] + kept;
    assert stale + s + [Sample(now, Gridded(pct))] == stale + all;
  }

  ghost function StaleAfter(p: State, stale: seq<Sample>, line: Line, now: int): seq<Sample>
    requires line.time.Some?
  {
    var q := Observed(p, line);
    if Samples(q, line.time.value, line)
    then stale + Dropped(q.samples, now, Percent(line.time.value, q.durationUs)) else stale
  }

  lemma SameReading(p: State, q: State, stale: seq<Sample>, timeUs: nat, now: int)
    requires Agree(p, q, stale, now) && p.attemptStart.Some? && p.samples != []
    ensures StepSeen(p, now) == StepSeen(q, now) && EtaOf(p, timeUs, now) == EtaOf(q, timeUs, now)
  {
    hide Evidence, Estimator.Estimate;
    assert OutOfWindow(stale, now);
    EvidenceIgnoresOld(stale, p.samples, p.durationUs, p.attemptStart.value, now);
  }

  lemma MeasuredAgrees(p: State, q: State, stale: seq<Sample>, t: int, line: Line, now: int)
    requires line.time.Some? && t <= now && Agree(p, q, stale, t)
    ensures Measured(p, line, now, true).1 == Measured(q, line, now, false).1
    ensures Agree(Measured(p, line, now, true).0, Measured(q, line, now, false).0,
                  StaleAfter(p, stale, line, now), now)
  {
    hide EtaOf, StepSeen, Recorded, Percent, Smoothed, Dropped;
    var timeUs := line.time.value;
    var p1, q1 := Observed(p, line), Observed(q, line);
    assert Agree(p1, q1, stale, now);
    if Samples(p1, timeUs, line) {
      RecordedAgrees(stale, p.samples, t, now, Percent(timeUs, p1.durationUs));
      SameReading(Sampled(p1, timeUs, now, true), Sampled(q1, timeUs, now, false),
                  StaleAfter(p, stale, line, now), timeUs, now);
    }
  }

  lemma {:induction false} PruningIsLosslessFrom(p: State, q: State, stale: seq<Sample>, t: int, es: seq<Event>)
    requires Agree(p, q, stale, t) && Clocked(es, t)
    ensures Frames(p, es, true) == Frames(q, es, false)
    decreases |es|
  {
    hide Measured, Percent;
    if es != [] {
      var p', q' := Step(p, es[0], true).0, Step(q, es[0], false).0;
      match es[0]
      case StderrLine(line, now) =>
        if line.time.Some? {
          MeasuredAgrees(p, q, stale, t, line, now);
          PruningIsLosslessFrom(p', q', StaleAfter(p, stale, line, now), now, es[1..]);
        } else {
          PruningIsLosslessFrom(p', q', stale, now, es[1..]);
        }
      case AttemptStarts(now) =>
        assert [] + p'.samples == p'.samples;
        PruningIsLosslessFrom(p', q', [], now, es[1..]);
      case JobEnds =>
        assert [] + p'.samples == p'.samples;
        PruningIsLosslessFrom(p', q', [], t, es[1..]);
      case _ =>
        PruningIsLosslessFrom(p', q', stale, t, es[1..]);
    }
  }

  /** Lossless pruning. Over every run, a parser that drops old samples emits exactly the frames,
      ETA included, of a parser that keeps every sample of the attempt. */
  lemma PruningIsLossless(es: seq<Event>, t: int)
    requires Clocked(es, t)
    ensures Frames(Fresh, es, true) == Frames(Fresh, es, false)
  {
    assert [] + Fresh.samples == Fresh.samples;
    PruningIsLosslessFrom(Fresh, Fresh, [], t, es);
  }

  function StateAfter(p: State, es: seq<Event>, prune: bool): State
    decreases |es|
  {
    if es == [] then p else StateAfter(Step(p, es[0], prune).0, es[1..], prune)
  }

  /** The last reading of the clock in the run. */
  function ClockAfter(es: seq<Event>, t: int): int {
    if es == [] then t
    else if es[0].StderrLine? || es[0].AttemptStarts? then ClockAfter(es[1..], es[0].now)
    else ClockAfter(es[1..], t)
  }

  ghost predicate Agreeing(p: State, q: State, t: int) { exists stale :: Agree(p, q, stale, t) }

  lemma StepAgrees(p: State, q: State, t: int, e: Event)
    requires Agreeing(p, q, t) && Clocked([e], t)
    ensures Agreeing(Step(p, e, true).0, Step(q, e, false).0, ClockAfter([e], t))
  {
    hide Measured, Percent;
    var stale :| Agree(p, q, stale, t);
    var p', q' := Step(p, e, true).0, Step(q, e, false).0;
    assert [e][1..] == [];
    match e
    case StderrLine(line, now) =>
      if line.time.Some? {
        MeasuredAgrees(p, q, stale, t, line, now);
        assert Agree(p', q', StaleAfter(p, stale, line, now), now);
      } else {
        assert Agree(p', q', stale, now);
      }
    case AttemptStarts(now) =>
      assert [] + p'.samples == p'.samples;
      assert Agree(p', q', [], now);
    case JobEnds =>
      assert [] + p'.samples == p'.samples;
      assert Agree(p', q', [], t);
    case _ =>
      assert Agree(p', q', stale, t);
  }

  lemma {:induction false} RunAgrees(p: State, q: State, t: int, es: seq<Event>)
    requires Agreeing(p, q, t) && Clocked(es, t)
    ensures Agreeing(StateAfter(p, es, true), StateAfter(q, es, false), ClockAfter(es, t))
    decreases |es|
  {
    hide Agreeing, Step;
    if es != [] {
      assert [es[0]][1..] == [];
      StepAgrees(p, q, t, es[0]);
      RunAgrees(Step(p, es[0], true).0, Step(q, es[0], false).0, ClockAfter([es[0]], t), es[1..]);
    }
  }

  /** At every point of every run, at every later reading of the clock, both parsers hold the same
      evidence - rates and settled flag - and know the same of a step during start-up. */
  lemma PruningKeepsEvidence(es: seq<Event>, t: int, now: int)
    requires Clocked(es, t) && ClockAfter(es, t) <= now
    ensures
      var p, q := StateAfter(Fresh, es, true), StateAfter(Fresh, es, false);
      && p.stepSeen == q.stepSeen && p.attemptStart == q.attemptStart && p.maxPercent == q.maxPercent
      && (p.attemptStart.Some? ==> EvidenceOf(p, now) == EvidenceOf(q, now) && StepSeen(p, now) == StepSeen(q, now))
  {
    assert [] + Fresh.samples == Fresh.samples;
    assert Agree(Fresh, Fresh, [], t);
    RunAgrees(Fresh, Fresh, t, es);
    var p, q := StateAfter(Fresh, es, true), StateAfter(Fresh, es, false);
    var stale :| Agree(p, q, stale, ClockAfter(es, t));
    hide Evidence, StateAfter, ClockAfter;
    if p.attemptStart.Some? {
      if p.samples == [] {
        assert stale + p.samples == p.samples;
      } else {
        assert OutOfWindow(stale, now);
        EvidenceIgnoresOld(stale, p.samples, p.durationUs, p.attemptStart.value, now);
      }
    }
  }

  // ----- percent never rewinds

  /** No event of the run ends the job or changes the denominator. */
  ghost predicate Steadfast(p: State, es: seq<Event>)
    decreases |es|
  {
    es != [] ==>
      var q := Step(p, es[0], true).0;
      !es[0].JobEnds? && q.durationUs == p.durationUs && Steadfast(q, es[1..])
  }

  lemma PercentInRange(timeUs: nat, durationUs: int)
    ensures Percent(timeUs, durationUs) < 0.0 <==> durationUs <= 0
    ensures durationUs > 0 ==> 0.0 <= Percent(timeUs, durationUs) <= 100.0
  {
    if durationUs > 0 {
      assert timeUs as real / durationUs as real >= 0.0;
    }
  }

  /** One step under a standing denominator: the floor never falls, and an emitted percent is on
      the denominator, in range, at or above the old floor and at or below the new one. */
  lemma StepKeepsFloor(p: State, e: Event)
    requires !e.JobEnds? && Step(p, e, true).0.durationUs == p.durationUs
    ensures
      var (q, frame) := Step(p, e, true);
      && p.maxPercent <= q.maxPercent
      && (q.maxPercent != p.maxPercent ==> frame.Some? && frame.value.percent == q.maxPercent)
      && (frame.Some? ==> frame.value.durationUs == p.durationUs)
      && (frame.Some? && p.durationUs > 0 ==>
            && 0.0 <= frame.value.percent <= 100.0
            && p.maxPercent <= frame.value.percent == q.maxPercent)
      && (frame.Some? && p.durationUs <= 0 ==> frame.value.percent < 0.0)
  {
    hide EtaOf, StepSeen, Recorded, Percent, Smoothed;
    if e.StderrLine? && e.line.time.Some? {
      PercentInRange(e.line.time.value, p.durationUs);
    }
  }

  ghost predicate Climbs(fs: seq<Frame>, durationUs: int, floor: real) {
    && (forall i :: 0 <= i < |fs| ==> fs[i].durationUs == durationUs)
    && (durationUs > 0 ==> forall i :: 0 <= i < |fs| ==> 0.0 <= fs[i].percent <= 100.0 && floor <= fs[i].percent)
    && (durationUs > 0 ==> forall i, j :: 0 <= i < j < |fs| ==> fs[i].percent <= fs[j].percent)
    && (durationUs <= 0 ==> forall i :: 0 <= i < |fs| ==> fs[i].percent < 0.0)
  }

  /** As long as the denominator stands, the emitted percents climb, across attempts. */
  lemma {:induction false} PercentClimbs(p: State, es: seq<Event>)
    requires Steadfast(p, es)
    ensures Climbs(Frames(p, es, true), p.durationUs, p.maxPercent)
    decreases |es|
  {
    hide Step;
    if es != [] {
      var (q, frame) := Step(p, es[0], true);
      StepKeepsFloor(p, es[0]);
      PercentClimbs(q, es[1..]);
    }
  }

  ghost predicate KeepsWindow(es: seq<Event>) {
    forall k :: 0 <= k < |es| ==> !es[k].JobEnds? && !es[k].WindowKnown?
  }

  lemma {:induction false} WindowIsSteadfast(p: State, es: seq<Event>)
    requires p.hasSeekWindow && KeepsWindow(es)
    ensures Steadfast(p, es)
    decreases |es|
  {
    if es != [] {
      WindowedStep(p, es[0]);
      WindowIsSteadfast(Step(p, es[0], true).0, es[1..]);
    }
  }

  lemma WindowedStep(p: State, e: Event)
    requires p.hasSeekWindow && !e.JobEnds? && !e.WindowKnown?
    ensures Step(p, e, true).0.hasSeekWindow && Step(p, e, true).0.durationUs == p.durationUs
  {
    hide EtaOf, StepSeen, Recorded, Percent, Smoothed;
  }

  /** Progress never rewinds. Once a seek window is set on a known duration, every run of lines,
      duration headers and attempts up to the next window or job measures percent against that
      window and emits percents in [0, 100] that never decrease, across attempts. */
  lemma ProgressNeverRewinds(p: State, inputUs: int, sw: SeekWindow, es: seq<Event>)
    requires inputUs > 0 && KeepsWindow(es)
    ensures
      var q := SetSeekWindow(p, inputUs, sw);
      Climbs(Frames(q, es, true), sw.WindowUs(inputUs), q.maxPercent)
  {
    var q := SetSeekWindow(p, inputUs, sw);
    WindowIsSteadfast(q, es);
    PercentClimbs(q, es);
  }

  /** A changed denominator re-bases the floor: the first known percent on the new scale is
      emitted however high the old scale had climbed, so progress cannot stall behind it. */
  lemma RebasedScaleDoesNotStall(p: State, durationUs: int, line: Line, now: int)
    requires !p.hasSeekWindow && 0 < durationUs != p.durationUs && line.time.Some?
    ensures
      var frame := Parse(SetDuration(p, durationUs), line, now, true).1;
      frame.Some? && frame.value.percent == Percent(line.time.value, durationUs) >= 0.0
  {
    hide EtaOf, StepSeen, Recorded, Percent, Smoothed;
    PercentInRange(line.time.value, durationUs);
  }

  // ----- the figures of a line

  /** Percent is the encoded share of the denominator, cut at 100. */
  lemma PercentExactly(timeUs: nat, durationUs: int)
    requires durationUs > 0
    ensures timeUs <= durationUs ==> Percent(timeUs, durationUs) * durationUs as real == timeUs as real * 100.0
    ensures timeUs >= durationUs ==> Percent(timeUs, durationUs) == 100.0
  {
    ShareOfWhole(timeUs as real, durationUs as real);
  }

  lemma ShareOfWhole(n: real, d: real)
    requires n >= 0.0 && d > 0.0
    ensures n / d * 100.0 * d == n * 100.0
    ensures n / d > 1.0 <==> n > d
    ensures n / d == 1.0 <==> n == d
  {
    var share := n / d;
    assert share * d == n;
    assert (share - 1.0) * d == n - d;
    if share > 1.0 {
      assert (share - 1.0) * d > 0.0;
    } else {
      assert (1.0 - share) * d >= 0.0;
      assert n <= d;
    }
    if n == d {
      assert share - 1.0 == 0.0 || d == 0.0;
    }
  }

  /** A sample holds the nearest tenth of a percent, the upper one in the middle. */
  lemma GriddedIsNearest(pct: real)
    requires pct >= 0.0
    ensures Gridded(pct) - 0.05 <= pct < Gridded(pct) + 0.05
    ensures (Gridded(pct) * 10.0).Floor as real == Gridded(pct) * 10.0
  {
    var n := Round(pct * 10.0);
    assert Gridded(pct) * 10.0 == n as real;
  }

  /** What pruning keeps is a suffix, of at least two rows where there were two, and starts within
      twelve seconds of now unless it is down to two rows. */
  lemma {:induction false} PruneIsExact(s: seq<Sample>, now: int)
    ensures
      var kept := Prune(s, now);
      && s[|s| - |kept|..] == kept
      && (forall k :: 0 <= k < |s| - |kept| ==> now - s[k].wall > 12_000_000_000)
      && (|kept| >= 2 || kept == s)
      && (|kept| > 2 ==> now - kept[0].wall <= 12_000_000_000)
  {
    if |s| > 2 && s[0].wall < now - (RATE_WINDOW + RATE_CHUNK) {
      PruneIsExact(s[1..], now);
    }
  }

  /** The displayed speed moves three tenths of the way to each new reading. */
  lemma SmoothedMoves(ewma: real, speed: real)
    ensures speed <= 0.0 ==> Smoothed(ewma, speed) == ewma
    ensures speed > 0.0 && ewma == 0.0 ==> Smoothed(ewma, speed) == speed
    ensures speed > 0.0 && ewma != 0.0 ==> 10.0 * (Smoothed(ewma, speed) - ewma) == 3.0 * (speed - ewma)
  {
  }

  /** A line with a positive time= and speed= under a known denominator adds one row, read at now and
      within a twentieth of the exact percentage, to a suffix of the history. */
  lemma ReadingAddsSample(p: State, line: Line, now: int)
    requires line.time.Some?
    ensures
      var q := Measured(p, line, now, true).0;
      var n := |q.samples| - 1;
      if q.durationUs > 0 && line.time.value > 0 && line.speed.Some? && line.speed.value > 0.0
      then
        var pct := Percent(line.time.value, q.durationUs);
        && n >= 0 && q.samples[n].wall == now
        && q.samples[n].pct - 0.05 <= pct < q.samples[n].pct + 0.05
        && n <= |p.samples| && p.samples[|p.samples| - n..] == q.samples[..n]
      else q.samples == p.samples
  {
    hide EtaOf, StepSeen, Percent, Smoothed, Gridded, Prune;
    var d := Observed(p, line).durationUs;
    if d > 0 {
      var pct := Percent(line.time.value, d);
      PercentInRange(line.time.value, d);
      GriddedIsNearest(pct);
      AddedRow(p.samples, now, pct);
    }
  }

  lemma AddedRow(s: seq<Sample>, now: int, pct: real)
    ensures
      var kept := Recorded(s, now, pct, true);
      var n := |kept| - 1;
      && 0 <= n <= |s| && kept[n] == Sample(now, Gridded(pct)) && s[|s| - n..] == kept[..n]
  {
    var all := s + [Sample(now, Gridded(pct))];
    PruneIsExact(all, now);
    var kept := Recorded(s, now, pct, true);
    hide Prune, Gridded;
    assert kept[|kept| - 1] == all[|all| - 1];
    assert all[|all| - |kept|..][..|kept| - 1] == s[|s| - (|kept| - 1)..];
  }

  /** The first header of a job without a window is its denominator; a line changes no other one. */
  lemma LineSetsDenominator(p: State, line: Line, now: int)
    requires line.time.Some?
    ensures
      var q := Parse(p, line, now, true).0;
      && q.durationUs == (if p.durationUs == 0 && !p.hasSeekWindow then line.headerUs else p.durationUs)
      && q.hasSeekWindow == p.hasSeekWindow
  {
    hide EtaOf, StepSeen, Recorded, Percent, Smoothed;
  }

  /** Where a denominator comes from: a probed duration counts unless a window stands, a window needs
      a known duration, and only a changed denominator clears the floor. */
  lemma DenominatorRules(p: State, us: int, sw: SeekWindow)
    ensures p.hasSeekWindow ==> SetDuration(p, us) == p
    ensures us <= 0 ==> SetSeekWindow(p, us, sw) == p
    ensures !p.hasSeekWindow ==> SetDuration(p, us).durationUs == us && !SetDuration(p, us).hasSeekWindow
    ensures us > 0 ==> SetSeekWindow(p, us, sw).durationUs == sw.WindowUs(us) && SetSeekWindow(p, us, sw).hasSeekWindow
    ensures forall q :: q == SetDuration(p, us) || q == SetSeekWindow(p, us, sw) ==>
      && q.maxPercent == (if q.durationUs == p.durationUs then p.maxPercent else -1.0)
      && q.(durationUs := p.durationUs, maxPercent := p.maxPercent, hasSeekWindow := p.hasSeekWindow) == p
  {
  }

  /** A line is dropped exactly when it carries no time= or its percent is below the floor. */
  lemma FrameIsDroppedExactly(p: State, line: Line, now: int)
    ensures
      var (q, frame) := Parse(p, line, now, true);
      frame.None? <==> line.time.None?
                       || (&& q.durationUs == p.durationUs > 0
                           && Percent(line.time.value, p.durationUs) < p.maxPercent)
  {
    hide EtaOf, StepSeen, Recorded, Percent, Smoothed;
    if line.time.Some? {
      PercentInRange(line.time.value, Observed(p, line).durationUs);
    }
  }

  // ----- what one attempt knows

  /** A new attempt starts at its clock reading with nothing of the attempt before it. */
  lemma AttemptForgets(p: State, q: State, now: int, es: seq<Event>)
    requires p.durationUs == q.durationUs && p.hasSeekWindow == q.hasSeekWindow && p.maxPercent == q.maxPercent
    ensures StartAttempt(p, now).samples == [Sample(now, 0.0)] && StartAttempt(p, now).maxPercent == p.maxPercent
    ensures StartAttempt(p, now) == StartAttempt(q, now)
    ensures Frames(StartAttempt(p, now), es, true) == Frames(StartAttempt(q, now), es, true)
  {
  }

  ghost predicate SameAttempt(es: seq<Event>) {
    forall k :: 0 <= k < |es| ==> !es[k].AttemptStarts? && !es[k].JobEnds?
  }

  /** The event is a progress line that carries the frame count n. */
  ghost predicate Counts(e: Event, n: int) {
    e.StderrLine? && e.line.time.Some? && e.line.frames == Some(n)
  }

  lemma StepCounts(p: State, e: Event)
    requires SameAttempt([e]) && p.attemptStart.Some?
    ensures
      var q := Step(p, e, true).0;
      && q.attemptStart == p.attemptStart
      && q.attemptFrames >= p.attemptFrames
      && (forall n :: Counts(e, n) ==> n <= q.attemptFrames)
      && (q.attemptFrames == p.attemptFrames || Counts(e, q.attemptFrames))
  {
    hide EtaOf, StepSeen, Recorded, Percent, Smoothed;
    assert [e][0] == e;
  }

  lemma {:induction false} RunCounts(p: State, es: seq<Event>)
    requires SameAttempt(es) && p.attemptStart.Some?
    ensures
      var q := StateAfter(p, es, true);
      && q.attemptStart == p.attemptStart
      && q.attemptFrames >= p.attemptFrames
      && (forall k, n :: 0 <= k < |es| && Counts(es[k], n) ==> n <= q.attemptFrames)
      && (q.attemptFrames == p.attemptFrames || exists k :: 0 <= k < |es| && Counts(es[k], q.attemptFrames))
    decreases |es|
  {
    hide Step, Counts;
    if es != [] {
      StepCounts(p, es[0]);
      var p' := Step(p, es[0], true).0;
      RunCounts(p', es[1..]);
      var q := StateAfter(p, es, true);
      if k :| 0 <= k < |es[1..]| && Counts(es[1..][k], q.attemptFrames) {
        assert Counts(es[k + 1], q.attemptFrames);
      }
      forall k, n | 0 <= k < |es| && Counts(es[k], n)
        ensures n <= q.attemptFrames
      {
        assert k > 0 ==> es[k] == es[1..][k - 1];
      }
    }
  }

  /** Through the whole attempt its age counts from its own start, and its frame count is the highest
      one any of its progress lines carried. */
  lemma FramesAreHighest(p: State, now: int, es: seq<Event>)
    requires SameAttempt(es)
    ensures
      var q := StateAfter(StartAttempt(p, now), es, true);
      && q.attemptStart == Some(now)
      && q.attemptFrames >= 0
      && (forall k, n :: 0 <= k < |es| && Counts(es[k], n) ==> n <= q.attemptFrames)
      && (q.attemptFrames == 0 || exists k :: 0 <= k < |es| && Counts(es[k], q.attemptFrames))
  {
    RunCounts(StartAttempt(p, now), es);
  }

  /** The sample state a line's ETA is read from. */
  ghost function Reading(p: State, line: Line, now: int): State
    requires line.time.Some?
  {
    Sampled(Observed(p, line), line.time.value, now, true)
  }

  /** The line is one an ETA may be read from: 20 media seconds and 120 frames into the attempt. */
  ghost predicate Readable(p: State, line: Line, now: int)
    requires line.time.Some?
  {
    && Reading(p, line, now).durationUs > 0
    && line.speed.Some? && line.speed.value > 0.0
    && line.time.value >= 20_000_000 && Reading(p, line, now).attemptFrames >= 120
  }

  /** The line's evidence shows a pace step within 18 seconds of the attempt's start. */
  ghost predicate ShowsStep(p: State, line: Line, now: int)
    requires line.time.Some?
  {
    var s := Reading(p, line, now);
    && Readable(p, line, now)
    && s.attemptStart.Some? && now - s.attemptStart.value <= 18_000_000_000
    && EvidenceOf(s, now).Some? && !EvidenceOf(s, now).value.settled
  }

  ghost predicate StepAt(p: State, e: Event) {
    e.StderrLine? && e.line.time.Some? && ShowsStep(p, e.line, e.now)
  }

  lemma StepIsRemembered(p: State, e: Event)
    requires SameAttempt([e])
    ensures Step(p, e, true).0.stepSeen <==> p.stepSeen || StepAt(p, e)
  {
    hide EtaOf, Evidence, Recorded, Percent, Smoothed;
    assert [e][0] == e;
  }

  lemma {:induction false} RunRemembersStep(p: State, es: seq<Event>)
    requires SameAttempt(es)
    ensures StateAfter(p, es, true).stepSeen
       <==> p.stepSeen || exists k :: 0 <= k < |es| && StepAt(StateAfter(p, es[..k], true), es[k])
    decreases |es|
  {
    hide Step, StepAt;
    if es != [] {
      StepIsRemembered(p, es[0]);
      var p', rest := Step(p, es[0], true).0, es[1..];
      RunRemembersStep(p', rest);
      assert es[..0] == [] && StateAfter(p, es[..0], true) == p;
      forall k | 0 <= k < |rest|
        ensures StateAfter(p', rest[..k], true) == StateAfter(p, es[..k + 1], true)
      {
        assert es[..k + 1][1..] == rest[..k];
      }
      if k :| 0 <= k < |rest| && StepAt(StateAfter(p', rest[..k], true), rest[k]) {
        assert StepAt(StateAfter(p, es[..k + 1], true), es[k + 1]);
      }
      if k :| 0 <= k < |es| && StepAt(StateAfter(p, es[..k], true), es[k]) {
        if k > 0 {
          assert StepAt(StateAfter(p', rest[..k - 1], true), rest[k - 1]);
        }
      }
    }
  }

  /** An attempt has seen its step exactly when one of its lines, within its first 18 seconds, had
      evidence with two neighbouring blocks more than 25% apart. */
  lemma StepSeenExactly(p: State, now: int, es: seq<Event>)
    requires SameAttempt(es)
    ensures
      var start := StartAttempt(p, now);
      StateAfter(start, es, true).stepSeen
      <==> exists k :: 0 <= k < |es| && StepAt(StateAfter(start, es[..k], true), es[k])
  {
    RunRemembersStep(StartAttempt(p, now), es);
  }

  // ----- every shown ETA is certified

  /** In every state, a frame that carries an ETA carries a positive one, taken after at least
      20 media seconds and 120 frames, from settled evidence past the fill, and within 20% of the
      finish of every future that evidence permits. */
  lemma ShownEtaIsCertified(p: State, line: Line, now: int)
    requires line.time.Some?
    ensures
      var frame := Parse(p, line, now, true).1;
      frame.Some? && frame.value.etaSeconds != 0 ==>
        var f := frame.value;
        var s := Reading(p, line, now);
        && f.etaSeconds > 0
        && s.attemptStart.Some? && Readable(p, line, now)
        && EvidenceOf(s, now).Some? && EvidenceOf(s, now).value.settled
        && f.durationUs > f.timeUs
        && Certified(f.etaSeconds, EvidenceOf(s, now).value, MediaSeconds(f.durationUs - f.timeUs))
  {
    hide Evidence, Percent, Smoothed, Recorded, Certified, Estimator.Estimate;
    var frame := Parse(p, line, now, true).1;
    if frame.Some? && frame.value.etaSeconds != 0 {
      var s := Reading(p, line, now);
      EtaIsSound(EvidenceOf(s, now), StepSeen(s, now), Seconds(now - s.attemptStart.value),
                 MediaSeconds(s.durationUs - line.time.value));
    }
  }

  /** The evidence of a line is settled, media remains, and the start-up wait is over: a step was
      seen, or the attempt is 18 seconds old or through a third of the projected run. */
  ghost predicate Tells(p: State, line: Line, now: int)
    requires line.time.Some?
  {
    var s := Reading(p, line, now);
    var remaining := MediaSeconds(s.durationUs - line.time.value);
    && Readable(p, line, now)
    && s.attemptStart.Some? && EvidenceOf(s, now).Some? && EvidenceOf(s, now).value.settled
    && remaining > 0.0
    && var age := Seconds(now - s.attemptStart.value);
       (s.stepSeen || age >= 18.0 || 2.0 * age * EvidenceOf(s, now).value.pace >= remaining)
  }

  /** A line of settled evidence past the fill shows no ETA only when no second at all is certified,
      and otherwise a certified one closest to the middle of the finish interval; any other line
      shows none. */
  lemma ShownEtaIsComplete(p: State, line: Line, now: int)
    requires line.time.Some? && Parse(p, line, now, true).1.Some?
    ensures
      var f := Parse(p, line, now, true).1.value;
      && f.timeUs == line.time.value && f.durationUs == Reading(p, line, now).durationUs
      && f.speed == (if line.speed.Some? then line.speed.value else 0.0)
      && (!Tells(p, line, now) ==> f.etaSeconds == 0)
    ensures Tells(p, line, now) ==>
      var e := Parse(p, line, now, true).1.value.etaSeconds;
      var s := Reading(p, line, now);
      var r, remaining := EvidenceOf(s, now).value, MediaSeconds(s.durationUs - line.time.value);
      var mid := (FinishLo(r, remaining) + FinishHi(r, remaining)) / 2.0;
      && (e == 0 <==> forall d: int :: !Certified(d, r, remaining))
      && (e != 0 ==> Certified(e, r, remaining))
      && (e != 0 ==> forall d: int :: Certified(d, r, remaining) ==> AtLeastAsClose(e, d, mid))
  {
    hide Evidence, Percent, Smoothed, Recorded, Certified, Estimator.Estimate, FinishLo, FinishHi, AtLeastAsClose;
    var s := Reading(p, line, now);
    var remaining := MediaSeconds(s.durationUs - line.time.value);
    var evidence, age := EvidenceOf(s, now), Seconds(now - s.attemptStart.value);
    var e := Estimator.Estimate(evidence, StepSeen(s, now), age, remaining);
    if e != 0 {
      EtaIsSound(evidence, StepSeen(s, now), age, remaining);
    }
    if Tells(p, line, now) {
      EtaIsComplete(evidence.value, StepSeen(s, now), age, remaining);
    }
  }

  /** On a steady stream of v media seconds per wall second, a shown ETA of e seconds encodes e * v
      media seconds, within 20% of what remains: the displayed finish is the real one. */
  lemma SteadyEta(p: State, line: Line, now: int, v: real)
    requires line.time.Some? && v > 0.0
    requires
      var s := Reading(p, line, now);
      s.samples != [] && OnLine(s.samples, WindowBase(s.samples, now), s.durationUs, v)
    ensures
      var frame := Parse(p, line, now, true).1;
      frame.Some? && frame.value.etaSeconds != 0 ==>
        var remaining := (frame.value.durationUs - line.time.value) as real / 1_000_000.0;
        && remaining > 0.0
        && 0.8 * remaining < frame.value.etaSeconds as real * v < 1.2 * remaining
  {
    hide *;
    var frame := Parse(p, line, now, true).1;
    if frame.Some? && frame.value.etaSeconds != 0 {
      ShownEtaIsCertified(p, line, now);
      ShownEtaIsComplete(p, line, now);
      ReadingEndsNow(p, line, now);
      SteadyReading(Reading(p, line, now), now, v);
      SteadyShown(frame.value.etaSeconds, Reading(p, line, now).durationUs - line.time.value, v);
    }
  }

  lemma ReadingEndsNow(p: State, line: Line, now: int)
    requires line.time.Some?
    ensures
      var s := Reading(p, line, now).samples;
      s != [] && s[|s| - 1].wall == now
  {
    var q := Observed(p, line);
    AddedRow(q.samples, now, Percent(line.time.value, q.durationUs));
    hide Recorded, Observed, Percent;
  }

  lemma SteadyShown(e: int, us: int, v: real)
    requires v > 0.0 && us > 0 && Certified(e, Rates(v, v, v, true), MediaSeconds(us))
    ensures
      var remaining := us as real / 1_000_000.0;
      && remaining > 0.0
      && 0.8 * remaining < e as real * v < 1.2 * remaining
  {
    hide Certified;
    SteadyFinish(e, v, MediaSeconds(us));
  }

  lemma SteadyReading(s: State, now: int, v: real)
    requires s.samples != [] && s.samples[|s.samples| - 1].wall == now && v > 0.0
    requires OnLine(s.samples, WindowBase(s.samples, now), s.durationUs, v)
    requires s.attemptStart.Some? && EvidenceOf(s, now).Some?
    ensures EvidenceOf(s, now).value == Rates(v, v, v, true)
  {
    SteadyStreamIsMeasured(s.samples, s.durationUs, s.attemptStart.value, now, v);
    hide Evidence, OnLine;
  }
}
