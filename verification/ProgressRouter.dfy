/**
 * The throttled route from the parser to the server (pkg/worker/progress_router.go). The sent
 * log stands for the calls to the server; whether a call succeeds changes nothing here.
 */
module ProgressRouters {
  import opened Options
  import opened SeekWindows
  import opened ProgressSpec
  import Runs = ProgressRuns
  import Parsers = ProgressParsers

  const SEND_DELAY := 1_000_000_000

  datatype Sent = Sent(percent: real, etaSeconds: int, timeUs: int, durationUs: int, speed: real, at: int)

  datatype Route = Route(parser: State, lastSend: Option<int>, sent: seq<Sent>)

  /** A stderr line handled at clock reading now; the throttle reads the clock again at sendAt. */
  function Handled(r: Route, line: Line, now: int, sendAt: int): Route {
    var parser := if line.headerUs > 0 then SetDuration(r.parser, line.headerUs) else r.parser;
    var (after, frame) := Parse(parser, line, now, true);
    var q := r.(parser := after);
    if frame.None? || (r.lastSend.Some? && sendAt - r.lastSend.value < SEND_DELAY) then q
    else
      var f := frame.value;
      var s := q.(lastSend := Some(sendAt));
      if f.percent < 0.0 then s
      else s.(sent := s.sent + [Sent(f.percent, f.etaSeconds, f.timeUs, f.durationUs, f.speed, sendAt)])
  }

  function Final(r: Route, at: int): Route {
    r.(sent := r.sent + [Sent(100.0, 0, r.parser.durationUs, r.parser.durationUs, 0.0, at)])
  }

  class ProgressRouter {
    const parser: Parsers.ProgressParser
    var lastSend: Option<int>
    var sent: seq<Sent>

    ghost function State(): Route
      reads this, parser
    {
      Route(parser.State(), lastSend, sent)
    }

    constructor ()
      ensures fresh(parser) && State() == Route(Fresh, None, [])
    {
      parser := new Parsers.ProgressParser();
      lastSend, sent := None, [];
    }

    method Handler(line: Line, now: int, sendAt: int)
      modifies this, parser
      ensures State() == Handled(old(State()), line, now, sendAt)
    {
      hide Parse;
      if line.headerUs > 0 {
        parser.SetDuration(line.headerUs);
      }
      var frame := parser.ParseLine(line, now);
      if frame.None? {
        return;
      }
      if lastSend.Some? && sendAt - lastSend.value < SEND_DELAY {
        return;
      }
      lastSend := Some(sendAt);
      var f := frame.value;
      if f.percent < 0.0 {
        return;
      }
      sent := sent + [Sent(f.percent, f.etaSeconds, f.timeUs, f.durationUs, f.speed, sendAt)];
    }

    method SendFinal(at: int)
      modifies `sent
      ensures State() == Final(old(State()), at)
    {
      sent := sent + [Sent(100.0, 0, parser.durationUs, parser.durationUs, 0.0, at)];
    }

    method Reset()
      modifies this, parser
      ensures State() == Route(Fresh, None, old(sent))
    {
      parser.Reset();
      lastSend := None;
    }
  }

  /** An update is sent exactly when the line yields a frame of known percent and a second has passed
      since the throttle last let a frame through; it carries that frame's figures, and a frame of
      unknown percent takes the throttle's turn. */
  lemma SendsExactlyWhenDue(r: Route, line: Line, now: int, sendAt: int)
    ensures
      var q := Handled(r, line, now, sendAt);
      var known := if line.headerUs > 0 then SetDuration(r.parser, line.headerUs) else r.parser;
      var frame := Parse(known, line, now, true).1;
      var due := r.lastSend.None? || r.lastSend.value + 1_000_000_000 <= sendAt;
      && q.parser == Parse(known, line, now, true).0
      && q.lastSend == (if frame.Some? && due then Some(sendAt) else r.lastSend)
      && (|q.sent| > |r.sent| <==> frame.Some? && frame.value.percent >= 0.0 && due)
      && (|q.sent| > |r.sent| ==>
            var f := frame.value;
            q.sent == r.sent + [Sent(f.percent, f.etaSeconds, f.timeUs, f.durationUs, f.speed, sendAt)])
      && (|q.sent| <= |r.sent| ==> q.sent == r.sent)
  {
    hide Parse, SetDuration;
  }

  // ----- what the server sees over a run

  datatype Event =
    | StderrLine(line: Line, now: int, sendAt: int)
    | DurationKnown(durationUs: int)
    | AttemptStarts(now: int)

  function Step(r: Route, e: Event): Route {
    match e
    case StderrLine(line, now, sendAt) => Handled(r, line, now, sendAt)
    case DurationKnown(us) => r.(parser := SetDuration(r.parser, us))
    case AttemptStarts(now) => r.(parser := StartAttempt(r.parser, now))
  }

  function After(r: Route, es: seq<Event>): Route
    decreases |es|
  {
    if es == [] then r else After(Step(r, es[0]), es[1..])
  }

  /** What was sent since the first n entries: in range, never decreasing, on one denominator,
      at least the send delay apart, and never ahead of the parser's own floor. */
  ghost predicate Steady(r: Route, n: nat) {
    && n <= |r.sent|
    && r.parser.hasSeekWindow && r.parser.maxPercent <= 100.0
    && (forall i :: n <= i < |r.sent| ==>
          && 0.0 <= r.sent[i].percent <= r.parser.maxPercent
          && r.sent[i].durationUs == r.parser.durationUs
          && r.lastSend.Some? && r.sent[i].at <= r.lastSend.value)
    && (forall i, j :: n <= i < j < |r.sent| ==>
          && r.sent[i].percent <= r.sent[j].percent
          && r.sent[i].at + SEND_DELAY <= r.sent[j].at)
  }

  lemma ParserStep(p: State, line: Line, now: int)
    requires p.hasSeekWindow && p.maxPercent <= 100.0
    ensures
      var p0 := if line.headerUs > 0 then SetDuration(p, line.headerUs) else p;
      var (q, frame) := Parse(p0, line, now, true);
      && p0 == p && q.hasSeekWindow && q.durationUs == p.durationUs
      && p.maxPercent <= q.maxPercent <= 100.0
      && (frame.Some? ==> frame.value.durationUs == p.durationUs)
      && (frame.Some? && frame.value.percent >= 0.0 ==> p.maxPercent <= frame.value.percent == q.maxPercent)
  {
    hide Measured, Percent;
    var e := Runs.StderrLine(line, now);
    Runs.WindowedStep(p, e);
    Runs.StepKeepsFloor(p, e);
    if line.time.Some? {
      Runs.PercentInRange(line.time.value, p.durationUs);
    }
  }

  lemma StepKeepsSteady(r: Route, e: Event, n: nat)
    requires Steady(r, n)
    ensures Steady(Step(r, e), n) && Step(r, e).parser.durationUs == r.parser.durationUs
  {
    hide Parse;
    match e
    case StderrLine(line, now, sendAt) =>
      ParserStep(r.parser, line, now);
      var (after, frame) := Parse(r.parser, line, now, true);
      var q := r.(parser := after);
      assert Steady(q, n);
      assert Step(r, e).parser == after;
    case DurationKnown(us) =>
      assert Step(r, e) == r;
    case AttemptStarts(now) =>
      var parser := StartAttempt(r.parser, now);
      assert parser.hasSeekWindow && parser.maxPercent == r.parser.maxPercent && parser.durationUs == r.parser.durationUs;
      assert Step(r, e) == r.(parser := parser);
  }

  lemma {:induction false} RunKeepsSteady(r: Route, es: seq<Event>, n: nat)
    requires Steady(r, n)
    ensures Steady(After(r, es), n) && After(r, es).parser.durationUs == r.parser.durationUs
    decreases |es|
  {
    hide Step, Steady;
    if es != [] {
      StepKeepsSteady(r, es[0], n);
      RunKeepsSteady(Step(r, es[0]), es[1..], n);
    }
  }

  /** From the moment a seek window is set on a known duration, over every run of stderr lines,
      duration reports and attempts, and with the terminal update appended, the percents the
      server receives lie in [0, 100], never decrease, are all measured against that window, and
      the throttled ones arrive at least a second apart. */
  lemma ServerProgressNeverRewinds(r: Route, inputUs: int, sw: SeekWindow, es: seq<Event>, at: int)
    requires inputUs > 0 && r.parser.maxPercent <= 100.0
    ensures
      var n := |r.sent|;
      var end := Final(After(r.(parser := SetSeekWindow(r.parser, inputUs, sw)), es), at).sent;
      && n < |end| && end[|end| - 1].percent == 100.0
      && (forall i :: n <= i < |end| ==> 0.0 <= end[i].percent <= 100.0 && end[i].durationUs == sw.WindowUs(inputUs))
      && (forall i, j :: n <= i < j < |end| ==> end[i].percent <= end[j].percent)
      && (forall i, j :: n <= i < j < |end| - 1 ==> end[i].at + SEND_DELAY <= end[j].at)
  {
    var start := r.(parser := SetSeekWindow(r.parser, inputUs, sw));
    hide Step;
    assert Steady(start, |r.sent|);
    RunKeepsSteady(start, es, |r.sent|);
  }
}
