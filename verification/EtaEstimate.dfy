/**
 * From throughput evidence to a whole second the display may show (the finish half of the ETA
 * engine in pkg/worker/progress_parser.go). What the samples cannot pin down - the rate, the
 * media still inside the encoder, the muxer's closing work - becomes a set of futures; an
 * estimate is shown only when one integer is within tolerance of the finish of every future.
 */
module EtaEstimate {
  import opened Options
  import opened EtaRates

  const START_UP_SECONDS := 18.0
  const START_UP_FRACTION := 1.0 / 3.0
  const OUTPUT_LAG_BOUND := 5.0
  const FINALIZE_BOUND := 0.75
  const TOLERANCE := 0.20

  // ----- the futures the evidence permits

  datatype Segment = Segment(media: real, rate: real)

  /** The rest of the run: the encoder already holds hidden seconds of media, encodes the others
      segment by segment, and closes the file in finalizing seconds. */
  datatype Future = Future(segments: seq<Segment>, hidden: real, finalizing: real)

  ghost function Media(segments: seq<Segment>): real {
    if segments == [] then 0.0 else segments[0].media + Media(segments[1..])
  }

  ghost predicate Steady(segments: seq<Segment>, r: Rates) {
    forall k :: 0 <= k < |segments| ==> 0.0 <= segments[k].media && r.rateLo <= segments[k].rate <= r.rateHi
  }

  ghost function Encoding(segments: seq<Segment>, r: Rates): real
    requires r.rateLo > 0.0 && Steady(segments, r)
  {
    if segments == [] then 0.0 else segments[0].media / segments[0].rate + Encoding(segments[1..], r)
  }

  ghost predicate Permitted(f: Future, r: Rates, remaining: real) {
    && Steady(f.segments, r)
    && 0.0 <= f.hidden <= 5.0
    && 0.0 <= f.finalizing <= 0.75
    && Media(f.segments) + f.hidden == remaining
  }

  ghost function Finish(f: Future, r: Rates): real
    requires r.rateLo > 0.0 && Steady(f.segments, r)
  {
    Encoding(f.segments, r) + f.finalizing
  }

  ghost predicate Within(e: int, finish: real) {
    -0.20 * finish < e as real - finish < 0.20 * finish
  }

  /** e is within tolerance of the finish of every permitted future. */
  ghost predicate Certified(e: int, r: Rates, remaining: real)
    requires r.rateLo > 0.0
  {
    forall f: Future :: Permitted(f, r, remaining) ==> Within(e, Finish(f, r))
  }

  // ----- the arithmetic of the source

  function FinishLo(r: Rates, remaining: real): real
    requires r.rateHi > 0.0
  {
    var lo := (remaining - OUTPUT_LAG_BOUND) / r.rateHi;
    if lo < 0.0 then 0.0 else lo
  }

  function FinishHi(r: Rates, remaining: real): real
    requires r.rateLo > 0.0
  {
    remaining / r.rateLo + FINALIZE_BOUND
  }

  function Ceil(x: real): int { -((-x).Floor) }

  /** math.Round: to the nearest integer, halves away from zero. */
  function Round(x: real): int {
    if x >= 0.0 then (x + 0.5).Floor else -((0.5 - x).Floor)
  }

  function FeasibleLo(hi: real): int { ((1.0 - TOLERANCE) * hi).Floor + 1 }

  function FeasibleHi(lo: real): int { Ceil((1.0 + TOLERANCE) * lo) - 1 }

  function Clamp(x: int, lo: int, hi: int): int {
    var y := if x < lo then lo else x;
    if y > hi then hi else y
  }

  function Rendered(lo: real, hi: real): int {
    if FeasibleLo(hi) > FeasibleHi(lo) then 0
    else
      var rendered := Clamp(Round((lo + hi) / 2.0), FeasibleLo(hi), FeasibleHi(lo));
      if rendered <= 0 then 0 else rendered
  }

  /** The pipeline may still be filling: no step was seen and the attempt is younger than the
      start-up bound, which is capped at a third of the projected run. */
  predicate Filling(pace: real, stepSeen: bool, age: real, remaining: real)
    requires pace > 0.0
  {
    var capped := START_UP_FRACTION * (age + remaining / pace);
    !stepSeen && age < (if START_UP_SECONDS < capped then START_UP_SECONDS else capped)
  }

  function Estimate(evidence: Option<Rates>, stepSeen: bool, age: real, remaining: real): int
    requires evidence.Some? ==> Sound(evidence.value)
  {
    if evidence.None? || !evidence.value.settled then 0
    else
      var r := evidence.value;
      if remaining > 0.0 && Filling(r.pace, stepSeen, age, remaining) then 0
      else if remaining <= 0.0 then 0
      else Rendered(FinishLo(r, remaining), FinishHi(r, remaining))
  }

  /** The start-up wait is over once a step was seen, after 18 seconds, or after a third of the
      projected run: age >= (age + remaining / pace) / 3. */
  lemma FillingEnds(pace: real, stepSeen: bool, age: real, remaining: real)
    requires pace > 0.0
    ensures !Filling(pace, stepSeen, age, remaining)
       <==> stepSeen || age >= 18.0 || 2.0 * age * pace >= remaining
  {
    var projected := remaining / pace;
    assert projected * pace == remaining;
    assert 2.0 * age >= projected ==> (2.0 * age - projected) * pace >= 0.0;
    assert 2.0 * age < projected ==> (projected - 2.0 * age) * pace > 0.0;
  }

  // ----- every permitted finish lies between FinishLo and FinishHi, and both are reached

  lemma DivideBetween(m: real, rate: real, lo: real, hi: real)
    requires 0.0 < lo <= rate <= hi && m >= 0.0
    ensures m / hi <= m / rate <= m / lo
  {
    var a, b, c := m / hi, m / rate, m / lo;
    assert a * hi == m && b * rate == m && c * lo == m;
    assert a >= 0.0 && b >= 0.0 && c >= 0.0;
    assert a * rate <= a * hi;
    assert b * lo <= b * rate;
    assert a > b ==> a * rate > b * rate;
    assert b > c ==> b * lo > c * lo;
  }

  lemma DivideSum(a: real, b: real, d: real)
    requires d > 0.0
    ensures a / d + b / d == (a + b) / d
  {
  }

  lemma {:induction false} EncodingBetween(s: seq<Segment>, r: Rates)
    requires 0.0 < r.rateLo <= r.rateHi && Steady(s, r)
    ensures Media(s) / r.rateHi <= Encoding(s, r) <= Media(s) / r.rateLo
  {
    if s != [] {
      EncodingBetween(s[1..], r);
      DivideBetween(s[0].media, s[0].rate, r.rateLo, r.rateHi);
      DivideSum(s[0].media, Media(s[1..]), r.rateHi);
      DivideSum(s[0].media, Media(s[1..]), r.rateLo);
    }
  }

  lemma {:induction false} MediaNonNegative(s: seq<Segment>, r: Rates)
    requires Steady(s, r)
    ensures Media(s) >= 0.0
  {
    if s != [] { MediaNonNegative(s[1..], r); }
  }

  lemma DivideMonotone(a: real, b: real, d: real)
    requires a <= b && d > 0.0
    ensures a / d <= b / d
  {
    DivideSum(a, b - a, d);
    assert (b - a) / d >= 0.0;
  }

  lemma FinishBetween(f: Future, r: Rates, remaining: real)
    requires 0.0 < r.rateLo <= r.rateHi && Permitted(f, r, remaining)
    ensures FinishLo(r, remaining) <= Finish(f, r) <= FinishHi(r, remaining)
  {
    var m := Media(f.segments);
    EncodingBetween(f.segments, r);
    MediaNonNegative(f.segments, r);
    DivideMonotone(remaining - OUTPUT_LAG_BOUND, m, r.rateHi);
    DivideMonotone(0.0, m, r.rateHi);
    DivideMonotone(m, remaining, r.rateLo);
  }

  /** The earliest permitted finish: the pipeline is as full as it can be, the rest runs at the
      fastest rate, and closing the file takes no time. */
  ghost function Earliest(r: Rates, remaining: real): Future {
    var hidden := if remaining < OUTPUT_LAG_BOUND then remaining else OUTPUT_LAG_BOUND;
    Future([Segment(remaining - hidden, r.rateHi)], hidden, 0.0)
  }

  ghost function Latest(r: Rates, remaining: real): Future {
    Future([Segment(remaining, r.rateLo)], 0.0, FINALIZE_BOUND)
  }

  lemma OneSegment(g: Segment, r: Rates)
    requires 0.0 < r.rateLo <= g.rate <= r.rateHi && g.media >= 0.0
    ensures Steady([g], r) && Media([g]) == g.media && Encoding([g], r) == g.media / g.rate
  {
    assert [g][1..] == [];
    assert Media([g]) == g.media + Media([]);
    assert Encoding([g], r) == g.media / g.rate + Encoding([], r);
  }

  lemma BoundsAreReached(r: Rates, remaining: real)
    requires 0.0 < r.rateLo <= r.rateHi && remaining > 0.0
    ensures Permitted(Earliest(r, remaining), r, remaining)
    ensures Finish(Earliest(r, remaining), r) == FinishLo(r, remaining)
    ensures Permitted(Latest(r, remaining), r, remaining)
    ensures Finish(Latest(r, remaining), r) == FinishHi(r, remaining)
  {
    OneSegment(Earliest(r, remaining).segments[0], r);
    OneSegment(Latest(r, remaining).segments[0], r);
  }

  // ----- one integer certifies exactly when it lies strictly inside (0.8 hi, 1.2 lo)

  predicate InBand(e: int, lo: real, hi: real) {
    (1.0 - TOLERANCE) * hi < e as real < (1.0 + TOLERANCE) * lo
  }

  lemma CertifiedMeansInBand(e: int, r: Rates, remaining: real)
    requires Sound(r) && remaining > 0.0
    ensures Certified(e, r, remaining) <==> InBand(e, FinishLo(r, remaining), FinishHi(r, remaining))
  {
    hide FinishLo, FinishHi, Finish, Steady, Media;
    BoundsAreReached(r, remaining);
    if Certified(e, r, remaining) {
      assert Within(e, Finish(Earliest(r, remaining), r));
      assert Within(e, Finish(Latest(r, remaining), r));
    }
    if InBand(e, FinishLo(r, remaining), FinishHi(r, remaining)) {
      forall f: Future | Permitted(f, r, remaining)
        ensures Within(e, Finish(f, r))
      {
        FinishBetween(f, r, remaining);
      }
    }
  }

  lemma FeasibleIsInBand(e: int, lo: real, hi: real)
    ensures FeasibleLo(hi) <= e <= FeasibleHi(lo) <==> InBand(e, lo, hi)
  {
  }

  ghost function Distance(a: real, b: real): real { if a <= b then b - a else a - b }

  ghost predicate AtLeastAsClose(e: int, d: int, mid: real) {
    Distance(e as real, mid) <= Distance(d as real, mid)
  }

  lemma RoundIsNearest(x: real)
    ensures Round(x) as real - 0.5 <= x <= Round(x) as real + 0.5
  {
  }

  lemma ClampIsClosest(n: int, lo: int, hi: int, d: int, mid: real)
    requires lo <= d <= hi && n as real - 0.5 <= mid <= n as real + 0.5
    ensures lo <= Clamp(n, lo, hi) <= hi
    ensures AtLeastAsClose(Clamp(n, lo, hi), d, mid)
  {
    var e := Clamp(n, lo, hi);
    if n < lo {
      assert mid <= e as real - 0.5 && e as real <= d as real;
    } else if n > hi {
      assert e as real + 0.5 <= mid && d as real <= e as real;
    } else if d < n {
      assert d as real + 1.0 <= n as real;
    } else if d > n {
      assert n as real + 1.0 <= d as real;
    }
  }

  /** The chosen second is positive, feasible and at least as close to the midpoint as every
      other feasible second; 0 stands for "no feasible second" and for nothing else. */
  lemma RenderedIsMinimax(lo: real, hi: real)
    requires 0.0 < hi
    ensures
      var e := Rendered(lo, hi);
      && e >= 0
      && (e == 0 <==> forall d: int :: !InBand(d, lo, hi))
      && (e != 0 ==> InBand(e, lo, hi))
      && (e != 0 ==> forall d: int :: InBand(d, lo, hi) ==> AtLeastAsClose(e, d, (lo + hi) / 2.0))
  {
    hide InBand, FeasibleHi, AtLeastAsClose, Round;
    assert FeasibleLo(hi) >= 1;
    hide FeasibleLo;
    var flo, fhi := FeasibleLo(hi), FeasibleHi(lo);
    var mid := (lo + hi) / 2.0;
    RoundIsNearest(mid);
    FeasibleIsInBand(flo, lo, hi);
    FeasibleIsInBand(Rendered(lo, hi), lo, hi);
    forall d: int
      ensures InBand(d, lo, hi) <==> flo <= d <= fhi
    {
      FeasibleIsInBand(d, lo, hi);
    }
    forall d: int | InBand(d, lo, hi)
      ensures flo <= fhi && AtLeastAsClose(Clamp(Round(mid), flo, fhi), d, mid)
    {
      ClampIsClosest(Round(mid), flo, fhi, d, mid);
    }
  }

  /** ETA soundness. A shown second is within 20% of the finish of every future the evidence
      permits, and it is shown only for settled evidence past the start-up fill. */
  lemma EtaIsSound(evidence: Option<Rates>, stepSeen: bool, age: real, remaining: real)
    requires evidence.Some? ==> Sound(evidence.value)
    requires Estimate(evidence, stepSeen, age, remaining) != 0
    ensures Estimate(evidence, stepSeen, age, remaining) > 0
    ensures evidence.Some? && evidence.value.settled && remaining > 0.0
    ensures stepSeen || age >= 18.0 || 2.0 * age * evidence.value.pace >= remaining
    ensures Certified(Estimate(evidence, stepSeen, age, remaining), evidence.value, remaining)
  {
    hide Certified;
    var r := evidence.value;
    FillingEnds(r.pace, stepSeen, age, remaining);
    hide Filling;
    var lo, hi := FinishLo(r, remaining), FinishHi(r, remaining);
    RenderedIsMinimax(lo, hi);
    CertifiedMeansInBand(Rendered(lo, hi), r, remaining);
  }

  /** ETA completeness and optimality. Past the fill and with media remaining, settled evidence
      yields nothing only when no second at all is certified, and otherwise a certified second
      closest to the middle of the finish interval. */
  lemma EtaIsComplete(r: Rates, stepSeen: bool, age: real, remaining: real)
    requires Sound(r) && r.settled && remaining > 0.0
    requires stepSeen || age >= 18.0 || 2.0 * age * r.pace >= remaining
    ensures
      var e := Estimate(Some(r), stepSeen, age, remaining);
      var mid := (FinishLo(r, remaining) + FinishHi(r, remaining)) / 2.0;
      && (e == 0 <==> forall d: int :: !Certified(d, r, remaining))
      && (e != 0 ==> Certified(e, r, remaining))
      && (e != 0 ==> forall d: int :: Certified(d, r, remaining) ==> AtLeastAsClose(e, d, mid))
  {
    hide Certified;
    FillingEnds(r.pace, stepSeen, age, remaining);
    hide Filling;
    var lo, hi := FinishLo(r, remaining), FinishHi(r, remaining);
    var e := Estimate(Some(r), stepSeen, age, remaining);
    RenderedIsMinimax(lo, hi);
    forall d: int
      ensures Certified(d, r, remaining) <==> InBand(d, lo, hi)
    {
      CertifiedMeansInBand(d, r, remaining);
    }
  }

  /** Against a stream that runs at v media seconds per wall second, a certified second e encodes
      e * v media seconds, within 20% of what remains. */
  lemma SteadyFinish(e: int, v: real, remaining: real)
    requires v > 0.0 && remaining > 0.0 && Certified(e, Rates(v, v, v, true), remaining)
    ensures 0.8 * remaining < e as real * v < 1.2 * remaining
  {
    var r := Rates(v, v, v, true);
    var f := Future([Segment(remaining, v)], 0.0, 0.0);
    OneSegment(Segment(remaining, v), r);
    assert Permitted(f, r, remaining);
    var finish := remaining / v;
    assert Within(e, Finish(f, r)) && Finish(f, r) == finish;
    assert finish * v == remaining;
    var low, high := e as real - 0.8 * finish, 1.2 * finish - e as real;
    assert low * v > 0.0 && high * v > 0.0;
  }
}
