/**
 * The throughput evidence a window of progress samples supports (the rate half of the ETA
 * engine in pkg/worker/progress_parser.go). Wall clock is in nanoseconds, rates are media
 * seconds per wall second, and float64 is modelled by real.
 */
module EtaRates {
  import opened Options

  const SECOND := 1_000_000_000
  const RATE_WINDOW := 10 * SECOND
  const RATE_MIN_SPAN := 3 * SECOND
  const RATE_CHUNK := 2 * SECOND
  const START_UP := 18 * SECOND
  const RATE_TOLERANCE := 0.25

  /** One progress observation: the wall clock and the percentage on the one-decimal grid. */
  datatype Sample = Sample(wall: int, pct: real)

  datatype Rates = Rates(pace: real, rateLo: real, rateHi: real, settled: bool)

  /** A usable band: positive, and the projected pace lies inside it. */
  predicate Sound(r: Rates) { 0.0 < r.rateLo <= r.pace <= r.rateHi }

  function Seconds(d: int): real { d as real / 1_000_000_000.0 }

  function MediaSeconds(us: int): real { us as real / 1_000_000.0 }

  function AbsDuration(d: int): int { if d < 0 then -d else d }

  function AbsReal(x: real): real { if x < 0.0 then -x else x }

  // ----- the window and its blocks

  /** The oldest row of the window, found by walking back from row base. */
  function BaseFrom(s: seq<Sample>, now: int, base: nat): (b: nat)
    requires base < |s|
    ensures b <= base
    ensures forall k :: b <= k < base ==> now - s[k].wall <= RATE_WINDOW
    ensures b > 0 ==> now - s[b - 1].wall > RATE_WINDOW
  {
    if base > 0 && now - s[base - 1].wall <= RATE_WINDOW then BaseFrom(s, now, base - 1) else base
  }

  function WindowBase(s: seq<Sample>, now: int): (b: nat)
    requires s != []
    ensures b < |s|
  {
    BaseFrom(s, now, |s| - 1)
  }

  function Gap(s: seq<Sample>, k: nat, start: int): int
    requires k < |s|
  {
    AbsDuration(s[k].wall - start)
  }

  /** The first of the rows [base, i) nearest to instant start; base when there is none. */
  function Nearest(s: seq<Sample>, base: nat, i: nat, start: int): (j: nat)
    requires base <= i <= |s| && base < |s|
    ensures base <= j && (j < i || j == base)
  {
    if i <= base + 1 then base
    else
      var j := Nearest(s, base, i - 1, start);
      if Gap(s, i - 1, start) < Gap(s, j, start) then i - 1 else j
  }

  /** How far apart two instants are. */
  ghost function Apart(a: int, b: int): int { if a <= b then b - a else a - b }

  lemma GapIsDistance(s: seq<Sample>, k: nat, start: int)
    requires k < |s|
    ensures Gap(s, k, start) == Apart(s[k].wall, start)
  {
  }

  lemma {:induction false} NearestIsFirstMinimum(s: seq<Sample>, base: nat, i: nat, start: int)
    requires base <= i <= |s| && base < |s|
    ensures
      var j := Nearest(s, base, i, start);
      && (forall k :: base <= k < i ==> Apart(s[j].wall, start) <= Apart(s[k].wall, start))
      && (forall k :: base <= k < j ==> Apart(s[j].wall, start) < Apart(s[k].wall, start))
  {
    hide Gap, Apart;
    if i > base + 1 {
      NearestIsFirstMinimum(s, base, i - 1, start);
      GapIsDistance(s, i - 1, start);
      GapIsDistance(s, Nearest(s, base, i - 1, start), start);
    }
  }

  /** Media seconds per wall second of a percentage gain over a span. */
  function Speed(gain: real, durationUs: int, span: int): real
    requires span != 0
  {
    gain / 100.0 * MediaSeconds(durationUs) / Seconds(span)
  }

  /** The rate of the block that ends at row i, or 0 when the block measures nothing. */
  function BlockRate(s: seq<Sample>, base: nat, i: nat, durationUs: int): real
    requires base <= i < |s|
  {
    if i == 0 then 0.0
    else
      var j := Nearest(s, base, i, s[i].wall - RATE_CHUNK);
      var span := s[i].wall - s[j].wall;
      var dp := s[i].pct - s[j].pct;
      if span < RATE_CHUNK / 2 || dp <= 0.0 then 0.0
      else Speed(dp, durationUs, span)
  }

  function BlockRates(s: seq<Sample>, base: nat, durationUs: int): (rates: seq<real>)
    requires base < |s|
    ensures |rates| == |s| - base
    ensures forall k :: 0 <= k < |rates| ==> rates[k] == BlockRate(s, base, base + k, durationUs)
  {
    seq(|s| - base, k requires 0 <= k < |s| - base => BlockRate(s, base, base + k, durationUs))
  }

  function WindowRate(s: seq<Sample>, base: nat, durationUs: int, now: int): real
    requires base < |s| && now - s[base].wall > 0
  {
    Speed(s[|s| - 1].pct - s[base].pct, durationUs, now - s[base].wall)
  }

  // ----- statistics of the measurable blocks

  predicate AllPositive(p: seq<real>) { forall k :: 0 <= k < |p| ==> p[k] > 0.0 }

  /** The measurable block rates, in row order. */
  function Positives(rates: seq<real>): (p: seq<real>)
    ensures AllPositive(p)
  {
    if rates == [] then []
    else
      var init := Positives(rates[..|rates| - 1]);
      var last := rates[|rates| - 1];
      if last > 0.0 then init + [last] else init
  }

  function Sum(p: seq<real>): real {
    if p == [] then 0.0 else Sum(p[..|p| - 1]) + p[|p| - 1]
  }

  function Slowest(p: seq<real>): (r: real)
    requires p != []
    ensures r in p && forall k :: 0 <= k < |p| ==> r <= p[k]
  {
    var last := p[|p| - 1];
    if |p| == 1 then last
    else
      var r := Slowest(p[..|p| - 1]);
      if last < r then last else r
  }

  function Fastest(p: seq<real>): (r: real)
    requires p != []
    ensures r in p && forall k :: 0 <= k < |p| ==> p[k] <= r
  {
    var last := p[|p| - 1];
    if |p| == 1 then last
    else
      var r := Fastest(p[..|p| - 1]);
      if last > r then last else r
  }

  /** The pace changed by more than the rate tolerance between two consecutive blocks. */
  predicate Departs(before: real, after: real)
    requires before > 0.0
  {
    AbsReal(after / before - 1.0) > RATE_TOLERANCE
  }

  predicate Stepped(p: seq<real>)
    requires AllPositive(p)
  {
    exists k :: 0 < k < |p| && Departs(p[k - 1], p[k])
  }

  // ----- the evidence

  /** The band of the measurable rates p, lowered to the window's own throughput. */
  function Band(p: seq<real>, windowRate: real): Rates
    requires p != [] && AllPositive(p)
  {
    var low := Slowest(p);
    Rates(Sum(p) / |p| as real, if windowRate < low then windowRate else low, Fastest(p), !Stepped(p))
  }

  function Evidence(s: seq<Sample>, durationUs: int, attemptStart: int, now: int): (r: Option<Rates>)
    ensures r.Some? ==> Sound(r.value)
  {
    if durationUs <= 0 || now - attemptStart < RATE_WINDOW || s == [] then None
    else
      var base := WindowBase(s, now);
      if |s| - base < 2 || now - s[base].wall < RATE_MIN_SPAN then None
      else
        var p := Positives(BlockRates(s, base, durationUs));
        var windowRate := WindowRate(s, base, durationUs, now);
        if |p| < 2 || windowRate <= 0.0 then None
        else
          BandIsSound(p, windowRate);
          Some(Band(p, windowRate))
  }

  /** A pace step seen while the pipeline may still be filling ends the start-up wait. */
  predicate StepObserved(evidence: Option<Rates>, attemptStart: int, now: int) {
    evidence.Some? && !evidence.value.settled && now - attemptStart <= START_UP
  }

  lemma {:induction false} SumIsBetween(p: seq<real>, lo: real, hi: real)
    requires forall k :: 0 <= k < |p| ==> lo <= p[k] <= hi
    ensures |p| as real * lo <= Sum(p) <= |p| as real * hi
  {
    if p != [] {
      var q := p[..|p| - 1];
      SumIsBetween(q, lo, hi);
      var n := |q| as real;
      assert |p| as real == n + 1.0;
      assert (n + 1.0) * lo == n * lo + lo;
      assert (n + 1.0) * hi == n * hi + hi;
    }
  }

  lemma QuotientIsBetween(x: real, n: real, lo: real, hi: real)
    requires n > 0.0 && n * lo <= x <= n * hi
    ensures lo <= x / n <= hi
  {
    var q := x / n;
    assert x == q * n;
    assert q < lo ==> q * n < lo * n;
    assert q > hi ==> q * n > hi * n;
  }

  /** The sum is the one of the parts, whatever the cut. */
  lemma {:induction false} SumAdds(a: seq<real>, b: seq<real>)
    ensures Sum(a + b) == Sum(a) + Sum(b)
    ensures |a| == 1 ==> Sum(a) == a[0]
    decreases |b|
  {
    if |a| == 1 {
      assert a[..0] == [] && Sum([]) == 0.0;
    }
    if b == [] {
      assert a + b == a;
    } else {
      var init := b[..|b| - 1];
      SumAdds(a, init);
      assert (a + b)[..|a + b| - 1] == a + init;
    }
  }

  lemma MeanIsBetween(p: seq<real>)
    requires p != []
    ensures Slowest(p) <= Sum(p) / |p| as real <= Fastest(p)
  {
    hide Sum, Slowest, Fastest;
    SumIsBetween(p, Slowest(p), Fastest(p));
    QuotientIsBetween(Sum(p), |p| as real, Slowest(p), Fastest(p));
  }

  lemma BandIsSound(p: seq<real>, windowRate: real)
    requires p != [] && AllPositive(p) && windowRate > 0.0
    ensures Sound(Band(p, windowRate))
  {
    hide Stepped, Sum;
    MeanIsBetween(p);
  }

  /** Consecutive rates differ by more than a quarter of the earlier one, up or down. */
  predicate QuarterApart(before: real, after: real)
    requires before > 0.0
  {
    4.0 * (after - before) > before || 4.0 * (before - after) > before
  }

  lemma DepartsMeansQuarterApart(before: real, after: real)
    requires before > 0.0
    ensures Departs(before, after) <==> QuarterApart(before, after)
  {
    var q := after / before;
    assert q * before == after;
    assert q - 1.0 > 0.25 ==> (q - 1.25) * before > 0.0;
    assert q - 1.0 < -0.25 ==> (0.75 - q) * before > 0.0;
    assert -0.25 <= q - 1.0 <= 0.25 ==> (1.25 - q) * before >= 0.0 && (q - 0.75) * before >= 0.0;
  }

  lemma SettledMeansNoDeparture(p: seq<real>)
    requires AllPositive(p)
    ensures Stepped(p) <==> exists k :: 0 < k < |p| && QuarterApart(p[k - 1], p[k])
  {
    hide Departs, QuarterApart;
    forall k | 0 < k < |p|
      ensures Departs(p[k - 1], p[k]) <==> QuarterApart(p[k - 1], p[k])
    {
      DepartsMeansQuarterApart(p[k - 1], p[k]);
    }
    if Stepped(p) {
      var k :| 0 < k < |p| && Departs(p[k - 1], p[k]);
      assert QuarterApart(p[k - 1], p[k]);
    }
    if k :| 0 < k < |p| && QuarterApart(p[k - 1], p[k]) {
      assert Departs(p[k - 1], p[k]);
    }
  }

  lemma BandHolds(p: seq<real>, windowRate: real)
    requires p != [] && AllPositive(p) && windowRate > 0.0
    ensures
      var r := Band(p, windowRate);
      && Sound(r)
      && (forall k :: 0 <= k < |p| ==> r.rateLo <= p[k] <= r.rateHi)
      && r.rateLo <= windowRate
      && r.rateHi in p && (r.rateLo in p || r.rateLo == windowRate)
      && (r.settled <==> !exists k :: 0 < k < |p| && QuarterApart(p[k - 1], p[k]))
  {
    hide Stepped, Departs, QuarterApart, Sum;
    MeanIsBetween(p);
    SettledMeansNoDeparture(p);
  }

  /** What the evidence vouches for: a positive band that holds the projected pace, the rate of
      every measurable block of the window and, from below, the window's own throughput, whose
      fast end is a measured rate and whose slow end is a measured rate or the throughput; and
      settled exactly when no two consecutive measurable blocks differ by more than 25%. */
  lemma EvidenceBand(s: seq<Sample>, durationUs: int, attemptStart: int, now: int)
    ensures Evidence(s, durationUs, attemptStart, now).Some? ==> s != [] && now - s[WindowBase(s, now)].wall > 0
    ensures Evidence(s, durationUs, attemptStart, now).Some? ==>
      var r := Evidence(s, durationUs, attemptStart, now).value;
      var base := WindowBase(s, now);
      var p := Positives(BlockRates(s, base, durationUs));
      var whole := WindowRate(s, base, durationUs, now);
      && |p| >= 2
      && Sound(r)
      && (forall k :: 0 <= k < |p| ==> r.rateLo <= p[k] <= r.rateHi)
      && r.rateLo <= whole
      && r.rateHi in p && (r.rateLo in p || r.rateLo == whole)
      && (r.settled <==> !exists k :: 0 < k < |p| && QuarterApart(p[k - 1], p[k]))
  {
    hide WindowRate, BlockRates, Band, Positives;
    if Evidence(s, durationUs, attemptStart, now).Some? {
      var base := WindowBase(s, now);
      BandHolds(Positives(BlockRates(s, base, durationUs)), WindowRate(s, base, durationUs, now));
    }
  }

  /** The projected pace is the mean of the measurable blocks. */
  lemma EvidenceIsMean(s: seq<Sample>, durationUs: int, attemptStart: int, now: int)
    ensures Evidence(s, durationUs, attemptStart, now).Some? ==> s != []
    ensures Evidence(s, durationUs, attemptStart, now).Some? ==>
      var p := Positives(BlockRates(s, WindowBase(s, now), durationUs));
      Evidence(s, durationUs, attemptStart, now).value.pace * |p| as real == Sum(p)
  {
    hide WindowRate, BlockRates, Positives, Sum, Slowest, Fastest, Stepped;
    if Evidence(s, durationUs, attemptStart, now).Some? {
      var p := Positives(BlockRates(s, WindowBase(s, now), durationUs));
      assert Sum(p) / |p| as real * |p| as real == Sum(p);
    }
  }

  // ----- what a rate measures

  /** A speed times its span is the gain: rate in media seconds per second, span in nanoseconds,
      gain in percent of a duration in microseconds. */
  lemma SpeedTimesSpan(gain: real, durationUs: int, span: int)
    requires span != 0
    ensures Speed(gain, durationUs, span) * span as real * 100.0 == gain * durationUs as real * 1000.0
  {
    var media, wall := durationUs as real, span as real;
    var x := gain / 100.0 * (media / 1_000_000.0);
    var seconds := wall / 1_000_000_000.0;
    assert Speed(gain, durationUs, span) == x / seconds;
    assert x / seconds * seconds == x;
    assert x * 100.0 * 1_000_000.0 == gain * media;
  }

  /** What a block's rate is, the row it starts at given. */
  lemma BlockRateFromRow(s: seq<Sample>, base: nat, i: nat, durationUs: int)
    requires base <= i < |s|
    ensures
      var j := Nearest(s, base, i, s[i].wall - 2_000_000_000);
      var span, gain := s[i].wall - s[j].wall, s[i].pct - s[j].pct;
      var rate := BlockRate(s, base, i, durationUs);
      if i > 0 && span >= 1_000_000_000 && gain > 0.0
      then rate * span as real * 100.0 == gain * durationUs as real * 1000.0
      else rate == 0.0
  {
    var j := Nearest(s, base, i, s[i].wall - 2_000_000_000);
    hide Nearest, Speed;
    var span := s[i].wall - s[j].wall;
    if span != 0 {
      SpeedTimesSpan(s[i].pct - s[j].pct, durationUs, span);
    }
  }

  /** The rate of the block that ends at row i: measured from the first row nearest to two seconds
      earlier, over at least one second, and zero when that block shows no progress. */
  lemma BlockRateMeans(s: seq<Sample>, base: nat, i: nat, durationUs: int)
    requires base <= i < |s|
    ensures
      var start := s[i].wall - 2_000_000_000;
      var j := Nearest(s, base, i, start);
      var rate := BlockRate(s, base, i, durationUs);
      && (forall k :: base <= k < i ==> Apart(s[j].wall, start) <= Apart(s[k].wall, start))
      && (forall k :: base <= k < j ==> Apart(s[j].wall, start) < Apart(s[k].wall, start))
      && (if i > 0 && s[i].wall - s[j].wall >= 1_000_000_000 && s[i].pct > s[j].pct
          then rate * (s[i].wall - s[j].wall) as real * 100.0 == (s[i].pct - s[j].pct) * durationUs as real * 1000.0
          else rate == 0.0)
  {
    NearestIsFirstMinimum(s, base, i, s[i].wall - 2_000_000_000);
    BlockRateFromRow(s, base, i, durationUs);
    hide *;
  }

  /** The throughput of the whole window, up to now. */
  lemma WindowRateMeans(s: seq<Sample>, base: nat, durationUs: int, now: int)
    requires base < |s| && now - s[base].wall > 0
    ensures WindowRate(s, base, durationUs, now) * (now - s[base].wall) as real * 100.0
         == (s[|s| - 1].pct - s[base].pct) * durationUs as real * 1000.0
  {
    SpeedTimesSpan(s[|s| - 1].pct - s[base].pct, durationUs, now - s[base].wall);
  }

  /** The window reaches back ten seconds and no further. */
  lemma WindowIsTenSeconds(s: seq<Sample>, now: int)
    requires s != []
    ensures
      var base := WindowBase(s, now);
      && base < |s|
      && (forall k :: base <= k < |s| - 1 ==> now - s[k].wall <= 10_000_000_000)
      && (base > 0 ==> now - s[base - 1].wall > 10_000_000_000)
  {
  }

  lemma {:induction false} PositivesAdd(a: seq<real>, b: seq<real>)
    ensures Positives(a + b) == Positives(a) + Positives(b)
    ensures |a| == 1 ==> Positives(a) == if a[0] > 0.0 then a else []
    decreases |b|
  {
    if |a| == 1 {
      assert a[..0] == [] && Positives([]) == [] && [a[0]] == a;
    }
    if b == [] {
      assert a + b == a && Positives(a) + Positives(b) == Positives(a);
    } else {
      PositivesAdd(a, b[..|b| - 1]);
      assert (a + b)[..|a + b| - 1] == a + b[..|b| - 1];
    }
  }

  ghost predicate PositiveAt(rates: seq<real>, k: int) { 0 <= k < |rates| && rates[k] > 0.0 }

  lemma {:induction false} PositivesCount(rates: seq<real>)
    ensures Positives(rates) != [] <==> exists k :: PositiveAt(rates, k)
    ensures |Positives(rates)| >= 2 <==> exists a, b :: a < b && PositiveAt(rates, a) && PositiveAt(rates, b)
  {
    if rates != [] {
      var n := |rates| - 1;
      var init := rates[..n];
      PositivesCount(init);
      assert forall k :: 0 <= k < n ==> (PositiveAt(rates, k) <==> PositiveAt(init, k));
      if k :| PositiveAt(init, k) {
        assert PositiveAt(rates, k);
      }
      if a, b :| a < b && PositiveAt(init, a) && PositiveAt(init, b) {
        assert PositiveAt(rates, a) && PositiveAt(rates, b);
      }
      if rates[n] > 0.0 {
        assert PositiveAt(rates, n);
      }
    }
  }

  /** Row i of the window ends a block that measures progress. */
  ghost predicate MeasurableAt(s: seq<Sample>, base: nat, durationUs: int, i: int)
    requires base < |s|
  {
    base <= i < |s| && BlockRate(s, base, i, durationUs) > 0.0
  }

  /** There is evidence exactly when the duration is known, the attempt is ten seconds old, the
      window holds two rows over three seconds, two of them end measurable blocks, and the window as
      a whole gained. */
  lemma EvidenceIsGivenExactly(s: seq<Sample>, durationUs: int, attemptStart: int, now: int)
    ensures Evidence(s, durationUs, attemptStart, now).Some?
      <==> && durationUs > 0 && now - attemptStart >= 10_000_000_000 && s != []
           && var base := WindowBase(s, now);
              && |s| - base >= 2 && now - s[base].wall >= 3_000_000_000
              && s[|s| - 1].pct > s[base].pct
              && exists a: int, b: int :: a < b && MeasurableAt(s, base, durationUs, a) && MeasurableAt(s, base, durationUs, b)
  {
    hide BlockRate, WindowRate, Positives;
    if durationUs > 0 && now - attemptStart >= RATE_WINDOW && s != [] {
      var base := WindowBase(s, now);
      if |s| - base >= 2 && now - s[base].wall >= RATE_MIN_SPAN {
        var rates := BlockRates(s, base, durationUs);
        PositivesCount(rates);
        WindowRateSign(s, base, durationUs, now);
        forall i: int
          ensures MeasurableAt(s, base, durationUs, i) <==> PositiveAt(rates, i - base)
        {
        }
        if a: int, b: int :| a < b && PositiveAt(rates, a) && PositiveAt(rates, b) {
          assert MeasurableAt(s, base, durationUs, a + base) && MeasurableAt(s, base, durationUs, b + base);
        }
        if a: int, b: int :| a < b && MeasurableAt(s, base, durationUs, a) && MeasurableAt(s, base, durationUs, b) {
          assert PositiveAt(rates, a - base) && PositiveAt(rates, b - base);
        }
      }
    }
  }

  lemma WindowRateSign(s: seq<Sample>, base: nat, durationUs: int, now: int)
    requires base < |s| && now - s[base].wall > 0 && durationUs > 0
    ensures WindowRate(s, base, durationUs, now) > 0.0 <==> s[|s| - 1].pct > s[base].pct
  {
    WindowRateMeans(s, base, durationUs, now);
    var r, wall := WindowRate(s, base, durationUs, now), (now - s[base].wall) as real;
    var gain, media := s[|s| - 1].pct - s[base].pct, durationUs as real;
    hide WindowRate;
    assert gain > 0.0 <==> gain * media > 0.0;
    assert r > 0.0 <==> r * wall > 0.0;
  }

  // ----- a steady stream

  /** From row base on, percent grows as v media seconds per wall second make it grow. */
  ghost predicate OnLine(s: seq<Sample>, base: nat, durationUs: int, v: real) {
    forall j, k :: base <= j < |s| && base <= k < |s| ==>
      (s[k].pct - s[j].pct) * durationUs as real * 1000.0 == v * (s[k].wall - s[j].wall) as real * 100.0
  }

  lemma SameProduct(a: real, b: real, span: real)
    requires span != 0.0 && a * span * 100.0 == b * span * 100.0
    ensures a == b
  {
    assert (a - b) * span == 0.0;
  }

  lemma OnLineAt(s: seq<Sample>, base: nat, durationUs: int, v: real, j: nat, k: nat)
    requires OnLine(s, base, durationUs, v) && base <= j < |s| && base <= k < |s|
    ensures (s[k].pct - s[j].pct) * durationUs as real * 1000.0 == v * (s[k].wall - s[j].wall) as real * 100.0
  {
  }

  lemma BlockRateOnLine(s: seq<Sample>, base: nat, i: nat, durationUs: int, v: real)
    requires base <= i < |s| && OnLine(s, base, durationUs, v)
    ensures BlockRate(s, base, i, durationUs) == 0.0 || BlockRate(s, base, i, durationUs) == v
  {
    hide *;
    BlockRateFromRow(s, base, i, durationUs);
    var rate := BlockRate(s, base, i, durationUs);
    var j := Nearest(s, base, i, s[i].wall - 2_000_000_000);
    if rate != 0.0 {
      OnLineAt(s, base, durationUs, v, j, i);
      SameProduct(rate, v, (s[i].wall - s[j].wall) as real);
    }
  }

  lemma WindowRateOnLine(s: seq<Sample>, base: nat, durationUs: int, now: int, v: real)
    requires base < |s| && now == s[|s| - 1].wall > s[base].wall && OnLine(s, base, durationUs, v)
    ensures WindowRate(s, base, durationUs, now) == v
  {
    hide *;
    WindowRateMeans(s, base, durationUs, now);
    OnLineAt(s, base, durationUs, v, base, |s| - 1);
    SameProduct(WindowRate(s, base, durationUs, now), v, (now - s[base].wall) as real);
  }

  lemma {:induction false} AllEqual(rates: seq<real>, v: real)
    requires forall k :: 0 <= k < |rates| ==> rates[k] == 0.0 || rates[k] == v
    ensures forall k :: 0 <= k < |Positives(rates)| ==> Positives(rates)[k] == v
  {
    if rates != [] {
      AllEqual(rates[..|rates| - 1], v);
    }
  }

  lemma BandOfEqual(p: seq<real>, v: real)
    requires p != [] && v > 0.0 && forall k :: 0 <= k < |p| ==> p[k] == v
    ensures AllPositive(p) && Band(p, v) == Rates(v, v, v, true)
  {
    BandHolds(p, v);
    hide Sum;
    assert forall k :: 0 < k < |p| ==> !QuarterApart(p[k - 1], p[k]);
  }

  /** The evidence of a steady stream is its speed: pace and both ends of the band, and settled. */
  lemma SteadyStreamIsMeasured(s: seq<Sample>, durationUs: int, attemptStart: int, now: int, v: real)
    requires s != [] && s[|s| - 1].wall == now && v > 0.0 && OnLine(s, WindowBase(s, now), durationUs, v)
    ensures
      var r := Evidence(s, durationUs, attemptStart, now);
      r.Some? ==> r.value == Rates(v, v, v, true)
  {
    var base := WindowBase(s, now);
    hide BlockRate, WindowRate, Band, Positives, OnLine;
    if Evidence(s, durationUs, attemptStart, now).Some? {
      var rates := BlockRates(s, base, durationUs);
      forall k | 0 <= k < |rates|
        ensures rates[k] == 0.0 || rates[k] == v
      {
        BlockRateOnLine(s, base, base + k, durationUs, v);
      }
      AllEqual(rates, v);
      WindowRateOnLine(s, base, durationUs, now, v);
      BandOfEqual(Positives(rates), v);
    }
  }

  // ----- samples older than the window carry no evidence

  ghost predicate OutOfWindow(stale: seq<Sample>, now: int) {
    forall k :: 0 <= k < |stale| ==> now - stale[k].wall > RATE_WINDOW
  }

  lemma {:induction false} BaseIgnoresOld(stale: seq<Sample>, s: seq<Sample>, now: int, base: nat)
    requires OutOfWindow(stale, now) && base < |s|
    ensures BaseFrom(stale + s, now, |stale| + base) == |stale| + BaseFrom(s, now, base)
  {
    if base > 0 {
      BaseIgnoresOld(stale, s, now, base - 1);
      assert (stale + s)[|stale| + base - 1] == s[base - 1];
    } else if stale != [] {
      assert (stale + s)[|stale| - 1] == stale[|stale| - 1];
    }
  }

  lemma {:induction false} NearestShifts(stale: seq<Sample>, s: seq<Sample>, base: nat, i: nat, start: int)
    requires base <= i <= |s| && base < |s|
    ensures Nearest(stale + s, |stale| + base, |stale| + i, start) == |stale| + Nearest(s, base, i, start)
  {
    if i > base + 1 {
      NearestShifts(stale, s, base, i - 1, start);
      var j := Nearest(s, base, i - 1, start);
      assert (stale + s)[|stale| + i - 1] == s[i - 1] && (stale + s)[|stale| + j] == s[j];
    }
  }

  lemma BlockRateShifts(stale: seq<Sample>, s: seq<Sample>, base: nat, i: nat, durationUs: int)
    requires base <= i < |s|
    ensures BlockRate(stale + s, |stale| + base, |stale| + i, durationUs) == BlockRate(s, base, i, durationUs)
  {
    hide Speed;
    var start := s[i].wall - RATE_CHUNK;
    assert (stale + s)[|stale| + i] == s[i];
    NearestShifts(stale, s, base, i, start);
    var j := Nearest(s, base, i, start);
    assert (stale + s)[|stale| + j] == s[j];
  }

  lemma BlockRatesShift(stale: seq<Sample>, s: seq<Sample>, base: nat, durationUs: int)
    requires base < |s|
    ensures BlockRates(stale + s, |stale| + base, durationUs) == BlockRates(s, base, durationUs)
  {
    var short := BlockRates(s, base, durationUs);
    var long := BlockRates(stale + s, |stale| + base, durationUs);
    forall k | 0 <= k < |short|
      ensures long[k] == short[k]
    {
      BlockRateShifts(stale, s, base, base + k, durationUs);
      assert |stale| + (base + k) == |stale| + base + k;
    }
  }

  lemma WindowRateShifts(stale: seq<Sample>, s: seq<Sample>, base: nat, durationUs: int, now: int)
    requires base < |s| && now - s[base].wall > 0
    ensures (stale + s)[|stale| + base] == s[base]
    ensures WindowRate(stale + s, |stale| + base, durationUs, now) == WindowRate(s, base, durationUs, now)
  {
    hide Speed;
    assert (stale + s)[|stale + s| - 1] == s[|s| - 1];
  }

  /** Forgetting any prefix of rows that lie outside the window changes no evidence. */
  lemma EvidenceIgnoresOld(stale: seq<Sample>, s: seq<Sample>, durationUs: int, attemptStart: int, now: int)
    requires s != [] && OutOfWindow(stale, now)
    ensures Evidence(stale + s, durationUs, attemptStart, now) == Evidence(s, durationUs, attemptStart, now)
  {
    hide WindowRate, BlockRates, Band, Positives;
    var all := stale + s;
    var base := WindowBase(s, now);
    BaseIgnoresOld(stale, s, now, |s| - 1);
    assert WindowBase(all, now) == |stale| + base;
    assert all[|stale| + base] == s[base];
    if now - s[base].wall > 0 {
      WindowRateShifts(stale, s, base, durationUs, now);
    }
    BlockRatesShift(stale, s, base, durationUs);
  }
}
