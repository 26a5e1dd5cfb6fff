/**
 * The trim window of a job: how -ss, -t and -to around the input and the output narrow the
 * media span that percent and ETA are measured against (pkg/worker/progress_parser.go).
 * Times are microseconds.
 */
module SeekWindows {

  /** A zero field means the option was absent; a malformed timecode can make a field negative. */
  datatype SeekWindow = SeekWindow(
    inSeekUs: int, inTUs: int, inToUs: int,
    seekUs: int, tUs: int, toUs: int)
  {
    function WindowUs(inputDurationUs: int): int {
      var windowUs := TrimWindowUs(inputDurationUs, inSeekUs, inTUs, inToUs);
      if windowUs == 0 then 0 else TrimWindowUs(windowUs, seekUs, tUs, toUs)
    }

    /** The instants of the input timeline that survive the input section and then the output
        section, whose own timeline starts where the input section started. */
    ghost function Surviving(inputDurationUs: int): set<int> {
      set x | 0 <= x < inputDurationUs
              && Keeps(x, inSeekUs, inTUs, inToUs)
              && Keeps(x - Start(inSeekUs), seekUs, tUs, toUs)
    }
  }

  function TrimWindowUs(durationUs: int, seekUs: int, tUs: int, toUs: int): int {
    var stop := if tUs == 0 && toUs > 0 then (if toUs > durationUs then durationUs else toUs) else durationUs;
    var rest := if seekUs > 0 then (if seekUs >= stop then 0 else stop - seekUs) else stop;
    if tUs > 0 && tUs < rest then tUs else rest
  }

  function Start(seekUs: int): int { if seekUs > 0 then seekUs else 0 }

  /** One section's trim, said of a single instant: at or after -ss, and before -ss + -t when -t
      is given, or before -to when only -to is given. */
  ghost predicate Keeps(x: int, seekUs: int, tUs: int, toUs: int) {
    && Start(seekUs) <= x
    && (tUs > 0 ==> x < Start(seekUs) + tUs)
    && (tUs == 0 && toUs > 0 ==> x < toUs)
  }

  ghost predicate Between(a: int, x: int, b: int) { a <= x < b }

  ghost function Interval(a: int, b: int): set<int> { set x | a <= x < b && Between(a, x, b) }

  lemma {:induction false} IntervalSize(a: int, b: int)
    requires a <= b
    ensures |Interval(a, b)| == b - a
    decreases b - a
  {
    if a < b {
      IntervalSize(a, b - 1);
      assert Interval(a, b) == Interval(a, b - 1) + {b - 1};
    }
  }

  /** One section keeps exactly the TrimWindowUs instants from -ss on. */
  lemma KeptInstant(x: int, durationUs: int, seekUs: int, tUs: int, toUs: int)
    requires durationUs >= 0
    ensures 0 <= TrimWindowUs(durationUs, seekUs, tUs, toUs) <= durationUs
    ensures (0 <= x < durationUs && Keeps(x, seekUs, tUs, toUs))
       <==> (Start(seekUs) <= x < Start(seekUs) + TrimWindowUs(durationUs, seekUs, tUs, toUs))
  {
  }

  /** The window is the number of microseconds of input that survive both sections: the promise
      that time= counts through exactly this span for every combination of the six options. */
  lemma WindowCountsSurvivors(sw: SeekWindow, inputDurationUs: int)
    requires inputDurationUs >= 0
    ensures sw.WindowUs(inputDurationUs) == |sw.Surviving(inputDurationUs)|
    ensures sw.WindowUs(inputDurationUs) <= inputDurationUs
  {
    KeptInstant(0, inputDurationUs, sw.inSeekUs, sw.inTUs, sw.inToUs);
    var w := TrimWindowUs(inputDurationUs, sw.inSeekUs, sw.inTUs, sw.inToUs);
    KeptInstant(0, w, sw.seekUs, sw.tUs, sw.toUs);
    var n := TrimWindowUs(w, sw.seekUs, sw.tUs, sw.toUs);
    var a := Start(sw.inSeekUs) + Start(sw.seekUs);
    forall x
      ensures x in sw.Surviving(inputDurationUs) <==> x in Interval(a, a + n)
    {
      KeptInstant(x, inputDurationUs, sw.inSeekUs, sw.inTUs, sw.inToUs);
      KeptInstant(x - Start(sw.inSeekUs), w, sw.seekUs, sw.tUs, sw.toUs);
      assert Between(a, x, a + n) <==> a <= x < a + n;
    }
    IntervalSize(a, a + n);
    assert sw.Surviving(inputDurationUs) == Interval(a, a + n);
  }
}
