/**
 * What each Check call answers, in terms of the probe it ran (pkg/worker/hw_codec_check.go).
 */
module CodecCheckAnswers {
  import opened CodecCheckRuns
  import opened CodecCheckSpec
  import opened Options

  /** The codec gap decides before the exit status: a gap is conclusive and carries its line, a clean
      run without one is conclusive, and only a failed run without one settles nothing. */
  lemma ClassifyExactly(gap: string, failed: bool)
    ensures Classify(gap, failed).reason == gap
    ensures Classify(gap, failed).verdict.Unsupported? <==> gap != ""
    ensures Classify(gap, failed).verdict.Supported? <==> gap == "" && !failed
  {
  }

  /** Call c ran a probe that showed r. */
  ghost predicate Ran(w: World, c: CallId, r: CodecResult) {
    && c in w.calls
    && match At(w, c)
       case Wrote(p) => p < |w.shared.probes| && w.shared.probes[p].owner == c && w.shared.probes[p].result == Some(r)
       case Leaving(p) => p < |w.shared.probes| && w.shared.probes[p].owner == c && w.shared.probes[p].result == Some(r)
       case Answered(result) => result == Some(r)
       case _ => false
  }

  lemma FinishRuns(w: World, c: CallId, gap: string, failed: bool)
    requires Inv(w) && Enabled(w, Finish(c, gap, failed))
    ensures Ran(Next(w, Finish(c, gap, failed)), c, Classify(gap, failed))
  {
    hide Classify;
    assert CallOk(w, c);
  }

  lemma StepKeepsRan(w: World, e: Event, c: CallId, r: CodecResult)
    requires Inv(w) && Enabled(w, e) && Ran(w, c, r)
    ensures Ran(Next(w, e), c, r)
  {
    hide Classify, InflightOk, ProbeOk, CacheOk;
    assert CallOk(w, e.call) && CallOk(w, c);
  }

  lemma {:induction false} RunKeepsRan(w: World, es: seq<Event>, c: CallId, r: CodecResult)
    requires Inv(w) && IsRun(w, es) && Ran(w, c, r)
    ensures Ran(End(w, es), c, r)
    decreases |es|
  {
    hide Inv, Enabled, Next, Ran;
    if es != [] {
      StepKeepsInv(w, es[0]);
      StepKeepsRan(w, es[0], c, r);
      RunKeepsRan(Next(w, es[0]), es[1..], c, r);
    }
  }

  lemma {:induction false} ProbeIsAnsweredFrom(w: World, es: seq<Event>, i: nat)
    requires Inv(w) && IsRun(w, es) && i < |es| && es[i].Finish?
    ensures Ran(End(w, es), es[i].call, Classify(es[i].gap, es[i].failed))
    decreases |es|
  {
    hide Inv, Enabled, Next, Ran, Classify;
    StepKeepsInv(w, es[0]);
    if i == 0 {
      FinishRuns(w, es[0].call, es[0].gap, es[0].failed);
      RunKeepsRan(Next(w, es[0]), es[1..], es[0].call, Classify(es[0].gap, es[0].failed));
    } else {
      ProbeIsAnsweredFrom(Next(w, es[0]), es[1..], i - 1);
    }
  }

  /** In every interleaving the call that ran a probe answers what that probe showed: blocked exactly
      on a codec gap, with its line. */
  lemma ProbeIsAnswered(w: World, es: seq<Event>, i: nat)
    requires Initial(w) && IsRun(w, es) && i < |es| && es[i].Finish?
    ensures
      var c := es[i].call;
      && c in End(w, es).calls
      && (At(End(w, es), c).Answered? ==> Answer(At(End(w, es), c).result) == (es[i].gap != "", es[i].gap))
  {
    hide Inv, Enabled, Next, IsRun, End;
    InitialInv(w);
    ProbeIsAnsweredFrom(w, es, i);
    ClassifyExactly(es[i].gap, es[i].failed);
  }

  /** A settled probe is in the table exactly when it was conclusive, and then for its encoder. */
  lemma SettledIsCached(w: World, c: CallId, r: CodecResult)
    requires Inv(w) && Enabled(w, Settle(c)) && Ran(w, c, r)
    ensures
      var s, encoder := Next(w, Settle(c)).shared, w.calls[c].encoder;
      && encoder !in s.inflight
      && (encoder in s.cache <==> !r.verdict.Inconclusive?)
      && (encoder in s.cache ==> s.cache[encoder] == r)
      && (forall other :: other != encoder ==>
            && (other in s.cache <==> other in w.shared.cache)
            && (other in s.cache ==> s.cache[other] == w.shared.cache[other]))
  {
    hide ProbeOk;
    assert CallOk(w, c);
  }

  // ----- who is probed at all

  /** A call for a software encoder has not looked yet or was answered without a result. */
  ghost predicate SoftwareUntouched(w: World) {
    && (forall c :: c in w.calls && w.calls[c].encoder !in w.hardware ==>
          w.calls[c].phase.Starting? || w.calls[c].phase == Answered(None))
    && (forall p :: 0 <= p < |w.shared.probes| ==> w.shared.probes[p].encoder in w.hardware)
  }

  lemma StepLeavesSoftware(w: World, e: Event)
    requires Enabled(w, e) && SoftwareUntouched(w)
    ensures SoftwareUntouched(Next(w, e)) && Next(w, e).hardware == w.hardware
  {
    hide Classify;
  }

  lemma {:induction false} RunLeavesSoftware(w: World, es: seq<Event>)
    requires IsRun(w, es) && SoftwareUntouched(w)
    ensures SoftwareUntouched(End(w, es)) && End(w, es).hardware == w.hardware
    decreases |es|
  {
    hide Enabled, Next, SoftwareUntouched;
    if es != [] {
      StepLeavesSoftware(w, es[0]);
      RunLeavesSoftware(Next(w, es[0]), es[1..]);
    }
  }

  /** Only hardware encoders are ever probed, and a call for any other is answered "not unsupported". */
  lemma OnlyHardwareIsProbed(w: World, es: seq<Event>, c: CallId, p: nat)
    requires Initial(w) && IsRun(w, es)
    ensures p < |End(w, es).shared.probes| ==> End(w, es).shared.probes[p].encoder in w.hardware
    ensures c in End(w, es).calls && End(w, es).calls[c].encoder !in w.hardware && At(End(w, es), c).Answered? ==>
              Answer(At(End(w, es), c).result) == (false, "")
  {
    assert SoftwareUntouched(w);
    hide Enabled, Next, IsRun, End;
    RunLeavesSoftware(w, es);
  }

  /** A look finds the cached verdict, or else joins the probe under way, or else starts one; and a call
      that gave up is not blocked. */
  lemma LookExactly(w: World, c: CallId)
    requires Enabled(w, Look(c)) && w.calls[c].encoder in w.hardware
    ensures
      var encoder, phase := w.calls[c].encoder, At(Next(w, Look(c)), c);
      && (encoder in w.shared.cache ==> phase == Answered(Some(w.shared.cache[encoder])))
      && (encoder !in w.shared.cache && encoder in w.shared.inflight ==> phase == Waiting(w.shared.inflight[encoder]))
      && (encoder !in w.shared.cache && encoder !in w.shared.inflight ==>
            && phase == Probing(|w.shared.probes|)
            && Next(w, Look(c)).shared.inflight == w.shared.inflight[encoder := |w.shared.probes|])
      && (phase.Probing? <==> |Next(w, Look(c)).shared.probes| > |w.shared.probes|)
    ensures Answer(None) == (false, "")
  {
  }
}
