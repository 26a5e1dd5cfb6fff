/**
 * Every interleaving of any number of concurrent Check calls (pkg/worker/hw_codec_check.go).
 */
module CodecCheckRuns {
  import opened CodecCheckSpec
  import opened MapSums
  import opened Options

  datatype Phase =
    | Starting
    | Waiting(probe: nat)
    | Probing(probe: nat)
    | Wrote(probe: nat)
    | Leaving(probe: nat)
    | Answered(result: Option<CodecResult>)

  datatype Call = Call(encoder: Encoder, phase: Phase)

  /** What the caller sees; a call that gave up, and one for a software encoder, has no result. */
  function Answer(result: Option<CodecResult>): (bool, string) {
    if result.None? then (false, "") else (result.value.verdict.Unsupported?, result.value.reason)
  }

  /** hardware holds the names the worker takes for hardware encoders. */
  datatype World = World(shared: Shared, calls: map<CallId, Call>, hardware: set<Encoder>)

  datatype Event =
    | Look(call: CallId)
    | GiveUp(call: CallId)
    | Receive(call: CallId)
    | Finish(call: CallId, gap: string, failed: bool)
    | Settle(call: CallId)
    | Close(call: CallId)

  function At(w: World, call: CallId): Phase
    requires call in w.calls
  {
    w.calls[call].phase
  }

  ghost predicate Enabled(w: World, e: Event) {
    && e.call in w.calls
    && match e
       case Look(c) => At(w, c).Starting?
       case GiveUp(c) => At(w, c).Waiting?
       case Receive(c) => At(w, c).Waiting? && At(w, c).probe < |w.shared.probes|
                          && w.shared.probes[At(w, c).probe].done
       case Finish(c, _, _) => At(w, c).Probing? && At(w, c).probe < |w.shared.probes|
       case Settle(c) => At(w, c).Wrote? && At(w, c).probe < |w.shared.probes|
                         && w.shared.probes[At(w, c).probe].result.Some?
       case Close(c) => At(w, c).Leaving? && At(w, c).probe < |w.shared.probes|
  }

  function Moved(w: World, shared: Shared, call: CallId, phase: Phase): World
    requires call in w.calls
  {
    w.(shared := shared, calls := w.calls[call := w.calls[call].(phase := phase)])
  }

  function AfterLook(w: World, call: CallId): World
    requires call in w.calls
  {
    var encoder := w.calls[call].encoder;
    if encoder !in w.hardware then Moved(w, w.shared, call, Answered(None))
    else
      var phase := match LookAt(w.shared, encoder)
                   case Hit(result) => Answered(Some(result))
                   case Join(probe) => Waiting(probe)
                   case Own(probe) => Probing(probe);
      Moved(w, Looked(w.shared, encoder, call), call, phase)
  }

  ghost function Next(w: World, e: Event): World
    requires Enabled(w, e)
  {
    match e
    case Look(c) => AfterLook(w, c)
    case GiveUp(c) => Moved(w, w.shared, c, Answered(None))
    case Receive(c) => Moved(w, w.shared, c, Answered(w.shared.probes[At(w, c).probe].result))
    case Finish(c, gap, failed) =>
      Moved(w, Written(w.shared, At(w, c).probe, Classify(gap, failed)), c, Wrote(At(w, c).probe))
    case Settle(c) =>
      Moved(w, Settled(w.shared, w.calls[c].encoder, w.shared.probes[At(w, c).probe].result.value), c, Leaving(At(w, c).probe))
    case Close(c) =>
      Moved(w, Closed(w.shared, At(w, c).probe), c, Answered(w.shared.probes[At(w, c).probe].result))
  }

  // ----- the invariant

  predicate Conclusive(r: CodecResult) { !r.verdict.Inconclusive? }

  /** A conclusive result is the cached one. */
  predicate Backed(s: Shared, encoder: Encoder, r: CodecResult) {
    Conclusive(r) ==> encoder in s.cache && s.cache[encoder] == r
  }

  ghost predicate CacheOk(s: Shared) {
    && s.cache.Keys !! s.inflight.Keys
    && forall e :: e in s.cache ==> Conclusive(s.cache[e])
  }

  ghost predicate InflightOk(w: World, encoder: Encoder) {
    encoder in w.shared.inflight ==>
      && w.shared.inflight[encoder] < |w.shared.probes|
      && var p := w.shared.inflight[encoder];
         var owner := w.shared.probes[p].owner;
         && w.shared.probes[p].encoder == encoder
         && owner in w.calls
         && (At(w, owner) == Probing(p) || At(w, owner) == Wrote(p))
  }

  ghost predicate Holds(w: World, call: CallId, p: nat)
    requires call in w.calls
  {
    p < |w.shared.probes| && w.shared.probes[p].owner == call && w.shared.probes[p].encoder == w.calls[call].encoder
    && !w.shared.probes[p].done
  }

  predicate InFlight(s: Shared, encoder: Encoder, p: nat) { encoder in s.inflight && s.inflight[encoder] == p }

  ghost predicate CallOk(w: World, call: CallId)
    requires call in w.calls
  {
    var encoder := w.calls[call].encoder;
    match At(w, call)
    case Starting => true
    case Waiting(p) => p < |w.shared.probes| && w.shared.probes[p].encoder == encoder
    case Probing(p) => Holds(w, call, p) && InFlight(w.shared, encoder, p) && w.shared.probes[p].result.None?
    case Wrote(p) => Holds(w, call, p) && InFlight(w.shared, encoder, p) && w.shared.probes[p].result.Some?
    case Leaving(p) => Holds(w, call, p) && w.shared.probes[p].result.Some?
                       && Backed(w.shared, encoder, w.shared.probes[p].result.value)
    case Answered(r) => r.Some? ==> Backed(w.shared, encoder, r.value)
  }

  ghost predicate ProbeOk(w: World, p: nat)
    requires p < |w.shared.probes|
  {
    var probe := w.shared.probes[p];
    if probe.done then probe.result.Some? && Backed(w.shared, probe.encoder, probe.result.value)
    else
      && probe.owner in w.calls
      && (At(w, probe.owner) == Probing(p) || At(w, probe.owner) == Wrote(p) || At(w, probe.owner) == Leaving(p))
  }

  ghost predicate Inv(w: World) {
    && CacheOk(w.shared)
    && (forall encoder :: InflightOk(w, encoder))
    && (forall call :: call in w.calls ==> CallOk(w, call))
    && (forall p :: 0 <= p < |w.shared.probes| ==> ProbeOk(w, p))
  }

  lemma LookKeepsInv(w: World, c: CallId)
    requires Inv(w) && Enabled(w, Look(c))
    ensures Inv(Next(w, Look(c)))
  {
    var encoder := w.calls[c].encoder;
    var n := Next(w, Look(c));
    if encoder in w.hardware && LookAt(w.shared, encoder).Own? {
      assert n.shared.probes[|w.shared.probes|] == Probe(encoder, c, None, false);
      forall call | call in n.calls
        ensures CallOk(n, call)
      {
        assert call != c ==> CallOk(w, call);
      }
      forall other
        ensures InflightOk(n, other)
      {
        assert InflightOk(w, other);
        assert other == encoder ==> n.shared.inflight[other] == |w.shared.probes| && At(n, c) == Probing(|w.shared.probes|);
      }
      forall p | 0 <= p < |n.shared.probes|
        ensures ProbeOk(n, p)
      {
        assert p < |w.shared.probes| ==> ProbeOk(w, p);
      }
    } else {
      assert InflightOk(w, encoder);
      forall call | call in n.calls
        ensures CallOk(n, call)
      {
        assert CallOk(w, call);
      }
      forall other
        ensures InflightOk(n, other)
      {
        assert InflightOk(w, other);
      }
      forall p | 0 <= p < |n.shared.probes|
        ensures ProbeOk(n, p)
      {
        assert ProbeOk(w, p);
      }
    }
  }

  lemma FinishKeepsInv(w: World, c: CallId, gap: string, failed: bool)
    requires Inv(w) && Enabled(w, Finish(c, gap, failed))
    ensures Inv(Next(w, Finish(c, gap, failed)))
  {
    var n := Next(w, Finish(c, gap, failed));
    forall call | call in n.calls
      ensures CallOk(n, call)
    {
      assert CallOk(w, call) && CallOk(w, c);
    }
    forall other
      ensures InflightOk(n, other)
    {
      assert InflightOk(w, other);
    }
    forall p | 0 <= p < |n.shared.probes|
      ensures ProbeOk(n, p)
    {
      assert ProbeOk(w, p) && CallOk(w, c);
    }
  }

  lemma SettleKeepsInv(w: World, c: CallId)
    requires Inv(w) && Enabled(w, Settle(c))
    ensures Inv(Next(w, Settle(c)))
  {
    var n := Next(w, Settle(c));
    var encoder := w.calls[c].encoder;
    assert CallOk(w, c);
    assert InflightOk(w, encoder);
    assert encoder !in w.shared.cache;
    forall call | call in n.calls
      ensures CallOk(n, call)
    {
      assert CallOk(w, call);
    }
    forall other
      ensures InflightOk(n, other)
    {
      assert InflightOk(w, other);
    }
    forall p | 0 <= p < |n.shared.probes|
      ensures ProbeOk(n, p)
    {
      assert ProbeOk(w, p);
    }
  }

  lemma AnswerKeepsInv(w: World, e: Event)
    requires Inv(w) && Enabled(w, e) && (e.GiveUp? || e.Receive? || e.Close?)
    ensures Inv(Next(w, e))
  {
    var n := Next(w, e);
    var c := e.call;
    assert CallOk(w, c);
    forall call | call in n.calls
      ensures CallOk(n, call)
    {
      assert CallOk(w, call);
      if call == c && e.Receive? {
        assert ProbeOk(w, At(w, c).probe);
      }
    }
    forall other
      ensures InflightOk(n, other)
    {
      assert InflightOk(w, other);
    }
    forall p | 0 <= p < |n.shared.probes|
      ensures ProbeOk(n, p)
    {
      assert ProbeOk(w, p);
    }
  }

  lemma StepKeepsInv(w: World, e: Event)
    requires Inv(w) && Enabled(w, e)
    ensures Inv(Next(w, e))
  {
    hide *;
    match e
    case Look(c) => LookKeepsInv(w, c);
    case Finish(c, gap, failed) => FinishKeepsInv(w, c, gap, failed);
    case Settle(c) => SettleKeepsInv(w, c);
    case GiveUp(c) => AnswerKeepsInv(w, e);
    case Receive(c) => AnswerKeepsInv(w, e);
    case Close(c) => AnswerKeepsInv(w, e);
  }

  // ----- runs

  ghost predicate Initial(w: World) {
    w.shared == Shared(map[], map[], []) && forall call :: call in w.calls ==> w.calls[call].phase == Starting
  }

  ghost predicate IsRun(w: World, es: seq<Event>)
    decreases |es|
  {
    es == [] || (Enabled(w, es[0]) && IsRun(Next(w, es[0]), es[1..]))
  }

  ghost function End(w: World, es: seq<Event>): World
    requires IsRun(w, es)
    decreases |es|
  {
    if es == [] then w else End(Next(w, es[0]), es[1..])
  }

  lemma InitialInv(w: World)
    requires Initial(w)
    ensures Inv(w)
  {
  }

  lemma {:induction false} RunKeepsInv(w: World, es: seq<Event>)
    requires Inv(w) && IsRun(w, es)
    ensures Inv(End(w, es))
    decreases |es|
  {
    hide Inv, Enabled, Next;
    if es != [] {
      StepKeepsInv(w, es[0]);
      RunKeepsInv(Next(w, es[0]), es[1..]);
    }
  }

  ghost predicate Reachable(w: World) {
    exists start, es :: Initial(start) && IsRun(start, es) && End(start, es) == w
  }

  lemma ReachableInv(w: World)
    requires Reachable(w)
    ensures Inv(w)
  {
    hide Inv, Enabled, Next, Initial;
    var start, es :| Initial(start) && IsRun(start, es) && End(start, es) == w;
    InitialInv(start);
    RunKeepsInv(start, es);
  }

  /** The call is between its two critical sections: it runs the probe or holds its raw result. */
  predicate Running(w: World, call: CallId)
    requires call in w.calls
  {
    At(w, call).Probing? || At(w, call).Wrote?
  }

  /** Single flight: at most one call probes an encoder at a time; a probed encoder is not cached;
      and no inconclusive verdict is ever cached. */
  lemma SingleFlight(w: World, a: CallId, b: CallId)
    requires Reachable(w) && a in w.calls && b in w.calls
    requires w.calls[a].encoder == w.calls[b].encoder && Running(w, a) && Running(w, b)
    ensures a == b
    ensures w.shared.cache.Keys !! w.shared.inflight.Keys && w.calls[a].encoder !in w.shared.cache
    ensures forall encoder :: encoder in w.shared.cache ==> Conclusive(w.shared.cache[encoder])
  {
    hide Reachable;
    ReachableInv(w);
    assert CallOk(w, a) && CallOk(w, b);
  }

  lemma StepKeepsCache(w: World, e: Event, encoder: Encoder)
    requires Inv(w) && Enabled(w, e) && encoder in w.shared.cache
    ensures encoder in Next(w, e).shared.cache && Next(w, e).shared.cache[encoder] == w.shared.cache[encoder]
    ensures |w.shared.probes| <= |Next(w, e).shared.probes|
    ensures forall p :: 0 <= p < |w.shared.probes| ==> Next(w, e).shared.probes[p].encoder == w.shared.probes[p].encoder
    ensures forall p :: |w.shared.probes| <= p < |Next(w, e).shared.probes| ==> Next(w, e).shared.probes[p].encoder != encoder
  {
    assert CallOk(w, e.call);
  }

  /** Once a verdict is cached it never changes, and no probe of that encoder is started again. */
  lemma {:induction false} CachedForGood(w: World, es: seq<Event>, encoder: Encoder)
    requires Inv(w) && IsRun(w, es) && encoder in w.shared.cache
    ensures encoder in End(w, es).shared.cache && End(w, es).shared.cache[encoder] == w.shared.cache[encoder]
    ensures |w.shared.probes| <= |End(w, es).shared.probes|
    ensures forall p :: |w.shared.probes| <= p < |End(w, es).shared.probes| ==> End(w, es).shared.probes[p].encoder != encoder
    ensures forall p :: 0 <= p < |w.shared.probes| ==> End(w, es).shared.probes[p].encoder == w.shared.probes[p].encoder
    decreases |es|
  {
    hide Inv, Enabled, Next;
    if es != [] {
      StepKeepsInv(w, es[0]);
      StepKeepsCache(w, es[0], encoder);
      CachedForGood(Next(w, es[0]), es[1..], encoder);
    }
  }

  /** All conclusive answers about one encoder agree, in whatever order they were given, and they
      are the cached verdict. */
  lemma ConclusiveAnswersAgree(w: World, a: CallId, b: CallId)
    requires Reachable(w) && a in w.calls && b in w.calls && w.calls[a].encoder == w.calls[b].encoder
    requires At(w, a).Answered? && At(w, a).result.Some? && Conclusive(At(w, a).result.value)
    requires At(w, b).Answered? && At(w, b).result.Some? && Conclusive(At(w, b).result.value)
    ensures At(w, a).result == At(w, b).result
    ensures w.calls[a].encoder in w.shared.cache && At(w, a).result == Some(w.shared.cache[w.calls[a].encoder])
  {
    hide Reachable;
    ReachableInv(w);
    assert CallOk(w, a) && CallOk(w, b);
  }

  /** The events that give a call of a hardware encoder its answer. */
  ghost predicate Answers(w: World, e: Event)
    requires Enabled(w, e)
  {
    w.calls[e.call].encoder in w.hardware && At(Next(w, e), e.call).Answered?
  }

  /** After a verdict is cached an answer equals it exactly when the call looked afterwards, or the
      probe it ran or joined before was conclusive. */
  lemma AnswerAfterCaching(w: World, e: Event)
    requires Inv(w) && Enabled(w, e) && Answers(w, e) && w.calls[e.call].encoder in w.shared.cache
    ensures At(Next(w, e), e.call).result == Some(w.shared.cache[w.calls[e.call].encoder])
      <==> || e.Look?
           || (!e.GiveUp? && At(w, e.call).probe < |w.shared.probes|
               && w.shared.probes[At(w, e.call).probe].result.Some?
               && Conclusive(w.shared.probes[At(w, e.call).probe].result.value))
  {
    assert CallOk(w, e.call);
    if e.Receive? {
      assert ProbeOk(w, At(w, e.call).probe);
    }
  }

  const FIRST: CallId := "first"
  const SECOND: CallId := "second"
  const UNSETTLED := Probe("av1_qsv", FIRST, Some(CodecResult(Inconclusive, "")), false)
  const GAP := CodecResult(Unsupported, "no AV1 encoding")

  /** The first call has settled without a verdict and the second runs the second probe. */
  const SECOND_PROBE := World(
    Shared(map[], map["av1_qsv" := 1], [UNSETTLED, Probe("av1_qsv", SECOND, None, false)]),
    map[FIRST := Call("av1_qsv", Leaving(0)), SECOND := Call("av1_qsv", Probing(1))],
    {"av1_qsv"})

  lemma SecondProbeOvertakes(es: seq<Event>)
    requires es == [Finish(SECOND, "no AV1 encoding", true)] + ([Settle(SECOND)] + [Close(FIRST)])
    ensures IsRun(SECOND_PROBE, es)
    ensures var end := End(SECOND_PROBE, es);
            && FIRST in end.calls && end.calls[FIRST] == Call("av1_qsv", Answered(UNSETTLED.result))
            && "av1_qsv" in end.shared.cache && end.shared.cache["av1_qsv"] == GAP
  {
    var w5 := Next(SECOND_PROBE, Finish(SECOND, "no AV1 encoding", true));
    var w6 := Next(w5, Settle(SECOND));
    var w7 := Next(w6, Close(FIRST));
    Prepend(w6, Close(FIRST), []);
    assert [Close(FIRST)] + [] == [Close(FIRST)];
    Prepend(w5, Settle(SECOND), [Close(FIRST)]);
    Prepend(SECOND_PROBE, Finish(SECOND, "no AV1 encoding", true), [Settle(SECOND)] + [Close(FIRST)]);
  }

  lemma ReachSecondProbe(w: World, rest: seq<Event>)
    requires w == World(Shared(map[], map[], []), map[FIRST := Call("av1_qsv", Starting), SECOND := Call("av1_qsv", Starting)], {"av1_qsv"})
    requires IsRun(SECOND_PROBE, rest)
    ensures IsRun(w, [Look(FIRST)] + ([Finish(FIRST, "", true)] + ([Settle(FIRST)] + ([Look(SECOND)] + rest))))
    ensures End(w, [Look(FIRST)] + ([Finish(FIRST, "", true)] + ([Settle(FIRST)] + ([Look(SECOND)] + rest)))) == End(SECOND_PROBE, rest)
  {
    hide IsRun, End;
    var w1 := Next(w, Look(FIRST));
    var w2 := Next(w1, Finish(FIRST, "", true));
    var w3 := Next(w2, Settle(FIRST));
    assert Next(w3, Look(SECOND)) == SECOND_PROBE;
    Prepend(w3, Look(SECOND), rest);
    Prepend(w2, Settle(FIRST), [Look(SECOND)] + rest);
    Prepend(w1, Finish(FIRST, "", true), [Settle(FIRST)] + ([Look(SECOND)] + rest));
    Prepend(w, Look(FIRST), [Finish(FIRST, "", true)] + ([Settle(FIRST)] + ([Look(SECOND)] + rest)));
  }

  /** An inconclusive probe is out of the table before its waiters are told, so its own caller can
      answer "not settled" after a second probe has cached that the encoder is unsupported. */
  lemma LateInconclusiveAnswer() returns (w: World, es: seq<Event>)
    ensures Initial(w) && IsRun(w, es)
    ensures var end := End(w, es);
            && FIRST in end.calls && end.calls[FIRST].encoder in end.shared.cache
            && Answer(Some(end.shared.cache[end.calls[FIRST].encoder])) == (true, "no AV1 encoding")
            && At(end, FIRST).Answered? && Answer(At(end, FIRST).result) == (false, "")
    ensures |es| > 2 && es[|es| - 1] == Close(FIRST) && es[|es| - 2] == Settle(SECOND)
  {
    hide IsRun, End, Next, Enabled;
    var call := Call("av1_qsv", Starting);
    w := World(Shared(map[], map[], []), map[FIRST := call, SECOND := call], {"av1_qsv"});
    var rest := [Finish(SECOND, "no AV1 encoding", true)] + ([Settle(SECOND)] + [Close(FIRST)]);
    SecondProbeOvertakes(rest);
    ReachSecondProbe(w, rest);
    es := [Look(FIRST)] + ([Finish(FIRST, "", true)] + ([Settle(FIRST)] + ([Look(SECOND)] + rest)));
  }

  lemma Prepend(w: World, e: Event, rest: seq<Event>)
    requires Enabled(w, e) && IsRun(Next(w, e), rest)
    ensures IsRun(w, [e] + rest) && End(w, [e] + rest) == End(Next(w, e), rest)
  {
    hide Next, Enabled;
    assert ([e] + rest)[1..] == rest;
  }

  // ----- progress

  /** While some call has no answer, some call can move without giving up: a waiter's probe is
      closed, or the call that runs it is not stuck. */
  lemma NobodyIsStuck(w: World, c: CallId) returns (e: Event)
    requires Reachable(w) && c in w.calls && !At(w, c).Answered?
    ensures Enabled(w, e) && !e.GiveUp?
    ensures At(w, c).Waiting? && !e.Receive? ==>
      && At(w, c).probe < |w.shared.probes| && !w.shared.probes[At(w, c).probe].done
      && e.call == w.shared.probes[At(w, c).probe].owner
    ensures !At(w, c).Waiting? ==> e.call == c
  {
    hide Reachable, IsRun, End;
    ReachableInv(w);
    assert CallOk(w, c);
    var owner := c;
    if At(w, c).Waiting? {
      var p := At(w, c).probe;
      assert ProbeOk(w, p);
      if w.shared.probes[p].done {
        return Receive(c);
      }
      owner := w.shared.probes[p].owner;
    }
    assert CallOk(w, owner);
    e := match At(w, owner)
         case Starting => Look(owner)
         case Probing(_) => Finish(owner, "", true)
         case Wrote(_) => Settle(owner)
         case _ => Close(owner);
  }

  function Rank(phase: Phase): int {
    match phase
    case Starting => 4
    case Probing(_) => 3
    case Wrote(_) => 2
    case Leaving(_) => 1
    case Waiting(_) => 1
    case Answered(_) => 0
  }

  ghost function Ranks(w: World): map<CallId, int> { map c | c in w.calls :: Rank(w.calls[c].phase) }

  lemma RankFalls(w: World, e: Event)
    requires Enabled(w, e)
    ensures Sum(Ranks(Next(w, e))) < Sum(Ranks(w))
  {
    hide Sum;
    var c := e.call;
    var n := Next(w, e);
    assert Ranks(n) == Ranks(w)[c := Rank(n.calls[c].phase)];
    SumUpdate(Ranks(w), c, Rank(n.calls[c].phase));
    SumRemove(Ranks(w), c);
  }

  /** Every run ends: the calls of w make at most four steps each. */
  lemma {:induction false} RunsEnd(w: World, es: seq<Event>)
    requires IsRun(w, es)
    ensures |es| + Sum(Ranks(End(w, es))) <= Sum(Ranks(w))
    ensures |es| <= 4 * |w.calls|
    decreases |es|
  {
    hide Next, Enabled, Sum, Ranks;
    RanksBounded(w);
    RanksBounded(End(w, es));
    if es != [] {
      RankFalls(w, es[0]);
      RunsEnd(Next(w, es[0]), es[1..]);
    }
  }

  lemma RanksBounded(w: World)
    ensures 0 <= Sum(Ranks(w)) <= 4 * |w.calls|
  {
    SumNonNegative(Ranks(w));
    SumAtMostFour(Ranks(w));
    assert Ranks(w).Keys == w.calls.Keys;
  }

  lemma {:induction false} SumAtMostFour(m: map<CallId, int>)
    requires forall k :: k in m ==> m[k] <= 4
    ensures Sum(m) <= 4 * |m.Keys|
    decreases |m|
  {
    if m != map[] {
      var c :| c in m;
      SumRemove(m, c);
      SumAtMostFour(m - {c});
      assert (m - {c}).Keys == m.Keys - {c};
    }
  }

  // ----- evidence

  /** Some probe of the encoder in the run showed the result. */
  ghost predicate Shown(w: World, es: seq<Event>, encoder: Encoder, r: CodecResult) {
    exists i :: ShownAt(w, es, encoder, r, i)
  }

  ghost predicate ShownAt(w: World, es: seq<Event>, encoder: Encoder, r: CodecResult, i: int) {
    && 0 <= i < |es| && es[i].Finish? && es[i].call in w.calls && w.calls[es[i].call].encoder == encoder
    && Classify(es[i].gap, es[i].failed) == r
  }

  /** The world holds the result: in a probe, in the table, or in an answer. */
  ghost predicate Known(w: World, encoder: Encoder, r: CodecResult) {
    || (exists p :: 0 <= p < |w.shared.probes| && w.shared.probes[p].encoder == encoder && w.shared.probes[p].result == Some(r))
    || (encoder in w.shared.cache && w.shared.cache[encoder] == r)
    || (exists c :: c in w.calls && w.calls[c] == Call(encoder, Answered(Some(r))))
  }

  lemma KnownBefore(w: World, e: Event, encoder: Encoder, r: CodecResult)
    requires Inv(w) && Enabled(w, e) && Known(Next(w, e), encoder, r)
    ensures Known(w, encoder, r) || (e.Finish? && w.calls[e.call].encoder == encoder && Classify(e.gap, e.failed) == r)
  {
    hide InflightOk, ProbeOk, CacheOk;
    var n := Next(w, e);
    assert CallOk(w, e.call);
    if p :| 0 <= p < |n.shared.probes| && n.shared.probes[p].encoder == encoder && n.shared.probes[p].result == Some(r) {
      if p < |w.shared.probes| && w.shared.probes[p].result == Some(r) {
        assert Known(w, encoder, r);
      }
    } else if encoder in n.shared.cache && n.shared.cache[encoder] == r {
    } else {
      var c :| c in n.calls && n.calls[c] == Call(encoder, Answered(Some(r)));
    }
  }

  lemma {:induction false} KnownIsShown(w: World, es: seq<Event>, encoder: Encoder, r: CodecResult)
    requires Inv(w) && IsRun(w, es) && Known(End(w, es), encoder, r)
    ensures Known(w, encoder, r) || Shown(w, es, encoder, r)
    decreases |es|
  {
    hide Inv, Enabled, Known;
    if es != [] {
      var n := Next(w, es[0]);
      StepKeepsInv(w, es[0]);
      KnownIsShown(n, es[1..], encoder, r);
      if Shown(n, es[1..], encoder, r) {
        var i :| ShownAt(n, es[1..], encoder, r, i);
        SameEncoders(w, es[0]);
        assert ShownAt(w, es, encoder, r, i + 1);
      } else {
        KnownBefore(w, es[0], encoder, r);
        if !Known(w, encoder, r) {
          EnabledCalls(w, es[0]);
          assert ShownAt(w, es, encoder, r, 0);
        }
      }
    }
  }

  lemma EnabledCalls(w: World, e: Event)
    requires Enabled(w, e)
    ensures e.call in w.calls
  {
  }

  lemma SameEncoders(w: World, e: Event)
    requires Enabled(w, e)
    ensures Next(w, e).calls.Keys == w.calls.Keys
    ensures forall c :: c in w.calls ==> Next(w, e).calls[c].encoder == w.calls[c].encoder
  {
  }

  /** A job is blocked only on an unambiguous codec gap: the reason it is given is the line some
      probe of that very encoder showed. */
  lemma BlockedOnlyByGap(w: World, es: seq<Event>, c: CallId)
    requires Initial(w) && IsRun(w, es)
    requires c in End(w, es).calls && At(End(w, es), c).Answered? && Answer(At(End(w, es), c).result).0
    ensures exists i ::
              && 0 <= i < |es| && es[i].Finish? && es[i].call in w.calls
              && w.calls[es[i].call].encoder == End(w, es).calls[c].encoder
              && es[i].gap != "" && es[i].gap == Answer(At(End(w, es), c).result).1
  {
    hide Inv, Enabled, Next, IsRun;
    var r := At(End(w, es), c).result.value;
    var encoder := End(w, es).calls[c].encoder;
    InitialInv(w);
    assert End(w, es).calls[c] == Call(encoder, Answered(Some(r)));
    KnownIsShown(w, es, encoder, r);
    var i :| ShownAt(w, es, encoder, r, i);
  }
}
