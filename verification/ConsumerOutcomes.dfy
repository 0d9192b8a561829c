/** What each event does in any state that a run reaches, said without the consumer's own
    functions. */
module ConsumerOutcomes {
  import opened Consumers
  import opened ConsumerRuns
  import opened ConsumerBooks
  import opened KarnInvariants
  import opened ClockInvariants
  import opened ConsumerInvariants
  import opened ConsumerTheorems
  import R = RttEstimators
  import W = Windows

  /** The timer of an outstanding number runs since its last sending, the delays since its last and
      its first; and the count in flight falls short of the outstanding numbers by at most the
      answers that came for others. */
  lemma TimesAreActual(cfg: Config, now: real, evs: seq<Event>, w: World)
    requires SaneConfig(cfg) && WithinRange(cfg, evs) && Reaches(cfg, now, evs, w)
    ensures forall q :: q in w.c.seqTimeouts ==> q in w.log.lastSent && w.c.seqTimeouts[q] == w.log.lastSent[q]
    ensures forall q :: q in w.c.seqLastDelay ==> q in w.log.lastSent && w.c.seqLastDelay[q] == w.log.lastSent[q]
    ensures forall q :: q in w.c.seqFullDelay ==> q in w.log.firstSent && w.c.seqFullDelay[q] == w.log.firstSent[q]
    ensures w.c.inFlight <= |w.c.seqTimeouts| <= w.c.inFlight + w.log.strays
  {
    hide Karn, Estimates, Adapts, SizeIsSafe, PastSlowStart, Capped, Reaches, SaneConfig, WithinRange, Split,
         MapsHold;
    RunsAreGood(cfg, now, evs, w);
  }

  /** A timer check times out exactly the outstanding numbers whose last sending lies at least one
      timeout back, the longest waiting first; they then wait to be sent again, and the others
      stay outstanding. */
  lemma CheckTimesOutExactly(cfg: Config, now: real, evs: seq<Event>, w: World, t: real, order: seq<nat>)
    requires SaneConfig(cfg) && WithinRange(cfg, evs) && Reaches(cfg, now, evs, w)
    requires Enabled(cfg, w, Check(t, order))
    ensures forall q :: q in order <==>
              && q in w.c.seqTimeouts && q in w.log.lastSent
              && t - w.log.lastSent[q] >= R.RetransmitTimeout(w.c.rtt)
    ensures forall i, j :: 0 <= i < j < |order| && order[i] in w.log.lastSent && order[j] in w.log.lastSent ==>
              w.log.lastSent[order[i]] <= w.log.lastSent[order[j]]
    ensures
      var v := Step(cfg, w, Check(t, order));
      && v.c.seqTimeouts.Keys == w.c.seqTimeouts.Keys - set q | q in order
      && v.c.retxSeqs == w.c.retxSeqs + set q | q in order
  {
    hide Good, Reaches, SaneConfig, WithinRange, R.RetransmitTimeout, AfterTimeouts, ExpiryOrder;
    TimesAreActual(cfg, now, evs, w);
    RunsAreGood(cfg, now, evs, w);
    RangeGives(cfg, evs);
    OrderIsByLastSending(w.c, w.log.lastSent, order, t);
    GoodAfterTimeouts(cfg, w, order, t);
    TimedOutWait(cfg, w, order, t);
  }

  lemma OrderIsByLastSending(c: Consumer, lastSent: map<nat, real>, order: seq<nat>, t: real)
    requires ExpiryOrder(c, order, t)
    requires forall q :: q in c.seqTimeouts ==> q in lastSent && c.seqTimeouts[q] == lastSent[q]
    ensures forall i :: 0 <= i < |order| ==> order[i] in c.seqTimeouts
    ensures forall i, j :: 0 <= i < j < |order| ==> order[i] != order[j]
    ensures forall q :: q in order <==>
              q in c.seqTimeouts && q in lastSent && t - lastSent[q] >= R.RetransmitTimeout(c.rtt)
    ensures forall i, j :: 0 <= i < j < |order| && order[i] in lastSent && order[j] in lastSent ==>
              lastSent[order[i]] <= lastSent[order[j]]
  {
    hide R.RetransmitTimeout;
    assert forall i :: 0 <= i < |order| ==> order[i] in order;
  }

  lemma RangeGives(cfg: Config, evs: seq<Event>)
    requires WithinRange(cfg, evs)
    ensures cfg.window.initialWindow as real + 2.0 * AnswersIn(evs) as real < cfg.window.doubleMax
  {
  }

  lemma {:induction false} TimedOutWait(cfg: Config, w: World, order: seq<nat>, now: real)
    ensures AfterTimeouts(cfg, w, order, now).c.retxSeqs == w.c.retxSeqs + set q | q in order
  {
    hide AfterTimeout;
    if order == [] {
      assert w.c.retxSeqs + (set q | q in order) == w.c.retxSeqs;
    } else {
      var rest, q := order[..|order| - 1], order[|order| - 1];
      TimedOutWait(cfg, w, rest, now);
      var v := AfterTimeouts(cfg, w, rest, now);
      TimeoutWaits(cfg, v, q, now);
      assert order == rest + [q];
      assert (set p | p in order) == (set p | p in rest) + {q};
    }
  }

  lemma TimeoutWaits(cfg: Config, w: World, q: nat, now: real)
    ensures AfterTimeout(cfg, w, q, now).c.retxSeqs == w.c.retxSeqs + {q}
  {
    hide R.Sent, R.Increased, TimeoutWindow, LogTimeout;
  }

  /** No number at or above the maximum is ever sent, nor one below the first. */
  lemma NothingPastMaximum(cfg: Config, now: real, evs: seq<Event>, w: World, q: nat)
    requires SaneConfig(cfg) && WithinRange(cfg, evs) && Reaches(cfg, now, evs, w) && q in w.log.sends
    ensures cfg.start <= q < w.c.seqNo
    ensures cfg.seqMax != 0xFFFF_FFFF ==> q < cfg.seqMax
  {
    hide Books, Karn, Estimates, Adapts, SizeIsSafe, PastSlowStart, Timed, Reaches, SaneConfig, WithinRange;
    RunsAreGood(cfg, now, evs, w);
  }

  /** A send takes the least number that waits, else the next new one below the maximum, and puts
      it out with the time of now; when neither is there it changes nothing. */
  lemma SendOutcome(cfg: Config, now: real, evs: seq<Event>, w: World, t: real)
    requires SaneConfig(cfg) && WithinRange(cfg, evs) && Reaches(cfg, now, evs, w) && w.c.seqNo < 0xFFFF_FFFF
    ensures
      var c := w.c;
      var d := Step(cfg, w, Send(t)).c;
      var q := NextNumber(c);
      && (c.retxSeqs != {} ==>
            && q in c.retxSeqs && (forall x :: x in c.retxSeqs ==> q <= x)
            && d.retxSeqs == c.retxSeqs - {q} && d.seqNo == c.seqNo)
      && (c.retxSeqs == {} && (cfg.seqMax == 0xFFFF_FFFF || c.seqNo < cfg.seqMax) ==>
            q == c.seqNo && d.seqNo == c.seqNo + 1 && d.retxSeqs == {})
      && (c.retxSeqs != {} || cfg.seqMax == 0xFFFF_FFFF || c.seqNo < cfg.seqMax ==>
            && q !in c.seqTimeouts && d.seqTimeouts == c.seqTimeouts[q := t] && d.inFlight == c.inFlight + 1
            && d.seqLastDelay == c.seqLastDelay[q := t] && d.window == c.window)
      && (c.retxSeqs == {} && cfg.seqMax != 0xFFFF_FFFF && c.seqNo >= cfg.seqMax ==> d == c)
  {
    RunsAreGood(cfg, now, evs, w);
    hide Karn, Estimates, Adapts, SizeIsSafe, PastSlowStart, Timed, Capped, Reaches, SaneConfig, WithinRange, Books,
         WillSend, SendPacket, LogSend;
    var c := w.c;
    SendIsOneOf(cfg, c, w.log.answered, t);
    BooksGive(cfg, c, w.log.answered);
    SendFields(cfg, c, t);
    if c.retxSeqs != {} {
      var q := Least(c.retxSeqs);
      WillSendTimes(c.(retxSeqs := c.retxSeqs - {q}), q, t);
      WillSendLeaves(c.(retxSeqs := c.retxSeqs - {q}), q, t);
    } else if !Done(cfg, c) {
      WillSendTimes(c.(seqNo := c.seqNo + 1), c.seqNo, t);
      WillSendLeaves(c.(seqNo := c.seqNo + 1), c.seqNo, t);
    }
  }

  /** Some answered number lies beyond the recovery point. */
  ghost predicate Recovered(answered: set<nat>, recPoint: real) {
    exists q :: q in answered && q as real > recPoint
  }

  /** Exactly when a congestion signal decreases the window: without conservative adaptation
      always, with it once a number beyond the recovery point has been answered. */
  lemma DecreasesIff(cfg: Config, w: W.Window, seqNo: nat, g: Log)
    requires cfg.kind == Pcon && Adapts(cfg, w, seqNo, g)
    ensures W.Decreases(cfg.window, w) <==> !cfg.window.useCwa || Recovered(g.answered, w.recPoint)
  {
  }

  /** A signal cuts the window to its share, but not below the initial window, or leaves it. */
  ghost predicate CutTo(cfg: Config, b: W.Window, a: W.Window, answered: set<nat>, seqNo: nat) {
    if !cfg.window.useCwa || Recovered(answered, b.recPoint) then
      var share := W.Scaled(b.size, if cfg.window.algorithm == W.AIMD then cfg.window.beta else cfg.window.cubicBeta);
      && a.size == W.MaxReal(share, cfg.window.initialWindow as real)
      && a.recPoint >= seqNo as real
    else
      a.size == b.size && a.ssthresh == b.ssthresh && a.recPoint == b.recPoint
  }

  lemma SignalCuts(cfg: Config, w: W.Window, seqNo: nat, g: Log, now: real)
    requires cfg.kind == Pcon && W.SaneParams(cfg.window) && Adapts(cfg, w, seqNo, g)
    requires seqNo > 0 && forall q :: q in g.answered ==> q < seqNo
    ensures CutTo(cfg, w, W.Decrease(cfg.window, w, seqNo, now), g.answered, seqNo)
  {
    hide Adapts, W.Decrease, W.RecoveryPoint, W.Scaled, W.MaxReal, Recovered, W.Difference, W.Decreases;
    DecreasesIff(cfg, w, seqNo, g);
    if W.Decreases(cfg.window, w) {
      W.DecreaseIsMultiplicative(cfg.window, w, seqNo, now);
      DecreaseFields(cfg.window, w, seqNo, now);
      DifferenceIsPositive(cfg, w, seqNo, g);
    } else {
      NoDecrease(cfg, w, seqNo, now);
    }
  }

  lemma NoDecrease(cfg: Config, w: W.Window, seqNo: nat, now: real)
    requires !W.Decreases(cfg.window, w)
    ensures W.Decrease(cfg.window, w, seqNo, now) == w
  {
  }

  /** An answer steers the window: the plain one grows by one. The congestion-controlled one is cut
      on a mark, if it reacts to marks; without a mark it grows by one in slow start, and above
      its threshold by one per window with AIMD, and towards the curve with CUBIC. */
  lemma AnswerSteersWindow(cfg: Config, now: real, evs: seq<Event>, w: World, q: nat, marked: bool, t: real, k: real)
    requires SaneConfig(cfg) && WithinRange(cfg, evs) && Reaches(cfg, now, evs, w)
    requires Enabled(cfg, w, Data(q, marked, t, k)) && w.c.window.size != 0.0
    ensures
      var b := w.c.window;
      var a := Step(cfg, w, Data(q, marked, t, k)).c.window;
      && (cfg.kind != Pcon ==> a == b.(size := b.size + 1.0))
      && (cfg.kind == Pcon && marked && !cfg.window.reactToMarks ==> a.size == b.size && a.recPoint == b.recPoint)
      && (cfg.kind == Pcon && marked && cfg.window.reactToMarks ==> CutTo(cfg, b, a, w.log.answered + {q}, w.c.seqNo))
      && (cfg.kind == Pcon && !marked ==> Grows(cfg, b, a, t, k))
  {
    hide Good, Reaches, SaneConfig, WithinRange, OnData, LogData, DataWindow, CutTo, Grows;
    RunsAreGood(cfg, now, evs, w);
    GoodGives(cfg, w.c, w.log);
    OnDataParts(cfg, w.c, q, marked, t, k);
    if cfg.kind == Pcon {
      AnswerSteers(cfg, w.c.window, w.c.seqNo, w.log, q, marked, t, k);
    } else {
      PlainGrows(cfg, w.c.window, w.c.seqNo, q, marked, t, k);
    }
  }

  lemma PlainGrows(cfg: Config, w: W.Window, seqNo: nat, q: nat, marked: bool, t: real, k: real)
    requires cfg.kind != Pcon && w.size != 0.0
    ensures DataWindow(cfg, w, seqNo, q, marked, t, k) == w.(size := w.size + 1.0)
  {
  }

  lemma GoodGives(cfg: Config, c: Consumer, g: Log)
    requires SaneConfig(cfg) && Good(cfg, c, g)
    ensures W.SaneParams(cfg.window) && Adapts(cfg, c.window, c.seqNo, g) && c.window.size >= 1.0
    ensures forall q :: q in g.answered ==> q < c.seqNo
    ensures forall q :: q in c.seqTimeouts ==> q < c.seqNo
  {
    hide Books, Karn, Estimates, Adapts, SizeIsSafe, PastSlowStart, Timed, Capped, W.SaneParams;
    AnsweredAreSent(cfg, c, g);
    SizeIsOne(cfg, c.window, g.acks);
  }

  lemma AnswerSteers(cfg: Config, w: W.Window, seqNo: nat, g: Log, q: nat, marked: bool, t: real, k: real)
    requires cfg.kind == Pcon && W.SaneParams(cfg.window) && Adapts(cfg, w, seqNo, g) && w.size >= 1.0
    requires q < seqNo && forall p :: p in g.answered ==> p < seqNo
    ensures
      var a := DataWindow(cfg, w, seqNo, q, marked, t, k);
      && (marked && !cfg.window.reactToMarks ==> a.size == w.size && a.recPoint == w.recPoint)
      && (marked && cfg.window.reactToMarks ==> CutTo(cfg, w, a, g.answered + {q}, seqNo))
      && (!marked ==> Grows(cfg, w, a, t, k))
  {
    hide Adapts, W.Decrease, W.Increase, W.SaneParams, W.SawData, CutTo, Grows;
    var v := W.SawData(w, q);
    var seen := g.(answered := g.answered + {q}, acks := g.acks + 1);
    SeenAdapts(cfg, w, seqNo, g, seen, q);
    SawLeaves(w, q);
    if !marked {
      GrowthIs(cfg, v, t, k);
      GrowsOnly(cfg, w, v, W.Increase(cfg.window, v, t, k), t, k);
    } else if cfg.window.reactToMarks {
      SignalCuts(cfg, v, seqNo, seen, t);
      CutOnly(cfg, w, v, W.Decrease(cfg.window, v, seqNo, t), seen.answered, seqNo);
    }
  }

  lemma SawLeaves(w: W.Window, q: nat)
    ensures W.SawData(w, q) == w.(highData := W.SawData(w, q).highData)
  {
  }

  /** The step from `b` to `a` covers `gap` in as many answers as fill the window. */
  ghost predicate Covers(b: W.Window, a: W.Window, gap: real) {
    (a.size - b.size) * b.size == gap
  }

  /** How a window grows on an answer without a mark. */
  ghost predicate Grows(cfg: Config, b: W.Window, a: W.Window, t: real, k: real) {
    var slow := b.size < b.ssthresh;
    var target := W.WCubic(b, t - b.cubicLastDecrease, k);
    match cfg.window.algorithm
    case AIMD => if slow then a.size == b.size + 1.0 else Covers(b, a, 1.0)
    case CUBIC =>
      if slow then a.size == b.size + 1.0
      else if target > b.size then Covers(b, a, target - b.size)
      else a.size == b.size
    case BIC =>
      if b.size < 14.0 then if slow then a.size == b.size + 1.0 else Covers(b, a, 1.0)
      else if b.isBicSs then Covers(b, a, b.bicSsCwnd)
      else Covers(b, a, if b.bicTargetWin - b.size < 16.0 then b.bicTargetWin - b.size else 16.0)
  }

  lemma GrowthIs(cfg: Config, w: W.Window, t: real, k: real)
    requires w.size >= 1.0
    ensures Grows(cfg, w, W.Increase(cfg.window, w, t, k), t, k)
  {
    hide W.Increase, W.WCubic;
    match cfg.window.algorithm
    case AIMD => W.SlowStartThenLinear(cfg.window, w, t, k);
    case CUBIC => W.CubicFollowsCurve(cfg.window, w, t, k);
    case BIC =>
      if w.size < 14.0 {
        W.BicStartsLinear(cfg.window, w, t, k);
      } else if w.isBicSs {
        W.BicProbes(cfg.window, w, t, k);
      } else {
        W.BicSearches(cfg.window, w, t, k);
      }
  }

  lemma GrowsOnly(cfg: Config, b: W.Window, c: W.Window, a: W.Window, t: real, k: real)
    requires Grows(cfg, c, a, t, k) && c == b.(highData := c.highData)
    ensures Grows(cfg, b, a, t, k)
  {
    hide W.WCubic, Covers;
    SameCurve(b, c, t, k);
    CoversOnly(b, c, a);
  }

  lemma CoversOnly(b: W.Window, c: W.Window, a: W.Window)
    requires c.size == b.size
    ensures forall gap :: Covers(b, a, gap) <==> Covers(c, a, gap)
  {
  }

  lemma SameCurve(b: W.Window, c: W.Window, t: real, k: real)
    requires c == b.(highData := c.highData)
    ensures W.WCubic(b, t - b.cubicLastDecrease, k) == W.WCubic(c, t - c.cubicLastDecrease, k)
  {
  }

  lemma CutOnly(cfg: Config, b: W.Window, c: W.Window, a: W.Window, answered: set<nat>, seqNo: nat)
    requires CutTo(cfg, c, a, answered, seqNo) && c == b.(highData := c.highData)
    ensures CutTo(cfg, b, a, answered, seqNo)
  {
    hide W.Scaled, W.MaxReal, Recovered;
  }

  /** A timeout steers it too: the plain window falls back to its initial size if it is set to, and
      the congestion-controlled one is cut. */
  lemma TimeoutSteersWindow(cfg: Config, now: real, evs: seq<Event>, w: World, q: nat, t: real)
    requires SaneConfig(cfg) && WithinRange(cfg, evs) && Reaches(cfg, now, evs, w) && q in w.c.seqTimeouts
    ensures
      var b := w.c.window;
      var a := AfterTimeout(cfg, w, q, t).c.window;
      match cfg.kind
      case PlainWindow(reset) => a == b.(size := if reset then cfg.window.initialWindow as real else b.size)
      case Pcon => CutTo(cfg, b, a, w.log.answered, w.c.seqNo)
  {
    hide Good, Reaches, SaneConfig, WithinRange, OnTimeout, LogTimeout, W.Decrease, CutTo;
    RunsAreGood(cfg, now, evs, w);
    GoodGives(cfg, w.c, w.log);
    OnTimeoutParts(cfg, w.c, q, t);
    if cfg.kind == Pcon {
      SignalCuts(cfg, w.c.window, w.c.seqNo, w.log, t);
    }
  }
}
