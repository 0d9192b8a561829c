/** What holds in every state that any run of the consumer reaches. */
module ConsumerTheorems {
  import opened Consumers
  import opened ConsumerRuns
  import opened ConsumerBooks
  import opened KarnInvariants
  import opened ClockInvariants
  import opened ConsumerInvariants
  import opened RttHistories
  import R = RttEstimators
  import W = Windows

  ghost predicate SaneConfig(cfg: Config) {
    R.SaneParams(cfg.rtt) && W.SaneParams(cfg.window)
  }

  ghost predicate Good(cfg: Config, c: Consumer, g: Log) {
    && Books(cfg, c, g.answered)
    && Karn(c, g)
    && Estimates(cfg.rtt, c.rtt, g)
    && Adapts(cfg, c.window, c.seqNo, g)
    && SizeIsSafe(cfg, c.window, g.acks)
    && PastSlowStart(cfg, c.window, g)
    && Timed(c, g)
    && Capped(cfg, c, g)
  }

  function SendsIn(evs: seq<Event>): nat {
    if evs == [] then 0 else SendsIn(evs[..|evs| - 1]) + if evs[|evs| - 1].Send? then 1 else 0
  }

  function AnswersIn(evs: seq<Event>): nat {
    if evs == [] then 0 else AnswersIn(evs[..|evs| - 1]) + if evs[|evs| - 1].Data? then 1 else 0
  }

  /** The run never uses up the sequence numbers, and its window stays representable. */
  ghost predicate WithinRange(cfg: Config, evs: seq<Event>) {
    && cfg.start + SendsIn(evs) <= NO_SEQ
    && cfg.window.initialWindow as real + 2.0 * AnswersIn(evs) as real < cfg.window.doubleMax
  }

  /** The events lead from the start, at `now`, to the world `w`. */
  ghost predicate Reaches(cfg: Config, now: real, evs: seq<Event>, w: World) {
    if evs == [] then w == Start(cfg, now)
    else
      var ev := evs[|evs| - 1];
      exists v {:trigger Reaches(cfg, now, evs[..|evs| - 1], v)} ::
        && Reaches(cfg, now, evs[..|evs| - 1], v)
        && Enabled(cfg, v, ev) && (ev.Data? ==> v.c.window.size != 0.0)
        && w == Step(cfg, v, ev)
  }

  lemma StartIsGood(cfg: Config, now: real)
    requires SaneConfig(cfg)
    ensures Good(cfg, Start(cfg, now).c, Start(cfg, now).log)
  {
    W.InitialIsSafe(cfg.window, now);
    assert R.Pow2(0) == 1;
  }

  lemma SendFields(cfg: Config, c: Consumer, now: real)
    requires c.seqNo < NO_SEQ
    ensures SendPacket(cfg, c, now).window == c.window
    ensures c.seqNo <= SendPacket(cfg, c, now).seqNo <= c.seqNo + 1
    ensures SendPacket(cfg, c, now).rtt == if Sending(cfg, c) then R.Sent(c.rtt, NextNumber(c), now) else c.rtt
  {
    hide R.Sent;
  }

  lemma GoodAfterSend(cfg: Config, w: World, now: real)
    requires SaneConfig(cfg) && Good(cfg, w.c, w.log) && w.c.seqNo < NO_SEQ && w.log.clock <= now
    ensures
      var v := Step(cfg, w, Send(now));
      Good(cfg, v.c, v.log) && w.c.seqNo <= v.c.seqNo <= w.c.seqNo + 1 && v.log.acks == w.log.acks
  {
    hide Books, Karn, Estimates, Adapts, SizeIsSafe, PastSlowStart, Timed, Capped, SendPacket, LogSend, R.Sent;
    var v := Step(cfg, w, Send(now));
    LogSendFields(cfg, w.c, w.log, now);
    SendKeepsBooks(cfg, w.c, w.log.answered, now);
    SendKeepsKarn(cfg, w.c, w.log, now);
    SendFields(cfg, w.c, now);
    AdaptsOnly(cfg, w.c.window, v.c.window, w.c.seqNo, v.c.seqNo, w.log, v.log);
    PastOnly(cfg, w.c.window, v.c.window, w.log, v.log);
    SendKeepsTimed(cfg, w.c, w.log, now);
    SendKeepsCapped(cfg, w.c, w.log, now);
    ClockOnly(cfg, v.c, LogSend(cfg, w.c, w.log, now), v.log);
    if Sending(cfg, w.c) {
      SentKeepsEstimates(cfg.rtt, w.c.rtt, w.log, NextNumber(w.c), now);
    }
    EstimatesOnly(cfg.rtt, v.c.rtt, w.log, v.log);
  }

  lemma ClockOnly(cfg: Config, c: Consumer, g: Log, h: Log)
    requires Timed(c, g) && Capped(cfg, c, g) && h == g.(clock := h.clock)
    ensures Timed(c, h) && Capped(cfg, c, h)
  {
    hide Follows;
  }

  lemma LogSendFields(cfg: Config, c: Consumer, g: Log, now: real)
    ensures
      var h := LogSend(cfg, c, g, now);
      h == g.(sends := h.sends, firstSent := h.firstSent, lastSent := h.lastSent)
  {
  }

  lemma EstimatesOnly(p: R.RttParams, r: R.Rtt, g: Log, h: Log)
    requires Estimates(p, r, g)
    requires h.lo == g.lo && h.hi == g.hi && h.sinceReset == g.sinceReset
    ensures Estimates(p, r, h)
  {
  }

  lemma LogDataFields(cfg: Config, c: Consumer, g: Log, q: nat, marked: bool, now: real)
    ensures
      var h := LogData(cfg, c, g, q, marked, now);
      var s := LogSample(g, c.rtt, q, now);
      var cut := LogCut(g, c.seqNo, DataCuts(cfg, c.window, q, marked));
      && h.answered == g.answered + {q} && h.acks == g.acks + 1 && h.clock == g.clock
      && h.cuts == cut.cuts && h.lastCut == cut.lastCut
      && h.lo == s.lo && h.hi == s.hi && h.sinceReset == s.sinceReset
  {
    hide Measures, DataCuts;
  }

  lemma AnsweredAreSent(cfg: Config, c: Consumer, g: Log)
    requires Books(cfg, c, g.answered)
    ensures forall q :: q in g.answered ==> q < c.seqNo
    ensures forall q :: q in c.seqTimeouts ==> q < c.seqNo
  {
  }

  lemma GoodAfterData(cfg: Config, w: World, q: nat, marked: bool, now: real, k: real)
    requires SaneConfig(cfg) && Good(cfg, w.c, w.log) && w.c.window.size != 0.0
    requires w.log.clock <= now && cfg.start <= q < w.c.seqNo
    requires cfg.window.initialWindow as real + 2.0 * (w.log.acks + 1) as real < cfg.window.doubleMax
    ensures
      var v := Step(cfg, w, Data(q, marked, now, k));
      Good(cfg, v.c, v.log) && v.c.seqNo == w.c.seqNo && v.log.acks == w.log.acks + 1
  {
    hide Books, Karn, Estimates, Adapts, SizeIsSafe, PastSlowStart, Timed, Capped, OnData, LogData, LogSample,
         Measures, DataWindow, LogCut, DataCuts, R.Acked, SaneConfig;
    var d := OnData(cfg, w.c, q, marked, now, k);
    var h := LogData(cfg, w.c, w.log, q, marked, now);
    OnDataParts(cfg, w.c, q, marked, now, k);
    LogDataFields(cfg, w.c, w.log, q, marked, now);
    DataKeepsBooks(cfg, w.c, w.log.answered, q, marked, now, k);
    DataKeepsKarn(cfg, w.c, w.log, q, marked, now, k);
    KarnOnly(d, d, h, h.(clock := now));
    DataKeepsTimed(cfg, w.c, w.log, q, marked, now, k);
    LogDataTimes(cfg, w.c, w.log, q, marked, now);
    CappedOnly(cfg, w.c, d, w.log, h);
    ClockOnly(cfg, d, h, h.(clock := now));
    Sane(cfg);
    AnsweredAreSent(cfg, w.c, w.log);
    DataKeepsWindow(cfg, w.c.window, w.c.seqNo, w.log, h.(clock := now), q, marked, now, k);
    SizeIsOne(cfg, w.c.window, w.log.acks);
    DataKeepsPast(cfg, w.c.window, w.c.seqNo, w.log, h.(clock := now), q, marked, now, k);
    SampleIff(cfg, w.c, w.log, q);
    DataKeepsEstimates(cfg.rtt, w.c.rtt, w.log, q, now);
    EstimatesOnly(cfg.rtt, d.rtt, LogSample(w.log, w.c.rtt, q, now), h.(clock := now));
  }

  lemma Sane(cfg: Config)
    requires SaneConfig(cfg)
    ensures R.SaneParams(cfg.rtt) && W.SaneParams(cfg.window)
  {
  }

  lemma OnDataParts(cfg: Config, c: Consumer, q: nat, marked: bool, now: real, k: real)
    requires c.window.size != 0.0
    ensures
      var d := OnData(cfg, c, q, marked, now, k);
      d.rtt == R.Acked(c.rtt, q, now) && d.seqNo == c.seqNo &&
        d.window == DataWindow(cfg, c.window, c.seqNo, q, marked, now, k)
  {
    hide R.Acked, DataWindow;
  }

  lemma OnTimeoutParts(cfg: Config, c: Consumer, q: nat, now: real)
    ensures
      var d := OnTimeout(cfg, c, q, now);
      && d.rtt == R.Sent(R.Increased(c.rtt), q, now) && d.seqNo == c.seqNo
      && d.window == TimeoutWindow(cfg, c.window, c.seqNo, now) && d.seqTimeouts == c.seqTimeouts - {q}
  {
    hide R.Sent, R.Increased, TimeoutWindow;
  }

  lemma LogTimeoutFields(cfg: Config, c: Consumer, g: Log, q: nat)
    ensures
      var h := LogTimeout(cfg, c, g, q);
      var cut := LogCut(g, c.seqNo, Cuts(cfg, c.window));
      && h.answered == g.answered && h.acks == g.acks && h.clock == g.clock
      && h.cuts == cut.cuts && h.lastCut == cut.lastCut
      && h.lo == g.lo && h.hi == g.hi && h.sinceReset == g.sinceReset + 1
  {
    hide Cuts;
  }

  lemma GoodAfterTimeout(cfg: Config, w: World, q: nat, now: real)
    requires SaneConfig(cfg) && Good(cfg, w.c, w.log) && q in w.c.seqTimeouts
    requires cfg.window.initialWindow as real + 2.0 * w.log.acks as real < cfg.window.doubleMax
    ensures
      var v := AfterTimeout(cfg, w, q, now);
      && Good(cfg, v.c, v.log) && v.c.seqNo == w.c.seqNo && v.log.acks == w.log.acks && v.log.clock == w.log.clock
      && v.c.seqTimeouts == w.c.seqTimeouts - {q}
  {
    hide Books, Karn, Estimates, Adapts, SizeIsSafe, PastSlowStart, Timed, Capped, OnTimeout, LogTimeout,
         TimeoutWindow, LogCut, Cuts, R.Sent, R.Increased, SaneConfig;
    OnTimeoutParts(cfg, w.c, q, now);
    LogTimeoutFields(cfg, w.c, w.log, q);
    TimeoutKeepsBooks(cfg, w.c, w.log.answered, q, now);
    TimeoutKeepsKarn(cfg, w.c, w.log, q, now);
    TimeoutKeepsTimed(cfg, w.c, w.log, q, now);
    LogTimeoutTimes(cfg, w.c, w.log, q);
    CappedOnly(cfg, w.c, OnTimeout(cfg, w.c, q, now), w.log, LogTimeout(cfg, w.c, w.log, q));
    Sane(cfg);
    AnsweredAreSent(cfg, w.c, w.log);
    TimeoutKeepsWindow(cfg, w.c.window, w.c.seqNo, w.log, LogTimeout(cfg, w.c, w.log, q), now);
    TimeoutKeepsPast(cfg, w.c.window, w.c.seqNo, w.log, LogTimeout(cfg, w.c, w.log, q), now);
    TimeoutKeepsEstimates(cfg.rtt, w.c.rtt, w.log, LogTimeout(cfg, w.c, w.log, q), q, now);
  }

  /** After timeouts of distinct outstanding numbers, exactly the others are outstanding. */
  lemma {:induction false} GoodAfterTimeouts(cfg: Config, w: World, order: seq<nat>, now: real)
    requires SaneConfig(cfg) && Good(cfg, w.c, w.log)
    requires cfg.window.initialWindow as real + 2.0 * w.log.acks as real < cfg.window.doubleMax
    requires forall i :: 0 <= i < |order| ==> order[i] in w.c.seqTimeouts
    requires forall i, j :: 0 <= i < j < |order| ==> order[i] != order[j]
    ensures
      var v := AfterTimeouts(cfg, w, order, now);
      && Good(cfg, v.c, v.log) && v.c.seqNo == w.c.seqNo && v.log.acks == w.log.acks && v.log.clock == w.log.clock
      && v.c.seqTimeouts == w.c.seqTimeouts - set q | q in order
  {
    hide Good, SaneConfig, AfterTimeout;
    if order == [] {
      assert w.c.seqTimeouts - (set q | q in order) == w.c.seqTimeouts;
    } else {
      var rest, q := order[..|order| - 1], order[|order| - 1];
      GoodAfterTimeouts(cfg, w, rest, now);
      GoodAfterTimeout(cfg, AfterTimeouts(cfg, w, rest, now), q, now);
      assert order == rest + [q];
      assert (w.c.seqTimeouts - (set p | p in rest)) - {q} == w.c.seqTimeouts - set p | p in order;
    }
  }

  lemma GoodAt(cfg: Config, c: Consumer, g: Log, now: real)
    requires Good(cfg, c, g) && g.clock <= now
    ensures Good(cfg, c, g.(clock := now))
  {
    hide Books, Karn, Estimates, Adapts, SizeIsSafe, PastSlowStart, Timed, Capped;
    KarnOnly(c, c, g, g.(clock := now));
    EstimatesOnly(cfg.rtt, c.rtt, g, g.(clock := now));
    AdaptsOnly(cfg, c.window, c.window, c.seqNo, c.seqNo, g, g.(clock := now));
    PastOnly(cfg, c.window, c.window, g, g.(clock := now));
    ClockOnly(cfg, c, g, g.(clock := now));
  }

  lemma GoodAfterCheck(cfg: Config, w: World, now: real, order: seq<nat>)
    requires SaneConfig(cfg) && Good(cfg, w.c, w.log) && Enabled(cfg, w, Check(now, order))
    requires cfg.window.initialWindow as real + 2.0 * w.log.acks as real < cfg.window.doubleMax
    ensures
      var v := Step(cfg, w, Check(now, order));
      Good(cfg, v.c, v.log) && v.c.seqNo == w.c.seqNo && v.log.acks == w.log.acks
  {
    hide Good, SaneConfig, AfterTimeouts, R.RetransmitTimeout;
    assert forall i :: 0 <= i < |order| ==> order[i] in order;
    GoodAfterTimeouts(cfg, w, order, now);
    var v := AfterTimeouts(cfg, w, order, now);
    GoodAt(cfg, v.c, v.log, now);
  }

  /** Every state that any run reaches is good. */
  lemma {:induction false} RunsAreGood(cfg: Config, now: real, evs: seq<Event>, w: World)
    requires SaneConfig(cfg) && WithinRange(cfg, evs) && Reaches(cfg, now, evs, w)
    ensures Good(cfg, w.c, w.log)
    ensures w.c.seqNo <= cfg.start + SendsIn(evs) && w.log.acks == AnswersIn(evs)
  {
    hide Good, SaneConfig, Step, Enabled, Start;
    if evs == [] {
      StartIsGood(cfg, now);
      StartCounts(cfg, now);
    } else {
      var rest, ev := evs[..|evs| - 1], evs[|evs| - 1];
      var v :| Reaches(cfg, now, rest, v) && Enabled(cfg, v, ev) && (ev.Data? ==> v.c.window.size != 0.0) &&
          w == Step(cfg, v, ev);
      RunsAreGood(cfg, now, rest, v);
      EnabledGives(cfg, v, ev);
      match ev {
        case Send(t) => GoodAfterSend(cfg, v, t);
        case Data(q, marked, t, k) => GoodAfterData(cfg, v, q, marked, t, k);
        case Check(t, order) => GoodAfterCheck(cfg, v, t, order);
      }
    }
  }

  lemma StartCounts(cfg: Config, now: real)
    ensures Start(cfg, now).c.seqNo == cfg.start && Start(cfg, now).log.acks == 0
  {
  }

  lemma EnabledGives(cfg: Config, v: World, ev: Event)
    requires Enabled(cfg, v, ev)
    ensures v.log.clock <= ev.now
    ensures ev.Data? ==> cfg.start <= ev.q < v.c.seqNo
  {
    hide ExpiryOrder;
  }

  /** No number is lost, and no more are in flight than outstanding. */
  lemma NoNumberIsLost(cfg: Config, now: real, evs: seq<Event>, w: World)
    requires SaneConfig(cfg) && WithinRange(cfg, evs) && Reaches(cfg, now, evs, w)
    ensures forall q :: q in w.log.answered || q in w.c.seqTimeouts || q in w.c.retxSeqs <==> cfg.start <= q < w.c.seqNo
    ensures w.log.answered !! w.c.seqTimeouts.Keys && w.log.answered !! w.c.retxSeqs &&
            w.c.seqTimeouts.Keys !! w.c.retxSeqs
    ensures w.c.seqLastDelay.Keys == w.c.seqFullDelay.Keys == w.c.seqRetxCounts.Keys ==
            w.c.seqTimeouts.Keys + w.c.retxSeqs
    ensures w.c.inFlight <= |w.c.seqTimeouts|
  {
    hide Karn, Estimates, Adapts, SizeIsSafe, PastSlowStart, Timed, Capped, Reaches, SaneConfig, WithinRange;
    RunsAreGood(cfg, now, evs, w);
  }

  /** An answered number is never sent again, and stays answered. */
  lemma AnsweredIsFinal(cfg: Config, now: real, evs: seq<Event>, w: World, ev: Event, q: nat)
    requires SaneConfig(cfg) && WithinRange(cfg, evs) && Reaches(cfg, now, evs, w)
    requires w.c.seqNo < NO_SEQ && (ev.Data? ==> w.c.window.size != 0.0) && q in w.log.answered
    ensures q in Step(cfg, w, ev).log.answered
    ensures Count(Step(cfg, w, ev).log.sends, q) == Count(w.log.sends, q)
  {
    hide Karn, Estimates, Adapts, SizeIsSafe, PastSlowStart, Timed, Capped, Reaches, SaneConfig, WithinRange, Books,
         OnData, LogData, SendPacket, Resending, Sending, NextNumber;
    RunsAreGood(cfg, now, evs, w);
    match ev
    case Send(t) => SendKeepsBooks(cfg, w.c, w.log.answered, t);
    case Data(p, marked, t, k) => LogDataKarn(cfg, w.c, w.log, p, marked, t);
    case Check(t, order) => TimeoutsSendNothing(cfg, w, order, t);
  }

  lemma {:induction false} TimeoutsSendNothing(cfg: Config, w: World, order: seq<nat>, now: real)
    ensures AfterTimeouts(cfg, w, order, now).log.sends == w.log.sends
    ensures AfterTimeouts(cfg, w, order, now).log.answered == w.log.answered
  {
    hide LogTimeout, OnTimeout;
    if order != [] {
      var v := AfterTimeouts(cfg, w, order[..|order| - 1], now);
      TimeoutsSendNothing(cfg, w, order[..|order| - 1], now);
      LogTimeoutKarn(cfg, v.c, v.log, order[|order| - 1]);
    }
  }

  /** Karn's rule: an answer is measured exactly when its number is unanswered and never timed
      out. It was then sent once, and the sample is the time since. */
  lemma KarnsRule(cfg: Config, now: real, evs: seq<Event>, w: World, q: nat, t: real)
    requires SaneConfig(cfg) && WithinRange(cfg, evs) && Reaches(cfg, now, evs, w)
    requires cfg.start <= q < w.c.seqNo && w.log.clock <= t
    ensures
      var a := R.Acked(w.c.rtt, q, t);
      if q in w.log.answered || q in w.log.timedOut
      then a == w.c.rtt.(history := a.history)
      else
        && Count(w.log.sends, q) == 1 && q in w.c.seqFullDelay && w.c.seqFullDelay[q] <= t
        && a == R.MultiplierReset(R.Measured(w.c.rtt, t - w.c.seqFullDelay[q])).(history := a.history)
  {
    hide Books, Karn, Estimates, Adapts, SizeIsSafe, PastSlowStart, Timed, Capped, Reaches, SaneConfig, WithinRange,
         R.Acked, R.Measured, Measures;
    RunsAreGood(cfg, now, evs, w);
    SampleIff(cfg, w.c, w.log, q);
    AckedMeasures(w.c.rtt, q, t);
  }

  /** The estimate stays within the samples, the multiplier doubles at each timeout up to its
      limit, and the retransmission timeout stays between its limits. */
  lemma TimeoutsAreBounded(cfg: Config, now: real, evs: seq<Event>, w: World)
    requires SaneConfig(cfg) && WithinRange(cfg, evs) && Reaches(cfg, now, evs, w)
    ensures w.c.rtt.samples > 0 ==>
              0.0 <= w.log.lo <= w.c.rtt.estimate <= w.log.hi && 0.0 <= w.c.rtt.variance <= w.log.hi
    ensures w.c.rtt.multiplier == R.MinNat(R.Pow2(w.log.sinceReset), cfg.rtt.maxMultiplier)
    ensures R.Min(cfg.rtt.minRto, cfg.rtt.maxRto) <= R.RetransmitTimeout(w.c.rtt) <= cfg.rtt.maxRto
  {
    hide Books, Karn, Adapts, SizeIsSafe, PastSlowStart, Timed, Capped, Reaches, WithinRange, R.RetransmitTimeout,
         R.Min, R.Pow2;
    RunsAreGood(cfg, now, evs, w);
    Pow2Positive(w.log.sinceReset);
    R.TimeoutIsBounded(w.c.rtt);
  }

  lemma {:induction false} Pow2Positive(k: nat)
    ensures R.Pow2(k) >= 1
  {
    if k > 0 {
      Pow2Positive(k - 1);
    }
  }

  /** The window never falls below the initial window, or for BIC below the smaller of that
      and 13; in particular it is never zero. AIMD and CUBIC slow-start only before the first
      decrease. */
  lemma WindowsAreSafe(cfg: Config, now: real, evs: seq<Event>, w: World)
    requires SaneConfig(cfg) && WithinRange(cfg, evs) && Reaches(cfg, now, evs, w)
    ensures w.c.window.size >= 1.0
    ensures
      w.c.window.size >= if cfg.kind == Pcon && cfg.window.algorithm == W.BIC then W.BicFloor(cfg.window)
                         else cfg.window.initialWindow as real
    ensures cfg.kind == Pcon && cfg.window.algorithm == W.CUBIC && w.c.window.size >= w.c.window.ssthresh ==>
              w.c.window.cubicWmax > 0.0
    ensures cfg.kind == Pcon && cfg.window.algorithm != W.BIC && w.log.cuts > 0 ==>
              w.c.window.size >= w.c.window.ssthresh
    ensures cfg.kind == Pcon && cfg.window.algorithm == W.BIC ==>
              0.0 <= w.c.window.bicMinWin <= w.c.window.bicTargetWin <= w.c.window.bicMaxWin
  {
    hide Books, Karn, Estimates, Adapts, Reaches;
    RunsAreGood(cfg, now, evs, w);
  }

  /** With conservative adaptation, a run decreases its window at most as often as its highest
      answered number says, which lies below the next number; and the next decrease, if it
      comes now, follows the answer to a number first sent after the last. */
  lemma DecreasesAreBounded(cfg: Config, now: real, evs: seq<Event>, w: World)
    requires SaneConfig(cfg) && WithinRange(cfg, evs) && Reaches(cfg, now, evs, w)
    requires cfg.kind == Pcon && cfg.window.useCwa
    ensures w.log.cuts <= w.c.window.highData && (w.c.window.highData == 0 || w.c.window.highData < w.c.seqNo)
    ensures w.c.seqNo > 0 && W.Decreases(cfg.window, w.c.window) ==>
              && w.c.window.highData in w.log.answered && w.log.lastCut < w.c.window.highData
              && W.Difference(w.c.seqNo, w.c.window.highData) > 0
              && W.RecoveryPoint(cfg.window, w.c.window, w.c.seqNo) > w.c.window.recPoint
  {
    hide Books, Karn, Estimates, SizeIsSafe, PastSlowStart, Timed, Capped, Reaches, WithinRange, W.Difference,
         W.RecoveryPoint;
    RunsAreGood(cfg, now, evs, w);
    AnsweredAreSent(cfg, w.c, w.log);
    if w.c.seqNo > 0 && W.Decreases(cfg.window, w.c.window) {
      DecreasesAreSpaced(cfg, w.c.window, w.c.seqNo, w.log);
      DifferenceIsPositive(cfg, w.c.window, w.c.seqNo, w.log);
    }
  }
}
