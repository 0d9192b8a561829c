/** Karn's rule over the steps of the consumer: what the history, the delay maps and the
    send counts have to do with the numbers that ever timed out. */
module KarnInvariants {
  import opened Consumers
  import opened ConsumerRuns
  import opened ConsumerBooks
  import opened RttHistories
  import R = RttEstimators

  /** An unanswered number has been sent as often as counted, and exactly once unless it
      timed out; only numbers that timed out wait to be sent again; only numbers below
      `next` were ever sent. */
  ghost predicate Counted(firstSent: map<nat, real>, retx: set<nat>, counts: map<nat, nat>, g: Log, next: nat) {
    && retx <= g.timedOut
    && (forall q: nat :: q in g.timedOut || q in g.sends ==> q < next)
    && (forall q: nat :: q in firstSent ==>
          && q in counts && q in g.sends && counts[q] == g.sends[q]
          && (q !in g.timedOut ==> g.sends[q] == 1))
    && (forall q: nat :: q in firstSent ==> firstSent[q] <= g.clock)
  }

  ghost predicate Karn(c: Consumer, g: Log) {
    && HistoryIs(c.rtt.history, c.seqFullDelay, g.timedOut)
    && Counted(c.seqFullDelay, c.retxSeqs, c.seqRetxCounts, g, c.seqNo)
  }

  function Bumped(m: map<nat, nat>, q: nat): map<nat, nat> {
    m[q := Count(m, q) + 1]
  }

  lemma CountedNew(firstSent: map<nat, real>, retx: set<nat>, counts: map<nat, nat>, g: Log, next: nat, now: real)
    requires Counted(firstSent, retx, counts, g, next) && next !in counts && g.clock <= now
    ensures Counted(firstSent[next := now], retx, Bumped(counts, next),
                    g.(sends := Bumped(g.sends, next), clock := now), next + 1)
    ensures next !in firstSent && next !in g.timedOut
  {
  }

  lemma CountedAgain(firstSent: map<nat, real>, retx: set<nat>, counts: map<nat, nat>, g: Log, next: nat, q: nat,
                     now: real)
    requires Counted(firstSent, retx, counts, g, next) && q in retx && q in firstSent && g.clock <= now
    ensures Counted(firstSent, retx - {q}, Bumped(counts, q), g.(sends := Bumped(g.sends, q), clock := now), next)
    ensures g.timedOut + {q} == g.timedOut
  {
  }

  lemma CountedAnswered(firstSent: map<nat, real>, retx: set<nat>, counts: map<nat, nat>, g: Log, next: nat, q: nat)
    requires Counted(firstSent, retx, counts, g, next)
    ensures Counted(firstSent - {q}, retx - {q}, counts - {q}, g, next)
  {
  }

  lemma CountedLate(firstSent: map<nat, real>, retx: set<nat>, counts: map<nat, nat>, g: Log, next: nat, q: nat)
    requires Counted(firstSent, retx, counts, g, next) && q < next
    ensures Counted(firstSent, retx + {q}, counts, g.(timedOut := g.timedOut + {q}), next)
  {
  }

  lemma CountedOnly(firstSent: map<nat, real>, retx: set<nat>, counts: map<nat, nat>, g: Log, h: Log, next: nat)
    requires Counted(firstSent, retx, counts, g, next)
    requires h.timedOut == g.timedOut && h.sends == g.sends && g.clock <= h.clock
    ensures Counted(firstSent, retx, counts, h, next)
  {
  }

  lemma WillSendKarn(c: Consumer, q: nat, now: real)
    ensures
      var d := WillSend(c, q, now);
      && d.seqFullDelay == InsertOnce(c.seqFullDelay, q, now)
      && d.seqRetxCounts == Bumped(c.seqRetxCounts, q)
      && d.rtt == R.Sent(c.rtt, q, now)
      && d.retxSeqs == c.retxSeqs && d.seqNo == c.seqNo
  {
    hide R.Sent;
  }

  lemma BooksMaps(cfg: Config, c: Consumer, g: Log)
    requires Books(cfg, c, g.answered)
    ensures c.seqNo !in c.seqRetxCounts && c.seqNo !in c.seqFullDelay
    ensures forall q :: q in c.retxSeqs || q in c.seqTimeouts ==> q in c.seqFullDelay && q < c.seqNo
    ensures c.seqRetxCounts.Keys == c.seqFullDelay.Keys
  {
  }

  lemma ResendKeepsKarn(cfg: Config, c: Consumer, g: Log, q: nat, now: real)
    requires Books(cfg, c, g.answered) && Karn(c, g) && g.clock <= now && q in c.retxSeqs
    ensures Karn(WillSend(c.(retxSeqs := c.retxSeqs - {q}), q, now), g.(sends := Bumped(g.sends, q), clock := now))
  {
    hide Books, Counted, HistoryIs, WillSend, R.Sent, Bumped;
    BooksMaps(cfg, c, g);
    WillSendKarn(c.(retxSeqs := c.retxSeqs - {q}), q, now);
    CountedAgain(c.seqFullDelay, c.retxSeqs, c.seqRetxCounts, g, c.seqNo, q, now);
    SentOld(c.rtt, c.seqFullDelay, g.timedOut, q, now);
  }

  lemma SendNewKeepsKarn(cfg: Config, c: Consumer, g: Log, now: real)
    requires Books(cfg, c, g.answered) && Karn(c, g) && g.clock <= now
    ensures Karn(WillSend(c.(seqNo := c.seqNo + 1), c.seqNo, now), g.(sends := Bumped(g.sends, c.seqNo), clock := now))
  {
    hide Books, Counted, HistoryIs, WillSend, R.Sent, Bumped;
    BooksMaps(cfg, c, g);
    WillSendKarn(c.(seqNo := c.seqNo + 1), c.seqNo, now);
    CountedNew(c.seqFullDelay, c.retxSeqs, c.seqRetxCounts, g, c.seqNo, now);
    SentNew(c.rtt, c.seqFullDelay, g.timedOut, c.seqNo, now);
  }

  lemma SendKeepsKarn(cfg: Config, c: Consumer, g: Log, now: real)
    requires Books(cfg, c, g.answered) && Karn(c, g) && c.seqNo < NO_SEQ && g.clock <= now
    ensures Karn(SendPacket(cfg, c, now), LogSend(cfg, c, g, now).(clock := now))
  {
    hide Books, Karn, WillSend, SendPacket, Bumped, Count;
    SendIsOneOf(cfg, c, g.answered, now);
    var d := SendPacket(cfg, c, now);
    var h := LogSend(cfg, c, g, now).(clock := now);
    if c.retxSeqs != {} {
      ResendKeepsKarn(cfg, c, g, Least(c.retxSeqs), now);
      SentIsBumped(g, Least(c.retxSeqs), now);
      KarnOnly(d, d, g.(sends := Bumped(g.sends, Least(c.retxSeqs)), clock := now), h);
    } else if Done(cfg, c) {
      KarnOnly(c, c, g, g.(clock := now));
    } else {
      SendNewKeepsKarn(cfg, c, g, now);
      SentIsBumped(g, c.seqNo, now);
      KarnOnly(d, d, g.(sends := Bumped(g.sends, c.seqNo), clock := now), h);
    }
  }

  lemma SentIsBumped(g: Log, q: nat, now: real)
    ensures LogSent(g, q, now).sends == Bumped(g.sends, q)
    ensures LogSent(g, q, now).timedOut == g.timedOut && LogSent(g, q, now).answered == g.answered
  {
  }

  lemma KarnOnly(c: Consumer, d: Consumer, g: Log, h: Log)
    requires Karn(c, g)
    requires h.timedOut == g.timedOut && h.sends == g.sends && g.clock <= h.clock
    requires d.rtt.history == c.rtt.history && d.seqFullDelay == c.seqFullDelay && d.retxSeqs == c.retxSeqs
    requires d.seqRetxCounts == c.seqRetxCounts && d.seqNo == c.seqNo
    ensures Karn(d, h)
  {
    hide HistoryIs, Counted;
    CountedOnly(c.seqFullDelay, c.retxSeqs, c.seqRetxCounts, g, h, c.seqNo);
  }

  lemma OnDataKarn(cfg: Config, c: Consumer, q: nat, marked: bool, now: real, k: real)
    requires c.window.size != 0.0
    ensures
      var d := OnData(cfg, c, q, marked, now, k);
      && d.seqFullDelay == c.seqFullDelay - {q} && d.seqRetxCounts == c.seqRetxCounts - {q}
      && d.retxSeqs == c.retxSeqs - {q} && d.rtt == R.Acked(c.rtt, q, now) && d.seqNo == c.seqNo
  {
    hide R.Acked, DataWindow;
  }

  lemma LogDataKarn(cfg: Config, c: Consumer, g: Log, q: nat, marked: bool, now: real)
    ensures
      var h := LogData(cfg, c, g, q, marked, now);
      h.timedOut == g.timedOut && h.sends == g.sends && h.clock == g.clock && h.answered == g.answered + {q}
  {
    hide Measures, DataCuts;
  }

  lemma DataKeepsKarn(cfg: Config, c: Consumer, g: Log, q: nat, marked: bool, now: real, k: real)
    requires Karn(c, g) && c.window.size != 0.0
    ensures Karn(OnData(cfg, c, q, marked, now, k), LogData(cfg, c, g, q, marked, now))
  {
    hide HistoryIs, Counted, OnData, LogData, R.Acked;
    OnDataKarn(cfg, c, q, marked, now, k);
    LogDataKarn(cfg, c, g, q, marked, now);
    AckedRemoves(c.rtt, c.seqFullDelay, g.timedOut, q, now);
    CountedAnswered(c.seqFullDelay, c.retxSeqs, c.seqRetxCounts, g, c.seqNo, q);
    CountedOnly(c.seqFullDelay - {q}, c.retxSeqs - {q}, c.seqRetxCounts - {q}, g, LogData(cfg, c, g, q, marked, now),
                c.seqNo);
  }

  lemma OnTimeoutKarn(cfg: Config, c: Consumer, q: nat, now: real)
    ensures
      var d := OnTimeout(cfg, c, q, now);
      && d.seqFullDelay == c.seqFullDelay && d.seqRetxCounts == c.seqRetxCounts
      && d.retxSeqs == c.retxSeqs + {q} && d.rtt == R.Sent(R.Increased(c.rtt), q, now) && d.seqNo == c.seqNo
  {
    hide R.Sent, R.Increased, TimeoutWindow;
  }

  lemma LogTimeoutKarn(cfg: Config, c: Consumer, g: Log, q: nat)
    ensures
      var h := LogTimeout(cfg, c, g, q);
      h.timedOut == g.timedOut + {q} && h.sends == g.sends && h.clock == g.clock && h.answered == g.answered
  {
    hide Cuts;
  }

  lemma TimeoutKeepsKarn(cfg: Config, c: Consumer, g: Log, q: nat, now: real)
    requires Books(cfg, c, g.answered) && Karn(c, g) && q in c.seqTimeouts
    ensures Karn(OnTimeout(cfg, c, q, now), LogTimeout(cfg, c, g, q))
  {
    hide Books, HistoryIs, Counted, OnTimeout, LogTimeout, R.Sent;
    BooksMaps(cfg, c, g);
    OnTimeoutKarn(cfg, c, q, now);
    LogTimeoutKarn(cfg, c, g, q);
    SentOld(R.Increased(c.rtt), c.seqFullDelay, g.timedOut, q, now);
    CountedLate(c.seqFullDelay, c.retxSeqs, c.seqRetxCounts, g, c.seqNo, q);
    CountedOnly(c.seqFullDelay, c.retxSeqs + {q}, c.seqRetxCounts, g.(timedOut := g.timedOut + {q}),
                LogTimeout(cfg, c, g, q), c.seqNo);
  }

  /** An answer is measured exactly when its number is unanswered and never timed out; it was
      then sent once, and the sample, its age, is not negative. */
  lemma SampleIff(cfg: Config, c: Consumer, g: Log, q: nat)
    requires Books(cfg, c, g.answered) && Karn(c, g) && cfg.start <= q < c.seqNo
    ensures Measures(c.rtt.history, q) <==> q !in g.answered && q !in g.timedOut
    ensures Measures(c.rtt.history, q) ==>
              && q in g.sends && g.sends[q] == 1 && q in c.seqFullDelay
              && c.rtt.history[R.Position(c.rtt.history, q)].time == c.seqFullDelay[q] <= g.clock
  {
    hide HistoryIs, Measures, R.Position;
    assert q in c.seqFullDelay <==> q !in g.answered;
    MeasuredIff(c.rtt.history, c.seqFullDelay, g.timedOut, q);
  }
}
