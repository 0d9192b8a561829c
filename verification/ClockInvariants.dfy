/** When numbers were sent and how many are in flight: what the time maps of the consumer have to
    do with the actual sendings of a run. */
module ClockInvariants {
  import opened Consumers
  import opened ConsumerRuns
  import opened ConsumerBooks
  import R = RttEstimators
  import RttHistories

  /** Every time in `m` is the one logged for its number. */
  ghost predicate Follows(m: map<nat, real>, log: map<nat, real>) {
    forall q: nat :: q in m ==> q in log && m[q] == log[q]
  }

  /** The timer and the last delay go by the last sending of a number, the full delay by its first;
      and at most the stray answers are missing from the count of numbers in flight. */
  ghost predicate Timed(c: Consumer, g: Log) {
    && Follows(c.seqTimeouts, g.lastSent) && Follows(c.seqLastDelay, g.lastSent)
    && Follows(c.seqFullDelay, g.firstSent)
    && (forall q: nat :: q in g.firstSent ==> q < c.seqNo)
    && |c.seqTimeouts| <= c.inFlight + g.strays
  }

  /** Only numbers from the first up to before the maximum are ever sent. */
  ghost predicate Capped(cfg: Config, c: Consumer, g: Log) {
    && (cfg.seqMax != NO_SEQ ==> c.seqNo <= cfg.seqMax || c.seqNo == cfg.start)
    && (forall q: nat :: q in g.sends ==> cfg.start <= q < c.seqNo)
  }

  lemma FollowsPut(m: map<nat, real>, log: map<nat, real>, q: nat, t: real)
    requires Follows(m, log)
    ensures Follows(m[q := t], log[q := t])
  {
  }

  lemma FollowsDrop(m: map<nat, real>, log: map<nat, real>, q: nat)
    requires Follows(m, log)
    ensures Follows(m - {q}, log)
  {
  }

  lemma FollowsFirst(m: map<nat, real>, log: map<nat, real>, q: nat, t: real)
    requires Follows(m, log) && (q in m || q !in log)
    ensures Follows(InsertOnce(m, q, t), if q in log then log else log[q := t])
  {
  }

  lemma WillSendTimes(c: Consumer, q: nat, now: real)
    requires q !in c.seqTimeouts
    ensures
      var d := WillSend(c, q, now);
      && d.seqTimeouts == c.seqTimeouts[q := now] && d.seqLastDelay == c.seqLastDelay[q := now]
      && d.seqFullDelay == InsertOnce(c.seqFullDelay, q, now)
      && d.inFlight == c.inFlight + 1 && d.seqNo == c.seqNo
      && |d.seqTimeouts| == |c.seqTimeouts| + 1
  {
    hide R.Sent;
    AddKey(c.seqTimeouts, q, now);
  }

  lemma LogSentTimes(g: Log, q: nat, now: real)
    ensures
      var h := LogSent(g, q, now);
      && h.lastSent == g.lastSent[q := now] && h.strays == g.strays
      && h.firstSent == (if q in g.firstSent then g.firstSent else g.firstSent[q := now])
      && h.sends.Keys == g.sends.Keys + {q}
  {
  }

  lemma WillSendKeepsTimed(c: Consumer, g: Log, q: nat, now: real)
    requires Timed(c, g) && q !in c.seqTimeouts && (q in c.seqFullDelay || q !in g.firstSent) && q < c.seqNo
    ensures Timed(WillSend(c, q, now), LogSent(g, q, now))
  {
    hide WillSend, LogSent, Follows, InsertOnce;
    WillSendTimes(c, q, now);
    LogSentTimes(g, q, now);
    FollowsPut(c.seqTimeouts, g.lastSent, q, now);
    FollowsPut(c.seqLastDelay, g.lastSent, q, now);
    FollowsFirst(c.seqFullDelay, g.firstSent, q, now);
  }

  lemma TimedOnly(c: Consumer, d: Consumer, g: Log, h: Log)
    requires Timed(c, g) && c.seqNo <= d.seqNo
    requires d.seqTimeouts == c.seqTimeouts && d.seqLastDelay == c.seqLastDelay && d.seqFullDelay == c.seqFullDelay
    requires d.inFlight == c.inFlight && h.strays == g.strays
    requires h.firstSent == g.firstSent && h.lastSent == g.lastSent
    ensures Timed(d, h)
  {
    hide Follows;
  }

  lemma ResendKeepsTimed(cfg: Config, c: Consumer, g: Log, q: nat, now: real)
    requires Books(cfg, c, g.answered) && Timed(c, g) && q in c.retxSeqs
    ensures Timed(WillSend(c.(retxSeqs := c.retxSeqs - {q}), q, now), LogSent(g, q, now))
  {
    hide WillSend, LogSent, Timed, MapsHold;
    BooksGive(cfg, c, g.answered);
    var rest := c.(retxSeqs := c.retxSeqs - {q});
    TimedOnly(c, rest, g, g);
    WillSendKeepsTimed(rest, g, q, now);
  }

  lemma BooksGive(cfg: Config, c: Consumer, answered: set<nat>)
    requires Books(cfg, c, answered)
    ensures c.seqNo !in c.seqTimeouts && c.seqNo !in c.retxSeqs && cfg.start <= c.seqNo
    ensures forall q :: q in c.retxSeqs ==> q in c.seqFullDelay && q !in c.seqTimeouts && cfg.start <= q < c.seqNo
  {
  }

  lemma SendNewKeepsTimed(cfg: Config, c: Consumer, g: Log, now: real)
    requires Books(cfg, c, g.answered) && Timed(c, g)
    ensures Timed(WillSend(c.(seqNo := c.seqNo + 1), c.seqNo, now), LogSent(g, c.seqNo, now))
  {
    hide WillSend, LogSent, Books, Follows;
    BooksGive(cfg, c, g.answered);
    var next := c.(seqNo := c.seqNo + 1);
    assert c.seqNo !in g.firstSent;
    TimedOnly(c, next, g, g);
    WillSendKeepsTimed(next, g, c.seqNo, now);
  }

  lemma SendKeepsTimed(cfg: Config, c: Consumer, g: Log, now: real)
    requires Books(cfg, c, g.answered) && Timed(c, g) && c.seqNo < NO_SEQ
    ensures Timed(SendPacket(cfg, c, now), LogSend(cfg, c, g, now))
  {
    hide Books, Timed, WillSend, SendPacket, LogSent;
    SendIsOneOf(cfg, c, g.answered, now);
    if c.retxSeqs != {} {
      ResendKeepsTimed(cfg, c, g, Least(c.retxSeqs), now);
    } else if !Done(cfg, c) {
      SendNewKeepsTimed(cfg, c, g, now);
    }
  }

  lemma SendKeepsCapped(cfg: Config, c: Consumer, g: Log, now: real)
    requires Books(cfg, c, g.answered) && Capped(cfg, c, g) && c.seqNo < NO_SEQ
    ensures Capped(cfg, SendPacket(cfg, c, now), LogSend(cfg, c, g, now))
  {
    hide Books, WillSend, SendPacket, LogSent;
    SendIsOneOf(cfg, c, g.answered, now);
    BooksGive(cfg, c, g.answered);
    if c.retxSeqs != {} {
      var q := Least(c.retxSeqs);
      WillSendLeaves(c.(retxSeqs := c.retxSeqs - {q}), q, now);
      LogSentTimes(g, q, now);
    } else if !Done(cfg, c) {
      WillSendLeaves(c.(seqNo := c.seqNo + 1), c.seqNo, now);
      LogSentTimes(g, c.seqNo, now);
    }
  }

  lemma OnDataTimes(cfg: Config, c: Consumer, q: nat, marked: bool, now: real, k: real)
    requires c.window.size != 0.0
    ensures
      var d := OnData(cfg, c, q, marked, now, k);
      && d.seqTimeouts == c.seqTimeouts - {q} && d.seqLastDelay == c.seqLastDelay - {q}
      && d.seqFullDelay == c.seqFullDelay - {q} && d.seqNo == c.seqNo && d.inFlight == OneLess(c.inFlight)
  {
    hide R.Acked, DataWindow;
  }

  lemma LogDataTimes(cfg: Config, c: Consumer, g: Log, q: nat, marked: bool, now: real)
    ensures
      var h := LogData(cfg, c, g, q, marked, now);
      && h.firstSent == g.firstSent && h.lastSent == g.lastSent && h.sends == g.sends
      && h.strays == g.strays + if q in c.seqTimeouts then 0 else 1
  {
    hide RttHistories.Measures, DataCuts;
  }

  lemma DataKeepsTimed(cfg: Config, c: Consumer, g: Log, q: nat, marked: bool, now: real, k: real)
    requires Timed(c, g) && c.window.size != 0.0
    ensures Timed(OnData(cfg, c, q, marked, now, k), LogData(cfg, c, g, q, marked, now))
  {
    hide Follows, OnData, LogData;
    OnDataTimes(cfg, c, q, marked, now, k);
    LogDataTimes(cfg, c, g, q, marked, now);
    RemoveKey(c.seqTimeouts, q);
    FollowsDrop(c.seqTimeouts, g.lastSent, q);
    FollowsDrop(c.seqLastDelay, g.lastSent, q);
    FollowsDrop(c.seqFullDelay, g.firstSent, q);
  }

  lemma CappedOnly(cfg: Config, c: Consumer, d: Consumer, g: Log, h: Log)
    requires Capped(cfg, c, g) && d.seqNo == c.seqNo && h.sends == g.sends
    ensures Capped(cfg, d, h)
  {
  }

  lemma OnTimeoutTimes(cfg: Config, c: Consumer, q: nat, now: real)
    ensures
      var d := OnTimeout(cfg, c, q, now);
      && d.seqTimeouts == c.seqTimeouts - {q} && d.seqLastDelay == c.seqLastDelay
      && d.seqFullDelay == c.seqFullDelay && d.seqNo == c.seqNo && d.inFlight == OneLess(c.inFlight)
  {
    hide R.Sent, R.Increased, TimeoutWindow;
  }

  lemma LogTimeoutTimes(cfg: Config, c: Consumer, g: Log, q: nat)
    ensures
      var h := LogTimeout(cfg, c, g, q);
      h.firstSent == g.firstSent && h.lastSent == g.lastSent && h.sends == g.sends && h.strays == g.strays
  {
    hide Cuts;
  }

  lemma TimeoutKeepsTimed(cfg: Config, c: Consumer, g: Log, q: nat, now: real)
    requires Timed(c, g) && q in c.seqTimeouts
    ensures Timed(OnTimeout(cfg, c, q, now), LogTimeout(cfg, c, g, q))
  {
    hide Follows, OnTimeout, LogTimeout;
    OnTimeoutTimes(cfg, c, q, now);
    LogTimeoutTimes(cfg, c, g, q);
    RemoveKey(c.seqTimeouts, q);
    FollowsDrop(c.seqTimeouts, g.lastSent, q);
  }
}
