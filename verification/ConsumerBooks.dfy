/** No number is lost: the books a consumer keeps about the numbers it sent. */
module ConsumerBooks {
  import opened Consumers
  import R = RttEstimators

  /** The numbers sent and not yet answered. */
  function Pending(c: Consumer): set<nat> {
    c.seqTimeouts.Keys + c.retxSeqs
  }

  /** The delay and count maps hold exactly the numbers of `s`. */
  ghost predicate MapsHold(c: Consumer, s: set<nat>) {
    c.seqLastDelay.Keys == s && c.seqFullDelay.Keys == s && c.seqRetxCounts.Keys == s
  }

  /** Each number from `first` up to before `next` is outstanding, waiting to be sent again,
      or answered, only one of these, and no other number is any of them. */
  ghost predicate Split(out: set<nat>, retx: set<nat>, answered: set<nat>, first: nat, next: nat) {
    && out !! retx && answered !! out && answered !! retx
    && first <= next
    && forall q: nat :: q in out || q in retx || q in answered <==> first <= q < next
  }

  /** No number is lost; the delay and count maps hold the unanswered numbers; and no more
      are in flight than outstanding. */
  ghost predicate Books(cfg: Config, c: Consumer, answered: set<nat>) {
    && Split(c.seqTimeouts.Keys, c.retxSeqs, answered, cfg.start, c.seqNo)
    && MapsHold(c, Pending(c))
    && c.inFlight <= |c.seqTimeouts|
  }

  lemma SplitResend(out: set<nat>, retx: set<nat>, answered: set<nat>, first: nat, next: nat, q: nat)
    requires Split(out, retx, answered, first, next) && q in retx
    ensures Split(out + {q}, retx - {q}, answered, first, next)
    ensures out + retx == (out + {q}) + (retx - {q}) == (out + retx) + {q}
    ensures q !in answered && q !in out && first <= q < next
  {
  }

  lemma SplitNew(out: set<nat>, retx: set<nat>, answered: set<nat>, first: nat, next: nat)
    requires Split(out, retx, answered, first, next)
    ensures Split(out + {next}, retx, answered, first, next + 1)
    ensures (out + {next}) + retx == (out + retx) + {next}
    ensures next !in answered && next !in out && next !in retx
  {
  }

  lemma SplitAnswer(out: set<nat>, retx: set<nat>, answered: set<nat>, first: nat, next: nat, q: nat)
    requires Split(out, retx, answered, first, next) && first <= q < next
    ensures Split(out - {q}, retx - {q}, answered + {q}, first, next)
    ensures (out - {q}) + (retx - {q}) == (out + retx) - {q}
  {
  }

  lemma SplitExpire(out: set<nat>, retx: set<nat>, answered: set<nat>, first: nat, next: nat, q: nat)
    requires Split(out, retx, answered, first, next) && q in out
    ensures Split(out - {q}, retx + {q}, answered, first, next)
    ensures (out - {q}) + (retx + {q}) == out + retx
  {
  }

  lemma AddKey(m: map<nat, real>, q: nat, t: real)
    requires q !in m
    ensures |m[q := t]| == |m| + 1
  {
    assert m[q := t].Keys == m.Keys + {q};
  }

  lemma RemoveKey(m: map<nat, real>, q: nat)
    ensures |m - {q}| == if q in m then |m| - 1 else |m|
  {
    if q in m {
      AddKey(m - {q}, q, m[q]);
      assert (m - {q})[q := m[q]] == m;
    } else {
      assert m - {q} == m;
    }
  }

  lemma WillSendMaps(c: Consumer, q: nat, now: real, s: set<nat>)
    requires MapsHold(c, s)
    ensures MapsHold(WillSend(c, q, now), s + {q})
  {
    hide R.Sent;
  }

  lemma WillSendOutstanding(c: Consumer, q: nat, now: real)
    requires q !in c.seqTimeouts && c.inFlight <= |c.seqTimeouts|
    ensures WillSend(c, q, now).seqTimeouts.Keys == c.seqTimeouts.Keys + {q}
    ensures WillSend(c, q, now).inFlight <= |WillSend(c, q, now).seqTimeouts|
  {
    hide R.Sent;
    AddKey(c.seqTimeouts, q, now);
  }

  lemma WillSendLeaves(c: Consumer, q: nat, now: real)
    ensures WillSend(c, q, now).retxSeqs == c.retxSeqs && WillSend(c, q, now).seqNo == c.seqNo
  {
    hide R.Sent;
  }

  lemma WillSendFacts(c: Consumer, q: nat, now: real, s: set<nat>)
    requires q !in c.seqTimeouts && c.inFlight <= |c.seqTimeouts| && MapsHold(c, s)
    ensures
      var d := WillSend(c, q, now);
      && d.seqTimeouts.Keys == c.seqTimeouts.Keys + {q}
      && MapsHold(d, s + {q})
      && d.inFlight <= |d.seqTimeouts|
      && d.retxSeqs == c.retxSeqs && d.seqNo == c.seqNo
  {
    hide *;
    WillSendMaps(c, q, now, s);
    WillSendOutstanding(c, q, now);
    WillSendLeaves(c, q, now);
  }

  lemma MapsOnly(c: Consumer, d: Consumer, s: set<nat>)
    requires MapsHold(c, s)
    requires d.seqLastDelay == c.seqLastDelay && d.seqFullDelay == c.seqFullDelay && d.seqRetxCounts == c.seqRetxCounts
    ensures MapsHold(d, s)
  {
  }

  lemma ResendKeepsBooks(cfg: Config, c: Consumer, answered: set<nat>, q: nat, now: real)
    requires Books(cfg, c, answered) && q in c.retxSeqs
    ensures Books(cfg, WillSend(c.(retxSeqs := c.retxSeqs - {q}), q, now), answered)
    ensures q !in answered
  {
    hide WillSend, Split, MapsHold;
    var rest := c.(retxSeqs := c.retxSeqs - {q});
    MapsOnly(c, rest, Pending(c));
    SplitResend(c.seqTimeouts.Keys, c.retxSeqs, answered, cfg.start, c.seqNo, q);
    WillSendFacts(rest, q, now, Pending(c));
  }

  lemma SendNewKeepsBooks(cfg: Config, c: Consumer, answered: set<nat>, now: real)
    requires Books(cfg, c, answered)
    ensures Books(cfg, WillSend(c.(seqNo := c.seqNo + 1), c.seqNo, now), answered)
    ensures c.seqNo !in answered && c.seqNo !in Pending(c)
  {
    hide WillSend, Split, MapsHold;
    var next := c.(seqNo := c.seqNo + 1);
    MapsOnly(c, next, Pending(c));
    SplitNew(c.seqTimeouts.Keys, c.retxSeqs, answered, cfg.start, c.seqNo);
    WillSendFacts(next, c.seqNo, now, Pending(c));
  }

  /** A send keeps the books, and never sends an answered number. */
  lemma SendKeepsBooks(cfg: Config, c: Consumer, answered: set<nat>, now: real)
    requires Books(cfg, c, answered) && c.seqNo < NO_SEQ
    ensures Books(cfg, SendPacket(cfg, c, now), answered)
    ensures NextNumber(c) !in answered
    ensures Sending(cfg, c) ==> NextNumber(c) in Pending(c) || NextNumber(c) == c.seqNo
  {
    SendIsOneOf(cfg, c, answered, now);
    hide Books, WillSend;
    if c.retxSeqs != {} {
      ResendKeepsBooks(cfg, c, answered, Least(c.retxSeqs), now);
    } else {
      SendNewKeepsBooks(cfg, c, answered, now);
    }
  }

  /** Below the largest number, a send is one of three steps. */
  lemma SendIsOneOf(cfg: Config, c: Consumer, answered: set<nat>, now: real)
    requires Books(cfg, c, answered) && c.seqNo < NO_SEQ
    ensures Resending(c) <==> c.retxSeqs != {}
    ensures SendPacket(cfg, c, now) ==
            if c.retxSeqs != {} then WillSend(c.(retxSeqs := c.retxSeqs - {Least(c.retxSeqs)}), Least(c.retxSeqs), now)
            else if Done(cfg, c) then c
            else WillSend(c.(seqNo := c.seqNo + 1), c.seqNo, now)
  {
    hide WillSend;
    if c.retxSeqs != {} {
      assert cfg.start <= Least(c.retxSeqs) < c.seqNo;
    }
  }

  lemma ForgetMaps(c: Consumer, q: nat, now: real, s: set<nat>)
    requires MapsHold(c, s)
    ensures MapsHold(Forget(c, q, now), s - {q})
  {
    hide R.Acked;
  }

  lemma ForgetOutstanding(c: Consumer, q: nat, now: real)
    requires c.inFlight <= |c.seqTimeouts|
    ensures Forget(c, q, now).seqTimeouts.Keys == c.seqTimeouts.Keys - {q}
    ensures Forget(c, q, now).retxSeqs == c.retxSeqs - {q}
    ensures OneLess(c.inFlight) <= |Forget(c, q, now).seqTimeouts|
  {
    hide R.Acked;
    RemoveKey(c.seqTimeouts, q);
  }

  lemma OnDataFields(cfg: Config, c: Consumer, q: nat, marked: bool, now: real, k: real)
    requires c.window.size != 0.0
    ensures
      var d := OnData(cfg, c, q, marked, now, k);
      var f := Forget(c, q, now);
      && d.seqTimeouts == f.seqTimeouts && d.retxSeqs == f.retxSeqs && d.seqNo == c.seqNo
      && d.seqLastDelay == f.seqLastDelay && d.seqFullDelay == f.seqFullDelay && d.seqRetxCounts == f.seqRetxCounts
      && d.inFlight == OneLess(c.inFlight)
  {
    hide R.Acked, DataWindow;
  }

  /** Any answer, also a repeated one, keeps the books and marks its number answered. */
  lemma DataKeepsBooks(cfg: Config, c: Consumer, answered: set<nat>, q: nat, marked: bool, now: real, k: real)
    requires Books(cfg, c, answered) && c.window.size != 0.0 && cfg.start <= q < c.seqNo
    ensures Books(cfg, OnData(cfg, c, q, marked, now, k), answered + {q})
  {
    hide Forget, MapsHold, OnData, Split;
    ForgetMaps(c, q, now, Pending(c));
    ForgetOutstanding(c, q, now);
    OnDataFields(cfg, c, q, marked, now, k);
    SplitAnswer(c.seqTimeouts.Keys, c.retxSeqs, answered, cfg.start, c.seqNo, q);
    MapsOnly(Forget(c, q, now), OnData(cfg, c, q, marked, now, k), Pending(c) - {q});
  }

  lemma TimeoutKeepsBooks(cfg: Config, c: Consumer, answered: set<nat>, q: nat, now: real)
    requires Books(cfg, c, answered) && q in c.seqTimeouts
    ensures Books(cfg, OnTimeout(cfg, c, q, now), answered)
    ensures Pending(OnTimeout(cfg, c, q, now)) == Pending(c)
  {
    hide R.Sent, R.Increased, TimeoutWindow, Split, MapsHold;
    RemoveKey(c.seqTimeouts, q);
    SplitExpire(c.seqTimeouts.Keys, c.retxSeqs, answered, cfg.start, c.seqNo, q);
    MapsOnly(c, OnTimeout(cfg, c, q, now), Pending(c));
  }
}
