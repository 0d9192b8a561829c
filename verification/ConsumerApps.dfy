/** The consumer object: its handlers update its fields, its estimator and its window in
    place, each as the state machine says. */
module ConsumerApps {
  import opened Consumers
  import R = RttEstimators
  import W = Windows
  import opened WindowControls
  import opened ConsumerRuns

  lemma LeastIs(s: set<nat>, m: nat)
    requires IsLeast(s, m)
    ensures s != {} && m == Least(s)
  {
  }

  lemma {:induction false} OldestExists(m: map<nat, real>) returns (q: nat)
    requires m != map[]
    ensures q in m && forall p :: p in m ==> m[q] <= m[p]
    decreases |m|
  {
    var x: nat :| x in m;
    var rest := m - {x};
    if rest == map[] {
      q := x;
      assert forall p :: p in m && p != x ==> p in rest;
    } else {
      assert rest.Keys < m.Keys;
      assert |rest.Keys| < |m.Keys|;
      q := OldestExists(rest);
      q := if m[q] <= m[x] then q else x;
      assert forall p :: p in m && p != x ==> p in rest;
    }
  }

  /** A timer check is the timeouts of the run, in the same order. */
  lemma {:induction false} TimeoutsAreSteps(cfg: Config, w: World, order: seq<nat>, now: real)
    ensures AfterTimeouts(cfg, w, order, now).c == TimeoutAll(cfg, w.c, order, now)
  {
    hide OnTimeout, LogTimeout;
    if order != [] {
      TimeoutsAreSteps(cfg, w, order[..|order| - 1], now);
    }
  }

  lemma Reinserted(m: map<nat, real>, q: nat, t: real)
    ensures (m - {q})[q := t] == m[q := t]
  {
  }

  lemma Fewer(m: map<nat, real>, q: nat)
    requires q in m
    ensures |m - {q}| < |m|
  {
    assert (m - {q}).Keys < m.Keys;
    assert |(m - {q}).Keys| < |m.Keys|;
  }

  /** The numbers of `order` were outstanding in `m` and have expired, oldest first, and
      `left` holds the others, none of them older. */
  ghost predicate Expiring(m: map<nat, real>, order: seq<nat>, left: map<nat, real>, rto: real, now: real) {
    && (forall q :: q in order ==> q in m && q !in left && m[q] + rto <= now)
    && (forall q :: q in left ==> q in m && left[q] == m[q])
    && (forall q :: q in m ==> q in order || q in left)
    && (forall i, j :: 0 <= i < j < |order| ==> order[i] != order[j])
    && (forall i, j :: 0 <= i < j < |order| ==> order[i] in m && order[j] in m && m[order[i]] <= m[order[j]])
    && (forall x, y :: x in order && y in left ==> x in m && m[x] <= left[y])
  }

  lemma NoneExpired(m: map<nat, real>, rto: real, now: real)
    ensures Expiring(m, [], m, rto, now)
  {
  }

  lemma ExpiringNext(m: map<nat, real>, order: seq<nat>, left: map<nat, real>, rto: real, now: real, q: nat)
    requires Expiring(m, order, left, rto, now)
    requires q in left && left[q] + rto <= now && forall p :: p in left ==> left[q] <= left[p]
    ensures Expiring(m, order + [q], left - {q}, rto, now)
  {
  }

  /** When the oldest number left has not expired, none has. */
  lemma AllExpired(c: Consumer, order: seq<nat>, left: map<nat, real>, now: real, q: nat)
    requires Expiring(c.seqTimeouts, order, left, R.RetransmitTimeout(c.rtt), now)
    requires q in left && left[q] + R.RetransmitTimeout(c.rtt) > now && forall p :: p in left ==> left[q] <= left[p]
    ensures ExpiryOrder(c, order, now)
  {
    hide R.RetransmitTimeout;
  }

  lemma NoneLeft(c: Consumer, order: seq<nat>, now: real)
    requires Expiring(c.seqTimeouts, order, map[], R.RetransmitTimeout(c.rtt), now)
    ensures ExpiryOrder(c, order, now)
  {
    hide R.RetransmitTimeout;
  }

  lemma NoTimeouts(cfg: Config, c: Consumer, now: real)
    ensures TimeoutAll(cfg, c, [], now) == c
  {
  }

  lemma ErasedFirst(cfg: Config, c: Consumer, q: nat, now: real)
    ensures Consumers.OnTimeout(cfg, c.(seqTimeouts := c.seqTimeouts - {q}), q, now) ==
            Consumers.OnTimeout(cfg, c, q, now)
  {
    hide R.Sent, R.Increased, TimeoutWindow;
    assert c.seqTimeouts - {q} - {q} == c.seqTimeouts - {q};
  }

  lemma OneMoreTimeout(cfg: Config, c: Consumer, order: seq<nat>, q: nat, now: real)
    ensures TimeoutAll(cfg, c, order + [q], now) == Consumers.OnTimeout(cfg, TimeoutAll(cfg, c, order, now), q, now)
  {
    hide Consumers.OnTimeout;
    assert (order + [q])[..|order|] == order;
  }

  class ConsumerApp {
    const cfg: Config
    const rtt: R.RttMeanDeviation
    const win: WindowControl
    var seqNo: nat
    var retxSeqs: set<nat>
    var seqTimeouts: map<nat, real>
    var seqLastDelay: map<nat, real>
    var seqFullDelay: map<nat, real>
    var seqRetxCounts: map<nat, nat>
    var inFlight: nat

    constructor (cfg: Config, now: real)
      ensures this.cfg == cfg && win.params == cfg.window && fresh(rtt) && fresh(win)
      ensures State() == Initial(cfg, now)
    {
      this.cfg := cfg;
      rtt := new R.RttMeanDeviation(cfg.rtt);
      win := new WindowControl(cfg.window, now);
      seqNo, retxSeqs, inFlight := cfg.start, {}, 0;
      seqTimeouts, seqLastDelay, seqFullDelay, seqRetxCounts := map[], map[], map[], map[];
    }

    function State(): Consumer
      reads this, rtt, win
    {
      Consumer(seqNo, retxSeqs, seqTimeouts, seqLastDelay, seqFullDelay, seqRetxCounts, rtt.State(), win.Value(),
               inFlight)
    }

    method WillSendOutInterest(q: nat, now: real)
      modifies this, rtt
      ensures State() == WillSend(old(State()), q, now)
    {
      hide R.Sent, InsertOnce;
      Reinserted(seqLastDelay, q, now);
      inFlight := inFlight + 1;
      seqTimeouts := InsertOnce(seqTimeouts, q, now);
      seqFullDelay := InsertOnce(seqFullDelay, q, now);
      seqLastDelay := seqLastDelay - {q};
      seqLastDelay := seqLastDelay[q := now];
      seqRetxCounts := seqRetxCounts[q := (if q in seqRetxCounts then seqRetxCounts[q] else 0) + 1];
      rtt.SentSeq(q, now);
    }

    method SendPacket(now: real) returns (sent: bool, q: nat)
      modifies this, rtt
      ensures State() == Consumers.SendPacket(cfg, old(State()), now)
      ensures sent == old(Sending(cfg, State())) && (sent ==> q == old(NextNumber(State())))
    {
      hide WillSend;
      q := NO_SEQ;
      if retxSeqs != {} {
        ghost var least := LeastExists(retxSeqs);
        q :| IsLeast(retxSeqs, q);
        LeastIs(retxSeqs, q);
        retxSeqs := retxSeqs - {q};
      }
      if q == NO_SEQ {
        if cfg.seqMax != NO_SEQ && seqNo >= cfg.seqMax {
          return false, q;
        }
        q := seqNo;
        seqNo := (seqNo + 1) % (NO_SEQ + 1);
      }
      WillSendOutInterest(q, now);
      sent := true;
    }

    method OnData(q: nat, marked: bool, now: real, k: real)
      requires win.params == cfg.window && win.size != 0.0
      modifies this, rtt, win
      ensures State() == Consumers.OnData(cfg, old(State()), q, marked, now, k)
    {
      hide R.Acked, W.Increase, W.Decrease, W.SawData;
      seqRetxCounts := seqRetxCounts - {q};
      seqFullDelay := seqFullDelay - {q};
      seqLastDelay := seqLastDelay - {q};
      seqTimeouts := seqTimeouts - {q};
      retxSeqs := retxSeqs - {q};
      var _ := rtt.AckSeq(q, now);
      UpdateWindow(q, marked, now, k);
      if inFlight > 0 {
        inFlight := inFlight - 1;
      }
    }

    /** The plain window grows; the congestion-controlled one follows the mark. */
    method UpdateWindow(q: nat, marked: bool, now: real, k: real)
      requires win.params == cfg.window && win.size != 0.0
      modifies win
      ensures win.Value() == DataWindow(cfg, old(win.Value()), seqNo, q, marked, now, k)
    {
      hide W.Increase, W.Decrease;
      if cfg.kind.PlainWindow? {
        win.SetSize(win.size + 1.0);
      } else {
        win.OnHighData(q);
        if marked {
          if cfg.window.reactToMarks {
            win.WindowDecrease(seqNo, now);
          }
        } else {
          win.WindowIncrease(now, k);
        }
      }
    }

    method OnTimeout(q: nat, now: real)
      requires win.params == cfg.window && q !in seqTimeouts
      modifies this, rtt, win
      ensures State() == Consumers.OnTimeout(cfg, old(State()), q, now)
      ensures seqTimeouts == old(seqTimeouts)
    {
      hide R.Sent, R.Increased, W.Decrease;
      if cfg.kind.PlainWindow? {
        if cfg.kind.resetOnTimeout {
          win.SetSize(cfg.window.initialWindow as real);
        }
      } else {
        win.WindowDecrease(seqNo, now);
      }
      if inFlight > 0 {
        inFlight := inFlight - 1;
      }
      rtt.IncreaseMultiplier();
      rtt.SentSeq(q, now);
      retxSeqs := retxSeqs + {q};
      assert seqTimeouts - {q} == seqTimeouts;
    }

    /** Times out every expired number, oldest first, with the timeout as it was at the start. */
    method CheckRetxTimeout(now: real) returns (ghost order: seq<nat>)
      requires win.params == cfg.window
      modifies this, rtt, win
      ensures State() == TimeoutAll(cfg, old(State()), order, now)
      ensures ExpiryOrder(old(State()), order, now)
    {
      hide Consumers.OnTimeout, TimeoutAll, ExpiryOrder, Expiring, Expired, R.RetransmitTimeout;
      var rto := R.RetransmitTimeout(rtt.State());
      ghost var c := State();
      order := [];
      NoneExpired(c.seqTimeouts, rto, now);
      NoTimeouts(cfg, c, now);
      while seqTimeouts != map[]
        invariant State() == TimeoutAll(cfg, c, order, now)
        invariant Expiring(c.seqTimeouts, order, seqTimeouts, rto, now)
        decreases |seqTimeouts|
      {
        ghost var oldest := OldestExists(seqTimeouts);
        var q: nat :| q in seqTimeouts && forall p :: p in seqTimeouts ==> seqTimeouts[q] <= seqTimeouts[p];
        if seqTimeouts[q] + rto <= now {
          ghost var before := State();
          Fewer(seqTimeouts, q);
          ExpiringNext(c.seqTimeouts, order, seqTimeouts, rto, now, q);
          ErasedFirst(cfg, before, q, now);
          OneMoreTimeout(cfg, c, order, q, now);
          seqTimeouts := seqTimeouts - {q};
          OnTimeout(q, now);
          order := order + [q];
        } else {
          AllExpired(c, order, seqTimeouts, now, q);
          return;
        }
      }
      NoneLeft(c, order, now);
    }
  }
}
