/** The consumer's reliability state machine: which numbers are outstanding, waiting to be
    sent again, or answered, together with its estimator and its window. */
module Consumers {
  import R = RttEstimators
  import W = Windows

  /** The sequence number that stands for none: the largest 32-bit number. */
  const NO_SEQ: nat := 0xFFFF_FFFF

  /** The plain window consumer grows by one per answer; the congestion-controlled one
      follows the window adaptation. */
  datatype Kind = PlainWindow(resetOnTimeout: bool) | Pcon

  datatype Config = Config(kind: Kind, window: W.WindowParams, rtt: R.RttParams, start: nat, seqMax: nat)

  datatype Consumer = Consumer(
    seqNo: nat,
    retxSeqs: set<nat>,
    seqTimeouts: map<nat, real>,
    seqLastDelay: map<nat, real>,
    seqFullDelay: map<nat, real>,
    seqRetxCounts: map<nat, nat>,
    rtt: R.Rtt,
    window: W.Window,
    inFlight: nat)

  function Initial(cfg: Config, now: real): Consumer {
    Consumer(cfg.start, {}, map[], map[], map[], map[], R.Initial(cfg.rtt), W.Initial(cfg.window, now), 0)
  }

  predicate IsLeast(s: set<nat>, m: nat) {
    m in s && forall x :: x in s ==> m <= x
  }

  lemma {:induction false} LeastExists(s: set<nat>) returns (m: nat)
    requires s != {}
    ensures IsLeast(s, m)
  {
    var x: nat :| x in s;
    if s == {x} {
      m := x;
    } else {
      var rest := s - {x};
      m := LeastExists(rest);
      assert s == rest + {x};
      m := if m < x then m else x;
    }
  }

  ghost function Least(s: set<nat>): (m: nat)
    requires s != {}
    ensures IsLeast(s, m)
  {
    assert exists m: nat :: IsLeast(s, m) by {
      var m := LeastExists(s);
    }
    var m: nat :| IsLeast(s, m);
    m
  }

  /** Inserting into a unique index keeps an entry that is already there. */
  function InsertOnce(m: map<nat, real>, q: nat, t: real): map<nat, real> {
    if q in m then m else m[q := t]
  }

  /** Bookkeeping just before number `q` goes out. */
  function WillSend(c: Consumer, q: nat, now: real): Consumer {
    c.(inFlight := c.inFlight + 1,
       seqTimeouts := InsertOnce(c.seqTimeouts, q, now),
       seqFullDelay := InsertOnce(c.seqFullDelay, q, now),
       seqLastDelay := c.seqLastDelay[q := now],
       seqRetxCounts := c.seqRetxCounts[q := (if q in c.seqRetxCounts then c.seqRetxCounts[q] else 0) + 1],
       rtt := R.Sent(c.rtt, q, now))
  }

  predicate Done(cfg: Config, c: Consumer) {
    cfg.seqMax != NO_SEQ && c.seqNo >= cfg.seqMax
  }

  /** Whether some number waits to be sent again. */
  ghost predicate Resending(c: Consumer) {
    c.retxSeqs != {} && Least(c.retxSeqs) != NO_SEQ
  }

  ghost predicate Sending(cfg: Config, c: Consumer) {
    Resending(c) || !Done(cfg, c)
  }

  /** The number that goes out next, if any does. */
  ghost function NextNumber(c: Consumer): nat {
    if Resending(c) then Least(c.retxSeqs) else c.seqNo
  }

  /** Sends the least number waiting to be sent again, or else a new one unless all are sent. */
  ghost function SendPacket(cfg: Config, c: Consumer, now: real): Consumer {
    var rest := if c.retxSeqs == {} then c else c.(retxSeqs := c.retxSeqs - {Least(c.retxSeqs)});
    if Resending(c) then WillSend(rest, Least(c.retxSeqs), now)
    else if Done(cfg, c) then rest
    else WillSend(rest.(seqNo := (c.seqNo + 1) % (NO_SEQ + 1)), c.seqNo, now)
  }

  function OneLess(n: nat): nat {
    if n > 0 then n - 1 else 0
  }

  /** Forgets an answered number everywhere. */
  function Forget(c: Consumer, q: nat, now: real): Consumer {
    c.(seqRetxCounts := c.seqRetxCounts - {q},
       seqFullDelay := c.seqFullDelay - {q},
       seqLastDelay := c.seqLastDelay - {q},
       seqTimeouts := c.seqTimeouts - {q},
       retxSeqs := c.retxSeqs - {q},
       rtt := R.Acked(c.rtt, q, now))
  }

  function DataWindow(cfg: Config, w: W.Window, seqNo: nat, q: nat, marked: bool, now: real, k: real): W.Window
    requires w.size != 0.0
  {
    match cfg.kind
    case PlainWindow(_) => w.(size := w.size + 1.0)
    case Pcon =>
      var v := W.SawData(w, q);
      if !marked then W.Increase(cfg.window, v, now, k)
      else if cfg.window.reactToMarks then W.Decrease(cfg.window, v, seqNo, now)
      else v
  }

  function OnData(cfg: Config, c: Consumer, q: nat, marked: bool, now: real, k: real): Consumer
    requires c.window.size != 0.0
  {
    Forget(c, q, now).(window := DataWindow(cfg, c.window, c.seqNo, q, marked, now, k), inFlight := OneLess(c.inFlight))
  }

  function TimeoutWindow(cfg: Config, w: W.Window, seqNo: nat, now: real): W.Window {
    match cfg.kind
    case PlainWindow(reset) => if reset then w.(size := cfg.window.initialWindow as real) else w
    case Pcon => W.Decrease(cfg.window, w, seqNo, now)
  }

  /** The timer finds `q` expired: it leaves the outstanding numbers and waits to be sent again. */
  function OnTimeout(cfg: Config, c: Consumer, q: nat, now: real): Consumer {
    c.(seqTimeouts := c.seqTimeouts - {q},
       retxSeqs := c.retxSeqs + {q},
       rtt := R.Sent(R.Increased(c.rtt), q, now),
       window := TimeoutWindow(cfg, c.window, c.seqNo, now),
       inFlight := OneLess(c.inFlight))
  }

  predicate Expired(c: Consumer, q: nat, rto: real, now: real) {
    q in c.seqTimeouts && c.seqTimeouts[q] + rto <= now
  }

  function TimeoutAll(cfg: Config, c: Consumer, order: seq<nat>, now: real): Consumer {
    if order == [] then c
    else OnTimeout(cfg, TimeoutAll(cfg, c, order[..|order| - 1], now), order[|order| - 1], now)
  }

  /** Exactly the expired numbers, each once, oldest first. */
  ghost predicate ExpiryOrder(c: Consumer, order: seq<nat>, now: real) {
    && (forall q :: q in order <==> Expired(c, q, R.RetransmitTimeout(c.rtt), now))
    && (forall i, j :: 0 <= i < j < |order| ==> order[i] != order[j])
    && (forall i, j :: 0 <= i < j < |order| && order[i] in c.seqTimeouts && order[j] in c.seqTimeouts ==>
          c.seqTimeouts[order[i]] <= c.seqTimeouts[order[j]])
  }
}
