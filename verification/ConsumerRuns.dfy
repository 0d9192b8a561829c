/** Runs of the consumer: any sequence of sends, answers and timer checks. */
module ConsumerRuns {
  import opened Consumers
  import opened RttHistories
  import R = RttEstimators
  import W = Windows

  datatype Event =
    | Send(now: real)
    | Data(q: nat, marked: bool, now: real, k: real)
    | Check(now: real, order: seq<nat>)

  /** What the properties remember of a run: answered numbers, numbers that ever timed out,
      how often each number was sent, when first and when last, the clock, how many answers
      came, how many of them for numbers that were not outstanding, the range of samples, the
      timeouts since the multiplier was last reset, and the window decreases with the next
      number at the last one. */
  datatype Log = Log(
    answered: set<nat>,
    timedOut: set<nat>,
    sends: map<nat, nat>,
    firstSent: map<nat, real>,
    lastSent: map<nat, real>,
    clock: real,
    acks: nat,
    strays: nat,
    lo: real,
    hi: real,
    sinceReset: nat,
    cuts: nat,
    lastCut: nat)

  datatype World = World(c: Consumer, log: Log)

  function Start(cfg: Config, now: real): World {
    World(Initial(cfg, now), Log({}, {}, map[], map[], map[], now, 0, 0, 0.0, 0.0, 0, 0, 0))
  }

  function Count(m: map<nat, nat>, q: nat): nat {
    if q in m then m[q] else 0
  }

  ghost function LogSend(cfg: Config, c: Consumer, g: Log, now: real): Log {
    if Sending(cfg, c) then LogSent(g, NextNumber(c), now) else g
  }

  function LogSent(g: Log, q: nat, now: real): Log {
    g.(sends := g.sends[q := Count(g.sends, q) + 1],
       firstSent := if q in g.firstSent then g.firstSent else g.firstSent[q := now],
       lastSent := g.lastSent[q := now])
  }

  /** Whether a congestion signal now decreases the window. */
  predicate Cuts(cfg: Config, w: W.Window) {
    cfg.kind == Pcon && W.Decreases(cfg.window, w)
  }

  function LogCut(g: Log, seqNo: nat, cut: bool): Log {
    if cut then g.(cuts := g.cuts + 1, lastCut := seqNo) else g
  }

  function LogSample(g: Log, r: R.Rtt, q: nat, now: real): Log {
    if !Measures(r.history, q) then g
    else
      var m := now - r.history[R.Position(r.history, q)].time;
      g.(lo := if r.samples > 0 then R.Min(g.lo, m) else m,
         hi := if r.samples > 0 then R.Max(g.hi, m) else m,
         sinceReset := 0)
  }

  function DataCuts(cfg: Config, w: W.Window, q: nat, marked: bool): bool {
    marked && cfg.window.reactToMarks && Cuts(cfg, W.SawData(w, q))
  }

  function LogData(cfg: Config, c: Consumer, g: Log, q: nat, marked: bool, now: real): Log {
    LogSample(LogCut(g, c.seqNo, DataCuts(cfg, c.window, q, marked)), c.rtt, q, now).(
      answered := g.answered + {q},
      acks := g.acks + 1,
      strays := if q in c.seqTimeouts then g.strays else g.strays + 1)
  }

  function LogTimeout(cfg: Config, c: Consumer, g: Log, q: nat): Log {
    LogCut(g, c.seqNo, Cuts(cfg, c.window)).(
      timedOut := g.timedOut + {q},
      sinceReset := g.sinceReset + 1)
  }

  ghost function AfterSend(cfg: Config, w: World, now: real): World {
    World(SendPacket(cfg, w.c, now), LogSend(cfg, w.c, w.log, now))
  }

  function AfterData(cfg: Config, w: World, q: nat, marked: bool, now: real, k: real): World
    requires w.c.window.size != 0.0
  {
    World(OnData(cfg, w.c, q, marked, now, k), LogData(cfg, w.c, w.log, q, marked, now))
  }

  function AfterTimeout(cfg: Config, w: World, q: nat, now: real): World {
    World(OnTimeout(cfg, w.c, q, now), LogTimeout(cfg, w.c, w.log, q))
  }

  function AfterTimeouts(cfg: Config, w: World, order: seq<nat>, now: real): World {
    if order == [] then w
    else AfterTimeout(cfg, AfterTimeouts(cfg, w, order[..|order| - 1], now), order[|order| - 1], now)
  }

  function At(w: World, now: real): World {
    w.(log := w.log.(clock := now))
  }

  /** What the environment may do: time does not run backwards, answers come only for
      numbers that were sent, and the timer takes exactly the expired numbers. */
  ghost predicate Enabled(cfg: Config, w: World, ev: Event) {
    && w.log.clock <= ev.now
    && match ev
       case Send(_) => true
       case Data(q, _, _, _) => cfg.start <= q < w.c.seqNo
       case Check(now, order) => ExpiryOrder(w.c, order, now)
  }

  /** The code divides by the window: an event on a zero window is not modelled, and the
      invariants show that it never happens. */
  ghost function Step(cfg: Config, w: World, ev: Event): World
    requires ev.Data? ==> w.c.window.size != 0.0
  {
    match ev
    case Send(now) => At(AfterSend(cfg, w, now), now)
    case Data(q, marked, now, k) => At(AfterData(cfg, w, q, marked, now, k), now)
    case Check(now, order) => At(AfterTimeouts(cfg, w, order, now), now)
  }
}
