/** What every event of the consumer keeps: the estimator's bounds, conservative window
    adaptation, and a safe window. */
module ConsumerInvariants {
  import opened Consumers
  import opened ConsumerRuns
  import opened RttHistories
  import R = RttEstimators
  import W = Windows

  /** Once sampled, the estimate lies between the extreme samples and the deviation below the
      largest; the multiplier is the power of two of the timeouts since its reset, capped. */
  ghost predicate Estimates(p: R.RttParams, r: R.Rtt, g: Log) {
    && r.params == p
    && r.multiplier == R.MinNat(R.Pow2(g.sinceReset), p.maxMultiplier)
    && (r.samples > 0 ==> R.Bounded(r, g.lo, g.hi))
  }

  lemma SentKeepsEstimates(p: R.RttParams, r: R.Rtt, g: Log, q: nat, now: real)
    requires Estimates(p, r, g)
    ensures Estimates(p, R.Sent(r, q, now), g)
  {
    hide R.Position, R.MinNat, R.Pow2;
  }

  lemma TimeoutKeepsEstimates(p: R.RttParams, r: R.Rtt, g: Log, h: Log, q: nat, now: real)
    requires R.SaneParams(p) && Estimates(p, r, g)
    requires h.sinceReset == g.sinceReset + 1 && h.lo == g.lo && h.hi == g.hi
    ensures Estimates(p, R.Sent(R.Increased(r), q, now), h)
  {
    R.MultiplierDoubles(r, g.sinceReset);
    SentKeepsEstimates(p, R.Increased(r), h, q, now);
  }

  lemma AckedMeasures(r: R.Rtt, q: nat, now: real)
    ensures
      var a := R.Acked(r, q, now);
      if Measures(r.history, q)
      then a == R.MultiplierReset(R.Measured(r, now - r.history[R.Position(r.history, q)].time)).(history := a.history)
      else a == r.(history := a.history)
  {
    hide R.Measured;
  }

  /** A sample that is not negative widens the range of samples and keeps the bounds. */
  lemma DataKeepsEstimates(p: R.RttParams, r: R.Rtt, g: Log, q: nat, now: real)
    requires R.SaneParams(p) && Estimates(p, r, g)
    requires Measures(r.history, q) ==> r.history[R.Position(r.history, q)].time <= now
    ensures Estimates(p, R.Acked(r, q, now), LogSample(g, r, q, now))
  {
    hide R.Acked, R.Position, R.Measured, R.Min, R.Max, R.Bounded;
    AckedMeasures(r, q, now);
    if Measures(r.history, q) {
      var m := now - r.history[R.Position(r.history, q)].time;
      R.MeasurementKeepsBounds(r, m, g.lo, g.hi);
      MeasuredParams(r, m);
      ResetEstimates(p, R.Measured(r, m), R.Acked(r, q, now), LogSample(g, r, q, now));
    } else {
      BoundedOnly(r, R.Acked(r, q, now), g.lo, g.hi);
    }
  }

  lemma MeasuredParams(r: R.Rtt, m: real)
    ensures R.Measured(r, m).params == r.params
  {
  }

  lemma BoundedOnly(r: R.Rtt, a: R.Rtt, lo: real, hi: real)
    requires a.samples == r.samples && a.estimate == r.estimate && a.variance == r.variance
    ensures R.Bounded(a, lo, hi) == R.Bounded(r, lo, hi)
  {
  }

  lemma ResetEstimates(p: R.RttParams, r: R.Rtt, a: R.Rtt, g: Log)
    requires R.SaneParams(p) && r.params == p && g.sinceReset == 0 && R.Bounded(r, g.lo, g.hi)
    requires a == R.MultiplierReset(r).(history := a.history)
    ensures Estimates(p, a, g)
  {
  }

  /** The highest answered number is known. With conservative adaptation, the recovery point has
      passed every number sent before the last decrease, and the decreases number no more than
      the highest answered number, counting from zero. */
  ghost predicate Adapts(cfg: Config, w: W.Window, seqNo: nat, g: Log) {
    cfg.kind == Pcon ==>
      && (w.highData == 0 || w.highData in g.answered)
      && (forall q :: q in g.answered ==> q <= w.highData)
      && g.lastCut <= seqNo
      && (cfg.window.useCwa ==>
            && w.recPoint >= g.lastCut as real
            && g.cuts <= w.highData && g.cuts <= g.lastCut)
  }

  ghost predicate SizeIsSafe(cfg: Config, w: W.Window, acks: nat) {
    match cfg.kind
    case PlainWindow(_) => w.size >= cfg.window.initialWindow as real
    case Pcon => W.SafeWindow(cfg.window, w, acks)
  }

  lemma CutLeaves(p: W.WindowParams, w: W.Window, now: real)
    ensures W.AtLeastInitial(p, W.Cut(p, w, now)).highData == w.highData
  {
    hide W.Scaled, W.MaxReal;
  }

  lemma DecreaseFields(p: W.WindowParams, w: W.Window, seqNo: nat, now: real)
    ensures W.Decrease(p, w, seqNo, now).highData == w.highData
    ensures W.Decrease(p, w, seqNo, now).recPoint ==
            if W.Decreases(p, w) then W.RecoveryPoint(p, w, seqNo) else w.recPoint
  {
    hide W.Cut, W.AtLeastInitial, W.RecoveryPoint;
    CutLeaves(p, w, now);
  }

  lemma IncreaseLeaves(p: W.WindowParams, w: W.Window, now: real, k: real)
    requires w.size != 0.0
    ensures W.Increase(p, w, now, k).highData == w.highData
    ensures W.Increase(p, w, now, k).recPoint == w.recPoint
  {
    hide W.WCubic;
  }

  /** The assertion at a decrease, that numbers are outstanding above the highest answered,
      holds; the recovery point then lies at or beyond the next number. */
  lemma DifferenceIsPositive(cfg: Config, w: W.Window, seqNo: nat, g: Log)
    requires cfg.kind == Pcon && Adapts(cfg, w, seqNo, g)
    requires seqNo > 0 && forall q :: q in g.answered ==> q < seqNo
    ensures w.highData < seqNo && W.Difference(seqNo, w.highData) == seqNo - w.highData > 0
    ensures cfg.window.addRttSuppress >= 0.0 ==> W.RecoveryPoint(cfg.window, w, seqNo) >= seqNo as real
  {
    if cfg.window.addRttSuppress >= 0.0 {
      Product(cfg.window.addRttSuppress, W.Difference(seqNo, w.highData) as real);
    }
  }

  lemma Product(a: real, b: real)
    requires a >= 0.0 && b >= 0.0
    ensures a * b >= 0.0
  {
  }

  /** Each decrease moves the recovery point strictly up, and only after the answer to a
      number first sent after the decrease before it. */
  lemma DecreasesAreSpaced(cfg: Config, w: W.Window, seqNo: nat, g: Log)
    requires cfg.kind == Pcon && cfg.window.useCwa && W.SaneParams(cfg.window)
    requires Adapts(cfg, w, seqNo, g) && W.Decreases(cfg.window, w)
    requires seqNo > 0 && forall q :: q in g.answered ==> q < seqNo
    ensures W.RecoveryPoint(cfg.window, w, seqNo) > w.recPoint
    ensures w.highData in g.answered && g.lastCut < w.highData < seqNo
  {
    hide W.RecoveryPoint, W.Difference;
    DifferenceIsPositive(cfg, w, seqNo, g);
  }

  lemma DecreaseAdapts(cfg: Config, w: W.Window, seqNo: nat, g: Log, h: Log, now: real)
    requires cfg.kind == Pcon && W.SaneParams(cfg.window) && Adapts(cfg, w, seqNo, g)
    requires seqNo > 0 && forall q :: q in g.answered ==> q < seqNo
    requires h.answered == g.answered
    requires h.cuts == LogCut(g, seqNo, Cuts(cfg, w)).cuts && h.lastCut == LogCut(g, seqNo, Cuts(cfg, w)).lastCut
    ensures Adapts(cfg, W.Decrease(cfg.window, w, seqNo, now), seqNo, h)
  {
    hide W.Decrease, W.RecoveryPoint, W.Difference;
    DecreaseFields(cfg.window, w, seqNo, now);
    if W.Decreases(cfg.window, w) {
      DifferenceIsPositive(cfg, w, seqNo, g);
    }
  }

  lemma SeenAdapts(cfg: Config, w: W.Window, seqNo: nat, g: Log, h: Log, q: nat)
    requires Adapts(cfg, w, seqNo, g)
    requires h.answered == g.answered + {q} && h.cuts == g.cuts && h.lastCut == g.lastCut
    ensures Adapts(cfg, W.SawData(w, q), seqNo, h)
  {
  }

  lemma AdaptsOnly(cfg: Config, w: W.Window, v: W.Window, seqNo: nat, next: nat, g: Log, h: Log)
    requires Adapts(cfg, w, seqNo, g) && seqNo <= next
    requires v.highData == w.highData && v.recPoint == w.recPoint
    requires h.answered == g.answered && h.cuts == g.cuts && h.lastCut == g.lastCut
    ensures Adapts(cfg, v, next, h)
  {
  }

  lemma TimeoutKeepsWindow(cfg: Config, w: W.Window, seqNo: nat, g: Log, h: Log, now: real)
    requires W.SaneParams(cfg.window) && Adapts(cfg, w, seqNo, g) && SizeIsSafe(cfg, w, g.acks)
    requires cfg.window.initialWindow as real + 2.0 * g.acks as real < cfg.window.doubleMax
    requires seqNo > 0 && forall q :: q in g.answered ==> q < seqNo
    requires h.answered == g.answered && h.acks == g.acks
    requires h.cuts == LogCut(g, seqNo, Cuts(cfg, w)).cuts && h.lastCut == LogCut(g, seqNo, Cuts(cfg, w)).lastCut
    ensures Adapts(cfg, TimeoutWindow(cfg, w, seqNo, now), seqNo, h)
    ensures SizeIsSafe(cfg, TimeoutWindow(cfg, w, seqNo, now), h.acks)
  {
    hide W.Decrease, W.SafeWindow, LogCut, Cuts;
    if cfg.kind == Pcon {
      DecreaseAdapts(cfg, w, seqNo, g, h, now);
      W.DecreaseKeepsSafe(cfg.window, w, g.acks, seqNo, now);
    }
  }

  lemma SawKeepsSafe(p: W.WindowParams, w: W.Window, acks: nat, q: nat)
    requires W.SafeWindow(p, w, acks)
    ensures W.SafeWindow(p, W.SawData(w, q), acks) && W.SafeWindow(p, W.SawData(w, q), acks + 1)
    ensures W.SawData(w, q).size == w.size
  {
  }

  lemma DataKeepsWindow(cfg: Config, w: W.Window, seqNo: nat, g: Log, h: Log, q: nat, marked: bool, now: real, k: real)
    requires W.SaneParams(cfg.window) && Adapts(cfg, w, seqNo, g) && SizeIsSafe(cfg, w, g.acks)
    requires cfg.window.initialWindow as real + 2.0 * (g.acks + 1) as real < cfg.window.doubleMax
    requires q < seqNo && forall q :: q in g.answered ==> q < seqNo
    requires w.size != 0.0
    requires h.answered == g.answered + {q} && h.acks == g.acks + 1
    requires h.cuts == LogCut(g, seqNo, DataCuts(cfg, w, q, marked)).cuts
    requires h.lastCut == LogCut(g, seqNo, DataCuts(cfg, w, q, marked)).lastCut
    ensures Adapts(cfg, DataWindow(cfg, w, seqNo, q, marked, now, k), seqNo, h)
    ensures SizeIsSafe(cfg, DataWindow(cfg, w, seqNo, q, marked, now, k), h.acks)
  {
    hide W.Decrease, W.Increase, W.SafeWindow, Adapts, Cuts, W.SawData;
    if cfg.kind == Pcon {
      var seen := g.(answered := g.answered + {q}, acks := g.acks + 1);
      var v := W.SawData(w, q);
      SeenAdapts(cfg, w, seqNo, g, seen, q);
      SawKeepsSafe(cfg.window, w, g.acks, q);
      if !marked {
        IncreaseLeaves(cfg.window, v, now, k);
        AdaptsOnly(cfg, v, W.Increase(cfg.window, v, now, k), seqNo, seqNo, seen, h);
        W.IncreaseKeepsSafe(cfg.window, v, g.acks, now, k);
      } else if cfg.window.reactToMarks {
        DecreaseAdapts(cfg, v, seqNo, seen, h, now);
        W.DecreaseKeepsSafe(cfg.window, v, g.acks + 1, seqNo, now);
      } else {
        AdaptsOnly(cfg, v, v, seqNo, seqNo, seen, h);
      }
    } else {
      PlainAdapts(cfg, DataWindow(cfg, w, seqNo, q, marked, now, k), seqNo, h);
    }
  }

  lemma PlainAdapts(cfg: Config, w: W.Window, seqNo: nat, g: Log)
    requires cfg.kind != Pcon
    ensures Adapts(cfg, w, seqNo, g)
  {
  }

  /** After its first decrease an AIMD or CUBIC window never slow-starts again. */
  ghost predicate PastSlowStart(cfg: Config, w: W.Window, g: Log) {
    cfg.kind == Pcon && cfg.window.algorithm != W.BIC && g.cuts > 0 ==> w.size >= w.ssthresh
  }

  lemma PastOnly(cfg: Config, w: W.Window, v: W.Window, g: Log, h: Log)
    requires PastSlowStart(cfg, w, g) && h.cuts == g.cuts && v.size == w.size && v.ssthresh == w.ssthresh
    ensures PastSlowStart(cfg, v, h)
  {
  }

  lemma DecreaseKeepsPast(cfg: Config, w: W.Window, seqNo: nat, g: Log, h: Log, now: real)
    requires cfg.kind == Pcon && PastSlowStart(cfg, w, g) && h.cuts == LogCut(g, seqNo, Cuts(cfg, w)).cuts
    ensures PastSlowStart(cfg, W.Decrease(cfg.window, w, seqNo, now), h)
  {
    hide W.Cut, W.AtLeastInitial, W.RecoveryPoint;
    if W.Decreases(cfg.window, w) && cfg.window.algorithm != W.BIC {
      W.DecreaseEndsSlowStart(cfg.window, w, seqNo, now);
    }
  }

  lemma TimeoutKeepsPast(cfg: Config, w: W.Window, seqNo: nat, g: Log, h: Log, now: real)
    requires PastSlowStart(cfg, w, g) && h.cuts == LogCut(g, seqNo, Cuts(cfg, w)).cuts
    ensures PastSlowStart(cfg, TimeoutWindow(cfg, w, seqNo, now), h)
  {
    hide W.Decrease;
    if cfg.kind == Pcon {
      DecreaseKeepsPast(cfg, w, seqNo, g, h, now);
    }
  }

  lemma SizeIsOne(cfg: Config, w: W.Window, acks: nat)
    requires W.SaneParams(cfg.window) && SizeIsSafe(cfg, w, acks)
    ensures w.size >= 1.0
  {
  }

  lemma DataKeepsPast(cfg: Config, w: W.Window, seqNo: nat, g: Log, h: Log, q: nat, marked: bool, now: real, k: real)
    requires w.size >= 1.0 && PastSlowStart(cfg, w, g)
    requires h.cuts == LogCut(g, seqNo, DataCuts(cfg, w, q, marked)).cuts
    ensures PastSlowStart(cfg, DataWindow(cfg, w, seqNo, q, marked, now, k), h)
  {
    hide W.Decrease, W.Increase;
    if cfg.kind == Pcon {
      var v := W.SawData(w, q);
      PastOnly(cfg, w, v, g, g);
      if marked && cfg.window.reactToMarks {
        DecreaseKeepsPast(cfg, v, seqNo, g, h, now);
      } else if !marked && cfg.window.algorithm != W.BIC && g.cuts > 0 {
        W.IncreaseStaysOut(cfg.window, v, now, k);
      }
    }
  }
}
