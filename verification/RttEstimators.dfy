/** Round-trip time estimation with a mean and deviation, a retransmission multiplier, and
    the list of numbers sent and not yet acknowledged. Times are real seconds. */
module RttEstimators {

  datatype RttHistory = RttHistory(seqNo: nat, time: real, retx: bool)

  datatype RttParams = RttParams(gain: real, gain2: real, maxMultiplier: nat, minRto: real, maxRto: real,
                                 initialRtt: real)

  datatype Rtt = Rtt(params: RttParams, estimate: real, variance: real, samples: nat, multiplier: nat,
                     history: seq<RttHistory>)

  function Initial(p: RttParams): Rtt {
    Rtt(p, p.initialRtt, 0.0, 0, 1, [])
  }

  function Abs(x: real): real {
    if x < 0.0 then -x else x
  }

  function Min(a: real, b: real): real {
    if b < a then b else a
  }

  function Max(a: real, b: real): real {
    if a < b then b else a
  }

  function Measured(r: Rtt, m: real): Rtt {
    if r.samples > 0 then
      var err := m - r.estimate;
      r.(estimate := r.estimate + err * r.params.gain,
         variance := r.variance + (Abs(err) - r.variance) * r.params.gain2,
         samples := r.samples + 1)
    else
      r.(estimate := m, variance := m / 2.0, samples := r.samples + 1)
  }

  function RetransmitTimeout(r: Rtt): real {
    Min(r.params.maxRto,
        Max(r.multiplier as real * r.params.minRto, r.multiplier as real * (r.estimate + 4.0 * r.variance)))
  }

  function Increased(r: Rtt): Rtt {
    r.(multiplier := if r.multiplier * 2 < r.params.maxMultiplier then r.multiplier * 2 else r.params.maxMultiplier)
  }

  function MultiplierReset(r: Rtt): Rtt {
    r.(multiplier := 1)
  }

  /** The position of the first entry of `q`, or the length of the history. */
  function Position(h: seq<RttHistory>, q: nat): (i: nat)
    ensures i <= |h|
    ensures i < |h| ==> h[i].seqNo == q
    ensures forall k :: 0 <= k < i ==> h[k].seqNo != q
  {
    if h == [] then 0
    else if h[0].seqNo == q then 0
    else Position(h[1..], q) + 1
  }

  function Sent(r: Rtt, q: nat, now: real): Rtt {
    var i := Position(r.history, q);
    if i < |r.history| then r.(history := r.history[i := r.history[i].(retx := true)])
    else r.(history := r.history + [RttHistory(q, now, false)])
  }

  function Acked(r: Rtt, q: nat, now: real): Rtt {
    var i := Position(r.history, q);
    if i == |r.history| then r
    else
      var rest := r.history[..i] + r.history[i + 1..];
      if r.history[i].retx then r.(history := rest)
      else MultiplierReset(Measured(r, now - r.history[i].time)).(history := rest)
  }

  /** The estimator object of the simulation. */
  class RttMeanDeviation {
    const params: RttParams
    var currentEstimatedRtt: real
    var variance: real
    var nSamples: nat
    var multiplier: nat
    var history: seq<RttHistory>

    constructor (params: RttParams)
      ensures State() == Initial(params)
    {
      this.params := params;
      currentEstimatedRtt := params.initialRtt;
      variance, nSamples, multiplier, history := 0.0, 0, 1, [];
    }

    function State(): Rtt
      reads this
    {
      Rtt(params, currentEstimatedRtt, variance, nSamples, multiplier, history)
    }

    method Measurement(m: real)
      modifies this
      ensures State() == Measured(old(State()), m)
    {
      if nSamples != 0 {
        var err := m - currentEstimatedRtt;
        var gErr := err * params.gain;
        currentEstimatedRtt := currentEstimatedRtt + gErr;
        var difference := Abs(err) - variance;
        variance := variance + difference * params.gain2;
      } else {
        currentEstimatedRtt := m;
        variance := m / 2.0;
      }
      nSamples := nSamples + 1;
    }

    method IncreaseMultiplier()
      modifies this
      ensures State() == Increased(old(State()))
    {
      multiplier := if multiplier * 2 < params.maxMultiplier then multiplier * 2 else params.maxMultiplier;
    }

    method ResetMultiplier()
      modifies this
      ensures State() == MultiplierReset(old(State()))
    {
      multiplier := 1;
    }

    method Reset()
      modifies this
      ensures State() == Initial(params)
    {
      variance := 0.0;
      currentEstimatedRtt := params.initialRtt;
      history := [];
      nSamples := 0;
      ResetMultiplier();
    }

    /** Marks a number already in the history as retransmitted, or appends it. */
    method SentSeq(q: nat, now: real)
      modifies this
      ensures State() == Sent(old(State()), q, now)
    {
      var i := 0;
      while i < |history|
        invariant 0 <= i <= |history|
        invariant forall k :: 0 <= k < i ==> history[k].seqNo != q
        invariant State() == old(State())
      {
        if history[i].seqNo == q {
          PositionIs(history, q, i);
          history := history[i := history[i].(retx := true)];
          return;
        }
        i := i + 1;
      }
      PositionIs(history, q, i);
      history := history + [RttHistory(q, now, false)];
    }

    /** Removes the number from the history. Its age is measured, and the multiplier reset,
        only when it was never marked. */
    method AckSeq(q: nat, now: real) returns (m: real)
      modifies this
      ensures State() == Acked(old(State()), q, now)
    {
      m := 0.0;
      var i := 0;
      while i < |history|
        invariant 0 <= i <= |history|
        invariant forall k :: 0 <= k < i ==> history[k].seqNo != q
        invariant State() == old(State())
      {
        if history[i].seqNo == q {
          PositionIs(history, q, i);
          if !history[i].retx {
            m := now - history[i].time;
            Measurement(m);
            ResetMultiplier();
          }
          history := history[..i] + history[i + 1..];
          return;
        }
        i := i + 1;
      }
      PositionIs(history, q, i);
    }
  }

  lemma PositionIs(h: seq<RttHistory>, q: nat, i: nat)
    requires i <= |h| && (i < |h| ==> h[i].seqNo == q)
    requires forall k :: 0 <= k < i ==> h[k].seqNo != q
    ensures Position(h, q) == i
  {
  }

  /** Gains strictly between 0 and 1, timeouts not negative, and a multiplier limit of at least one. */
  ghost predicate SaneParams(p: RttParams) {
    && 0.0 < p.gain < 1.0 && 0.0 < p.gain2 < 1.0
    && p.maxMultiplier >= 1 && 0.0 <= p.minRto
  }

  /** After samples between `lo` and `hi`, the estimate lies between them and the deviation
      between zero and the largest. */
  ghost predicate Bounded(r: Rtt, lo: real, hi: real) {
    r.samples > 0 && 0.0 <= lo <= r.estimate <= hi && 0.0 <= r.variance <= hi
  }

  lemma Between(a: real, b: real, gain: real, lo: real, hi: real)
    requires lo <= a <= hi && lo <= b <= hi && 0.0 <= gain <= 1.0
    ensures lo <= a + (b - a) * gain <= hi
  {
    var x := b - a;
    if a <= b {
      Fraction(x, gain);
      var y := x * gain;
      assert a + y <= b;
    } else {
      Fraction(-x, gain);
      var y := x * gain;
      assert y == -((-x) * gain);
      assert b <= a + y;
    }
  }

  lemma Fraction(x: real, gain: real)
    requires x >= 0.0 && 0.0 <= gain <= 1.0
    ensures 0.0 <= x * gain <= x
  {
    assert x * (1.0 - gain) >= 0.0;
    assert x * gain + x * (1.0 - gain) == x;
  }

  /** One more non-negative sample keeps the bounds, widened by the sample. */
  lemma MeasurementKeepsBounds(r: Rtt, m: real, lo: real, hi: real)
    requires SaneParams(r.params) && m >= 0.0
    requires r.samples > 0 ==> Bounded(r, lo, hi)
    ensures
      var l := if r.samples > 0 then Min(lo, m) else m;
      var h := if r.samples > 0 then Max(hi, m) else m;
      Bounded(Measured(r, m), l, h)
  {
    if r.samples > 0 {
      Between(r.estimate, m, r.params.gain, Min(lo, m), Max(hi, m));
      Between(r.variance, Abs(m - r.estimate), r.params.gain2, 0.0, Max(hi, m));
    }
  }

  function Pow2(k: nat): nat {
    if k == 0 then 1 else 2 * Pow2(k - 1)
  }

  function MinNat(a: nat, b: nat): nat {
    if b < a then b else a
  }

  /** Each timeout doubles the multiplier up to its limit. */
  lemma MultiplierDoubles(r: Rtt, k: nat)
    requires SaneParams(r.params) && r.multiplier == MinNat(Pow2(k), r.params.maxMultiplier)
    ensures Increased(r).multiplier == MinNat(Pow2(k + 1), r.params.maxMultiplier)
  {
  }

  /** The retransmission timeout stays between the smaller of the two limits and the maximum. */
  lemma TimeoutIsBounded(r: Rtt)
    requires SaneParams(r.params) && r.multiplier >= 1
    ensures Min(r.params.minRto, r.params.maxRto) <= RetransmitTimeout(r) <= r.params.maxRto
  {
    assert r.multiplier as real * r.params.minRto >= r.params.minRto;
  }

  /** After the first sample the estimate keeps all but the fraction `gain` of its distance to the
      sample, and the deviation all but `gain2` of its distance to the error. The first sample
      is taken as it is, with half of it as deviation. */
  lemma MeasurementFollowsGains(r: Rtt, m: real)
    ensures
      var a := Measured(r, m);
      var err := if m < r.estimate then r.estimate - m else m - r.estimate;
      && a.samples == r.samples + 1
      && a.params == r.params && a.multiplier == r.multiplier && a.history == r.history
      && (r.samples > 0 ==> m - a.estimate == (1.0 - r.params.gain) * (m - r.estimate))
      && (r.samples > 0 ==> err - a.variance == (1.0 - r.params.gain2) * (err - r.variance))
      && (r.samples == 0 ==> a.estimate == m && a.variance + a.variance == m)
  {
  }

  /** Between its limits the timeout is the estimate and four deviations, times the multiplier;
      outside it is at the limit. */
  lemma TimeoutFollowsEstimate(r: Rtt, t: real, least: real)
    requires t == r.multiplier as real * (r.estimate + 4.0 * r.variance)
    requires least == r.multiplier as real * r.params.minRto
    ensures least <= t <= r.params.maxRto ==> RetransmitTimeout(r) == t
    ensures t < least <= r.params.maxRto ==> RetransmitTimeout(r) == least
    ensures r.params.maxRto < t || r.params.maxRto < least ==> RetransmitTimeout(r) == r.params.maxRto
  {
  }

  /** Before any sample it is the initial estimate, within the limits. */
  lemma InitialTimeout(p: RttParams)
    requires p.minRto <= p.initialRtt <= p.maxRto
    ensures RetransmitTimeout(Initial(p)) == p.initialRtt
  {
  }
}
