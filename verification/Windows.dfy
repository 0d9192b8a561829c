/** Congestion windows: AIMD, BIC and CUBIC steps, and conservative window adaptation. */
module Windows {

  datatype CcAlgorithm = AIMD | BIC | CUBIC

  /** `doubleMax` is the largest representable window. */
  datatype WindowParams = WindowParams(
    algorithm: CcAlgorithm,
    initialWindow: nat,
    beta: real,
    cubicBeta: real,
    addRttSuppress: real,
    reactToMarks: bool,
    useCwa: bool,
    useCubicFastConv: bool,
    doubleMax: real)

  datatype Window = Window(
    size: real,
    ssthresh: real,
    highData: nat,
    recPoint: real,
    cubicWmax: real,
    cubicLastWmax: real,
    cubicLastDecrease: real,
    bicMinWin: real,
    bicMaxWin: real,
    bicTargetWin: real,
    bicSsCwnd: real,
    bicSsTarget: real,
    isBicSs: bool)

  const CUBIC_C: real := 0.4
  const BIC_LOW_WINDOW: real := 14.0
  const BIC_MAX_INCREMENT: real := 16.0

  function Initial(p: WindowParams, now: real): Window {
    Window(p.initialWindow as real, p.doubleMax, 0, 0.0, 0.0, 0.0, now, 0.0, p.doubleMax, 0.0, 0.0, 0.0, false)
  }

  /** Slow start below the threshold, congestion avoidance above it. */
  function AimdStep(w: Window): Window
    requires w.size != 0.0
  {
    if w.size < w.ssthresh then w.(size := w.size + 1.0) else w.(size := w.size + 1.0 / w.size)
  }

  /** `k` is the cube root that makes the curve start at the reduced window. */
  predicate IsCubicK(p: WindowParams, w: Window, k: real) {
    k * k * k == w.cubicWmax * (1.0 - p.cubicBeta) / CUBIC_C
  }

  /** The CUBIC target `t` seconds after the last decrease. */
  function WCubic(w: Window, t: real, k: real): real {
    CUBIC_C * ((t - k) * (t - k) * (t - k)) + w.cubicWmax
  }

  function CubicStep(w: Window, t: real, k: real): Window
    requires w.size != 0.0
  {
    if w.size < w.ssthresh then w.(size := w.size + 1.0)
    else
      var target := if WCubic(w, t, k) < 0.0 then 0.0 else WCubic(w, t, k);
      var increment := if target - w.size < 0.0 then 0.0 else target - w.size;
      w.(size := w.size + increment / w.size)
  }

  function BicBinary(w: Window): Window
    requires w.size != 0.0
  {
    var size := if w.bicTargetWin - w.size < BIC_MAX_INCREMENT
                then w.size + (w.bicTargetWin - w.size) / w.size
                else w.size + BIC_MAX_INCREMENT / w.size;
    w.(size := size)
  }

  function BicStep(p: WindowParams, w: Window): Window
    requires w.size != 0.0
  {
    if w.size < BIC_LOW_WINDOW then AimdStep(w)
    else if !w.isBicSs then
      var b := BicBinary(w);
      if b.size + 0.00001 < b.bicMaxWin then
        b.(bicMinWin := b.size, bicTargetWin := (b.bicMaxWin + b.size) / 2.0)
      else
        b.(isBicSs := true, bicSsCwnd := 1.0, bicSsTarget := b.size + 1.0, bicMaxWin := p.doubleMax)
    else
      var b := w.(size := w.size + w.bicSsCwnd / w.size);
      var c := if b.size >= b.bicSsTarget
               then b.(bicSsCwnd := 2.0 * b.bicSsCwnd, bicSsTarget := b.size + 2.0 * b.bicSsCwnd)
               else b;
      if c.bicSsCwnd >= BIC_MAX_INCREMENT then c.(isBicSs := false) else c
  }

  /** The window after a mark-free answer at time `now`. */
  function Increase(p: WindowParams, w: Window, now: real, k: real): Window
    requires w.size != 0.0
  {
    match p.algorithm
    case AIMD => AimdStep(w)
    case CUBIC => CubicStep(w, now - w.cubicLastDecrease, k)
    case BIC => BicStep(p, w)
  }

  function MaxReal(a: real, b: real): real {
    if a < b then b else a
  }

  function CubicCut(p: WindowParams, w: Window, now: real): Window {
    var wmax := if p.useCubicFastConv && w.size < w.cubicLastWmax * (1.0 - 1.0 / 100.0)
                then w.size * (1.0 + p.cubicBeta) / 2.0 else w.size;
    var ssthresh := MaxReal(w.size * p.cubicBeta, p.initialWindow as real);
    w.(cubicLastWmax := w.size, cubicWmax := wmax, ssthresh := ssthresh, size := ssthresh, cubicLastDecrease := now)
  }

  function BicCut(p: WindowParams, w: Window): Window {
    BicCutTo(w, Scaled(w.size, p.cubicBeta))
  }

  function Scaled(x: real, f: real): real {
    x * f
  }

  function BicCutTo(w: Window, low: real): Window {
    if w.size >= BIC_LOW_WINDOW then
      var high := if w.bicMaxWin > w.size then (w.size + low) / 2.0 else w.size;
      w.(bicMaxWin := high, size := low, bicMinWin := low, bicTargetWin := (high + low) / 2.0)
    else
      w.(ssthresh := low, size := low)
  }

  function Cut(p: WindowParams, w: Window, now: real): Window {
    match p.algorithm
    case AIMD => w.(ssthresh := w.size * p.beta, size := w.size * p.beta)
    case CUBIC => CubicCut(p, w, now)
    case BIC => BicCut(p, w)
  }

  /** The difference of two 32-bit numbers, as the code computes it. */
  function Difference(seqNo: nat, highData: nat): int {
    if highData <= seqNo then seqNo - highData else seqNo - highData + 0x1_0000_0000
  }

  /** A decrease is suppressed until data sent after the last one has been answered. */
  predicate Decreases(p: WindowParams, w: Window) {
    !p.useCwa || w.highData as real > w.recPoint
  }

  /** The window after a congestion signal, when `seqNo` is the next number to be sent. */
  function Decrease(p: WindowParams, w: Window, seqNo: nat, now: real): Window {
    if !Decreases(p, w) then w
    else
      AtLeastInitial(p, Cut(p, w, now)).(recPoint := RecoveryPoint(p, w, seqNo))
  }

  function RecoveryPoint(p: WindowParams, w: Window, seqNo: nat): real {
    seqNo as real + p.addRttSuppress * Difference(seqNo, w.highData) as real
  }

  function AtLeastInitial(p: WindowParams, w: Window): Window {
    if w.size < p.initialWindow as real then w.(size := p.initialWindow as real) else w
  }

  function SawData(w: Window, q: nat): Window {
    if w.highData < q then w.(highData := q) else w
  }

  /** Reduction factors in range, an initial window of at least one, and no negative delay
      between decreases. */
  ghost predicate SaneParams(p: WindowParams) {
    && p.initialWindow >= 1 && p.doubleMax > 0.0
    && 0.0 < p.cubicBeta <= 1.0 && p.addRttSuppress >= 0.0
  }

  /** What every step keeps, after at most `acks` increases. */
  ghost predicate SafeWindow(p: WindowParams, w: Window, acks: nat) {
    match p.algorithm
    case AIMD => w.size >= p.initialWindow as real
    case CUBIC =>
      && w.size >= p.initialWindow as real
      && (w.cubicWmax > 0.0 || (w.ssthresh == p.doubleMax && w.size <= p.initialWindow as real + acks as real))
    case BIC =>
      && w.size >= BicFloor(p)
      && w.size <= p.initialWindow as real + 2.0 * acks as real
      && 0.0 <= w.bicMinWin <= w.bicTargetWin <= w.bicMaxWin <= p.doubleMax
      && (w.isBicSs ==> w.bicSsCwnd in {1.0, 2.0, 4.0, 8.0})
  }

  /** BIC never falls below the initial window or, if that is larger, below 13. */
  function BicFloor(p: WindowParams): real {
    if p.initialWindow >= 13 then 13.0 else p.initialWindow as real
  }

  lemma InitialIsSafe(p: WindowParams, now: real)
    requires SaneParams(p)
    ensures SafeWindow(p, Initial(p, now), 0)
  {
  }

  lemma Quotient(a: real, b: real, low: real, high: real)
    requires b > 0.0 && low * b <= a <= high * b
    ensures low <= a / b <= high
  {
    assert (a / b) * b == a;
  }

  lemma AimdGrows(w: Window)
    requires w.size >= 1.0
    ensures w.size < AimdStep(w).size <= w.size + 1.0
    ensures AimdStep(w) == w.(size := AimdStep(w).size)
  {
    Quotient(1.0, w.size, 0.0, 1.0);
    assert 1.0 / w.size > 0.0;
  }

  /** An above-threshold CUBIC step moves towards the target without passing it, and never down. */
  lemma CubicNeverOvershoots(w: Window, t: real, k: real)
    requires w.size >= 1.0 && w.size >= w.ssthresh
    ensures w.size <= CubicStep(w, t, k).size <= MaxReal(w.size, WCubic(w, t, k))
  {
    var target := if WCubic(w, t, k) < 0.0 then 0.0 else WCubic(w, t, k);
    var increment := if target - w.size < 0.0 then 0.0 else target - w.size;
    assert increment * w.size >= increment;
    Quotient(increment, w.size, 0.0, increment);
  }

  lemma Cube(x: real, y: real)
    requires x <= y
    ensures x * x * x <= y * y * y
  {
    if x >= 0.0 {
      assert x * x <= y * y;
    } else if y <= 0.0 {
      assert y * y <= x * x;
    } else {
      assert x * x * x <= 0.0;
      assert 0.0 <= y * y * y;
    }
  }

  /** The curve starts at the reduced window, never falls, and is at its plateau after `k` seconds. */
  lemma CubicCurve(p: WindowParams, w: Window, k: real, t: real, u: real)
    requires IsCubicK(p, w, k) && t <= u
    ensures WCubic(w, 0.0, k) == p.cubicBeta * w.cubicWmax
    ensures WCubic(w, k, k) == w.cubicWmax
    ensures WCubic(w, t, k) <= WCubic(w, u, k)
  {
    assert (0.0 - k) * (0.0 - k) * (0.0 - k) == -(k * k * k);
    assert CUBIC_C * (k * k * k) == w.cubicWmax * (1.0 - p.cubicBeta);
    Cube(t - k, u - k);
  }

  /** The assertion in the CUBIC step: above the threshold, a last maximum is known. */
  lemma CubicWmaxIsKnown(p: WindowParams, w: Window, acks: nat)
    requires p.algorithm == CUBIC && SafeWindow(p, w, acks)
    requires p.initialWindow as real + acks as real < p.doubleMax
    requires w.size >= w.ssthresh
    ensures w.cubicWmax > 0.0
  {
  }

  /** BIC moves at most 8/7 up and 1 down per answer. */
  lemma BicMoves(p: WindowParams, w: Window, acks: nat)
    requires SaneParams(p) && p.algorithm == BIC && SafeWindow(p, w, acks)
    ensures w.size - 1.0 <= BicStep(p, w).size <= w.size + 8.0 / 7.0
    ensures w.size < BIC_LOW_WINDOW ==> BicStep(p, w).size > w.size
  {
    if w.size < BIC_LOW_WINDOW {
      AimdGrows(w);
    } else if !w.isBicSs {
      if w.bicTargetWin - w.size < BIC_MAX_INCREMENT {
        Quotient(w.bicTargetWin - w.size, w.size, -1.0, 8.0 / 7.0);
      } else {
        Quotient(BIC_MAX_INCREMENT, w.size, 0.0, 8.0 / 7.0);
      }
    } else {
      Quotient(w.bicSsCwnd, w.size, 0.0, 8.0 / 7.0);
    }
  }

  lemma BicStepKeepsSafe(p: WindowParams, w: Window, acks: nat)
    requires SaneParams(p) && p.algorithm == BIC && SafeWindow(p, w, acks)
    requires p.initialWindow as real + 2.0 * (acks + 1) as real < p.doubleMax
    ensures SafeWindow(p, BicStep(p, w), acks + 1)
  {
    BicMoves(p, w, acks);
    if w.size < BIC_LOW_WINDOW {
      AimdGrows(w);
    }
  }

  /** Every answer without a mark keeps the window safe. */
  lemma IncreaseKeepsSafe(p: WindowParams, w: Window, acks: nat, now: real, k: real)
    requires SaneParams(p) && SafeWindow(p, w, acks)
    requires p.initialWindow as real + 2.0 * (acks + 1) as real < p.doubleMax
    ensures w.size >= 1.0 && SafeWindow(p, Increase(p, w, now, k), acks + 1)
  {
    match p.algorithm
    case AIMD => AimdGrows(w);
    case CUBIC =>
      if w.size >= w.ssthresh {
        CubicNeverOvershoots(w, now - w.cubicLastDecrease, k);
      }
    case BIC => BicStepKeepsSafe(p, w, acks);
  }

  lemma Scale(x: real, f: real)
    requires x >= 0.0 && 0.0 < f <= 1.0
    ensures 0.0 <= Scaled(x, f) <= x
  {
    assert x * (1.0 - f) >= 0.0;
    assert x * f + x * (1.0 - f) == x;
  }

  lemma BicCutKeepsSafe(p: WindowParams, w: Window, acks: nat)
    requires SaneParams(p) && p.algorithm == BIC && SafeWindow(p, w, acks)
    requires p.initialWindow as real + 2.0 * acks as real < p.doubleMax
    ensures SafeWindow(p, AtLeastInitial(p, BicCut(p, w)), acks)
  {
    hide SafeWindow, AtLeastInitial, BicCutTo, Scaled;
    SizeAtLeastOne(p, w, acks);
    Scale(w.size, p.cubicBeta);
    BicCutToKeepsSafe(p, w, acks, Scaled(w.size, p.cubicBeta));
  }

  lemma SizeAtLeastOne(p: WindowParams, w: Window, acks: nat)
    requires SaneParams(p) && SafeWindow(p, w, acks)
    ensures w.size >= 1.0
  {
  }

  lemma BicCutToKeepsSafe(p: WindowParams, w: Window, acks: nat, low: real)
    requires SaneParams(p) && p.algorithm == BIC && SafeWindow(p, w, acks) && 0.0 <= low <= w.size
    requires p.initialWindow as real + 2.0 * acks as real < p.doubleMax
    ensures SafeWindow(p, AtLeastInitial(p, BicCutTo(w, low)), acks)
  {
  }

  lemma RecoveryKeepsSafe(p: WindowParams, w: Window, acks: nat, r: real)
    requires SafeWindow(p, w, acks)
    ensures SafeWindow(p, w.(recPoint := r), acks)
  {
  }

  /** Every congestion signal keeps the window safe; AIMD and CUBIC windows never end up
      below the initial window. */
  lemma DecreaseKeepsSafe(p: WindowParams, w: Window, acks: nat, seqNo: nat, now: real)
    requires SaneParams(p) && SafeWindow(p, w, acks)
    requires p.initialWindow as real + 2.0 * acks as real < p.doubleMax
    ensures SafeWindow(p, Decrease(p, w, seqNo, now), acks)
  {
    if Decreases(p, w) {
      match p.algorithm {
        case AIMD =>
        case CUBIC => CubicCutIsPositive(p, w, now);
        case BIC => BicCutKeepsSafe(p, w, acks);
      }
      RecoveryKeepsSafe(p, AtLeastInitial(p, Cut(p, w, now)), acks, RecoveryPoint(p, w, seqNo));
    }
  }

  lemma CubicCutIsPositive(p: WindowParams, w: Window, now: real)
    requires SaneParams(p) && w.size >= 1.0
    ensures CubicCut(p, w, now).cubicWmax > 0.0
  {
    assert w.size * (1.0 + p.cubicBeta) >= w.size;
  }

  function ReductionFactor(p: WindowParams): real {
    if p.algorithm == AIMD then p.beta else p.cubicBeta
  }

  /** Whatever the algorithm, a decrease is by one factor with a floor at the initial window,
      and it never makes a window above the floor larger. */
  lemma DecreaseIsMultiplicative(p: WindowParams, w: Window, seqNo: nat, now: real)
    requires Decreases(p, w) && p.initialWindow >= 1
    ensures Decrease(p, w, seqNo, now).size == MaxReal(Scaled(w.size, ReductionFactor(p)), p.initialWindow as real)
    ensures 0.0 < ReductionFactor(p) <= 1.0 && w.size >= p.initialWindow as real ==>
            Decrease(p, w, seqNo, now).size <= w.size
  {
    if 0.0 < ReductionFactor(p) <= 1.0 && w.size >= p.initialWindow as real {
      Scale(w.size, ReductionFactor(p));
    }
  }

  /** After a decrease an AIMD or CUBIC window is not below its threshold: slow start is over. */
  lemma DecreaseEndsSlowStart(p: WindowParams, w: Window, seqNo: nat, now: real)
    requires Decreases(p, w) && p.algorithm != BIC
    ensures Decrease(p, w, seqNo, now).size >= Decrease(p, w, seqNo, now).ssthresh
  {
    hide RecoveryPoint;
  }

  /** And no increase takes it back there. */
  lemma IncreaseStaysOut(p: WindowParams, w: Window, now: real, k: real)
    requires p.algorithm != BIC && w.size >= 1.0 && w.size >= w.ssthresh
    ensures Increase(p, w, now, k).size >= Increase(p, w, now, k).ssthresh
  {
    if p.algorithm == AIMD {
      AimdGrows(w);
    } else {
      CubicNeverOvershoots(w, now - w.cubicLastDecrease, k);
      CubicStepLeaves(w, now - w.cubicLastDecrease, k);
    }
  }

  lemma CubicStepLeaves(w: Window, t: real, k: real)
    requires w.size != 0.0
    ensures CubicStep(w, t, k) == w.(size := CubicStep(w, t, k).size)
  {
    hide WCubic;
  }

  /** The last maximum recorded by a CUBIC decrease is the window before it, or less with fast
      convergence. */
  lemma CubicCutRemembers(p: WindowParams, w: Window, now: real)
    requires SaneParams(p) && w.size >= 1.0
    ensures CubicCut(p, w, now).cubicWmax <= w.size
    ensures CubicCut(p, w, now).cubicWmax < w.size <==>
            p.useCubicFastConv && p.cubicBeta < 1.0 && w.size < w.cubicLastWmax * (1.0 - 1.0 / 100.0)
    ensures CubicCut(p, w, now).cubicWmax >= w.size * p.cubicBeta
    ensures CubicCut(p, w, now).cubicLastDecrease == now
  {
    hide Scaled;
    HalfWay(w.size, p.cubicBeta);
  }

  lemma HalfWay(x: real, f: real)
    requires x > 0.0 && 0.0 < f <= 1.0
    ensures x * (1.0 + f) / 2.0 == (x + Scaled(x, f)) / 2.0
    ensures x * f == Scaled(x, f) <= x && (Scaled(x, f) < x <==> f < 1.0)
  {
    if f < 1.0 {
      assert x * (1.0 - f) > 0.0;
    }
    assert Scaled(x, f) == x - x * (1.0 - f);
  }

  lemma CurveStart(p: WindowParams, w: Window, k: real)
    requires IsCubicK(p, w, k)
    ensures WCubic(w, 0.0, k) == Scaled(w.cubicWmax, p.cubicBeta)
  {
    CubicCurve(p, w, k, 0.0, 0.0);
  }

  /** Where the curve starts after a decrease, and how far it gets in K seconds. */
  lemma CurveAfterCut(p: WindowParams, w: Window, now: real, k: real, t: real)
    requires SaneParams(p) && w.size >= 1.0
    requires IsCubicK(p, CubicCut(p, w, now), k) && 0.0 <= t <= k
    ensures WCubic(CubicCut(p, w, now), 0.0, k) <= CubicCut(p, w, now).size
    ensures WCubic(CubicCut(p, w, now), t, k) <= w.size
  {
    hide WCubic, CubicCut, Scaled, IsCubicK;
    var c := CubicCut(p, w, now);
    CubicCutRemembers(p, w, now);
    CubicCutSizes(p, w, now);
    CurveStart(p, c, k);
    CubicCurve(p, c, k, t, k);
    ScaleMonotone(c.cubicWmax, w.size, p.cubicBeta);
  }

  /** A CUBIC window that has just been reduced does not grow at once, and until K seconds
      after the decrease it does not pass the window before it. */
  lemma CubicRecovers(p: WindowParams, w: Window, now: real, k: real, t: real)
    requires SaneParams(p) && p.algorithm == CUBIC && w.size >= p.initialWindow as real
    requires IsCubicK(p, CubicCut(p, w, now), k) && 0.0 <= t <= k
    ensures var c := CubicCut(p, w, now);
            && c.size >= 1.0 && CubicStep(c, 0.0, k) == c
            && c.size <= CubicStep(c, t, k).size <= w.size
  {
    hide WCubic, CubicCut, CubicStep, Scaled, IsCubicK;
    var c := CubicCut(p, w, now);
    CubicCutSizes(p, w, now);
    Scale(w.size, p.cubicBeta);
    CurveAfterCut(p, w, now, k, t);
    CubicStandsStill(c, k);
    CubicNeverOvershoots(c, t, k);
  }

  lemma ScaleMonotone(a: real, b: real, f: real)
    requires a <= b && f >= 0.0
    ensures Scaled(a, f) <= Scaled(b, f)
  {
    assert (b - a) * f >= 0.0;
  }

  lemma CubicCutSizes(p: WindowParams, w: Window, now: real)
    ensures CubicCut(p, w, now).size == CubicCut(p, w, now).ssthresh ==
            MaxReal(Scaled(w.size, p.cubicBeta), p.initialWindow as real)
  {
  }

  lemma CubicStandsStill(c: Window, k: real)
    requires c.size >= 1.0 && c.size >= c.ssthresh && WCubic(c, 0.0, k) <= c.size
    ensures CubicStep(c, 0.0, k) == c
  {
    hide WCubic;
  }

  /** A BIC cut above the low window searches between the reduced window and a maximum no
      larger than the window before, half way; below the last maximum it gives up part of that
      window (fast convergence). */
  lemma BicCutSearches(p: WindowParams, w: Window)
    requires SaneParams(p) && w.size >= BIC_LOW_WINDOW
    ensures var c := BicCut(p, w);
            && c.size == c.bicMinWin == Scaled(w.size, p.cubicBeta)
            && c.bicMinWin <= c.bicTargetWin <= c.bicMaxWin <= w.size
            && c.bicTargetWin - c.bicMinWin == c.bicMaxWin - c.bicTargetWin
            && (w.bicMaxWin <= w.size ==> c.bicMaxWin == w.size)
            && (w.bicMaxWin > w.size && p.cubicBeta < 1.0 ==> c.bicMaxWin < w.size)
  {
    hide Scaled;
    HalfWay(w.size, p.cubicBeta);
  }

  /** A binary-search step approaches a target above the window and never passes it; while the
      search goes on, the next target lies above the new window, half way to the maximum. */
  lemma BicApproaches(p: WindowParams, w: Window)
    requires BIC_LOW_WINDOW <= w.size <= w.bicTargetWin && !w.isBicSs
    ensures w.size <= BicStep(p, w).size <= w.bicTargetWin
    ensures !BicStep(p, w).isBicSs ==>
              && BicStep(p, w).size == BicStep(p, w).bicMinWin
              && BicStep(p, w).size < BicStep(p, w).bicTargetWin < BicStep(p, w).bicMaxWin == w.bicMaxWin
  {
    var gap := w.bicTargetWin - w.size;
    if gap < BIC_MAX_INCREMENT {
      assert gap * w.size >= gap;
      Quotient(gap, w.size, 0.0, gap);
    } else {
      Quotient(BIC_MAX_INCREMENT, w.size, 0.0, BIC_MAX_INCREMENT);
    }
  }

  lemma QuotientGrows(w: Window, amount: real)
    requires w.size > 0.0
    ensures (w.size + amount / w.size - w.size) * w.size == amount
  {
    assert (amount / w.size) * w.size == amount;
  }

  /** One more per answer below the threshold, and above it one per window of answers. */
  lemma SlowStartThenLinear(p: WindowParams, w: Window, now: real, k: real)
    requires p.algorithm == AIMD && w.size >= 1.0
    ensures w.size < w.ssthresh ==> Increase(p, w, now, k).size == w.size + 1.0
    ensures w.size >= w.ssthresh ==> (Increase(p, w, now, k).size - w.size) * w.size == 1.0
    ensures Increase(p, w, now, k) == w.(size := Increase(p, w, now, k).size)
  {
    QuotientGrows(w, 1.0);
  }

  /** CUBIC slow-starts as AIMD does, and above the threshold covers, in a window of answers, the
      way to a target above the window; it stands still when the target is not above it. */
  lemma CubicFollowsCurve(p: WindowParams, w: Window, now: real, k: real)
    requires p.algorithm == CUBIC && w.size >= 1.0
    ensures
      var a := Increase(p, w, now, k);
      var target := WCubic(w, now - w.cubicLastDecrease, k);
      && (w.size < w.ssthresh ==> a.size == w.size + 1.0)
      && (w.size >= w.ssthresh && target > w.size ==>
            a.size > w.size && (a.size - w.size) * w.size == target - w.size)
      && (w.size >= w.ssthresh && target <= w.size ==> a.size == w.size)
      && a == w.(size := a.size)
  {
    hide WCubic;
    var target := WCubic(w, now - w.cubicLastDecrease, k);
    QuotientGrows(w, target - w.size);
    if target > w.size {
      assert (target - w.size) / w.size > 0.0;
    }
  }

  /** The curve is a cube: one second past the plateau it is up by 0.4, and twice the time past the
      plateau takes it up eight times as far. */
  lemma CurveIsCube(w: Window, x: real, k: real)
    ensures WCubic(w, k + 1.0, k) == w.cubicWmax + 0.4
    ensures WCubic(w, k + 2.0 * x, k) - w.cubicWmax == 8.0 * (WCubic(w, k + x, k) - w.cubicWmax)
    ensures WCubic(w, k + x, k) + WCubic(w, k - x, k) == 2.0 * w.cubicWmax
  {
    var c := x * x * x;
    assert (2.0 * x) * (2.0 * x) * (2.0 * x) == 8.0 * c;
    assert (0.0 - x) * (0.0 - x) * (0.0 - x) == -c;
    assert k + 2.0 * x - k == 2.0 * x && k + x - k == x && k - x - k == 0.0 - x && k + 1.0 - k == 1.0;
  }

  /** BIC below its low window is AIMD. */
  lemma BicStartsLinear(p: WindowParams, w: Window, now: real, k: real)
    requires p.algorithm == BIC && 1.0 <= w.size < 14.0
    ensures w.size < w.ssthresh ==> Increase(p, w, now, k).size == w.size + 1.0
    ensures w.size >= w.ssthresh ==> (Increase(p, w, now, k).size - w.size) * w.size == 1.0
    ensures Increase(p, w, now, k) == w.(size := Increase(p, w, now, k).size)
  {
    QuotientGrows(w, 1.0);
  }

  /** BIC's search covers in a window of answers the way to its target, but at most 16; it goes on
      while the maximum is not reached, and then starts to probe from the window it has. */
  lemma BicSearches(p: WindowParams, w: Window, now: real, k: real)
    requires p.algorithm == BIC && w.size >= 14.0 && !w.isBicSs
    ensures
      var a := Increase(p, w, now, k);
      var gap := w.bicTargetWin - w.size;
      && (a.size - w.size) * w.size == (if gap < 16.0 then gap else 16.0)
      && (a.isBicSs <==> a.size + 0.00001 >= w.bicMaxWin)
      && (a.isBicSs ==> a.bicSsCwnd == 1.0 && a.bicSsTarget == a.size + 1.0 && a.bicMaxWin == p.doubleMax)
      && (!a.isBicSs ==> a.bicMaxWin == w.bicMaxWin && a.bicMinWin == a.size
                         && a.bicTargetWin - a.size == a.bicMaxWin - a.bicTargetWin)
  {
    QuotientGrows(w, w.bicTargetWin - w.size);
    QuotientGrows(w, 16.0);
  }

  /** BIC probes: its step per window doubles each time the window has grown by it, up to 16. */
  lemma BicProbes(p: WindowParams, w: Window, now: real, k: real)
    requires p.algorithm == BIC && w.size >= 14.0 && w.isBicSs
    ensures
      var a := Increase(p, w, now, k);
      && (a.size - w.size) * w.size == w.bicSsCwnd
      && (a.size < w.bicSsTarget ==> a.bicSsCwnd == w.bicSsCwnd && a.bicSsTarget == w.bicSsTarget)
      && (a.size >= w.bicSsTarget ==> a.bicSsCwnd == w.bicSsCwnd + w.bicSsCwnd && a.bicSsTarget == a.size + a.bicSsCwnd)
      && (a.isBicSs <==> a.bicSsCwnd < 16.0)
      && a.bicMaxWin == w.bicMaxWin && a.bicMinWin == w.bicMinWin && a.bicTargetWin == w.bicTargetWin
  {
    QuotientGrows(w, w.bicSsCwnd);
  }

  /** An AIMD decrease leaves the threshold at the reduced window, before the floor. */
  lemma AimdCutThreshold(p: WindowParams, w: Window, seqNo: nat, now: real)
    requires p.algorithm == AIMD && Decreases(p, w)
    ensures Decrease(p, w, seqNo, now).ssthresh == Scaled(w.size, p.beta)
    ensures Decrease(p, w, seqNo, now).recPoint == RecoveryPoint(p, w, seqNo)
  {
    hide RecoveryPoint, Scaled;
    assert Scaled(w.size, p.beta) == w.size * p.beta by {
      ScaledIs(w.size, p.beta);
    }
  }

  lemma ScaledIs(x: real, f: real)
    ensures Scaled(x, f) == x * f
  {
  }

  /** With fast convergence, when the window is below 99 percent of the last maximum, the recorded
      maximum is half way between the window before and the reduced one; else it is the window
      before, which is the next last maximum in either case. */
  lemma CubicCutExactly(p: WindowParams, w: Window, now: real)
    ensures
      var c := CubicCut(p, w, now);
      var fast := p.useCubicFastConv && 100.0 * w.size < 99.0 * w.cubicLastWmax;
      && c.cubicLastWmax == w.size
      && (fast ==> c.cubicWmax - Scaled(w.size, p.cubicBeta) == w.size - c.cubicWmax)
      && (!fast ==> c.cubicWmax == w.size)
  {
  }

  /** Below a larger last maximum, BIC's new maximum is half way between the window before and the
      reduced one. Below the low window it cuts as AIMD does and keeps its search range. */
  lemma BicCutExactly(p: WindowParams, w: Window)
    ensures
      var c := BicCut(p, w);
      && (w.size >= 14.0 && w.bicMaxWin > w.size ==> c.bicMaxWin - c.size == w.size - c.bicMaxWin)
      && (w.size < 14.0 ==> c == w.(ssthresh := Scaled(w.size, p.cubicBeta), size := Scaled(w.size, p.cubicBeta)))
  {
    hide Scaled;
  }

  /** The recovery point lies beyond the next number by the given share of the numbers above the
      highest answered one. */
  lemma RecoveryIsDelayed(p: WindowParams, w: Window, seqNo: nat, share: real)
    requires w.highData <= seqNo && share == p.addRttSuppress * (seqNo - w.highData) as real
    ensures RecoveryPoint(p, w, seqNo) - share == seqNo as real
  {
  }

  /** The first answer finds every algorithm in slow start, BIC only below its low window. */
  lemma StartsSlow(p: WindowParams, now: real, then': real, k: real)
    requires 1 <= p.initialWindow && p.initialWindow as real < p.doubleMax
    requires p.algorithm == BIC ==> p.initialWindow < 14
    ensures Increase(p, Initial(p, now), then', k).size == p.initialWindow as real + 1.0
  {
  }

  /** Before any decrease: with conservative adaptation a signal is suppressed until a number above
      0 is answered, and the first CUBIC cut takes the window before it for its maximum. */
  lemma StartsFresh(p: WindowParams, now: real, s: real, then': real)
    requires s >= 0.0
    ensures
      var w := Initial(p, now).(size := s);
      (p.useCwa ==> !Decreases(p, w)) && CubicCut(p, w, then').cubicWmax == s
  {
  }

  /** Before any decrease BIC has no target: its first step above the low window goes back by one,
      and the search then aims half way to the largest window. */
  lemma BicFirstStepsBack(p: WindowParams, now: real, s: real, then': real, k: real)
    requires p.algorithm == BIC && 14.0 <= s < p.doubleMax
    ensures
      var a := Increase(p, Initial(p, now).(size := s), then', k);
      && a.size == s - 1.0 && !a.isBicSs && a.bicMaxWin == p.doubleMax
      && a.bicTargetWin - a.size == p.doubleMax - a.bicTargetWin
  {
  }
}
