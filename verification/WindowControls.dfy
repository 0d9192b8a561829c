/** The window fields of the consumer object and the methods that update them in place. */
module WindowControls {
  import opened Windows

  lemma CutKeepsRecPoint(p: WindowParams, w: Window, now: real, r: real)
    ensures CubicCut(p, w.(recPoint := r), now) == CubicCut(p, w, now).(recPoint := r)
    ensures BicCut(p, w.(recPoint := r)) == BicCut(p, w).(recPoint := r)
  {
  }

  class WindowControl {
    const params: WindowParams
    var size: real
    var ssthresh: real
    var highData: nat
    var recPoint: real
    var cubicWmax: real
    var cubicLastWmax: real
    var cubicLastDecrease: real
    var bicMinWin: real
    var bicMaxWin: real
    var bicTargetWin: real
    var bicSsCwnd: real
    var bicSsTarget: real
    var isBicSs: bool

    constructor (params: WindowParams, now: real)
      ensures this.params == params && Value() == Initial(params, now)
    {
      this.params := params;
      size, ssthresh := params.initialWindow as real, params.doubleMax;
      highData, recPoint := 0, 0.0;
      cubicWmax, cubicLastWmax, cubicLastDecrease := 0.0, 0.0, now;
      bicMinWin, bicMaxWin, bicTargetWin := 0.0, params.doubleMax, 0.0;
      bicSsCwnd, bicSsTarget, isBicSs := 0.0, 0.0, false;
    }

    function Value(): Window
      reads this
    {
      Window(size, ssthresh, highData, recPoint, cubicWmax, cubicLastWmax, cubicLastDecrease,
             bicMinWin, bicMaxWin, bicTargetWin, bicSsCwnd, bicSsTarget, isBicSs)
    }

    method SetSize(x: real)
      modifies this
      ensures Value() == old(Value()).(size := x)
    {
      size := x;
    }

    method OnHighData(q: nat)
      modifies this
      ensures Value() == SawData(old(Value()), q)
    {
      if highData < q {
        highData := q;
      }
    }

    method WindowIncrease(now: real, k: real)
      requires size != 0.0
      modifies this
      ensures Value() == Increase(params, old(Value()), now, k)
    {
      if params.algorithm == AIMD {
        if size < ssthresh {
          size := size + 1.0;
        } else {
          size := size + 1.0 / size;
        }
      } else if params.algorithm == CUBIC {
        CubicIncrease(now, k);
      } else {
        BicIncrease();
      }
    }

    method WindowDecrease(seqNo: nat, now: real)
      modifies this
      ensures Value() == Decrease(params, old(Value()), seqNo, now)
    {
      hide CubicCut, BicCut, Difference;
      if !params.useCwa || highData as real > recPoint {
        var diff := Difference(seqNo, highData) as real;
        CutKeepsRecPoint(params, Value(), now, seqNo as real + params.addRttSuppress * diff);
        recPoint := seqNo as real + params.addRttSuppress * diff;
        if params.algorithm == AIMD {
          ssthresh := size * params.beta;
          size := ssthresh;
        } else if params.algorithm == CUBIC {
          CubicDecrease(now);
        } else {
          BicDecrease();
        }
        if size < params.initialWindow as real {
          size := params.initialWindow as real;
        }
      }
    }

    method BicIncrease()
      requires size != 0.0
      modifies this
      ensures Value() == BicStep(params, old(Value()))
    {
      if size < BIC_LOW_WINDOW {
        if size < ssthresh {
          size := size + 1.0;
        } else {
          size := size + 1.0 / size;
        }
      } else if !isBicSs {
        if bicTargetWin - size < BIC_MAX_INCREMENT {
          size := size + (bicTargetWin - size) / size;
        } else {
          size := size + BIC_MAX_INCREMENT / size;
        }
        if size + 0.00001 < bicMaxWin {
          bicMinWin := size;
          bicTargetWin := (bicMaxWin + bicMinWin) / 2.0;
        } else {
          isBicSs := true;
          bicSsCwnd := 1.0;
          bicSsTarget := size + 1.0;
          bicMaxWin := params.doubleMax;
        }
      } else {
        size := size + bicSsCwnd / size;
        if size >= bicSsTarget {
          bicSsCwnd := 2.0 * bicSsCwnd;
          bicSsTarget := size + bicSsCwnd;
        }
        if bicSsCwnd >= BIC_MAX_INCREMENT {
          isBicSs := false;
        }
      }
    }

    method BicDecrease()
      modifies this
      ensures Value() == BicCut(params, old(Value()))
    {
      if size >= BIC_LOW_WINDOW {
        var prevMax := bicMaxWin;
        bicMaxWin := size;
        size := Scaled(size, params.cubicBeta);
        bicMinWin := size;
        if prevMax > bicMaxWin {
          bicMaxWin := (bicMaxWin + bicMinWin) / 2.0;
        }
        bicTargetWin := (bicMaxWin + bicMinWin) / 2.0;
      } else {
        ssthresh := Scaled(size, params.cubicBeta);
        size := ssthresh;
      }
    }

    method CubicIncrease(now: real, k: real)
      requires size != 0.0
      modifies this
      ensures Value() == CubicStep(old(Value()), now - old(cubicLastDecrease), k)
    {
      var t := now - cubicLastDecrease;
      var wCubic := CUBIC_C * ((t - k) * (t - k) * (t - k)) + cubicWmax;
      if size < ssthresh {
        size := size + 1.0;
      } else {
        var cubicIncrement := MaxReal(wCubic, 0.0) - size;
        if cubicIncrement < 0.0 {
          cubicIncrement := 0.0;
        }
        size := size + cubicIncrement / size;
      }
    }

    method CubicDecrease(now: real)
      modifies this
      ensures Value() == CubicCut(params, old(Value()), now)
    {
      if params.useCubicFastConv && size < cubicLastWmax * (1.0 - 1.0 / 100.0) {
        cubicLastWmax := size;
        cubicWmax := size * (1.0 + params.cubicBeta) / 2.0;
      } else {
        cubicLastWmax := size;
        cubicWmax := size;
      }
      ssthresh := size * params.cubicBeta;
      ssthresh := MaxReal(ssthresh, params.initialWindow as real);
      size := ssthresh;
      cubicLastDecrease := now;
    }
  }
}
