/** The `scale` function of the legacy `fuzzy` package (`fuzzy/rules.py`). */
module LegacyRules {
  import opened Wrappers
  import opened Reals
  import Tools

  /**
   * `scale(x, IN_min=0, IN_max=1, OUT_min, OUT_max)`: the two-point formula
   * `(OUT_max - OUT_min) * (x - IN_min) / (IN_max - IN_min) + OUT_min`,
   * evaluated left to right as Python does. There is no guard: equal input
   * bounds divide by zero.
   */
  function Scale(x: real, inMin: real, inMax: real, outMin: real, outMax: real): (r: Result<real>)
    ensures r.Err? <==> inMax == inMin
    ensures r.Err? ==> r.error.ZeroDivisionError?
  {
    if inMax - inMin == 0.0 then Err(ZeroDivisionError("division by zero"))
    else Ok((outMax - outMin) * (x - inMin) / (inMax - inMin) + outMin)
  }

  /** Both input bounds land on the matching output bounds, in either orientation of the inputs. */
  lemma ScaleEndpoints(inMin: real, inMax: real, outMin: real, outMax: real)
    requires inMin != inMax
    ensures Scale(inMin, inMin, inMax, outMin, outMax) == Ok(outMin)
    ensures Scale(inMax, inMin, inMax, outMin, outMax) == Ok(outMax)
  {
    assert Scale(inMin, inMin, inMax, outMin, outMax) == Ok(outMin) by {
      assert (outMax - outMin) * (inMin - inMin) == 0.0;
    }
    assert Scale(inMax, inMin, inMax, outMin, outMax) == Ok(outMax) by {
      MulDivCancel(outMax - outMin, inMax - inMin);
    }
  }

  /**
   * `scale` is affine in `x`: the difference of two results is the constant
   * slope `(OUT_max - OUT_min) / (IN_max - IN_min)` applied to the difference of the inputs.
   */
  lemma ScaleAffine(x: real, y: real, inMin: real, inMax: real, outMin: real, outMax: real)
    requires inMin != inMax
    ensures Scale(y, inMin, inMax, outMin, outMax).value - Scale(x, inMin, inMax, outMin, outMax).value
         == (outMax - outMin) * (y - x) / (inMax - inMin)
  {
    var k, m := outMax - outMin, inMax - inMin;
    var a, b := k * (y - inMin), k * (x - inMin);
    assert a - b == k * (y - x);
    DivSub(a, b, m);
  }

  /** With the default inputs 0..1 the formula is `(OUT_max - OUT_min) * x + OUT_min`. */
  lemma ScaleDefaults(x: real, outMin: real, outMax: real)
    ensures Scale(x, 0.0, 1.0, outMin, outMax) == Ok((outMax - outMin) * x + outMin)
  {
  }

  /**
   * For increasing input bounds `scale` is the current package's `rescale`,
   * the independent factorised formula.
   */
  lemma ScaleIsRescale(x: real, inMin: real, inMax: real, outMin: real, outMax: real)
    requires inMin < inMax
    ensures Scale(x, inMin, inMax, outMin, outMax) == Ok(Tools.RescaleAt(outMin, outMax, inMin, inMax, x))
  {
  }
}
