/**
 * The two benchmark rates: the static Taylor rule and the inertial (smoothed)
 * Taylor rule, in the server's variant (whose previous rate is a raw
 * spreadsheet cell) and the browser's variant (whose previous rate is a
 * JSON number or null).
 */
module TaylorRule {
  import opened Outcomes

  /** `a_i`: weight of the previous policy rate. */
  const Smoothing: real := 0.85
  /** `a_t`: weight of the Taylor rate. */
  const Adjustment: real := 0.15
  /** `a_pi`: response to the inflation gap. */
  const InflationWeight: real := 0.5
  /** `a_y`: response to the output gap. */
  const GapWeight: real := 0.5

  /** A JavaScript number as the server computes it: null, NaN or a finite value. */
  datatype JsNumber = Null | NaN | Num(x: real)

  /** The previous-rate variable of the server loop: `null` before the first row, else the raw `ocr` cell. */
  datatype PrevOcr = NoPrevious | PrevUndefined | PrevValue(x: real)

  /** The rule's rate for given neutral rate, inflation, inflation target and output gap. */
  function TaylorRate(nir: real, inflation: real, target: real, gap: real): real
  {
    nir + InflationWeight * (inflation - target) + GapWeight * gap
  }

  /** `calculateTaylorOCR`: null when the output gap or the neutral rate is missing. */
  function TaylorOCR(inflation: real, gap: Option<real>, nir: Option<real>, target: real): (r: Option<real>)
    ensures r.None? <==> gap.None? || nir.None?
    ensures r.Some? ==> r.value == nir.value + 0.5 * (inflation - target) + 0.5 * gap.value
  {
    if gap.None? || nir.None? then None else Some(TaylorRate(nir.value, inflation, target, gap.value))
  }

  /** The server's `calculateInertialTaylorOCR` (`src/app/api/getData/route.ts`). */
  function ServerInertialOCR(prev: PrevOcr, inflation: real, gap: Option<real>, nir: Option<real>,
                             target: real, actual: Option<real>): (r: JsNumber)
    ensures gap.None? || nir.None? ==> r == Null
    ensures gap.Some? && nir.Some? && prev.NoPrevious? ==>
      r == (if actual.Some? then Num(actual.value) else Null)
    ensures gap.Some? && nir.Some? && prev.PrevUndefined? ==> r == NaN
    ensures gap.Some? && nir.Some? && prev.PrevValue? ==>
      r == Num(0.85 * prev.x + 0.15 * (nir.value + 0.5 * (inflation - target) + 0.5 * gap.value))
  {
    if gap.None? || nir.None? then Null
    else
      match prev
      case NoPrevious => (match actual case Some(a) => Num(a) case None => Null)
      // `a_i * undefined` is NaN
      case PrevUndefined => NaN
      case PrevValue(p) => Num(Smoothing * p + Adjustment * TaylorRate(nir.value, inflation, target, gap.value))
  }

  /** The browser's `calculateInertialTaylorOCR` (`src/app/page.tsx`); its unused local Taylor rate is omitted. */
  function ClientInertialOCR(prev: Option<real>, inflation: real, gap: Option<real>, nir: Option<real>,
                             target: real, actual: Option<real>): (r: Option<real>)
    ensures gap.None? || nir.None? ==> r == None
    ensures gap.Some? && nir.Some? && prev.None? ==> r == actual
    ensures gap.Some? && nir.Some? && prev.Some? ==>
      r == Some(0.85 * prev.value + 0.15 * (nir.value + 0.5 * (inflation - target) + 0.5 * gap.value))
  {
    if gap.None? || nir.None? then None
    else if prev.None? then actual
    else Some(Smoothing * prev.value + Adjustment * TaylorRate(nir.value, inflation, target, gap.value))
  }

  /** The static and the inertial rate are null on exactly the same inputs once a previous rate exists. */
  lemma InertialNullIffTaylorNull(prev: real, inflation: real, gap: Option<real>, nir: Option<real>,
                                  target: real, actual: Option<real>)
    ensures ClientInertialOCR(Some(prev), inflation, gap, nir, target, actual).None?
        <==> TaylorOCR(inflation, gap, nir, target).None?
    ensures ServerInertialOCR(PrevValue(prev), inflation, gap, nir, target, actual).Null?
        <==> TaylorOCR(inflation, gap, nir, target).None?
  {
  }

  /**
   * The inertial rate is a convex combination of the previous rate and the Taylor
   * rate, so it lies between the two and is a fixed point when they agree.
   */
  lemma InertialBetween(prev: real, inflation: real, g: real, n: real, target: real, actual: Option<real>)
    ensures var i := ClientInertialOCR(Some(prev), inflation, Some(g), Some(n), target, actual).value;
            var t := TaylorRate(n, inflation, target, g);
            (prev <= t ==> prev <= i <= t) && (t <= prev ==> t <= i <= prev)
            && (prev == t ==> i == t)
  {
  }

  /** At target inflation with no output gap the Taylor rate is the neutral rate itself. */
  lemma TaylorAtEquilibrium(nir: real, target: real)
    ensures TaylorOCR(target, Some(0.0), Some(nir), target) == Some(nir)
  {
  }

  /** Half a point of rate for every point of inflation or of output gap. */
  lemma TaylorResponse(inflation: real, d: real, g: real, e: real, nir: real, target: real)
    ensures TaylorRate(nir, inflation + d, target, g + e) == TaylorRate(nir, inflation, target, g) + 0.5 * d + 0.5 * e
  {
  }
}
