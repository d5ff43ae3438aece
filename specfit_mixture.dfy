/**
 * specfit/spectro/mixture.py, the older copy of the mixture fitter: the same
 * mixture model and pH relation (shared with module Mixture), fit weights, the
 * start values read at the spline peaks and the box handed to curve_fit.
 */
module SpecfitMixture {

  import opened Wrappers
  import opened Numerics
  import opened Fitting
  import opened Mixture

  /** The weights argument of unmix_spectra: a flag, or an array used as sigma. */
  datatype WeightsArg = Flag(on: bool) | Given(w: seq<real>)

  /** w = 1 / (mixture(x)**2 + 1) at one wavelength, the mixture taken with its default arguments. */
  function DefaultWeight(acid: Spline, base: Spline, x: real): (r: real)
    ensures 0.0 < r <= 1.0
  {
    var s := MixSpectraAt(acid, base, x, 1.0, 1.0, 0.0, 0.0, 1.0);
    var sq := Product(s, s);
    assert sq >= 0.0;
    DivideAtMostOne(sq);
    1.0 / (sq + 1.0)
  }

  lemma DivideAtMostOne(sq: real)
    requires sq >= 0.0
    ensures 0.0 < 1.0 / (sq + 1.0) <= 1.0
  {
  }

  /** The sigma curve_fit receives: computed weights for True, none for False, an array passed through. */
  function Weights(acid: Spline, base: Spline, x: seq<real>, weights: WeightsArg): (r: Option<seq<real>>)
    ensures weights == Flag(false) <==> r == None
    ensures weights.Given? ==> r == Some(weights.w)
    ensures weights == Flag(true) ==>
              r.Some? && |r.value| == |x| && forall i :: 0 <= i < |x| ==> 0.0 < r.value[i] <= 1.0
  {
    match weights
    case Flag(on) =>
      if on then Some(seq(|x|, i requires 0 <= i < |x| => DefaultWeight(acid, base, x[i]))) else None
    case Given(w) => Some(w)
  }

  /** How many entries of s equal v. */
  function Count(s: seq<real>, v: real): (n: nat)
    ensures n <= |s|
  {
    if s == [] then 0 else Count(s[..|s| - 1], v) + (if s[|s| - 1] == v then 1 else 0)
  }

  /** Two distinct positions holding v count twice. */
  lemma {:induction false} CountTwo(s: seq<real>, v: real, j: nat, k: nat)
    requires j < |s| && k < |s| && j != k && s[j] == v && s[k] == v
    ensures Count(s, v) >= 2
  {
    var last := |s| - 1;
    if j == last {
      CountOne(s[..last], v, k);
    } else if k == last {
      CountOne(s[..last], v, j);
    } else {
      CountTwo(s[..last], v, j, k);
    }
  }

  lemma {:induction false} CountOne(s: seq<real>, v: real, k: nat)
    requires k < |s| && s[k] == v
    ensures Count(s, v) >= 1
  {
    var last := |s| - 1;
    if k != last {
      CountOne(s[..last], v, k);
    }
  }

  /**
   * The start amount for one spline: x[f(x) == max(f(x))] locates the peak, the
   * absorbance at the nearest grid point is divided by the peak value and clamped
   * at 0. An empty grid raises ValueError in max; a peak shared by some but not
   * all grid points cannot be broadcast against x (ValueError); a peak held by
   * every point of a longer grid selects more than one absorbance, which float()
   * refuses (TypeError); an absorbance array of another length than x cannot be
   * indexed by the mask (IndexError).
   */
  function StartAmount(f: Spline, x: seq<real>, y: seq<real>): (r: Result<real>)
    requires |x| > 0 ==> f.at(x[ArgMax(EvalAt(f.at, x))]) != 0.0
    ensures |x| == 0 ==> r.Err? && r.error.ValueError?
    ensures r.Ok? <==> |x| > 0 && |y| == |x| && Count(EvalAt(f.at, x), f.at(x[ArgMax(EvalAt(f.at, x))])) == 1
    ensures r.Ok? ==> r.value >= 0.0
    ensures r.Ok? ==> var k := ArgMax(EvalAt(f.at, x)); r.value == Max(y[k] / f.at(x[k]), 0.0)
  {
    if |x| == 0 then Err(ValueError("max() arg is an empty sequence"))
    else
      var k := ArgMax(EvalAt(f.at, x));
      var peaks := Count(EvalAt(f.at, x), f.at(x[k]));
      if peaks != 1 && peaks != |x| then Err(ValueError("operands could not be broadcast together"))
      else if |y| != |x| then Err(IndexError)
      else if peaks != 1 then Err(TypeError("only length-1 arrays can be converted to Python scalars"))
      else Ok(Max(y[k] / f.at(x[k]), 0.0))
  }

  /**
   * With a single peak the nearest-point mask abs(x - x[k]) == min(...) selects
   * position k alone: any other grid point at distance 0 would share the peak value.
   */
  lemma UniquePeakIsNearestAlone(f: Spline, x: seq<real>)
    requires |x| > 0
    requires Count(EvalAt(f.at, x), f.at(x[ArgMax(EvalAt(f.at, x))])) == 1
    ensures var k := ArgMax(EvalAt(f.at, x));
            forall j :: 0 <= j < |x| && j != k ==> x[j] != x[k]
  {
    var k := ArgMax(EvalAt(f.at, x));
    var s := EvalAt(f.at, x);
    forall j | 0 <= j < |x| && j != k
      ensures x[j] != x[k]
    {
      if x[j] == x[k] {
        CountTwo(s, f.at(x[k]), j, k);
      }
    }
  }

  /** The arguments unmix_spectra hands to curve_fit besides the model and the data. */
  datatype CurveFitRequest = CurveFitRequest(p0: Params, sigma: Option<seq<real>>)

  /**
   * unmix_spectra up to the call of curve_fit: the weights first, then the base
   * and the acid start amounts; background 0, C0 = 0, C1 = 1.
   */
  function UnmixStart(x: seq<real>, y: seq<real>, acid: Spline, base: Spline, weights: WeightsArg): (r: Result<CurveFitRequest>)
    requires PeakValuesNonZero(x, acid, base)
    ensures r.Ok? <==> StartAmount(base, x, y).Ok? && StartAmount(acid, x, y).Ok?
    ensures StartAmount(base, x, y).Err? ==> r == Err(StartAmount(base, x, y).error)
    ensures StartAmount(base, x, y).Ok? && StartAmount(acid, x, y).Err? ==> r == Err(StartAmount(acid, x, y).error)
    ensures r.Ok? ==>
              r.value.p0 == Params(StartAmount(acid, x, y).value, StartAmount(base, x, y).value, 0.0, 0.0, 1.0)
    ensures r.Ok? ==> r.value.sigma == Weights(acid, base, x, weights)
  {
    var w := Weights(acid, base, x, weights);
    var bStart :- StartAmount(base, x, y);
    var aStart :- StartAmount(acid, x, y);
    Ok(CurveFitRequest(Params(aStart, bStart, 0.0, 0.0, 1.0), w))
  }

  /** The box of curve_fit: a, b >= 0, bkg in [-0.1, 0.1], C0 in [-0.05, 0.05], C1 in [0.95, 1.05]. */
  const FitBounds := Bounds(
    Interval(Finite(0.0), Unbounded),
    Interval(Finite(0.0), Unbounded),
    Interval(Finite(-0.1), Finite(0.1)),
    Interval(Finite(-0.05), Finite(0.05)),
    Interval(Finite(0.95), Finite(1.05)))

  /** Whatever the spectrum, a start point that is computed lies inside the box. */
  lemma UnmixStartInBounds(x: seq<real>, y: seq<real>, acid: Spline, base: Spline, weights: WeightsArg)
    requires PeakValuesNonZero(x, acid, base)
    requires UnmixStart(x, y, acid, base, weights).Ok?
    ensures InBounds(UnmixStart(x, y, acid, base, weights).value.p0, FitBounds)
  {
    var p0 := UnmixStart(x, y, acid, base, weights).value.p0;
    assert p0.a >= 0.0 && p0.b >= 0.0;
  }
}
