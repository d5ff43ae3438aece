/**
 * carbspec/spectro/mixture.py: the mixture model as a closure over the two
 * reference splines, the start values unmix_spectra hands to the fitter, the pH
 * of a fitted base/acid ratio, and synthetic spectra of a dye at a given pH.
 */
module Mixture {

  import opened Wrappers
  import opened Numerics
  import opened Fitting
  import opened Ks

  /** The adjusted wavelength xn = c + x * m of mix_spectra. */
  function Adjusted(c: real, m: real, x: real): real
  {
    c + x * m
  }

  /** mix_spectra (the closure make_mix_spectra returns) at one wavelength. */
  function MixSpectraAt(acid: Spline, base: Spline, x: real, a: real, b: real, bkg: real, c: real, m: real): real
  {
    bkg + a * acid.at(Adjusted(c, m, x)) + b * base.at(Adjusted(c, m, x))
  }

  /** mix_spectra over a wavelength grid. */
  function MixSpectra(acid: Spline, base: Spline, x: seq<real>, a: real, b: real, bkg: real, c: real, m: real): (r: seq<real>)
    ensures |r| == |x|
    ensures forall i :: 0 <= i < |x| ==> r[i] == MixSpectraAt(acid, base, x[i], a, b, bkg, c, m)
  {
    seq(|x|, i requires 0 <= i < |x| => MixSpectraAt(acid, base, x[i], a, b, bkg, c, m))
  }

  /** mix_spectra and the fitter's specmix are one model: the same value for the same parameters. */
  lemma MixSpectraIsSpecMix(acid: Spline, base: Spline, x: seq<real>, p: Params)
    ensures MixSpectra(acid, base, x, p.a, p.b, p.bkg, p.c, p.m) == SpecMix(p, x, acid, base)
  {
    forall i | 0 <= i < |x|
      ensures MixSpectraAt(acid, base, x[i], p.a, p.b, p.bkg, p.c, p.m) == SpecMixAt(p, x[i], acid, base)
    {
      assert Adjusted(p.c, p.m, x[i]) == Warp(p.m, p.c, x[i]);
    }
  }

  /** With its default arguments (a = b = 1, bkg = c = 0, m = 1) mix_spectra is the sum of the splines. */
  lemma MixSpectraDefaults(acid: Spline, base: Spline, x: seq<real>)
    ensures var r := MixSpectra(acid, base, x, 1.0, 1.0, 0.0, 0.0, 1.0);
            forall i :: 0 <= i < |x| ==> r[i] == acid.at(x[i]) + base.at(x[i])
  {
    forall i | 0 <= i < |x|
      ensures MixSpectraAt(acid, base, x[i], 1.0, 1.0, 0.0, 0.0, 1.0) == acid.at(x[i]) + base.at(x[i])
    {
      assert Adjusted(0.0, 1.0, x[i]) == x[i];
    }
  }

  /** What unmix_spectra hands to fit_spectrum besides the data: the sigma array and the start point. */
  datatype FitRequest = FitRequest(sigma: seq<real>, p0: Params)

  /**
   * The start values of unmix_spectra: the last absorbance as background, then
   * the clamped base and acid amounts at their spline peaks, no shift, unit
   * stretch; a missing sigma becomes the scalar 1. y[-1] on an empty spectrum
   * raises IndexError before argmax meets an empty grid (ValueError).
   */
  function UnmixStart(x: seq<real>, y: seq<real>, acid: Spline, base: Spline, sigma: Option<seq<real>>): (r: Result<FitRequest>)
    requires PeakValuesNonZero(x, acid, base)
    ensures |y| == 0 ==> r == Err(IndexError)
    ensures |y| > 0 && |x| == 0 ==> r.Err? && r.error.ValueError?
    ensures |y| > 0 && |x| > 0 ==>
              (r.Ok? <==> ArgMax(EvalAt(base.at, x)) < |y| && ArgMax(EvalAt(acid.at, x)) < |y|)
    ensures r.Err? && |x| > 0 ==> r.error == IndexError
    ensures r.Ok? ==> r.value.sigma == (if sigma.None? then [1.0] else sigma.value)
    ensures r.Ok? ==> r.value.p0.bkg == y[|y| - 1] && r.value.p0.c == 0.0 && r.value.p0.m == 1.0
    ensures r.Ok? ==>
              var bl := ArgMax(EvalAt(base.at, x));
              var al := ArgMax(EvalAt(acid.at, x));
              Product(r.value.p0.b, base.at(x[bl])) == Max(y[bl] - r.value.p0.bkg, 0.0) &&
              Product(r.value.p0.a, acid.at(x[al])) == Max(y[al] - r.value.p0.bkg - Product(r.value.p0.b, base.at(x[al])), 0.0)
    ensures r.Ok? && base.at(x[ArgMax(EvalAt(base.at, x))]) > 0.0 ==> r.value.p0.b >= 0.0
    ensures r.Ok? && acid.at(x[ArgMax(EvalAt(acid.at, x))]) > 0.0 ==> r.value.p0.a >= 0.0
  {
    var s := if sigma.None? then [1.0] else sigma.value;
    if |y| == 0 then Err(IndexError)
    else
      var b0 := y[|y| - 1];
      if |x| == 0 then Err(ValueError("attempt to get argmax of an empty sequence"))
      else
        var baseLoc := ArgMax(EvalAt(base.at, x));
        if baseLoc >= |y| then Err(IndexError)
        else
          var bStart := ClampedAmount(y[baseLoc] - b0, base.at(x[baseLoc]));
          var acidLoc := ArgMax(EvalAt(acid.at, x));
          if acidLoc >= |y| then Err(IndexError)
          else
            var aStart := ClampedAmount(y[acidLoc] - b0 - Product(bStart, base.at(x[acidLoc])), acid.at(x[acidLoc]));
            Ok(FitRequest(s, Params(aStart, bStart, b0, 0.0, 1.0)))
  }

  /**
   * The two start heuristics differ only in the background: unmix_spectra takes
   * the last sample, guess_p0 the mean of the last ten. Where those agree, so do
   * the start points.
   */
  lemma UnmixStartAgreesWithGuessP0(x: seq<real>, y: seq<real>, acid: Spline, base: Spline, sigma: Option<seq<real>>)
    requires PeakValuesNonZero(x, acid, base)
    requires |y| > 0 && Mean(Tail10(y)) == y[|y| - 1]
    ensures UnmixStart(x, y, acid, base, sigma).Ok? <==> GuessP0(x, y, acid, base).Ok?
    ensures UnmixStart(x, y, acid, base, sigma).Ok? ==>
              UnmixStart(x, y, acid, base, sigma).value.p0 == GuessP0(x, y, acid, base).value
  {
  }

  /** A flat tail makes the two background starts coincide. */
  lemma FlatTailBackground(y: seq<real>)
    requires |y| > 0
    requires forall i :: 0 <= i < |y| ==> y[i] == y[|y| - 1]
    ensures Mean(Tail10(y)) == y[|y| - 1]
  {
    var t := Tail10(y);
    assert forall i :: 0 <= i < |t| ==> t[i] == y[|y| - 1];
    MeanOfConstant(t, y[|y| - 1]);
  }

  /** pH_from_F: the pH at which the base/acid ratio of the dye is F, given its constant K. */
  function PHFromF(E: Elementary, F: real, K: real): real
    requires F != 0.0
  {
    -E.log10(K / F)
  }

  /** For a fixed K > 0 the pH rises strictly with the base/acid ratio F. */
  lemma PHFromFIncreasingInF(E: Elementary, F1: real, F2: real, K: real)
    requires Log10Increasing(E)
    requires 0.0 < F1 < F2 && K > 0.0
    ensures PHFromF(E, F1, K) < PHFromF(E, F2, K)
  {
    DivAntitone(K, F1, F2);
    assert K / F2 > 0.0;
  }

  /** For a fixed ratio F > 0 the pH falls strictly as K grows. */
  lemma PHFromFDecreasingInK(E: Elementary, F: real, K1: real, K2: real)
    requires Log10Increasing(E)
    requires F > 0.0 && 0.0 < K1 < K2
    ensures PHFromF(E, F, K2) < PHFromF(E, F, K1)
  {
    DivMonotone(K1, K2, F);
    assert K1 / F > 0.0;
  }

  /** The acid and base parts of the dye concentration at proton concentration H. */
  function AcidPart(C: real, K: real, H: real): real
    requires H > 0.0 && K > 0.0
  {
    C / (1.0 + K / H)
  }

  function BasePart(C: real, K: real, H: real): real
    requires H > 0.0 && K > 0.0
  {
    C / (1.0 + H / K)
  }

  /** The two parts add up to the dye concentration, and base over acid is K / H. */
  lemma AcidBaseSplit(C: real, K: real, H: real)
    requires H > 0.0 && K > 0.0
    ensures AcidPart(C, K, H) + BasePart(C, K, H) == C
    ensures C != 0.0 ==> AcidPart(C, K, H) != 0.0 && BasePart(C, K, H) / AcidPart(C, K, H) == K / H
  {
    var u := 1.0 + K / H;
    var v := 1.0 + H / K;
    assert u == (H + K) / H;
    assert v == (H + K) / K;
    assert C / u == C * H / (H + K);
    assert C / v == C * K / (H + K);
    assert C * H / (H + K) + C * K / (H + K) == C * (H + K) / (H + K);
    if C != 0.0 {
      RatioOfShares(C, K, H, H + K);
    }
  }

  lemma RatioOfShares(C: real, K: real, H: real, S: real)
    requires C != 0.0 && H > 0.0 && K > 0.0 && S > 0.0
    ensures C * H / S != 0.0
    ensures (C * K / S) / (C * H / S) == K / H
  {
    var a := C * H / S;
    var b := C * K / S;
    assert a * S == C * H;
    assert b * S == C * K;
    assert b * H == a * K by {
      assert b * S * H == a * S * K;
    }
  }

  /** spec_from_H: the spectrum of the dye at concentration C when the proton concentration is H. */
  function SpecFromH(wv: seq<real>, H: real, C: real, K: real, acid: Spline, base: Spline): (r: seq<real>)
    requires H > 0.0 && K > 0.0
    ensures |r| == |wv|
  {
    var a := AcidPart(C, K, H);
    var b := BasePart(C, K, H);
    seq(|wv|, i requires 0 <= i < |wv| => acid.at(wv[i]) * a + base.at(wv[i]) * b)
  }

  /** The synthetic spectrum is the mixture model with the split amounts, no background and no warp. */
  lemma SpecFromHIsMixture(wv: seq<real>, H: real, C: real, K: real, acid: Spline, base: Spline)
    requires H > 0.0 && K > 0.0
    ensures SpecFromH(wv, H, C, K, acid, base)
         == MixSpectra(acid, base, wv, AcidPart(C, K, H), BasePart(C, K, H), 0.0, 0.0, 1.0)
  {
    forall i | 0 <= i < |wv|
      ensures SpecFromH(wv, H, C, K, acid, base)[i]
           == MixSpectraAt(acid, base, wv[i], AcidPart(C, K, H), BasePart(C, K, H), 0.0, 0.0, 1.0)
    {
      assert Adjusted(0.0, 1.0, wv[i]) == wv[i];
    }
  }

  /** spec_from_pH: spec_from_H at H = 10**-pH. */
  function SpecFromPH(E: Elementary, wv: seq<real>, pH: real, C: real, K: real, acid: Spline, base: Spline): (r: seq<real>)
    requires E.pow10(-pH) > 0.0 && K > 0.0
    ensures r == SpecFromH(wv, E.pow10(-pH), C, K, acid, base)
  {
    SpecFromH(wv, E.pow10(-pH), C, K, acid, base)
  }

  /**
   * Round trip: the base/acid ratio of the dye split at H = 10**-pH, fed to
   * pH_from_F with the same K, gives back pH.
   */
  lemma PHFromFInvertsSplit(E: Elementary, pH: real, C: real, K: real)
    requires Log10InvertsPow10(E)
    requires E.pow10(-pH) > 0.0 && K > 0.0 && C != 0.0
    ensures var H := E.pow10(-pH);
            AcidPart(C, K, H) != 0.0 && BasePart(C, K, H) != 0.0 &&
            PHFromF(E, BasePart(C, K, H) / AcidPart(C, K, H), K) == pH
  {
    var H := E.pow10(-pH);
    AcidBaseSplit(C, K, H);
    var F := BasePart(C, K, H) / AcidPart(C, K, H);
    assert F == K / H;
    assert K / F == H;
    assert E.log10(E.pow10(-pH)) == -pH;
  }

  /**
   * The spectrum spec_from_pH synthesises is the mixture of the acid and base
   * spectra in amounts whose ratio base/acid pH_from_F maps back to pH.
   */
  lemma SpecFromPHRecoversPH(E: Elementary, wv: seq<real>, pH: real, C: real, K: real, acid: Spline, base: Spline)
    requires Log10InvertsPow10(E)
    requires E.pow10(-pH) > 0.0 && K > 0.0 && C != 0.0
    ensures var H := E.pow10(-pH);
            var a, b := AcidPart(C, K, H), BasePart(C, K, H);
            && SpecFromPH(E, wv, pH, C, K, acid, base) == MixSpectra(acid, base, wv, a, b, 0.0, 0.0, 1.0)
            && a != 0.0 && PHFromF(E, b / a, K) == pH
  {
    SpecFromHIsMixture(wv, E.pow10(-pH), C, K, acid, base);
    PHFromFInvertsSplit(E, pH, C, K);
  }

  /** The message pH_from_mixed_spectrum raises for a dye it does not know. */
  function DyeError(dye: string): Exception
  {
    ValueError("dye=" + dye + " is not valid. Please enter BPB or MCP.")
  }

  /**
   * pH_from_mixed_spectrum as written, given the fitted parameters p (the fit
   * itself is scipy's): F = b / a, then K by dye. The BPB branch passes
   * (sal, temp) to calc_KBPB(temp, sal), so the two arguments change places.
   */
  function PHFromMixedSpectrumAsWritten(E: Elementary, p: Params, dye: string, temp: real, sal: real): (r: Result<real>)
    requires p.a != 0.0 && p.b != 0.0
    requires dye == "MCP" ==> temp + 273.15 != 0.0
    ensures dye != "BPB" && dye != "MCP" <==> r == Err(DyeError(dye))
    ensures dye == "BPB" ==> r == Ok(PHFromF(E, p.b / p.a, CalcKBPB(E, sal, temp)))
    ensures dye == "MCP" ==> r == Ok(PHFromF(E, p.b / p.a, E.pow10(-DicksonPKMCP(temp, sal))))
  {
    var F := p.b / p.a;
    if dye == "BPB" then Ok(PHFromF(E, F, CalcKBPB(E, sal, temp)))
    else if dye == "MCP" then
      Ok(PHFromF(E, F, CalcKMCP(E, temp, sal, "dickson").value))
    else Err(DyeError(dye))
  }

  /** pH_from_mixed_spectrum as intended: calc_KBPB(temp, sal) in the BPB branch. */
  function PHFromMixedSpectrum(E: Elementary, p: Params, dye: string, temp: real, sal: real): (r: Result<real>)
    requires p.a != 0.0 && p.b != 0.0
    requires dye == "MCP" ==> temp + 273.15 != 0.0
    ensures dye != "BPB" && dye != "MCP" <==> r == Err(DyeError(dye))
    ensures dye == "BPB" || dye == "MCP" ==>
              r == Ok(PHFromF(E, p.b / p.a, KHandlerIntended(E, dye, temp, sal, None).value))
  {
    var F := p.b / p.a;
    if dye == "BPB" then Ok(PHFromF(E, F, CalcKBPB(E, temp, sal)))
    else if dye == "MCP" then
      Ok(PHFromF(E, F, CalcKMCP(E, temp, sal, "dickson").value))
    else Err(DyeError(dye))
  }

  /**
   * The intended pH_from_mixed_spectrum recovers the pH of a spectrum made by
   * spec_from_pH for the same dye, temperature and salinity, once the fit has
   * returned the split amounts.
   */
  lemma PHFromMixedSpectrumRecoversPH(E: Elementary, pH: real, C: real, dye: string, temp: real, sal: real)
    requires Log10InvertsPow10(E)
    requires dye == "BPB" || dye == "MCP"
    requires dye == "MCP" ==> temp + 273.15 != 0.0
    requires E.pow10(-pH) > 0.0 && C != 0.0
    requires KHandlerIntended(E, dye, temp, sal, None).Ok? && KHandlerIntended(E, dye, temp, sal, None).value > 0.0
    ensures var K := KHandlerIntended(E, dye, temp, sal, None).value;
            var H := E.pow10(-pH);
            var p := Params(AcidPart(C, K, H), BasePart(C, K, H), 0.0, 0.0, 1.0);
            p.a != 0.0 && p.b != 0.0 && PHFromMixedSpectrum(E, p, dye, temp, sal) == Ok(pH)
  {
    var K := KHandlerIntended(E, dye, temp, sal, None).value;
    PHFromFInvertsSplit(E, pH, C, K);
  }

  /** The salinity at which the BPB temperature correction vanishes again: -C1 / C2. */
  const NeutralSalinity: real := 2.56020702e-06 / 1.00921921e-07

  /**
   * At 0 degrees C and salinity -C1 / C2 (about 25.4) both temperature terms are
   * zero, so the swapped call reads the pKa at salinity 0 instead of 25.4 and the
   * pH differs for every positive ratio.
   */
  lemma PHFromMixedSpectrumSwapDiffers(E: Elementary, p: Params)
    requires Pow10Positive(E) && Pow10Increasing(E) && Log10Increasing(E)
    requires p.a > 0.0 && p.b > 0.0
    ensures PHFromMixedSpectrumAsWritten(E, p, "BPB", 0.0, NeutralSalinity)
         != PHFromMixedSpectrum(E, p, "BPB", 0.0, NeutralSalinity)
  {
    var F := p.b / p.a;
    assert TempCorrKBPB(NeutralSalinity) == 0.0 by {
      TempCorrKBPBIsQuadratic(NeutralSalinity);
    }
    assert TempCorrKBPB(0.0) == 0.0;
    var kWritten := CalcKBPB(E, NeutralSalinity, 0.0);
    var kIntended := CalcKBPB(E, 0.0, NeutralSalinity);
    assert -CalcPKBPB(0.0) < -CalcPKBPB(NeutralSalinity);
    assert kWritten == E.pow10(-CalcPKBPB(0.0));
    assert kIntended == E.pow10(-CalcPKBPB(NeutralSalinity));
    assert 0.0 < kWritten < kIntended;
    PHFromFDecreasingInK(E, F, kWritten, kIntended);
  }
}
