/**
 * Photometric error of an absorbance spectrum (carbspec/spectro/uncertainty.py,
 * after Galban et al. 2007): three noise sources, their combination in
 * quadrature relative to the absorbance, and the relative photometric error.
 */
module SpectroUncertainty {
  import opened Wrappers
  import opened Numerics

  /** k1 * (1 + 10**(-2 Abs))**0.5 */
  function ThermalNoise(E: Elementary, Abs: seq<real>, k1: real): (r: seq<real>)
    ensures |r| == |Abs|
    ensures k1 == 0.0 ==> forall i :: 0 <= i < |r| ==> r[i] == 0.0
  {
    seq(|Abs|, i requires 0 <= i < |Abs| => k1 * E.sqrt(1.0 + E.pow10(-2.0 * Abs[i])))
  }

  /** k2 * (10**-Abs + 10**(-2 Abs))**0.5 */
  function PhotonNoise(E: Elementary, Abs: seq<real>, k2: real): (r: seq<real>)
    ensures |r| == |Abs|
    ensures k2 == 0.0 ==> forall i :: 0 <= i < |r| ==> r[i] == 0.0
  {
    seq(|Abs|, i requires 0 <= i < |Abs| => k2 * E.sqrt(E.pow10(-Abs[i]) + E.pow10(-2.0 * Abs[i])))
  }

  /** k3 * 10**-Abs */
  function CellPositionNoise(E: Elementary, Abs: seq<real>, k3: real): (r: seq<real>)
    ensures |r| == |Abs|
    ensures k3 == 0.0 ==> forall i :: 0 <= i < |r| ==> r[i] == 0.0
  {
    seq(|Abs|, i requires 0 <= i < |Abs| => k3 * E.pow10(-Abs[i]))
  }

  /** Each noise is its k times the noise at k = 1. */
  lemma NoisesProportionalToK(E: Elementary, Abs: seq<real>, k: real, i: nat)
    requires i < |Abs|
    ensures ThermalNoise(E, Abs, k)[i] == k * ThermalNoise(E, Abs, 1.0)[i]
    ensures PhotonNoise(E, Abs, k)[i] == k * PhotonNoise(E, Abs, 1.0)[i]
    ensures CellPositionNoise(E, Abs, k)[i] == k * CellPositionNoise(E, Abs, 1.0)[i]
  {
  }

  // ---------------------------------------------------------------------------
  // combine_errors
  // ---------------------------------------------------------------------------

  /** noise += x can only store an operand of the noise array's length or of length 1. */
  predicate Fits(component: seq<real>, n: nat)
  {
    |component| == n || |component| == 1
  }

  predicate AllFit(components: seq<seq<real>>, n: nat)
  {
    forall c :: 0 <= c < |components| ==> Fits(components[c], n)
  }

  predicate NonZero(Abs: seq<real>)
  {
    forall j :: 0 <= j < |Abs| ==> Abs[j] != 0.0
  }

  /** (i / Abs)**2 at position j. */
  function SquaredRatio(Abs: seq<real>, component: seq<real>, j: nat): (r: real)
    requires j < |Abs| && Abs[j] != 0.0 && Fits(component, |Abs|)
    ensures r >= 0.0
  {
    var x := At(component, j) / Abs[j];
    Product(x, x)
  }

  /** The noise array at position j once the given components have been added. */
  function NoiseAt(Abs: seq<real>, components: seq<seq<real>>, j: nat): (r: real)
    requires j < |Abs| && Abs[j] != 0.0 && AllFit(components, |Abs|)
    ensures r >= 0.0
  {
    if components == [] then 0.0
    else
      var last := |components| - 1;
      NoiseAt(Abs, components[..last], j) + SquaredRatio(Abs, components[last], j)
  }

  /** Abs * noise**0.5 at one wavelength. */
  function ScaledRoot(E: Elementary, a: real, noise: real): real
  {
    a * E.sqrt(noise)
  }

  /** Abs * noise**0.5 */
  function CombinedErrors(E: Elementary, Abs: seq<real>, components: seq<seq<real>>): (r: seq<real>)
    requires NonZero(Abs) && AllFit(components, |Abs|)
    ensures |r| == |Abs|
  {
    seq(|Abs|, j requires 0 <= j < |Abs| => ScaledRoot(E, Abs[j], NoiseAt(Abs, components, j)))
  }

  /** noise += (component / Abs)**2 */
  method AddSquaredRatios(noise: array<real>, Abs: seq<real>, component: seq<real>)
    requires noise.Length == |Abs| && NonZero(Abs) && Fits(component, |Abs|)
    modifies noise
    ensures forall j :: 0 <= j < |Abs| ==> noise[j] == old(noise[j]) + SquaredRatio(Abs, component, j)
  {
    var j := 0;
    while j < noise.Length
      invariant 0 <= j <= noise.Length
      invariant forall q :: 0 <= q < j ==> noise[q] == old(noise[q]) + SquaredRatio(Abs, component, q)
      invariant forall q :: j <= q < noise.Length ==> noise[q] == old(noise[q])
    {
      noise[j] := noise[j] + SquaredRatio(Abs, component, j);
      j := j + 1;
    }
  }

  /**
   * combine_errors(Abs, *it): start from zeros, add (i / Abs)**2 for each
   * component in turn, return Abs * sqrt(noise). A component of another length
   * than Abs (other than 1) cannot be added in place and raises ValueError.
   */
  method CombineErrors(E: Elementary, Abs: seq<real>, components: seq<seq<real>>) returns (r: Result<seq<real>>)
    requires NonZero(Abs)
    ensures r.Ok? <==> AllFit(components, |Abs|)
    ensures r.Err? ==> r.error.ValueError?
    ensures r.Ok? ==> r.value == CombinedErrors(E, Abs, components)
  {
    var noise := new real[|Abs|](_ => 0.0);
    var c := 0;
    while c < |components|
      invariant 0 <= c <= |components|
      invariant AllFit(components[..c], |Abs|)
      invariant forall j :: 0 <= j < |Abs| ==> noise[j] == NoiseAt(Abs, components[..c], j)
    {
      if !Fits(components[c], |Abs|) {
        return Err(ValueError("non-broadcastable output operand"));
      }
      AddSquaredRatios(noise, Abs, components[c]);
      assert components[..c + 1][..c] == components[..c];
      c := c + 1;
    }
    assert components[..c] == components;
    var total := noise[..];
    return Ok(seq(|Abs|, j requires 0 <= j < |Abs| => ScaledRoot(E, Abs[j], total[j])));
  }

  predicate AllZero(components: seq<seq<real>>)
  {
    forall c, j :: 0 <= c < |components| && 0 <= j < |components[c]| ==> components[c][j] == 0.0
  }

  lemma {:induction false} NoiseOfZeroComponents(Abs: seq<real>, components: seq<seq<real>>, j: nat)
    requires j < |Abs| && Abs[j] != 0.0 && AllFit(components, |Abs|) && AllZero(components)
    ensures NoiseAt(Abs, components, j) == 0.0
  {
    if components != [] {
      var last := |components| - 1;
      assert AllZero(components[..last]);
      NoiseOfZeroComponents(Abs, components[..last], j);
      assert At(components[last], j) == 0.0;
    }
  }

  /** With no components, or only zero components, the combined error is zero everywhere. */
  lemma CombinedErrorsOfZeroComponents(E: Elementary, Abs: seq<real>, components: seq<seq<real>>)
    requires SqrtLaws(E) && NonZero(Abs) && AllFit(components, |Abs|) && AllZero(components)
    ensures forall j :: 0 <= j < |Abs| ==> CombinedErrors(E, Abs, components)[j] == 0.0
  {
    forall j | 0 <= j < |Abs|
      ensures CombinedErrors(E, Abs, components)[j] == 0.0
    {
      NoiseOfZeroComponents(Abs, components, j);
    }
  }

  /** A single non-negative component over a positive spectrum comes back unchanged. */
  lemma CombineSingleComponent(E: Elementary, Abs: seq<real>, component: seq<real>)
    requires SqrtOfSquare(E)
    requires forall j :: 0 <= j < |Abs| ==> Abs[j] > 0.0
    requires |component| == |Abs| && forall j :: 0 <= j < |Abs| ==> component[j] >= 0.0
    ensures CombinedErrors(E, Abs, [component]) == component
  {
    forall j | 0 <= j < |Abs|
      ensures CombinedErrors(E, Abs, [component])[j] == component[j]
    {
      assert [component][..0] == [];
      var x := component[j] / Abs[j];
      assert x >= 0.0;
      assert NoiseAt(Abs, [component], j) == Product(x, x);
      assert E.sqrt(Product(x, x)) == x;
      assert Abs[j] * x == component[j];
    }
  }

  // ---------------------------------------------------------------------------
  // relative and absolute photometric error
  // ---------------------------------------------------------------------------

  /** (0.434 / Abs) * (sT / 10**-Abs) at one wavelength. */
  function RelErrorAt(E: Elementary, a: real, sT: real): real
    requires Pow10Positive(E) && a != 0.0
  {
    (0.434 / a) * (sT / E.pow10(-a))
  }

  /** The relative error is linear in sT, and zero for sT = 0. */
  lemma RelErrorLinear(E: Elementary, a: real, s1: real, s2: real, c: real)
    requires Pow10Positive(E) && a != 0.0
    ensures RelErrorAt(E, a, s1 + c * s2) == RelErrorAt(E, a, s1) + c * RelErrorAt(E, a, s2)
    ensures RelErrorAt(E, a, 0.0) == 0.0
  {
    var p := E.pow10(-a);
    assert p > 0.0;
    assert (s1 + c * s2) / p == s1 / p + c * (s2 / p);
    var f := 0.434 / a;
    assert f * (s1 / p + c * (s2 / p)) == f * (s1 / p) + c * (f * (s2 / p));
  }

  /** rel_photometric_error(Abs, sT), broadcast elementwise. */
  function RelPhotometricError(E: Elementary, Abs: seq<real>, sT: seq<real>): (r: Result<seq<real>>)
    requires Pow10Positive(E) && NonZero(Abs)
    ensures r.Ok? <==> Broadcast(|Abs|, |sT|).Some?
    ensures r.Err? ==> r.error.ValueError?
    ensures r.Ok? ==> |r.value| == Broadcast(|Abs|, |sT|).value
    ensures r.Ok? ==> forall i :: 0 <= i < |r.value| ==> r.value[i] == RelErrorAt(E, At(Abs, i), At(sT, i))
  {
    match Broadcast(|Abs|, |sT|)
    case None => Err(ValueError("operands could not be broadcast together"))
    case Some(n) => Ok(seq(n, i requires 0 <= i < n => RelErrorAt(E, At(Abs, i), At(sT, i))))
  }

  /** The three noise sources calc_rel_photometric_error combines. */
  function NoiseComponents(E: Elementary, Abs: seq<real>, k1: real, k2: real, k3: real): (r: seq<seq<real>>)
    ensures AllFit(r, |Abs|)
  {
    [ThermalNoise(E, Abs, k1), PhotonNoise(E, Abs, k2), CellPositionNoise(E, Abs, k3)]
  }

  /** What calc_rel_photometric_error returns, as a function of its inputs. */
  function RelPhotometricErrorOf(E: Elementary, Abs: seq<real>, k1: real, k2: real, k3: real): (r: seq<real>)
    requires Pow10Positive(E) && NonZero(Abs)
    ensures |r| == |Abs|
  {
    var noise := CombinedErrors(E, Abs, NoiseComponents(E, Abs, k1, k2, k3));
    seq(|Abs|, i requires 0 <= i < |Abs| => RelErrorAt(E, Abs[i], noise[i]))
  }

  /** calc_rel_photometric_error(Abs, k1, k2, k3) */
  method CalcRelPhotometricError(E: Elementary, Abs: seq<real>, k1: real, k2: real, k3: real) returns (r: seq<real>)
    requires Pow10Positive(E) && NonZero(Abs)
    ensures r == RelPhotometricErrorOf(E, Abs, k1, k2, k3)
  {
    var shot := ThermalNoise(E, Abs, k1);
    var photon := PhotonNoise(E, Abs, k2);
    var cell := CellPositionNoise(E, Abs, k3);
    var noise := CombineErrors(E, Abs, [shot, photon, cell]);
    assert noise.Ok?;
    r := RelPhotometricError(E, Abs, noise.value).value;
  }

  /** With the default k1 = k2 = k3 = 0 every noise source vanishes, and so does the error. */
  lemma RelPhotometricErrorAtDefaults(E: Elementary, Abs: seq<real>)
    requires Pow10Positive(E) && SqrtLaws(E) && NonZero(Abs)
    ensures forall i :: 0 <= i < |Abs| ==> RelPhotometricErrorOf(E, Abs, 0.0, 0.0, 0.0)[i] == 0.0
  {
    var comps := NoiseComponents(E, Abs, 0.0, 0.0, 0.0);
    assert AllZero(comps);
    CombinedErrorsOfZeroComponents(E, Abs, comps);
    forall i | 0 <= i < |Abs|
      ensures RelPhotometricErrorOf(E, Abs, 0.0, 0.0, 0.0)[i] == 0.0
    {
      RelErrorLinear(E, Abs[i], 0.0, 0.0, 0.0);
    }
  }

  /** calc_photometric_error(Abs, k1, k2, k3) = Abs * calc_rel_photometric_error(...) */
  method CalcPhotometricError(E: Elementary, Abs: seq<real>, k1: real, k2: real, k3: real) returns (r: seq<real>)
    requires Pow10Positive(E) && NonZero(Abs)
    ensures |r| == |Abs|
    ensures forall i :: 0 <= i < |Abs| ==> r[i] == Product(Abs[i], RelPhotometricErrorOf(E, Abs, k1, k2, k3)[i])
  {
    var rel := CalcRelPhotometricError(E, Abs, k1, k2, k3);
    r := seq(|Abs|, i requires 0 <= i < |Abs| => Product(Abs[i], rel[i]));
  }

  /** So the absolute error is zero with the default coefficients as well. */
  lemma PhotometricErrorAtDefaults(E: Elementary, Abs: seq<real>, i: nat)
    requires Pow10Positive(E) && SqrtLaws(E) && NonZero(Abs) && i < |Abs|
    ensures Product(Abs[i], RelPhotometricErrorOf(E, Abs, 0.0, 0.0, 0.0)[i]) == 0.0
  {
    RelPhotometricErrorAtDefaults(E, Abs);
  }
}
