/**
 * Total alkalinity from a titration end-point pH (carbspec/alkalinity/TA.py),
 * equation 6 of Nand & Ellwood (2018), and the squared differences its two
 * root-finding callers minimise.
 */
module TA {
  import opened Numerics
  import opened Species

  /** Total sulfate and fluoride and their constants at one salinity and temperature. */
  datatype Seawater = Seawater(TS: real, TF: real, KS: real, KF: real)

  predicate SeawaterDefined(sal: real, temp: real)
  {
    Kelvin(temp) != 0.0 && 1000.0 - 1.005 * sal != 0.0
  }

  function SeawaterConstants(E: Elementary, sal: real, temp: real): Seawater
    requires SeawaterDefined(sal, temp)
  {
    Seawater(CalcTS(sal), CalcTF(sal), CalcKS(E, temp, sal), CalcKF(E, temp, sal))
  }

  /** All constants strictly positive, as they are for real seawater. */
  predicate Positive(k: Seawater)
  {
    k.TS > 0.0 && k.TF > 0.0 && k.KS > 0.0 && k.KF > 0.0
  }

  /** The divisor 1 + TS/KS converting total to free protons. */
  function FreeScale(k: Seawater): real
    requires k.KS != 0.0
  {
    1.0 + k.TS / k.KS
  }

  /** Every denominator of the speciation is non-zero at proton concentration H. */
  predicate Speciable(H: real, k: Seawater)
  {
    H != 0.0 && k.KS != 0.0 && FreeScale(k) != 0.0
    && 1.0 + k.KS / (H / FreeScale(k)) != 0.0
    && 1.0 + k.KF / H != 0.0
  }

  function HFree(H: real, k: Seawater): real
    requires Speciable(H, k)
  {
    H / FreeScale(k)
  }

  function HSO4(H: real, k: Seawater): real
    requires Speciable(H, k)
  {
    k.TS / (1.0 + k.KS / HFree(H, k))
  }

  function HF(H: real, k: Seawater): real
    requires Speciable(H, k)
  {
    k.TF / (1.0 + k.KF / H)
  }

  /** Protons per kg of solution left free or bound to sulfate and fluoride. */
  function Excess(H: real, k: Seawater): real
    requires Speciable(H, k)
  {
    HFree(H, k) + HSO4(H, k) + HF(H, k)
  }

  /** TA_from_pH with the proton concentration H = 10**-pH already computed. */
  function TAFromH(H: real, mSample: real, mAcid: real, cAcid: real, k: Seawater): real
    requires Speciable(H, k) && mSample != 0.0
  {
    (mAcid * cAcid - (mSample + mAcid) * Excess(H, k)) / mSample
  }

  predicate TADefined(E: Elementary, pH: real, mSample: real, sal: real, temp: real)
  {
    SeawaterDefined(sal, temp) && mSample != 0.0
    && Speciable(E.pow10(-pH), SeawaterConstants(E, sal, temp))
  }

  function TAFromPH(E: Elementary, pH: real, mSample: real, mAcid: real, sal: real, temp: real, cAcid: real): real
    requires TADefined(E, pH, mSample, sal, temp)
  {
    TAFromH(E.pow10(-pH), mSample, mAcid, cAcid, SeawaterConstants(E, sal, temp))
  }

  /** Squared distance from the target, minimised over pH by pH_from_TA. */
  function TADiff(E: Elementary, pH: real, ta: real, mSample: real, mAcid: real, sal: real, temp: real, cAcid: real): (r: real)
    requires TADefined(E, pH, mSample, sal, temp)
    ensures TAFromPH(E, pH, mSample, mAcid, sal, temp, cAcid) == ta ==> r == 0.0
    ensures TAFromPH(E, pH, mSample, mAcid, sal, temp, cAcid) != ta ==> r > 0.0
  {
    var t := TAFromPH(E, pH, mSample, mAcid, sal, temp, cAcid);
    Product(t - ta, t - ta)
  }

  /** Squared distance from the target, minimised over the acid mass by calc_m_acid. */
  function MAcidDiff(E: Elementary, mAcid: real, pH: real, ta: real, mSample: real, sal: real, temp: real, cAcid: real): (r: real)
    requires TADefined(E, pH, mSample, sal, temp)
    ensures TAFromPH(E, pH, mSample, mAcid, sal, temp, cAcid) == ta ==> r == 0.0
    ensures TAFromPH(E, pH, mSample, mAcid, sal, temp, cAcid) != ta ==> r > 0.0
  {
    var t := TAFromPH(E, pH, mSample, mAcid, sal, temp, cAcid);
    Product(t - ta, t - ta)
  }

  /** TA is affine in the acid concentration with slope mAcid / mSample. */
  lemma TAAffineInConcentration(H: real, mSample: real, mAcid: real, c: real, d: real, k: Seawater)
    requires Speciable(H, k) && mSample != 0.0
    ensures TAFromH(H, mSample, mAcid, c + d, k) == TAFromH(H, mSample, mAcid, c, k) + d * (mAcid / mSample)
  {
    var X := Excess(H, k);
    calc {
      TAFromH(H, mSample, mAcid, c + d, k);
      (mAcid * (c + d) - (mSample + mAcid) * X) / mSample;
      (mAcid * c - (mSample + mAcid) * X) / mSample + (mAcid * d) / mSample;
    }
  }

  /** TA is affine in the acid mass with slope (C_acid - (Hfree + HSO4 + HF)) / mSample. */
  lemma TAAffineInAcidMass(H: real, mSample: real, m: real, d: real, c: real, k: Seawater)
    requires Speciable(H, k) && mSample != 0.0
    ensures TAFromH(H, mSample, m + d, c, k) == TAFromH(H, mSample, m, c, k) + d * ((c - Excess(H, k)) / mSample)
  {
    AffineInAcidMass(m, d, c, Excess(H, k), mSample);
  }

  /** The algebra of TAAffineInAcidMass, on plain reals. */
  lemma AffineInAcidMass(m: real, d: real, c: real, X: real, mSample: real)
    requires mSample != 0.0
    ensures ((m + d) * c - (mSample + (m + d)) * X) / mSample
            == (m * c - (mSample + m) * X) / mSample + d * ((c - X) / mSample)
  {
    calc {
      ((m + d) * c - (mSample + (m + d)) * X) / mSample;
      ((m * c - (mSample + m) * X) + d * (c - X)) / mSample;
      (m * c - (mSample + m) * X) / mSample + d * (c - X) / mSample;
    }
  }

  /** With positive constants: Hfree < H, 0 < HSO4 < TS and 0 < HF < TF. */
  lemma SpeciesBounds(H: real, k: Seawater)
    requires H > 0.0 && Positive(k)
    ensures Speciable(H, k)
    ensures 0.0 < HFree(H, k) < H
    ensures 0.0 < HSO4(H, k) < k.TS
    ensures 0.0 < HF(H, k) < k.TF
  {
    var q := FreeScale(k);
    assert k.TS / k.KS > 0.0;
    assert q > 1.0;
    var hf := H / q;
    assert 0.0 < hf < H by {
      assert hf * q == H;
    }
    assert k.KS / hf > 0.0;
    DivideByMoreThanOne(k.TS, 1.0 + k.KS / hf);
    assert k.KF / H > 0.0;
    DivideByMoreThanOne(k.TF, 1.0 + k.KF / H);
  }

  lemma DivideByMoreThanOne(x: real, y: real)
    requires x > 0.0 && y > 1.0
    ensures 0.0 < x / y < x
  {
  }

  /** With exp positive and a positive salinity, every constant is positive. */
  lemma SeawaterPositive(E: Elementary, sal: real, temp: real)
    requires ExpPositive(E) && SeawaterDefined(sal, temp) && sal > 0.0
    ensures Positive(SeawaterConstants(E, sal, temp))
  {
    ConstantsPositive(E, temp, sal);
    TotalsLinearInSalinity(sal, 0.0, 0.0);
  }

  /** Without acid the result is minus the proton excess, which is negative. */
  lemma TAWithoutAcid(H: real, mSample: real, c: real, k: Seawater)
    requires H > 0.0 && Positive(k) && mSample != 0.0
    ensures Speciable(H, k)
    ensures TAFromH(H, mSample, 0.0, c, k) == -Excess(H, k)
    ensures TAFromH(H, mSample, 0.0, c, k) < 0.0
  {
    SpeciesBounds(H, k);
    WithoutAcid(c, Excess(H, k), mSample);
  }

  lemma WithoutAcid(c: real, X: real, mSample: real)
    requires mSample != 0.0
    ensures (0.0 * c - (mSample + 0.0) * X) / mSample == -X
  {
    assert (mSample + 0.0) * X == mSample * X;
  }

  /** x / (1 + d / h) increases strictly with h > 0 for positive x and d. */
  lemma SaturatingIncreasing(x: real, d: real, h1: real, h2: real)
    requires x > 0.0 && d > 0.0 && 0.0 < h1 < h2
    ensures x / (1.0 + d / h1) < x / (1.0 + d / h2)
  {
    DivAntitone(d, h1, h2);
    var u1, u2 := 1.0 + d / h1, 1.0 + d / h2;
    assert d / h2 > 0.0;
    DivAntitone(x, u2, u1);
  }

  /** The proton excess grows strictly with the proton concentration. */
  lemma ExcessIncreasing(H1: real, H2: real, k: Seawater)
    requires 0.0 < H1 < H2 && Positive(k)
    ensures Speciable(H1, k) && Speciable(H2, k)
    ensures Excess(H1, k) < Excess(H2, k)
  {
    SpeciesBounds(H1, k);
    SpeciesBounds(H2, k);
    var q := FreeScale(k);
    assert q > 0.0;
    DivMonotone(H1, H2, q);
    SaturatingIncreasing(k.TS, k.KS, HFree(H1, k), HFree(H2, k));
    SaturatingIncreasing(k.TF, k.KF, H1, H2);
  }

  /** For positive masses and constants TA strictly decreases as H increases. */
  lemma TADecreasingInH(H1: real, H2: real, mSample: real, mAcid: real, c: real, k: Seawater)
    requires 0.0 < H1 < H2 && Positive(k)
    requires mSample > 0.0 && mAcid >= 0.0
    ensures Speciable(H1, k) && Speciable(H2, k)
    ensures TAFromH(H2, mSample, mAcid, c, k) < TAFromH(H1, mSample, mAcid, c, k)
  {
    ExcessIncreasing(H1, H2, k);
    var X1, X2 := Excess(H1, k), Excess(H2, k);
    var w := mSample + mAcid;
    assert w * X1 < w * X2;
    var n1, n2 := mAcid * c - w * X1, mAcid * c - w * X2;
    assert n2 < n1;
    DivMonotone(n2, n1, mSample);
  }

  /** Through 10**-pH, TA strictly increases with the end-point pH. */
  lemma TAIncreasingInPH(E: Elementary, pH1: real, pH2: real, mSample: real, mAcid: real, sal: real, temp: real, c: real)
    requires Pow10Positive(E) && Pow10Increasing(E) && ExpPositive(E)
    requires pH1 < pH2 && SeawaterDefined(sal, temp) && sal > 0.0
    requires mSample > 0.0 && mAcid >= 0.0
    ensures TADefined(E, pH1, mSample, sal, temp) && TADefined(E, pH2, mSample, sal, temp)
    ensures TAFromPH(E, pH1, mSample, mAcid, sal, temp, c) < TAFromPH(E, pH2, mSample, mAcid, sal, temp, c)
  {
    var k := SeawaterConstants(E, sal, temp);
    SeawaterPositive(E, sal, temp);
    var H1, H2 := E.pow10(-pH1), E.pow10(-pH2);
    assert 0.0 < H2 < H1;
    TADecreasingInH(H2, H1, mSample, mAcid, c, k);
  }

  /**
   * pH_from_TA searches for a zero of TA_diff: there is at most one, so any exact
   * zero the search finds is the pH the titration was computed from.
   */
  lemma TADiffZeroUnique(E: Elementary, pH1: real, pH2: real, ta: real, mSample: real, mAcid: real, sal: real, temp: real, c: real)
    requires Pow10Positive(E) && Pow10Increasing(E) && ExpPositive(E)
    requires SeawaterDefined(sal, temp) && sal > 0.0
    requires mSample > 0.0 && mAcid >= 0.0
    requires TADefined(E, pH1, mSample, sal, temp) && TADefined(E, pH2, mSample, sal, temp)
    requires TADiff(E, pH1, ta, mSample, mAcid, sal, temp, c) == 0.0
    requires TADiff(E, pH2, ta, mSample, mAcid, sal, temp, c) == 0.0
    ensures pH1 == pH2
  {
    if pH1 < pH2 {
      TAIncreasingInPH(E, pH1, pH2, mSample, mAcid, sal, temp, c);
    } else if pH2 < pH1 {
      TAIncreasingInPH(E, pH2, pH1, mSample, mAcid, sal, temp, c);
    }
  }

  /**
   * The acid mass calc_m_acid searches for, in closed form: TA is affine in the
   * acid mass, so m_acid_diff has the single zero mSample (TA + X) / (C_acid - X).
   */
  function MAcidRoot(H: real, ta: real, mSample: real, c: real, k: Seawater): real
    requires Speciable(H, k) && c != Excess(H, k)
  {
    mSample * (ta + Excess(H, k)) / (c - Excess(H, k))
  }

  lemma MAcidRootSolves(H: real, ta: real, mSample: real, mAcid: real, c: real, k: Seawater)
    requires Speciable(H, k) && mSample != 0.0 && c != Excess(H, k)
    ensures TAFromH(H, mSample, MAcidRoot(H, ta, mSample, c, k), c, k) == ta
    ensures TAFromH(H, mSample, mAcid, c, k) == ta ==> mAcid == MAcidRoot(H, ta, mSample, c, k)
  {
    var X := Excess(H, k);
    var r := MAcidRoot(H, ta, mSample, c, k);
    assert r * (c - X) == mSample * (ta + X);
    assert TAFromH(H, mSample, r, c, k) * mSample == r * c - (mSample + r) * X;
    if TAFromH(H, mSample, mAcid, c, k) == ta {
      assert ta * mSample == mAcid * c - (mSample + mAcid) * X;
      assert mAcid * (c - X) == mSample * (ta + X);
    }
  }
}
