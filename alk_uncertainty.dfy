/**
 * The sensitivities of total alkalinity used for error propagation
 * (carbspec/alkalinity/uncertainty.py): with respect to the acid mass, the
 * sample mass, the end-point proton concentration or pH, and the acid
 * concentration. Each bracket is written over the seawater constants of
 * module TA.
 */
module AlkUncertainty {
  import opened Numerics
  import opened TA

  // ---------------------------------------------------------------------------
  // dTA_dm and dTA_dm0
  // ---------------------------------------------------------------------------

  /** KS * H * (1 + TS/KS) + 1, the sulfate denominator of the mass and H brackets. */
  function SulfateDenominator(H: real, k: Seawater): real
    requires k.KS != 0.0
  {
    k.KS * H * FreeScale(k) + 1.0
  }

  predicate MassBracketDefined(H: real, k: Seawater)
  {
    H != 0.0 && k.KS != 0.0 && FreeScale(k) != 0.0 && 1.0 + k.KF / H != 0.0
    && SulfateDenominator(H, k) != 0.0
  }

  /** The sulfate term of the mass bracket: TS / (KS * H * (1 + TS/KS) + 1). */
  function SulfateTerm(H: real, k: Seawater): real
    requires MassBracketDefined(H, k)
  {
    k.TS / SulfateDenominator(H, k)
  }

  /** F of dTA_dm and dTA_dm0: TF / (1 + KF/H) + the sulfate term + H / (1 + TS/KS). */
  function MassBracket(H: real, k: Seawater): real
    requires MassBracketDefined(H, k)
  {
    k.TF / (1.0 + k.KF / H) + SulfateTerm(H, k) + H / FreeScale(k)
  }

  function DTAdmAt(C: real, m0: real, H: real, k: Seawater): real
    requires MassBracketDefined(H, k) && m0 != 0.0
  {
    C / m0 - MassBracket(H, k) / m0
  }

  /** dTA_dm(C, m0, H, temp, sal) */
  function DTAdm(E: Elementary, C: real, m0: real, H: real, temp: real, sal: real): real
    requires SeawaterDefined(sal, temp) && m0 != 0.0
    requires MassBracketDefined(H, SeawaterConstants(E, sal, temp))
  {
    DTAdmAt(C, m0, H, SeawaterConstants(E, sal, temp))
  }

  /** - C m / m0**2 - F / m0 + (m + m0) F / m0**2 */
  function SampleMassTerms(C: real, F: real, m: real, m0: real): real
    requires m0 != 0.0
  {
    -C * m / (m0 * m0) - F / m0 + (m + m0) * F / (m0 * m0)
  }

  /** dTA_dm0(m0, H, m, C, temp, sal) */
  function DTAdm0(E: Elementary, m0: real, H: real, m: real, C: real, temp: real, sal: real): real
    requires SeawaterDefined(sal, temp) && m0 != 0.0
    requires MassBracketDefined(H, SeawaterConstants(E, sal, temp))
  {
    SampleMassTerms(C, MassBracket(H, SeawaterConstants(E, sal, temp)), m, m0)
  }

  lemma MassScaling(C: real, F: real, m: real, m0: real)
    requires m0 != 0.0
    ensures SampleMassTerms(C, F, m, m0) == -(m / m0) * (C / m0 - F / m0)
  {
    var q := 1.0 / m0;
    assert m0 * q == 1.0;
    assert 1.0 / (m0 * m0) == q * q;
    assert -C * m / (m0 * m0) == -C * m * (q * q);
    assert (m + m0) * F / (m0 * m0) == (m + m0) * F * (q * q);
    assert F / m0 == F * q;
    assert m0 * F * (q * q) == F * q;
  }

  /**
   * Both use the same bracket, so the sensitivity to the sample mass is the
   * sensitivity to the acid mass scaled by -m/m0; without acid it is zero.
   */
  lemma DTAdm0IsScaledDTAdm(E: Elementary, m0: real, H: real, m: real, C: real, temp: real, sal: real)
    requires SeawaterDefined(sal, temp) && m0 != 0.0
    requires MassBracketDefined(H, SeawaterConstants(E, sal, temp))
    ensures DTAdm0(E, m0, H, m, C, temp, sal) == -(m / m0) * DTAdm(E, C, m0, H, temp, sal)
    ensures m == 0.0 ==> DTAdm0(E, m0, H, m, C, temp, sal) == 0.0
  {
    var k := SeawaterConstants(E, sal, temp);
    var F := MassBracket(H, k);
    MassScaling(C, F, m, m0);
  }

  /**
   * The fluoride and free-proton terms of the bracket are TA's HF and Hfree,
   * so dTA_dm differs from TA's exact acid-mass slope by the sulfate terms alone.
   */
  lemma DTAdmAgainstTASlope(C: real, m0: real, H: real, k: Seawater)
    requires MassBracketDefined(H, k) && Speciable(H, k) && m0 != 0.0
    ensures k.TF / (1.0 + k.KF / H) == HF(H, k)
    ensures H / FreeScale(k) == HFree(H, k)
    ensures DTAdmAt(C, m0, H, k) == DTAdmExact(C, m0, H, k) + (HSO4(H, k) - SulfateTerm(H, k)) / m0
  {
    var X, S, MB := Excess(H, k), SulfateTerm(H, k), MassBracket(H, k);
    assert MB == X - HSO4(H, k) + S;
    DivDifference(C, MB, m0);
    DivDifference(C - MB, C - X, m0);
  }

  /** The slope of TA in the acid mass, (C - (Hfree + HSO4 + HF)) / m0. */
  function DTAdmExact(C: real, m0: real, H: real, k: Seawater): real
    requires Speciable(H, k) && m0 != 0.0
  {
    (C - Excess(H, k)) / m0
  }

  /** DTAdmExact is the rate at which TA_from_pH changes with the acid mass. */
  lemma DTAdmExactIsSlope(H: real, m0: real, m: real, d: real, C: real, k: Seawater)
    requires Speciable(H, k) && m0 != 0.0
    ensures TAFromH(H, m0, m + d, C, k) == TAFromH(H, m0, m, C, k) + d * DTAdmExact(C, m0, H, k)
  {
    TAAffineInAcidMass(H, m0, m, d, C, k);
  }

  /**
   * Whatever the positive constants, the sulfate term of dTA_dm equals TA's
   * HSO4 only at H = 1 mol/kg: at every other positive H, dTA_dm is not the
   * acid-mass slope of TA.
   */
  lemma DTAdmIsNotTASlope(C: real, m0: real, H: real, k: Seawater)
    requires Positive(k) && H > 0.0 && H != 1.0 && m0 != 0.0
    ensures MassBracketDefined(H, k) && Speciable(H, k)
    ensures DTAdmAt(C, m0, H, k) != DTAdmExact(C, m0, H, k)
  {
    SpeciesBounds(H, k);
    var fs := FreeScale(k);
    assert fs > 1.0;
    var g := Product(k.KS, fs);
    assert g > 0.0;
    assert SulfateDenominator(H, k) == Product(g, H) + 1.0;
    assert Product(g, H) > 0.0;
    DTAdmAgainstTASlope(C, m0, H, k);
    var hfree := H / fs;
    assert 1.0 + k.KS / hfree == 1.0 + g / H;
    if HSO4(H, k) == SulfateTerm(H, k) {
      SameQuotient(k.TS, 1.0 + g / H, Product(g, H) + 1.0);
      assert g / H == Product(g, H);
      ReciprocalSquare(g, H);
    }
  }

  lemma SameQuotient(t: real, a: real, b: real)
    requires t > 0.0 && a > 0.0 && b > 0.0 && t / a == t / b
    ensures a == b
  {
    if a < b {
      DivAntitone(t, a, b);
    } else if b < a {
      DivAntitone(t, b, a);
    }
  }

  lemma ReciprocalSquare(g: real, H: real)
    requires g > 0.0 && H > 0.0 && g / H == Product(g, H)
    ensures H == 1.0
  {
    assert g == Product(g / H, H);
    var hh := Product(H, H);
    assert g == Product(g, hh);
    assert Product(g, hh - 1.0) == 0.0;
    assert hh == 1.0;
    assert Product(H - 1.0, H + 1.0) == 0.0;
  }

  // ---------------------------------------------------------------------------
  // dTA_dH and dTA_dpH
  // ---------------------------------------------------------------------------

  predicate HBracketDefined(H: real, k: Seawater)
  {
    MassBracketDefined(H, k)
  }

  /** TF KF / (H**2 (1 + KF/H)**2) */
  function FluorideTermH(H: real, k: Seawater): real
    requires HBracketDefined(H, k)
  {
    var a := 1.0 + k.KF / H;
    k.TF * k.KF / Product(Product(H, H), Product(a, a))
  }

  /** KS TS (1 + TS/KS) / (KS H (1 + TS/KS) + 1)**2 */
  function SulfateTermH(H: real, k: Seawater): real
    requires HBracketDefined(H, k)
  {
    var s := SulfateDenominator(H, k);
    k.KS * k.TS * FreeScale(k) / Product(s, s)
  }

  /** F of dTA_dH. */
  function HBracket(H: real, k: Seawater): real
    requires HBracketDefined(H, k)
  {
    FluorideTermH(H, k) - SulfateTermH(H, k) + 1.0 / FreeScale(k)
  }

  /** (m + m0) F / m0, the scaling both dTA_dH and dTA_dpH apply to their brackets. */
  function MassWeighted(m: real, m0: real, F: real): real
    requires m0 != 0.0
  {
    (m + m0) * F / m0
  }

  lemma MassWeightedScales(m: real, m0: real, h: real, B: real)
    requires m0 != 0.0
    ensures MassWeighted(m, m0, -(h * B)) == -(h * MassWeighted(m, m0, B))
  {
    var w := m + m0;
    assert w * -(h * B) == -h * (w * B);
    DivScale(-h, w * B, m0);
  }

  /** dTA_dH over the seawater constants k. */
  function DTAdHAt(H: real, m: real, m0: real, k: Seawater): real
    requires HBracketDefined(H, k) && m0 != 0.0
  {
    MassWeighted(m, m0, HBracket(H, k))
  }

  /** dTA_dH(H, m, m0, sal, temp) */
  function DTAdH(E: Elementary, H: real, m: real, m0: real, sal: real, temp: real): real
    requires SeawaterDefined(sal, temp) && m0 != 0.0
    requires HBracketDefined(H, SeawaterConstants(E, sal, temp))
  {
    DTAdHAt(H, m, m0, SeawaterConstants(E, sal, temp))
  }

  /** The denominators of dTA_dpH at H = 10**-pH, P = 10**pH. */
  predicate PHBracketDefined(H: real, P: real, k: Seawater)
  {
    k.KS != 0.0 && FreeScale(k) != 0.0
    && SulfateDenominatorPH(H, k) != 0.0 && FluorideDenominatorPH(P, k) != 0.0
  }

  /** 1 + H KS (1 + TS/KS) */
  function SulfateDenominatorPH(H: real, k: Seawater): real
    requires k.KS != 0.0
  {
    1.0 + H * k.KS * FreeScale(k)
  }

  /** 1 + 10**pH KF */
  function FluorideDenominatorPH(P: real, k: Seawater): real
  {
    1.0 + P * k.KF
  }

  /** H KS TS (1 + TS/KS) ln10 / (1 + H KS (1 + TS/KS))**2 */
  function SulfateTermPH(H: real, L: real, k: Seawater): real
    requires k.KS != 0.0 && SulfateDenominatorPH(H, k) != 0.0
  {
    var t := SulfateDenominatorPH(H, k);
    H * k.KS * k.TS * FreeScale(k) * L / Product(t, t)
  }

  /** 10**pH TF KF ln10 / (1 + 10**pH KF)**2 */
  function FluorideTermPH(P: real, L: real, k: Seawater): real
    requires FluorideDenominatorPH(P, k) != 0.0
  {
    var u := FluorideDenominatorPH(P, k);
    P * k.TF * k.KF * L / Product(u, u)
  }

  /** F of dTA_dpH. */
  function PHBracket(H: real, P: real, L: real, k: Seawater): real
    requires PHBracketDefined(H, P, k)
  {
    SulfateTermPH(H, L, k) - FluorideTermPH(P, L, k) - H * L / FreeScale(k)
  }

  /** dTA_dpH(pH, m, m0, sal, temp), with H = 10**-pH and np.log(10) as ln(10). */
  function DTAdpH(E: Elementary, pH: real, m: real, m0: real, sal: real, temp: real): real
    requires SeawaterDefined(sal, temp) && m0 != 0.0
    requires PHBracketDefined(E.pow10(-pH), E.pow10(pH), SeawaterConstants(E, sal, temp))
  {
    var k := SeawaterConstants(E, sal, temp);
    -MassWeighted(m, m0, PHBracket(E.pow10(-pH), E.pow10(pH), E.ln(10.0), k))
  }

  lemma SulfateTermsChain(H: real, L: real, k: Seawater)
    requires HBracketDefined(H, k)
    ensures SulfateDenominatorPH(H, k) != 0.0
    ensures SulfateTermPH(H, L, k) == Product(H, L) * SulfateTermH(H, k)
  {
    var fs := FreeScale(k);
    var s := SulfateDenominator(H, k);
    assert SulfateDenominatorPH(H, k) == s;
    var ss := Product(s, s);
    assert ss != 0.0;
    var x := k.KS * k.TS * fs;
    assert H * k.KS * k.TS * fs * L == Product(H, L) * x;
    assert Product(H, L) * x / ss == Product(H, L) * (x / ss);
  }

  lemma FluorideTermsChain(H: real, P: real, L: real, k: Seawater)
    requires HBracketDefined(H, k) && Product(P, H) == 1.0
    ensures FluorideDenominatorPH(P, k) != 0.0
    ensures FluorideTermPH(P, L, k) == Product(H, L) * FluorideTermH(H, k)
  {
    var a := 1.0 + k.KF / H;
    assert P == 1.0 / H;
    assert k.KF / H == P * k.KF;
    assert FluorideDenominatorPH(P, k) == a;
    var aa := Product(a, a);
    var hh := Product(H, H);
    assert aa != 0.0 && hh != 0.0;
    var x := k.TF * k.KF;
    // P x L / aa == (H L) (x / (hh aa)) because P = 1/H and hh = H H
    assert Product(hh, aa) != 0.0;
    assert x / Product(hh, aa) == (x / aa) / hh;
    assert Product(H, L) * ((x / aa) / hh) == L * (x / aa) / H;
    assert L * (x / aa) / H == P * L * (x / aa);
    assert P * x * L / aa == P * L * (x / aa);
  }

  /**
   * dTA_dpH = H ln10 dTA_dH at H = 10**-pH, term by term: the factor is the
   * magnitude |dH/dpH|, not the signed dH/dpH = -H ln10 of the chain rule.
   */
  lemma DTAdpHChainRule(E: Elementary, pH: real, m: real, m0: real, sal: real, temp: real)
    requires Pow10Reciprocal(E)
    requires SeawaterDefined(sal, temp) && m0 != 0.0
    requires HBracketDefined(E.pow10(-pH), SeawaterConstants(E, sal, temp))
    ensures PHBracketDefined(E.pow10(-pH), E.pow10(pH), SeawaterConstants(E, sal, temp))
    ensures DTAdpH(E, pH, m, m0, sal, temp) ==
            Product(E.pow10(-pH), E.ln(10.0)) * DTAdH(E, E.pow10(-pH), m, m0, sal, temp)
  {
    var k := SeawaterConstants(E, sal, temp);
    var H, P, L := E.pow10(-pH), E.pow10(pH), E.ln(10.0);
    assert Product(P, H) == 1.0;
    SulfateTermsChain(H, L, k);
    FluorideTermsChain(H, P, L, k);
    var hl := Product(H, L);
    assert H * L / FreeScale(k) == hl * (1.0 / FreeScale(k));
    assert PHBracket(H, P, L, k) == -(hl * HBracket(H, k));
    MassWeightedScales(m, m0, hl, HBracket(H, k));
  }

  // ---------------------------------------------------------------------------
  // The slope of TA_from_pH in H, against dTA_dH and dTA_dpH
  // ---------------------------------------------------------------------------

  /**
   * x d / ((h1 + d) (h2 + d)): the difference quotient of h |-> x / (1 + d/h)
   * between h1 and h2, continuous in both, so at h1 == h2 it is the
   * derivative x d / (h + d)**2.
   */
  function SaturatingSlope(x: real, d: real, h1: real, h2: real): real
    requires d > 0.0 && h1 > 0.0 && h2 > 0.0
  {
    x * d / Product(h1 + d, h2 + d)
  }

  lemma SaturatingDifference(x: real, d: real, h1: real, h2: real)
    requires d > 0.0 && h1 > 0.0 && h2 > 0.0
    ensures x / (1.0 + d / h2) - x / (1.0 + d / h1) == (h2 - h1) * SaturatingSlope(x, d, h1, h2)
  {
    var a1, a2 := h1 + d, h2 + d;
    SaturatingForm(x, d, h1);
    SaturatingForm(x, d, h2);
    FractionDifference(x * h1, a1, x * h2, a2);
    assert h2 * a1 - h1 * a2 == (h2 - h1) * d;
    assert x * h2 * a1 - x * h1 * a2 == (h2 - h1) * (x * d) by {
      assert x * h2 * a1 - x * h1 * a2 == x * (h2 * a1 - h1 * a2);
    }
    DivScale(h2 - h1, x * d, Product(a1, a2));
  }

  /** x / (1 + d/h) == x h / (h + d) */
  lemma SaturatingForm(x: real, d: real, h: real)
    requires d > 0.0 && h > 0.0
    ensures x / (1.0 + d / h) == x * h / (h + d)
  {
    var u := 1.0 + d / h;
    assert u * h == h + d;
    var r := x / u;
    assert r * u == x;
    assert r * (u * h) == x * h;
    QuotientFromProduct(r, x * h, h + d);
  }

  /** n2 / a2 - n1 / a1 == (n2 a1 - n1 a2) / (a1 a2) */
  lemma FractionDifference(n1: real, a1: real, n2: real, a2: real)
    requires a1 > 0.0 && a2 > 0.0
    ensures n2 / a2 - n1 / a1 == (n2 * a1 - n1 * a2) / Product(a1, a2)
  {
    var r1, r2 := n1 / a1, n2 / a2;
    assert r1 * a1 == n1 && r2 * a2 == n2;
    assert (r2 - r1) * (a1 * a2) == (r2 * a2) * a1 - (r1 * a1) * a2;
    QuotientFromProduct(r2 - r1, n2 * a1 - n1 * a2, Product(a1, a2));
  }

  lemma QuotientFromProduct(q: real, n: real, d: real)
    requires d != 0.0 && q * d == n
    ensures q == n / d
  {
  }

  /** The difference quotient of HSO4 = TS / (1 + KS / Hfree) in H, through Hfree = H / (1 + TS/KS). */
  function HSO4Slope(H1: real, H2: real, k: Seawater): real
    requires Positive(k) && H1 > 0.0 && H2 > 0.0
  {
    var fs := FreeScale(k);
    assert fs > 0.0;
    SaturatingSlope(k.TS, k.KS, H1 / fs, H2 / fs) / fs
  }

  /** The difference quotient of Hfree + HSO4 + HF between H1 and H2. */
  function ExcessSlope(H1: real, H2: real, k: Seawater): real
    requires Positive(k) && H1 > 0.0 && H2 > 0.0
  {
    1.0 / FreeScale(k) + HSO4Slope(H1, H2, k) + SaturatingSlope(k.TF, k.KF, H1, H2)
  }

  lemma ExcessDifference(H1: real, H2: real, k: Seawater)
    requires Positive(k) && H1 > 0.0 && H2 > 0.0
    ensures Speciable(H1, k) && Speciable(H2, k)
    ensures Excess(H2, k) - Excess(H1, k) == (H2 - H1) * ExcessSlope(H1, H2, k)
  {
    var fs := FreeScale(k);
    assert fs > 0.0;
    var f1, f2 := H1 / fs, H2 / fs;
    assert f1 > 0.0 && f2 > 0.0;
    assert k.KS / f1 > 0.0 && k.KS / f2 > 0.0;
    assert k.KF / H1 > 0.0 && k.KF / H2 > 0.0;
    assert Speciable(H1, k) && Speciable(H2, k);
    SaturatingDifference(k.TS, k.KS, f1, f2);
    SaturatingDifference(k.TF, k.KF, H1, H2);
    DivDifference(H2, H1, fs);
    ExcessAlgebra(H1, H2, fs, f1, f2, HSO4(H1, k), HSO4(H2, k), HF(H1, k), HF(H2, k),
                  SaturatingSlope(k.TS, k.KS, f1, f2), SaturatingSlope(k.TF, k.KF, H1, H2));
  }

  /** The bookkeeping of ExcessDifference on plain reals. */
  lemma ExcessAlgebra(H1: real, H2: real, fs: real, f1: real, f2: real, s1: real, s2: real, t1: real, t2: real, S: real, T: real)
    requires fs != 0.0 && f2 - f1 == (H2 - H1) / fs
    requires s2 - s1 == (f2 - f1) * S && t2 - t1 == (H2 - H1) * T
    ensures (f2 + s2 + t2) - (f1 + s1 + t1) == (H2 - H1) * (1.0 / fs + S / fs + T)
  {
    DivScale(H2 - H1, 1.0, fs);
    DivScale(H2 - H1, S, fs);
    assert (H2 - H1) / fs * S == ((H2 - H1) * S) / fs;
  }

  /**
   * Between any two positive proton concentrations TA_from_pH changes by
   * (H2 - H1) times minus the mass-weighted difference quotient of the
   * proton excess: with ExcessSlope continuous, its H-derivative is DTAdHExact.
   */
  lemma TADifferenceInH(H1: real, H2: real, m0: real, m: real, C: real, k: Seawater)
    requires Positive(k) && H1 > 0.0 && H2 > 0.0 && m0 != 0.0
    ensures Speciable(H1, k) && Speciable(H2, k)
    ensures TAFromH(H2, m0, m, C, k) - TAFromH(H1, m0, m, C, k)
         == (H2 - H1) * -MassWeighted(m, m0, ExcessSlope(H1, H2, k))
  {
    ExcessDifference(H1, H2, k);
    TAAlgebra(m0, m, C, Excess(H1, k), Excess(H2, k), H2 - H1, ExcessSlope(H1, H2, k));
  }

  /** The bookkeeping of TADifferenceInH on plain reals. */
  lemma TAAlgebra(m0: real, m: real, C: real, X1: real, X2: real, h: real, S: real)
    requires m0 != 0.0 && X2 - X1 == h * S
    ensures (m * C - (m0 + m) * X2) / m0 - (m * C - (m0 + m) * X1) / m0 == h * -MassWeighted(m, m0, S)
  {
    var w := m0 + m;
    assert (m * C - w * X2) - (m * C - w * X1) == h * -(w * S) by {
      assert w * X2 - w * X1 == w * (X2 - X1);
    }
    DivDifference(m * C - w * X2, m * C - w * X1, m0);
    DivScale(h, -(w * S), m0);
    assert -(w * S) / m0 == -MassWeighted(m, m0, S);
  }

  /** The H-slope of TA_from_pH: -(m + m0) / m0 times the derivative of Hfree + HSO4 + HF. */
  function DTAdHExact(H: real, m: real, m0: real, k: Seawater): real
    requires Positive(k) && H > 0.0 && m0 != 0.0
  {
    -MassWeighted(m, m0, ExcessSlope(H, H, k))
  }

  lemma SaturatingSlopePositive(x: real, d: real, h1: real, h2: real)
    requires x > 0.0 && d > 0.0 && h1 > 0.0 && h2 > 0.0
    ensures SaturatingSlope(x, d, h1, h2) > 0.0
  {
    assert Product(h1 + d, h2 + d) > 0.0;
    assert Product(x, d) > 0.0;
  }

  lemma ExcessSlopePositive(H1: real, H2: real, k: Seawater)
    requires Positive(k) && H1 > 0.0 && H2 > 0.0
    ensures ExcessSlope(H1, H2, k) > 0.0
  {
    var fs := FreeScale(k);
    assert fs > 0.0;
    assert H1 / fs > 0.0 && H2 / fs > 0.0;
    SaturatingSlopePositive(k.TS, k.KS, H1 / fs, H2 / fs);
    SaturatingSlopePositive(k.TF, k.KF, H1, H2);
  }

  /** For positive masses TA falls as H rises (TADecreasingInH): the exact slope is negative. */
  lemma DTAdHExactNegative(H: real, m: real, m0: real, k: Seawater)
    requires Positive(k) && H > 0.0 && m0 > 0.0 && m >= 0.0
    ensures DTAdHExact(H, m, m0, k) < 0.0
  {
    ExcessSlopePositive(H, H, k);
    var S := ExcessSlope(H, H, k);
    assert (m + m0) * S > 0.0;
  }

  lemma MassWeightedDifference(m: real, m0: real, A: real, B: real)
    requires m0 != 0.0
    ensures MassWeighted(m, m0, A - B) == MassWeighted(m, m0, A) - MassWeighted(m, m0, B)
  {
    var w := m + m0;
    assert w * (A - B) == w * A - w * B;
    DivDifference(w * A, w * B, m0);
  }

  lemma MassWeightedPositive(m: real, m0: real, A: real)
    requires m0 > 0.0 && m >= 0.0 && A > 0.0
    ensures MassWeighted(m, m0, A) > 0.0
  {
    assert (m + m0) * A > 0.0;
  }

  /**
   * The fluoride and free-proton terms of dTA_dH are the H-derivatives of HF
   * and Hfree, but the result is +(m + m0)/m0 times the bracket, where TA's
   * slope carries -(m + m0)/m0, and the sulfate term is subtracted where
   * HSO4's derivative is added: dTA_dH is minus the exact slope, less the
   * mass-weighted sum of both sulfate terms.
   */
  lemma DTAdHAgainstTASlope(H: real, m: real, m0: real, k: Seawater)
    requires Positive(k) && H > 0.0 && m0 != 0.0
    ensures HBracketDefined(H, k)
    ensures FluorideTermH(H, k) == SaturatingSlope(k.TF, k.KF, H, H)
    ensures DTAdHAt(H, m, m0, k)
         == -DTAdHExact(H, m, m0, k) - MassWeighted(m, m0, SulfateTermH(H, k) + HSO4Slope(H, H, k))
  {
    SpeciesBounds(H, k);
    var fs := FreeScale(k);
    var g := Product(k.KS, fs);
    assert g > 0.0;
    assert SulfateDenominator(H, k) == Product(g, H) + 1.0;
    assert Product(g, H) > 0.0;
    assert 1.0 + k.KF / H > 0.0;
    var a := 1.0 + k.KF / H;
    assert Product(Product(H, H), Product(a, a)) == Product(H + k.KF, H + k.KF) by {
      assert H * a == H + k.KF;
    }
    var S, D := ExcessSlope(H, H, k), SulfateTermH(H, k) + HSO4Slope(H, H, k);
    assert HBracket(H, k) == S - D;
    MassWeightedDifference(m, m0, S, D);
  }

  /**
   * Hence dTA_dH is never the magnitude of TA's H-slope either: for positive
   * masses and constants it falls short of it by the sulfate terms.
   */
  lemma DTAdHBelowSlopeMagnitude(H: real, m: real, m0: real, k: Seawater)
    requires Positive(k) && H > 0.0 && m0 > 0.0 && m >= 0.0
    ensures HBracketDefined(H, k)
    ensures DTAdHAt(H, m, m0, k) < -DTAdHExact(H, m, m0, k)
  {
    DTAdHAgainstTASlope(H, m, m0, k);
    var fs := FreeScale(k);
    var s := SulfateDenominator(H, k);
    assert Product(s, s) > 0.0;
    assert k.KS * k.TS * fs > 0.0;
    assert Product(H / fs + k.KS, H / fs + k.KS) > 0.0;
    assert k.TS * k.KS > 0.0;
    MassWeightedPositive(m, m0, SulfateTermH(H, k) + HSO4Slope(H, H, k));
  }

  /** Seawater-like constants: TS 0.028, TF 7e-5, KS 0.1, KF 0.0025. */
  const ProbeSeawater: Seawater := Seawater(0.028, 0.00007, 0.1, 0.0025)

  /**
   * At H = 3e-4 mol/kg with 0.1 g acid on 1 g sample, dTA_dH is positive
   * while TA_from_pH decreases in H there: the sign is the opposite of the slope's.
   */
  lemma DTAdHWrongSign()
    ensures HBracketDefined(0.0003, ProbeSeawater)
    ensures DTAdHAt(0.0003, 0.1, 1.0, ProbeSeawater) > 0.0
    ensures DTAdHExact(0.0003, 0.1, 1.0, ProbeSeawater) < 0.0
  {
    var k := ProbeSeawater;
    assert FreeScale(k) == 1.28;
    assert SulfateDenominator(0.0003, k) == 1.0000384;
    DTAdHExactNegative(0.0003, 0.1, 1.0, k);
  }

  /**
   * Through dTA_dpH = H ln10 dTA_dH, dTA_dpH differs from TA's pH-slope,
   * DTAdHExact times dH/dpH = -H ln10, only by the sulfate terms.
   */
  lemma DTAdpHAgainstTASlope(E: Elementary, pH: real, m: real, m0: real, sal: real, temp: real)
    requires Pow10Reciprocal(E) && Pow10Positive(E)
    requires SeawaterDefined(sal, temp) && m0 != 0.0
    requires Positive(SeawaterConstants(E, sal, temp))
    ensures HBracketDefined(E.pow10(-pH), SeawaterConstants(E, sal, temp))
    ensures PHBracketDefined(E.pow10(-pH), E.pow10(pH), SeawaterConstants(E, sal, temp))
    ensures DTAdpH(E, pH, m, m0, sal, temp)
         == -Product(E.pow10(-pH), E.ln(10.0)) * DTAdHExact(E.pow10(-pH), m, m0, SeawaterConstants(E, sal, temp))
          - Product(E.pow10(-pH), E.ln(10.0))
            * MassWeighted(m, m0, SulfateTermH(E.pow10(-pH), SeawaterConstants(E, sal, temp))
                                  + HSO4Slope(E.pow10(-pH), E.pow10(-pH), SeawaterConstants(E, sal, temp)))
  {
    var k := SeawaterConstants(E, sal, temp);
    var H := E.pow10(-pH);
    assert H > 0.0;
    DTAdHAgainstTASlope(H, m, m0, k);
    DTAdpHChainRule(E, pH, m, m0, sal, temp);
    var hl := Product(H, E.ln(10.0));
    var X, W := DTAdHExact(H, m, m0, k), MassWeighted(m, m0, SulfateTermH(H, k) + HSO4Slope(H, H, k));
    assert hl * (-X - W) == -hl * X - hl * W;
  }

  // ---------------------------------------------------------------------------
  // dTA_dC
  // ---------------------------------------------------------------------------

  /** dTA_dC(m, m0) = m / m0 */
  function DTAdC(m: real, m0: real): real
    requires m0 != 0.0
  {
    m / m0
  }

  /** dTA_dC is exactly the slope of TA_from_pH in the acid concentration. */
  lemma DTAdCIsSlope(H: real, m0: real, m: real, c: real, d: real, k: Seawater)
    requires Speciable(H, k) && m0 != 0.0
    ensures TAFromH(H, m0, m, c + d, k) == TAFromH(H, m0, m, c, k) + d * DTAdC(m, m0)
  {
    TAAffineInConcentration(H, m0, m, c, d, k);
    var slope := DTAdC(m, m0);
    assert slope == m / m0;
    assert TAFromH(H, m0, m, c + d, k) == TAFromH(H, m0, m, c, k) + d * (m / m0);
    assert TAFromH(H, m0, m, c + d, k) == TAFromH(H, m0, m, c, k) + d * slope;
  }
}
