/**
 * Total fluoride and sulfate of seawater and their protonation constants
 * (carbspec/alkalinity/species.py).
 */
module Species {
  import opened Numerics

  /** Celsius to Kelvin, as both constants convert their temperature. */
  function Kelvin(tempC: real): real
  {
    tempC + 273.15
  }

  /** Riley (1965): total fluoride in mol/kg-SW. */
  function CalcTF(sal: real): real
  {
    (0.000067 / 18.998) * (sal / 1.80655)
  }

  /** Morris & Riley (1966): total sulfate in mol/kg-SW. */
  function CalcTS(sal: real): real
  {
    (0.14 / 96.062) * (sal / 1.80655)
  }

  lemma TotalsLinearInSalinity(s1: real, s2: real, k: real)
    ensures CalcTF(s1 + k * s2) == CalcTF(s1) + k * CalcTF(s2)
    ensures CalcTS(s1 + k * s2) == CalcTS(s1) + k * CalcTS(s2)
    ensures CalcTF(0.0) == 0.0 && CalcTS(0.0) == 0.0
    ensures s1 > 0.0 ==> CalcTF(s1) > 0.0 && CalcTS(s1) > 0.0
  {
  }

  /** The sulfate to fluoride ratio is the same at every positive salinity. */
  lemma SulfateToFluorideRatio(sal: real)
    requires sal > 0.0
    ensures CalcTS(sal) / CalcTF(sal) == (0.14 / 96.062) / (0.000067 / 18.998)
  {
    var u := sal / 1.80655;
    assert u > 0.0;
    assert CalcTS(sal) == (0.14 / 96.062) * u;
    assert CalcTF(sal) == (0.000067 / 18.998) * u;
  }

  /** KF on the Total scale (Dickson, Sabine & Christian 2007); Sal**0.5 is the square root. */
  function CalcKF(E: Elementary, tempC: real, sal: real): real
    requires Kelvin(tempC) != 0.0
  {
    E.exp(874.0 / Kelvin(tempC) - 9.68 + 0.111 * E.sqrt(sal))
  }

  /** Ionic strength of seawater at a salinity. */
  function IonicStrength(sal: real): real
    requires 1000.0 - 1.005 * sal != 0.0
  {
    19.924 * sal / (1000.0 - 1.005 * sal)
  }

  lemma IonicStrengthBounds(sal: real)
    requires 1000.0 - 1.005 * sal != 0.0
    ensures sal == 0.0 ==> IonicStrength(sal) == 0.0
    ensures 0.0 < sal < 1000.0 / 1.005 ==> IonicStrength(sal) > 0.0
  {
    if 0.0 < sal < 1000.0 / 1.005 {
      assert 1.005 * sal < 1000.0;
      assert 19.924 * sal > 0.0;
    }
  }

  /** The exponent of KS, term by term as Dickson (1990) writes it. */
  function KSExponent(E: Elementary, tempC: real, sal: real): real
    requires Kelvin(tempC) != 0.0
    requires 1000.0 - 1.005 * sal != 0.0
  {
    var T := Kelvin(tempC);
    var I := IonicStrength(sal);
    var lnT := E.ln(T);
    141.328 + -4276.1 / T + -23.093 * lnT
      + E.sqrt(I) * (324.57 + -13856.0 / T + -47.986 * lnT)
      + I * (-771.54 + 35474.0 / T + 114.723 * lnT)
      + -2698.0 / T * I * E.sqrt(I)
      + 1776.0 / T * I * I
      + E.ln(1.0 - 0.001005 * sal)
  }

  /** KS on the Free scale. */
  function CalcKS(E: Elementary, tempC: real, sal: real): real
    requires Kelvin(tempC) != 0.0
    requires 1000.0 - 1.005 * sal != 0.0
  {
    E.exp(KSExponent(E, tempC, sal))
  }

  lemma ConstantsPositive(E: Elementary, tempC: real, sal: real)
    requires ExpPositive(E)
    requires Kelvin(tempC) != 0.0
    requires 1000.0 - 1.005 * sal != 0.0
    ensures CalcKF(E, tempC, sal) > 0.0
    ensures CalcKS(E, tempC, sal) > 0.0
  {
  }
}
