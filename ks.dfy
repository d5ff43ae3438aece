/**
 * Equilibrium constants of the indicator dyes (carbspec/dye/Ks.py): the
 * bromophenol blue (BPB) pKa in salinity, its temperature correction, the
 * m-cresol purple (MCP) K2 in its two modes, and the dye dispatch table.
 */
module Ks {
  import opened Wrappers
  import opened Numerics

  /** pKa of BPB at salinity 35 (equation 17 of Nand & Ellwood 2018). */
  const PKa35BPB: real := 3.515654103
  /** pKa at salinity 35 of the in-house BPB_Cam1 batch. */
  const PKa35BPBCam1: real := 3.631498503311959
  /** Salinity coefficient A shared by both BPB batches. */
  const SalinityCoefficient: real := 1.74e-3

  function CalcPKBPB(sal: real): real
  {
    PKa35BPB + SalinityCoefficient * (35.0 - sal)
  }

  function CalcPKBPBCam1(sal: real): real
  {
    PKa35BPBCam1 + SalinityCoefficient * (35.0 - sal)
  }

  lemma PKBPBAtStandardSalinity()
    ensures CalcPKBPB(35.0) == 3.515654103
    ensures CalcPKBPBCam1(35.0) == 3.631498503311959
  {
  }

  /** pKa falls by A for every unit of salinity. */
  lemma PKBPBSalinitySlope(sal: real, d: real)
    ensures CalcPKBPB(sal + d) == CalcPKBPB(sal) - 1.74e-3 * d
    ensures CalcPKBPBCam1(sal + d) == CalcPKBPBCam1(sal) - 1.74e-3 * d
  {
  }

  /** The two BPB batches differ by the same pKa offset at every salinity. */
  lemma PKBPBCam1Offset(sal: real)
    ensures CalcPKBPBCam1(sal) - CalcPKBPB(sal) == 3.631498503311959 - 3.515654103
  {
  }

  const TempC1: real := -2.56020702e-06
  const TempC2: real := 1.00921921e-07

  function TempCorrKBPB(temp: real): real
  {
    TempC1 * temp + TempC2 * temp * temp
  }

  lemma TempCorrKBPBIsQuadratic(temp: real)
    ensures TempCorrKBPB(0.0) == 0.0
    ensures TempCorrKBPB(temp) == temp * (-2.56020702e-06 + 1.00921921e-07 * temp)
  {
  }

  /**
   * numpy.polyval: coefficients highest power first, evaluated by Horner's rule
   * (the running value is multiplied by x and the next coefficient added).
   */
  function Polyval(p: seq<real>, x: real): real
  {
    if p == [] then 0.0 else Polyval(p[..|p| - 1], x) * x + p[|p| - 1]
  }

  lemma PolyvalQuadratic(p0: real, p1: real, p2: real, x: real)
    ensures Polyval([p0, p1, p2], x) == p0 * x * x + p1 * x + p2
  {
    assert [p0, p1, p2][..2] == [p0, p1];
    assert [p0, p1][..1] == [p0];
    assert [p0][..0] == [];
    assert Polyval([p0], x) == p0;
    assert Polyval([p0, p1], x) == p0 * x + p1;
    calc {
      Polyval([p0, p1, p2], x);
      (p0 * x + p1) * x + p2;
      p0 * x * x + p1 * x + p2;
    }
  }

  const TempNewCoefficients: seq<real> := [4.67075747e-05, 7.02630945e-03, 1.00006993]

  /** The ratio K(T)/K(25) fitted as a quadratic in temp - 25. */
  function TempCorrKBPBNew(temp: real): real
  {
    Polyval(TempNewCoefficients, temp - 25.0)
  }

  lemma TempCorrKBPBNewAt25()
    ensures TempCorrKBPBNew(25.0) == 1.00006993
  {
    PolyvalQuadratic(4.67075747e-05, 7.02630945e-03, 1.00006993, 0.0);
  }

  function CalcKBPB(E: Elementary, temp: real, sal: real): real
  {
    E.pow10(-CalcPKBPB(sal)) + TempCorrKBPB(temp)
  }

  function CalcKBPBCam1(E: Elementary, temp: real, sal: real): real
  {
    E.pow10(-CalcPKBPBCam1(sal)) + TempCorrKBPB(temp)
  }

  /** Both batches add the same temperature term: their difference depends on salinity only. */
  lemma KBPBBatchesDifferBySalinityOnly(E: Elementary, t1: real, t2: real, sal: real)
    ensures CalcKBPBCam1(E, t1, sal) - CalcKBPB(E, t1, sal)
         == CalcKBPBCam1(E, t2, sal) - CalcKBPB(E, t2, sal)
  {
  }

  /** Nominal coefficients of the Tris-buffer calibration of MCP (quadratic in temperature). */
  const TrisCoefficients: seq<real> := [8.81873900e-12, -5.00996717e-11, 5.95759909e-09]

  /** pK2 of MCP by equation 8 of SOP 6b of Dickson, Sabine & Christian (2007). */
  function DicksonPKMCP(temp: real, sal: real): real
    requires temp + 273.15 != 0.0
  {
    1245.69 / (temp + 273.15) + 3.8275 + 0.00211 * (35.0 - sal)
  }

  lemma DicksonPKMCPSalinity(temp: real, sal: real)
    requires temp + 273.15 != 0.0
    ensures DicksonPKMCP(temp, 35.0) == 1245.69 / (temp + 273.15) + 3.8275
    ensures DicksonPKMCP(temp, sal) == DicksonPKMCP(temp, 35.0) + 0.00211 * (35.0 - sal)
  {
  }

  const ModeError: string := "Please specify `mode` as `tris` or `dickson`"

  function CalcKMCP(E: Elementary, temp: real, sal: real, mode: string): (r: Result<real>)
    requires mode == "dickson" ==> temp + 273.15 != 0.0
    ensures r.Ok? <==> mode == "tris" || mode == "dickson"
    ensures mode == "dickson" ==> r == Ok(E.pow10(-DicksonPKMCP(temp, sal)))
    ensures mode == "tris" ==> r.Ok? && r.value == 8.81873900e-12 * temp * temp - 5.00996717e-11 * temp + 5.95759909e-09
    ensures r.Err? ==> r.error == ValueError(ModeError)
  {
    if mode == "tris" then
      PolyvalQuadratic(8.81873900e-12, -5.00996717e-11, 5.95759909e-09, temp);
      Ok(Polyval(TrisCoefficients, temp))
    else if mode == "dickson" then
      Ok(E.pow10(-DicksonPKMCP(temp, sal)))
    else
      Err(ValueError(ModeError))
  }

  /** The functions the dispatch table Kdict refers to. */
  datatype KFormula = KMCP | KBPB | KBPBCam1

  const Kdict: map<string, KFormula> :=
    map["MCP" := KMCP, "MCP_Cam1" := KMCP, "BPB" := KBPB, "BPB_Cam1" := KBPBCam1]

  /**
   * Call a Kdict entry with temp, sal and the caller's extra keyword arguments,
   * of which the formulas know only `mode` (accepted by calc_KMCP alone).
   */
  function ApplyFormula(E: Elementary, f: KFormula, temp: real, sal: real, mode: Option<string>): Result<real>
    requires f == KMCP && (mode == None || mode == Some("dickson")) ==> temp + 273.15 != 0.0
  {
    match f
    case KMCP => CalcKMCP(E, temp, sal, if mode.Some? then mode.value else "dickson")
    case KBPB => if mode.Some? then Err(TypeError("unexpected keyword argument 'mode'")) else Ok(CalcKBPB(E, temp, sal))
    case KBPBCam1 => if mode.Some? then Err(TypeError("unexpected keyword argument 'mode'")) else Ok(CalcKBPBCam1(E, temp, sal))
  }

  /** What str.join raises when handed the dict_keys object itself as its only item. */
  const JoinError: string := "sequence item 0: expected str instance, dict_keys found"

  /**
   * K_handler as written: for an unknown dye the membership test builds a
   * ValueError message with ', '.join([Kdict.keys()]), and that join raises a
   * TypeError before the ValueError exists (the ValueError would not have been
   * raised anyway); a known dye is looked up in Kdict.
   */
  function KHandler(E: Elementary, dye: string, temp: real, sal: real, mode: Option<string>): (r: Result<real>)
    requires dye in Kdict && Kdict[dye] == KMCP && (mode == None || mode == Some("dickson")) ==> temp + 273.15 != 0.0
    ensures dye !in Kdict <==> r == Err(TypeError(JoinError))
    ensures dye in Kdict ==> r == ApplyFormula(E, Kdict[dye], temp, sal, mode)
  {
    if dye !in Kdict then Err(TypeError(JoinError))
    else ApplyFormula(E, Kdict[dye], temp, sal, mode)
  }

  /** The names in Kdict, in the order of its definition. */
  const DyeNames: seq<string> := ["MCP", "MCP_Cam1", "BPB", "BPB_Cam1"]

  /** The message K_handler evidently meant to raise for an unknown dye. */
  function UnknownDyeMessage(dye: string): string
  {
    "dye=" + dye + " is not valid. Please enter one of [MCP, MCP_Cam1, BPB, BPB_Cam1]."
  }

  /** K_handler as intended: an unknown dye raises the ValueError naming the known ones. */
  function KHandlerIntended(E: Elementary, dye: string, temp: real, sal: real, mode: Option<string>): (r: Result<real>)
    requires dye in Kdict && Kdict[dye] == KMCP && (mode == None || mode == Some("dickson")) ==> temp + 273.15 != 0.0
    ensures dye !in Kdict <==> r == Err(ValueError(UnknownDyeMessage(dye)))
    ensures dye in Kdict ==> r == ApplyFormula(E, Kdict[dye], temp, sal, mode)
  {
    if dye !in Kdict then Err(ValueError(UnknownDyeMessage(dye)))
    else ApplyFormula(E, Kdict[dye], temp, sal, mode)
  }

  /**
   * The two agree on every dye of Kdict and on nothing else: the intended
   * version names the known dyes, which are exactly the keys of Kdict.
   */
  lemma KHandlerIntendedDiffersOnlyForUnknownDyes(E: Elementary, dye: string, temp: real, sal: real, mode: Option<string>)
    requires dye in Kdict && Kdict[dye] == KMCP && (mode == None || mode == Some("dickson")) ==> temp + 273.15 != 0.0
    ensures KHandler(E, dye, temp, sal, mode) == KHandlerIntended(E, dye, temp, sal, mode) <==> dye in Kdict
    ensures dye in Kdict <==> dye in DyeNames
  {
  }

  lemma KHandlerMCPVariantsAgree(E: Elementary, temp: real, sal: real, mode: Option<string>)
    requires mode == None || mode == Some("dickson") ==> temp + 273.15 != 0.0
    ensures KHandler(E, "MCP", temp, sal, mode) == KHandler(E, "MCP_Cam1", temp, sal, mode)
    ensures mode == None ==> KHandler(E, "MCP", temp, sal, mode) == Ok(E.pow10(-DicksonPKMCP(temp, sal)))
  {
  }

  lemma KHandlerBPB(E: Elementary, temp: real, sal: real)
    ensures KHandler(E, "BPB", temp, sal, None) == Ok(CalcKBPB(E, temp, sal))
    ensures KHandler(E, "BPB_Cam1", temp, sal, None) == Ok(CalcKBPBCam1(E, temp, sal))
    ensures KHandler(E, "BPB", temp, sal, Some("dickson")).Err?
  {
  }
}
