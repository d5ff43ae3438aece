# carbspec core in Dafny

This project models the computational core of carbspec. carbspec is a Python package that works out seawater pH and total alkalinity from absorbance spectra of pH indicator dyes: bromophenol blue (BPB) and m-cresol purple (MCP). The project also covers the older copy of the mixture fitter, kept in the package's `specfit` directory.

The model has one Dafny module per core source file:

| module | source file | what it covers |
|---|---|---|
| `Fitting` | `carbspec/spectro/fitting.py` | the mixture model `specmix`, the residual `obj_fn`, the scaled `Jacobian`, the start guess `guess_p0`, and the start point and bounds of `fit_spectrum` |
| `Mixture` | `carbspec/spectro/mixture.py` | `mix_spectra`, the start values of `unmix_spectra`, `pH_from_F`, `spec_from_H`, `spec_from_pH` and `pH_from_mixed_spectrum` |
| `SpecfitMixture` | `specfit/spectro/mixture.py` | the fit weights, the peak-based start values and the `curve_fit` box of the older `unmix_spectra`; its `mix_spectra`, `pH_from_F` and `pH_from_mixed_spectrum` equal carbspec's and are modelled by the `Mixture` members |
| `Ks` | `carbspec/dye/Ks.py` | the BPB pKa and K of both dye batches, the temperature corrections, MCP's K2 in its `dickson` and `tris` modes, and `K_handler` |
| `Species` | `carbspec/alkalinity/species.py` | total fluoride and sulfate, and the constants KF and KS |
| `TA` | `carbspec/alkalinity/TA.py` | `TA_from_pH`, and the squared differences `TA_diff` and `m_acid_diff` that the Newton solver drives to zero |
| `AlkUncertainty` | `carbspec/alkalinity/uncertainty.py` | the derivatives `dTA_dm`, `dTA_dm0`, `dTA_dH`, `dTA_dpH` and `dTA_dC` |
| `SpectroUncertainty` | `carbspec/spectro/uncertainty.py` | the three noise sources, `combine_errors` and the photometric errors |
| `TwoPoint` | `carbspec/spectro/two_point.py` | `smooth`, `peak_ID`, `calc_R25`, `pH_from_R` and the MCP ratio-to-pH functions |
| `Splines` | `carbspec/dye/splines.py` | the JSON spline database: `save_spline`, `load_splines`, `spline_handler`, `tck_2_array` and `list_available` |

`carbspec/splines.py` is an older copy of the spline database module. Its `save_spline` and `list_available` are the same code as in `carbspec/dye/splines.py`, so the same `Splines` members model them.

How Python values appear in the model:
- **Numbers.** Floats are modelled as Dafny `real`s, that is exact rationals. Arrays are `seq<real>`.
- **Broadcasting.** numpy's broadcasting of two one-dimensional operands is `Numerics.Broadcast` and `Numerics.At`.
- **Transcendental functions.** `exp`, `log`, `log10`, `10**x` and `sqrt` are fields of an `Elementary` value. The model assumes nothing about them. A lemma that needs a law states it as a precondition, for example positivity of `exp`, or `log10(10**x) == x`.
- **Splines.** A fitted scipy `UnivariateSpline` is a `Spline` value: its evaluation function and its derivative.
- **Exceptions.** An exception the code raises on an input the model admits is a `Result` error. ValueError, KeyError, IndexError, TypeError, FileNotFoundError and JSONDecodeError are kept apart. `unp.log10` of a ratio that is not positive raises the math domain error, `Numerics.CheckedLog10`. Inputs that would divide by zero are excluded by preconditions instead (see Left out).
- **Mutable state.**
  - `peak_ID` writes the smoothed spectrum into the caller's dictionary. That dictionary is the class `TwoPoint.Spectrum`.
  - The spline file is the class `Splines.JsonFile`. It holds the decoded JSON database, or marks the file as missing or not decodable.
  - The nested dictionaries of the database are `Splines.Dict`: a key order plus a map, like a Python `dict`.
  - The Jacobian is a fresh `array2`, filled one row at a time.
  - `combine_errors` accumulates noise into a fresh array.
  - `list_available` appends its lines to a list in a loop.

Where the code and its documentation or evident intent disagree, the model follows the code:
- **`K_handler`, unknown dye.** The code builds the message of a ValueError with `', '.join([Kdict.keys()])`. That `join` raises a TypeError, and the ValueError would not have been raised anyway. So an unknown dye gives a TypeError (see Findings).
- **`peak_ID`, base-peak fallback.** The fallback to the nearest wavelength assigns `aind` instead of `bind`. So the base peak is always the first maximum inside its window.
- **`peak_ID`, background location.** The background location is stored in `bgk_loc`. So the location returned for the background is the `bkg_loc` the caller passed in.
- **`pH_from_mixed_spectrum`, BPB branch.** It calls `calc_KBPB(sal, temp)`, which fills the parameters `temp` and `sal` in swapped order (see Findings). This happens in both copies of the module.
- **`dTA_dm`.** Its sulfate term is not the derivative of `TA_from_pH` with respect to the acid mass (see Findings).
- **`dTA_dH` and `dTA_dpH`.** Their sulfate term is not the derivative of HSO4. `dTA_dH` also carries the opposite sign to the H-slope of `TA_from_pH`. `dTA_dpH` is H * ln 10 times `dTA_dH`, which is the magnitude of dH/dpH; so apart from the sulfate term it has the sign of TA's pH-slope (see Findings).
- **Error behaviour.** Where the documentation says nothing, the model keeps numpy's and Python's behaviour: argmax of an empty array, out-of-range indices, shapes that do not broadcast, and a mask that selects several values handed to `float`.

## Model

| member | source | states |
|---|---|---|
| Numerics.Broadcast | carbspec/spectro/fitting.py:35 | numpy broadcasting of two 1-D lengths succeeds exactly when they are equal or one of them is 1, and the result has the length of the operand that is not 1 |
| Numerics.ArgMax | carbspec/spectro/fitting.py:75 | np.argmax: an index of a maximal element that no earlier element equals (the first maximum) |
| Fitting.SpecMixLinear | carbspec/spectro/fitting.py:51-52 | for fixed shift and stretch the mixture is linear in (a, b, B0): a combination of parameter sets gives the same combination of spectra |
| Fitting.ObjFn | carbspec/spectro/fitting.py:58 | defined exactly when wavelength, absorbance and sigma broadcast together (ValueError otherwise); each residual is (model - data) / sigma at its index |
| Fitting.ResidualMeaning | carbspec/spectro/fitting.py:58-59 | residual times sigma is model minus data, so a residual is zero iff the model reproduces the data point |
| Fitting.ObjFnZeroIff | carbspec/spectro/fitting.py:58 | an entry of obj_fn is zero iff the mixture equals the measured absorbance at that wavelength |
| Fitting.Jacobian | carbspec/spectro/fitting.py:4-35 | ValueError iff wavelengths and sigma do not broadcast; otherwise a fresh n-by-5 array whose cell (i, j) is derivative column j at wavelength i divided by sigma_i |
| Fitting.UnscaledJacobian | carbspec/spectro/fitting.py:25-33 | a fresh len(wv)-by-5 array holding the acid column, the base column, ones, the shift column and the stretch column |
| Fitting.FillRow | carbspec/spectro/fitting.py:29-33 | writes the five derivative cells of one row and leaves every other row unchanged |
| Fitting.DivideRows | carbspec/spectro/fitting.py:35 | J / sigma.reshape(-1, 1): each row divided by its own sigma, a single row or a single sigma being repeated |
| Fitting.JacobianAcidColumnIsPartial | carbspec/spectro/fitting.py:29 | column 0 scaled by sigma is exactly the change of the residual per unit change of a (the residual is linear in a) |
| Fitting.JacobianBaseColumnIsPartial | carbspec/spectro/fitting.py:30 | column 1 scaled by sigma is exactly the change of the residual per unit change of b |
| Fitting.JacobianBackgroundColumnIsPartial | carbspec/spectro/fitting.py:27-31 | column 2 keeps the ones of np.ones, and 1 / sigma is exactly the residual change per unit change of B0 |
| Fitting.JacobianStretchColumn | carbspec/spectro/fitting.py:32-33 | the stretch column is the wavelength times the shift column, the chain rule through m*w + c |
| Fitting.ClampedAmount | carbspec/spectro/fitting.py:76 | start amount times the spline peak equals max(excess, 0); the amount is non-negative under a positive peak |
| Fitting.GuessP0 | carbspec/spectro/fitting.py:71-81 | empty wavelengths raise argmax's ValueError, a peak index beyond the absorbance raises IndexError; otherwise B0 is the mean of the last ten absorbances, c = 0, m = 1, b times the base peak is max(Abs[base_loc] - B0, 0), a times the acid peak is the clamped excess left after background and base, and both are non-negative under positive peaks |
| Fitting.GuessP0ShortSpectrum | carbspec/spectro/fitting.py:73 | with at most ten absorbances the background guess is the mean of the whole spectrum |
| Fitting.GuessP0InDefaultBounds | carbspec/spectro/fitting.py:71-84 | under positive spline peaks the guess lies inside fit_spectrum's default bounds |
| Fitting.StartPoint | carbspec/spectro/fitting.py:108-109 | a p0 given by the caller is used unchanged, whatever the splines; otherwise guess_p0 decides the start and its errors |
| Mixture.MixSpectraIsSpecMix | carbspec/spectro/mixture.py:25-52 | mix_spectra with parameters (a, b, bkg, c, m) is, wavelength by wavelength, the same spectrum as fitting's specmix with them; the same holds for specfit/spectro/mixture.py lines 24-51, with C0, C1 for c, m |
| Mixture.MixSpectraDefaults | carbspec/spectro/mixture.py:25 | with the default arguments the mixture is the sum of the acid and base spectra |
| Mixture.UnmixStart | carbspec/spectro/mixture.py:84-107 | empty absorbance raises IndexError at y[-1], empty wavelengths ValueError, a peak index beyond the absorbance IndexError; otherwise sigma defaults to [1], B0 = y[-1], c = 0, m = 1, and a, b are the clamped peak amounts as in guess_p0 |
| Mixture.UnmixStartAgreesWithGuessP0 | carbspec/spectro/mixture.py:93-98 | when the last absorbance equals the mean of the last ten, unmix_spectra starts from exactly guess_p0's point and fails exactly when guess_p0 fails |
| Mixture.FlatTailBackground | carbspec/spectro/mixture.py:93 | on a flat spectrum the two background starts, y[-1] and the mean of the last ten, coincide |
| Mixture.PHFromFIncreasingInF | carbspec/spectro/mixture.py:109-110 | for fixed K > 0, -log10(K / F) rises strictly with the base/acid ratio F |
| Mixture.PHFromFDecreasingInK | carbspec/spectro/mixture.py:109-110 | for fixed F > 0 the pH falls strictly as K grows |
| Mixture.AcidBaseSplit | carbspec/spectro/mixture.py:171-173 | the acid and base parts sum to the dye concentration, and their ratio base/acid is K / H |
| Mixture.RatioOfShares | carbspec/spectro/mixture.py:172-173 | the ratio of two shares of one total is the ratio of their weights |
| Mixture.SpecFromH | carbspec/spectro/mixture.py:171-175 | one absorbance per wavelength |
| Mixture.SpecFromHIsMixture | carbspec/spectro/mixture.py:171-175 | spec_from_H is mix_spectra with the acid and base parts as amounts, no background and no wavelength adjustment |
| Mixture.SpecFromPHRecoversPH | carbspec/spectro/mixture.py:171-178 | spec_from_pH is the mixture, without background or warp, of the acid and base spectra in the split amounts at H = 10**-pH, and pH_from_F of their base/acid ratio gives back pH |
| Mixture.PHFromFInvertsSplit | carbspec/spectro/mixture.py:109-110 | round trip: pH_from_F of the base/acid ratio of the split at H = 10**-pH returns pH |
| Mixture.PHFromMixedSpectrumAsWritten | carbspec/spectro/mixture.py:112-126 | F = b / a; BPB gives pH_from_F with calc_KBPB(temp=sal, sal=temp), MCP with the Dickson K2, any other dye exactly the ValueError; the same as specfit/spectro/mixture.py lines 114-128 |
| Mixture.PHFromMixedSpectrum | carbspec/spectro/mixture.py:112-126 | the corrected version: for BPB and MCP the pH is pH_from_F of b / a with the dye's K from K_handler at (temp, sal); any other dye gives the ValueError |
| Mixture.PHFromMixedSpectrumRecoversPH | carbspec/spectro/mixture.py:112-126 | round trip: for amounts split at a given pH with the dye's K, the corrected pH_from_mixed_spectrum returns that pH |
| Mixture.PHFromMixedSpectrumSwapDiffers | carbspec/spectro/mixture.py:120 | at 0 C and salinity -C1/C2 the BPB pH as written differs from the corrected one for every positive a, b |
| SpecfitMixture.DefaultWeight | specfit/spectro/mixture.py:90 | 1 / (mixture(x)**2 + 1) lies in (0, 1] |
| SpecfitMixture.Weights | specfit/spectro/mixture.py:88-94 | False gives no sigma, an array is passed through, True gives one weight in (0, 1] per wavelength |
| SpecfitMixture.Count | specfit/spectro/mixture.py:97-98 | the number of grid points holding a value is at most the grid length |
| SpecfitMixture.StartAmount | specfit/spectro/mixture.py:97-101 | empty grid raises ValueError; success iff the peak is held by exactly one grid point and y has x's length; the amount is max(y[k] / f(x[k]), 0) at the peak k, so non-negative |
| SpecfitMixture.UniquePeakIsNearestAlone | specfit/spectro/mixture.py:100-101 | with a unique peak, the nearest-point mask selects the peak position alone |
| SpecfitMixture.UnmixStart | specfit/spectro/mixture.py:86-109 | succeeds iff both start amounts do; the base's error is raised first, and the acid's error when only the acid's start fails; p0 = (astart, bstart, 0, 0, 1) and sigma is the weights |
| SpecfitMixture.UnmixStartInBounds | specfit/spectro/mixture.py:106-109 | every start point that is computed lies inside curve_fit's box |
| Ks.PKBPBAtStandardSalinity | carbspec/dye/Ks.py:26-30 | at salinity 35 both BPB batches give their pKa35 |
| Ks.PKBPBSalinitySlope | carbspec/dye/Ks.py:28-56 | pKa of either BPB batch falls by A = 1.74e-3 per unit of salinity |
| Ks.PKBPBCam1Offset | carbspec/dye/Ks.py:26-56 | the two BPB batches differ by the same pKa offset at every salinity |
| Ks.TempCorrKBPBIsQuadratic | carbspec/dye/Ks.py:58-60 | the temperature correction is C1*t + C2*t**2, zero at 0 C |
| Ks.PolyvalQuadratic | carbspec/dye/Ks.py:74 | np.polyval of three coefficients is p0*x**2 + p1*x + p2 |
| Ks.TempCorrKBPBNewAt25 | carbspec/dye/Ks.py:62-74 | the fitted ratio K(T)/K(25) at 25 C is its constant coefficient |
| Ks.KBPBBatchesDifferBySalinityOnly | carbspec/dye/Ks.py:101-125 | both batches add the same temperature term, so their difference does not depend on temperature |
| Ks.DicksonPKMCPSalinity | carbspec/dye/Ks.py:155-158 | the Dickson pK2 of MCP is its salinity-35 value plus 0.00211 (35 - sal) |
| Ks.CalcKMCP | carbspec/dye/Ks.py:128-160 | dickson gives 10**-pK2, tris the nominal quadratic in temperature, any other mode exactly the ValueError |
| Ks.KHandler | carbspec/dye/Ks.py:162-172 | an unknown dye gives exactly the TypeError of the message's join; a known one calls its Kdict formula with temp, sal and mode |
| Ks.KHandlerIntended | carbspec/dye/Ks.py:169-172 | the corrected version: an unknown dye gives exactly the ValueError naming the known dyes, a known one calls its formula |
| Ks.KHandlerIntendedDiffersOnlyForUnknownDyes | carbspec/dye/Ks.py:170-171 | the two versions agree exactly on the dyes of Kdict, which are the names the message lists |
| Ks.KHandlerMCPVariantsAgree | carbspec/dye/Ks.py:162-167 | MCP and MCP_Cam1 give the same K in every mode, the Dickson K2 by default |
| Ks.KHandlerBPB | carbspec/dye/Ks.py:162-172 | BPB and BPB_Cam1 dispatch to their own formula; a mode keyword is refused by the BPB formulas |
| Species.TotalsLinearInSalinity | carbspec/alkalinity/species.py:4-46 | total fluoride and sulfate are linear in salinity, zero at salinity 0 and positive for positive salinity |
| Species.SulfateToFluorideRatio | carbspec/alkalinity/species.py:11-46 | the ratio of total sulfate to total fluoride is the same at every salinity |
| Species.IonicStrengthBounds | carbspec/alkalinity/species.py:66 | the ionic strength is zero at salinity 0 and positive for salinities below 1000/1.005 |
| Species.ConstantsPositive | carbspec/alkalinity/species.py:14-82 | KF and KS are positive, being exponentials |
| TA.TADiff | carbspec/alkalinity/TA.py:47-48 | TA_diff is zero when the computed alkalinity equals TA and positive otherwise |
| TA.MAcidDiff | carbspec/alkalinity/TA.py:55-56 | m_acid_diff is zero when the computed alkalinity equals TA and positive otherwise |
| TA.TAAffineInConcentration | carbspec/alkalinity/TA.py:44 | alkalinity grows by d * m_acid / m_sample when the acid concentration grows by d |
| TA.TAAffineInAcidMass | carbspec/alkalinity/TA.py:44 | alkalinity is affine in the acid mass with slope (C_acid - (Hfree + HSO4 + HF)) / m_sample |
| TA.SpeciesBounds | carbspec/alkalinity/TA.py:38-40 | with positive constants: 0 < Hfree < H, 0 < HSO4 < TS and 0 < HF < TF |
| TA.SeawaterPositive | carbspec/alkalinity/TA.py:32-36 | the totals and constants TA_from_pH uses are positive for positive salinity |
| TA.TAWithoutAcid | carbspec/alkalinity/TA.py:44 | with no acid added the alkalinity is minus the proton excess, so negative |
| TA.ExcessIncreasing | carbspec/alkalinity/TA.py:38-40 | the proton excess Hfree + HSO4 + HF rises strictly with H |
| TA.TADecreasingInH | carbspec/alkalinity/TA.py:38-44 | the computed alkalinity falls strictly as H rises |
| TA.TAIncreasingInPH | carbspec/alkalinity/TA.py:30-44 | the computed alkalinity rises strictly with pH |
| TA.TADiffZeroUnique | carbspec/alkalinity/TA.py:47-52 | TA_diff has at most one zero in pH, so a root the Newton solver finds is the pH |
| TA.MAcidRootSolves | carbspec/alkalinity/TA.py:55-60 | when C_acid differs from the proton excess, the closed-form acid mass reaches the target TA and is the only acid mass that does, so the zero of m_acid_diff is unique |
| AlkUncertainty.MassScaling | carbspec/alkalinity/uncertainty.py:23 | dTA_dm0's expression is -(m / m0) * (C / m0 - F / m0) |
| AlkUncertainty.DTAdm0IsScaledDTAdm | carbspec/alkalinity/uncertainty.py:5-23 | dTA_dm0 = -(m / m0) * dTA_dm, so zero when no acid is added |
| AlkUncertainty.DTAdmAgainstTASlope | carbspec/alkalinity/uncertainty.py:11-13 | dTA_dm's fluoride and free-proton terms are HF and Hfree of TA_from_pH; it differs from the exact slope only by HSO4 minus its sulfate term, over m0 |
| AlkUncertainty.DTAdmExactIsSlope | carbspec/alkalinity/TA.py:44 | the corrected slope is exactly the change of TA_from_pH per unit of acid mass |
| AlkUncertainty.DTAdmIsNotTASlope | carbspec/alkalinity/uncertainty.py:11 | with positive constants and H != 1, dTA_dm as written is not the slope of TA_from_pH in the acid mass |
| AlkUncertainty.MassWeightedScales | carbspec/alkalinity/uncertainty.py:33-44 | the (m + m0) * F / m0 factor shared by dTA_dH and dTA_dpH scales linearly with F |
| AlkUncertainty.SulfateTermsChain | carbspec/alkalinity/uncertainty.py:31-42 | dTA_dpH's sulfate term is H * ln 10 times dTA_dH's sulfate term |
| AlkUncertainty.FluorideTermsChain | carbspec/alkalinity/uncertainty.py:31-42 | dTA_dpH's fluoride term, written with 10**pH, is H * ln 10 times dTA_dH's fluoride term |
| AlkUncertainty.DTAdpHChainRule | carbspec/alkalinity/uncertainty.py:25-44 | dTA_dpH = H * ln 10 * dTA_dH at H = 10**-pH, term by term: the factor is the magnitude of dH/dpH = -H * ln 10, not its signed value |
| AlkUncertainty.ExcessDifference | carbspec/alkalinity/TA.py:38-40 | Hfree + HSO4 + HF changes between two positive H by (H2 - H1) times its difference quotient in closed form: 1 / (1 + TS/KS) plus the HSO4 and HF quotients |
| AlkUncertainty.TADifferenceInH | carbspec/alkalinity/TA.py:38-44 | TA_from_pH changes between two positive H by (H2 - H1) times -(m + m0) / m0 times that quotient, so its H-derivative is the corrected DTAdHExact |
| AlkUncertainty.DTAdHExactNegative | carbspec/alkalinity/TA.py:38-44 | for positive masses and constants the exact H-slope of TA_from_pH is negative |
| AlkUncertainty.DTAdHAgainstTASlope | carbspec/alkalinity/uncertainty.py:31-33 | dTA_dH's fluoride term is HF's derivative in H; dTA_dH equals minus the exact H-slope of TA less (m + m0) / m0 times the sum of its sulfate term and HSO4's derivative |
| AlkUncertainty.DTAdHBelowSlopeMagnitude | carbspec/alkalinity/uncertainty.py:31-33 | for positive masses and constants dTA_dH is strictly below the magnitude of TA's H-slope, so it is neither the slope nor its magnitude |
| AlkUncertainty.DTAdHWrongSign | carbspec/alkalinity/uncertainty.py:31-33 | at TS = 0.028, TF = 7e-5, KS = 0.1, KF = 0.0025, H = 3e-4, m = 0.1, m0 = 1, dTA_dH is positive while TA's H-slope is negative |
| AlkUncertainty.DTAdpHAgainstTASlope | carbspec/alkalinity/uncertainty.py:35-44 | with positive constants dTA_dpH is TA's pH-slope, the exact H-slope times -H * ln 10, less H * ln 10 times the same mass-weighted sulfate terms |
| AlkUncertainty.DTAdCIsSlope | carbspec/alkalinity/uncertainty.py:46-47 | dTA_dC = m / m0 is exactly the change of TA_from_pH per unit of acid concentration |
| SpectroUncertainty.ThermalNoise | carbspec/spectro/uncertainty.py:4-5 | one value per absorbance, all zero when k1 = 0 |
| SpectroUncertainty.PhotonNoise | carbspec/spectro/uncertainty.py:7-8 | one value per absorbance, all zero when k2 = 0 |
| SpectroUncertainty.CellPositionNoise | carbspec/spectro/uncertainty.py:10-11 | one value per absorbance, all zero when k3 = 0 |
| SpectroUncertainty.NoisesProportionalToK | carbspec/spectro/uncertainty.py:4-11 | each noise source is proportional to its coefficient |
| SpectroUncertainty.SquaredRatio | carbspec/spectro/uncertainty.py:16 | (component / Abs)**2 is non-negative |
| SpectroUncertainty.NoiseAt | carbspec/spectro/uncertainty.py:14-16 | the accumulated sum of squared ratios is non-negative |
| SpectroUncertainty.CombinedErrors | carbspec/spectro/uncertainty.py:13-18 | one combined error per absorbance |
| SpectroUncertainty.AddSquaredRatios | carbspec/spectro/uncertainty.py:16 | noise += (i / Abs)**2 adds each squared ratio to its own cell |
| SpectroUncertainty.CombineErrors | carbspec/spectro/uncertainty.py:13-18 | ValueError iff some component does not broadcast against Abs; otherwise Abs * sqrt(sum of squared ratios) element by element |
| SpectroUncertainty.NoiseOfZeroComponents | carbspec/spectro/uncertainty.py:14-16 | zero components accumulate zero noise |
| SpectroUncertainty.CombinedErrorsOfZeroComponents | carbspec/spectro/uncertainty.py:13-18 | zero components give zero combined error |
| SpectroUncertainty.CombineSingleComponent | carbspec/spectro/uncertainty.py:13-18 | a single non-negative component comes back unchanged: Abs * sqrt((i / Abs)**2) = i |
| SpectroUncertainty.RelErrorLinear | carbspec/spectro/uncertainty.py:20-21 | the relative photometric error is linear in sT and zero for sT = 0 |
| SpectroUncertainty.RelPhotometricError | carbspec/spectro/uncertainty.py:20-21 | ValueError iff Abs and sT do not broadcast; otherwise (0.434 / Abs) * (sT / 10**-Abs) element by element |
| SpectroUncertainty.NoiseComponents | carbspec/spectro/uncertainty.py:24-26 | the three noise arrays all have the length of Abs |
| SpectroUncertainty.RelPhotometricErrorOf | carbspec/spectro/uncertainty.py:23-30 | one relative error per absorbance |
| SpectroUncertainty.CalcRelPhotometricError | carbspec/spectro/uncertainty.py:23-30 | combines the three noises and returns their relative photometric error |
| SpectroUncertainty.RelPhotometricErrorAtDefaults | carbspec/spectro/uncertainty.py:23 | with the default k1 = k2 = k3 = 0 the relative error is zero everywhere |
| SpectroUncertainty.CalcPhotometricError | carbspec/spectro/uncertainty.py:32-33 | one error per absorbance, Abs times its relative error |
| SpectroUncertainty.PhotometricErrorAtDefaults | carbspec/spectro/uncertainty.py:32-33 | with the default coefficients the photometric error is zero |
| TwoPoint.Padded | carbspec/spectro/two_point.py:38 | h NaNs, the values, h NaNs |
| TwoPoint.OddWindow | carbspec/spectro/two_point.py:25-26 | an even window grows by one, an odd one is kept |
| TwoPoint.Squares | carbspec/spectro/two_point.py:36 | each squared value, non-negative |
| TwoPoint.Smooth | carbspec/spectro/two_point.py:10-38 | succeeds iff the odd window fits the spectrum (ValueError otherwise) and is then the windowed means and standard errors |
| TwoPoint.SmoothWindows | carbspec/spectro/two_point.py:28-38 | both outputs have the spectrum's length, NaN in the first and last h places, and at every inner i the mean and standard error of the window centred on i |
| TwoPoint.PaddedWindows | carbspec/spectro/two_point.py:28-38 | padding by h NaNs centres each window on its output position |
| TwoPoint.SumOfDeviations | carbspec/spectro/two_point.py:35 | the deviations sum to the sum minus n times the mean |
| TwoPoint.MeanOfDeviationsIsZero | carbspec/spectro/two_point.py:35-36 | the residuals about the window mean average to zero, so np.std of them is their root mean square |
| TwoPoint.WindowStderrIsRootMeanSquare | carbspec/spectro/two_point.py:36 | the standard error is sqrt(mean squared deviation) / sqrt(win) |
| TwoPoint.FlatWindow | carbspec/spectro/two_point.py:33-36 | a constant window has that constant as mean and zero standard error |
| TwoPoint.SmoothFlatSpectrum | carbspec/spectro/two_point.py:10-38 | smoothing a flat spectrum returns its level with zero error at every inner point |
| TwoPoint.Distance | carbspec/spectro/two_point.py:66-67 | abs(x - y): non-negative and one of the two differences |
| TwoPoint.FirstTrue | carbspec/spectro/two_point.py:66-68 | `[mask][0]`: the first marked position, none iff nothing is marked |
| TwoPoint.NanMax | carbspec/spectro/two_point.py:65 | np.nanmax over the marked samples: none iff all are NaN, otherwise a marked value no other marked value exceeds |
| TwoPoint.MinDistance | carbspec/spectro/two_point.py:67 | the smallest distance to loc over the grid, attained somewhere |
| TwoPoint.NearestMask | carbspec/spectro/two_point.py:67 | marks exactly the grid points nearest to loc, at least one |
| TwoPoint.FirstNearest | carbspec/spectro/two_point.py:67-68 | the first grid point nearest to loc |
| TwoPoint.WindowPeak | carbspec/spectro/two_point.py:64-66 | an empty window raises ValueError, an all-NaN window IndexError; otherwise the first position in the window holding its smoothed maximum |
| TwoPoint.WindowPeakUnique | carbspec/spectro/two_point.py:64-66 | the window peak is the only position meeting that description |
| TwoPoint.Spectrum.constructor | carbspec/spectro/two_point.py:46-47 | a spectrum record with wavelengths and absorbances and no smoothed columns yet |
| TwoPoint.PeakID | carbspec/spectro/two_point.py:40-87 | stores the smoothed spectrum and its errors in the record; smooth's error is returned unchanged, wavelengths and absorbances of different lengths give IndexError, and otherwise the acid window's error, then the base window's error, is returned; acid peak at the window maximum, or the nearest point when that maximum is at 0.95 * peak_win or further; base peak always at its window maximum; background at the nearest point, reported at the bkg_loc passed in |
| TwoPoint.WindowMask | carbspec/spectro/two_point.py:64-65 | builds the mask of a window step by step; its first marked position is the window peak |
| TwoPoint.AcidPeakCloseOrNearest | carbspec/spectro/two_point.py:66-68 | the acid peak is either within 0.95 * peak_win of acid_loc or nearest to it among all wavelengths |
| TwoPoint.BasePeakInWindow | carbspec/spectro/two_point.py:73-77 | the base peak is within peak_win of base_loc |
| TwoPoint.CalcR25At25 | carbspec/spectro/two_point.py:122-124 | at 25 C the ratio needs no correction |
| TwoPoint.CalcR25Linear | carbspec/spectro/two_point.py:124 | the correction is linear in R |
| TwoPoint.CalcR25Increasing | carbspec/spectro/two_point.py:124 | where the correction factor is positive the corrected ratio keeps the order of R |
| TwoPoint.PHFromR | carbspec/spectro/two_point.py:126-157 | ValueError("math domain error") exactly when (R25 - e1) / (e2 - R25 * e3) is not positive; otherwise pKa(sal) plus log10 of that ratio |
| TwoPoint.PHFromRFailsAtOrBelowE1 | carbspec/spectro/two_point.py:150-157 | below the denominator's pole, pH_from_R fails exactly when the corrected ratio R25 is at or below e1 |
| TwoPoint.PHFromRIncreasing | carbspec/spectro/two_point.py:126-157 | where the log argument is positive, pH_from_R succeeds and the BPB pH rises strictly with R |
| TwoPoint.PHMCP | carbspec/spectro/two_point.py:232-248 | ValueError("math domain error") exactly when (R - e1(TK)) / (1 - R * e3_e2(TK, S)) is not positive; otherwise logk2e2(TK, S) plus log10 of that ratio, TK = T + 273.15 |
| TwoPoint.PHMCPFailsAtOrBelowE1 | carbspec/spectro/two_point.py:239-248 | below the denominator's pole, pH_MCP fails exactly when R is at or below e1(TK) |
| TwoPoint.PHMCPIncreasing | carbspec/spectro/two_point.py:245-248 | where the log argument is positive, pH_MCP succeeds and the MCP pH rises strictly with R |
| Splines.Dict.Put | carbspec/dye/splines.py:70-75 | d[k] = v: a new key goes last and an existing one keeps its place; k maps to v, every other key keeps its value, and well-formedness is kept |
| Splines.PutTwice | carbspec/dye/splines.py:70-75 | a second assignment to a key replaces the first |
| Splines.EmptyDict | carbspec/dye/splines.py:62-65 | {} is well formed and has no keys |
| Splines.TckToArray | carbspec/dye/splines.py:80-81 | IndexError for an empty tck; otherwise every element but the last becomes an array and the last is kept |
| Splines.TckToArrayOfStored | carbspec/dye/splines.py:75-81 | the stored [knots, coefficients, degree] comes back as two arrays and the degree |
| Splines.LoadSplines | carbspec/dye/splines.py:83-89 | missing file, undecodable JSON and an unknown dye raise their errors; otherwise one spline per stored form, built from its tck_2_array |
| Splines.SplineHandler | carbspec/dye/splines.py:6-22 | a dict gives its acid and base splines, KeyError("acid") when acid is missing and otherwise KeyError("base") when base is; a name passes load_splines' error on, or takes the same two entries of the loaded splines with the same two KeyErrors |
| Splines.WithSplineUpdatesOneEntry | carbspec/dye/splines.py:69-75 | after storing, the (dye, form) entry is the stored tck and every other entry is unchanged |
| Splines.WithSplineNewDye | carbspec/dye/splines.py:69-70 | a new dye is added last with the stored form as its only entry |
| Splines.WithSplineValid | carbspec/dye/splines.py:69-75 | storing keeps the database well formed |
| Splines.SplineTable.constructor | carbspec/dye/splines.py:58-65 | the working copy starts as the database loaded or created |
| Splines.SplineTable.Add | carbspec/dye/splines.py:69-75 | a present form without overwrite raises the ValueError and changes nothing; otherwise the entry is stored |
| Splines.JsonFile.constructor | carbspec/dye/splines.py:24-29 | a file with the given content |
| Splines.StartDatabase | carbspec/dye/splines.py:58-65 | append=False starts from {}; append reads the file, undecodable JSON starts from {}, a missing file raises FileNotFoundError |
| Splines.SaveSpline | carbspec/dye/splines.py:31-78 | fails iff the file is missing with append (FileNotFoundError) or the form is present without overwrite (the ValueError naming form and dye), and then leaves the file alone; otherwise the file holds the database with the spline stored; the same as carbspec/splines.py lines 12-59 |
| Splines.SavedSplineLoads | carbspec/dye/splines.py:75-89 | round trip: when every stored tck has a last element, after save_spline, load_splines of the dye gives the spline built from the saved knots, coefficients and degree |
| Splines.DyeBlock | carbspec/dye/splines.py:101-103 | a dye's block is its "dye:" line followed by its form lines |
| Splines.ListAvailable | carbspec/dye/splines.py:91-105 | the lines are the title, the rule, each dye's block in key order, and the rule; the same as carbspec/splines.py lines 70-84 |
| Splines.AppendDye | carbspec/dye/splines.py:101-103 | appends one dye's block to the lines built so far |
| Splines.DyeLinesLength | carbspec/dye/splines.py:100-103 | the dye lines number one per dye plus one per form |
| Splines.DyeLinesPrefix | carbspec/dye/splines.py:100-103 | the lines of the first dyes are a prefix of the lines of all of them |
| Splines.DyeLinesBlock | carbspec/dye/splines.py:100-103 | the i-th dye's block sits in the listing right after the blocks of the dyes before it |
| Splines.BlockLengthMonotone | carbspec/dye/splines.py:100-103 | more dyes never give fewer lines |
| Splines.ListingFrame | carbspec/dye/splines.py:97-105 | the listing is title, rule, the dye lines and a closing rule, 3 + BlockLength lines |

## Left out

- **Optimisers and root finders are treated as external calls.** scipy's `least_squares` (`fit_spectrum`), `curve_fit` (the older `unmix_spectra`) and `newton` (`pH_from_TA`, `calc_m_acid`) appear only as the functions they minimise or zero, with the start points, bounds and weights handed to them. Fitted parameters come in as inputs.
- **`jac_2_cov` is left out.** It needs a matrix inverse of the fitted Jacobian.
- **The `uncertainties` package is left out.** Correlated values and `unp.log10` are modelled by their nominal values. `calc_KMCP`'s tris mode is its nominal quadratic, and `calc_R_from_peaks` is not modelled.
- **Floating point and division by zero are not modelled.** Rounding is replaced by exact reals. Division by zero gives `inf` or `nan` in numpy and ZeroDivisionError on Python floats. The model returns neither: a precondition on each operation that divides excludes the zero divisor.
- **Mixture.PHFromF does not raise the math domain error.** It returns -log10(K / F) for every non-zero F. Its callers pass fitted amounts, which the fit bounds keep non-negative, and a positive K, so K / F is positive on every path the code reaches.
- **Mixture.PHFromMixedSpectrum and Mixture.PHFromMixedSpectrumAsWritten require non-zero fitted a and b.** The source computes `pe[1] / pe[0]` on `uncertainties` values (carbspec/spectro/mixture.py:117). When a = 0 that division raises ZeroDivisionError, and the fit bounds allow a = 0. The model does not return this error; the precondition excludes it.
- **NaN in an input spectrum is not modelled.** `smooth`'s `nanmean` and `nanstd` are modelled as mean and population standard deviation of windows holding numbers. NaN appears only as the padding that `smooth` adds.
- **Transcendental functions and fitted splines are inputs.** Their values are parameters, and the laws a proof needs are preconditions.
- **File I/O is reduced to the decoded file contents.** The spline file is its decoded content; the default resource path, `open` and `json.load` / `json.dump` are not modelled.
- **Splines.SaveSpline: key sorting on write is not modelled.** It stores the database in insertion order, while `json.dump(..., sort_keys=True)` writes keys sorted, so a file read back lists keys sorted.
- **Splines.ListAvailable returns the lines.** The source joins them with newlines and prints them.
- **Non-dictionary JSON is not modelled.** The spline file is assumed to decode to a dictionary of dictionaries.
- **carbspec/splines.py `load_dye_splines` is left out.** It differs from `load_splines` only by building splines from the stored lists without `tck_2_array`. The spline construction itself lies outside the model.
- **Fitting.Jacobian builds the matrix row by row.** numpy fills it column by column; the final matrix is the same.
- **Outside of this model:**
  - plotting (`plot_peaks`, `plot_mixture`);
  - the instrument, GUI, session and I/O modules;
  - `helpers.py` and `peaks.py`;
  - the tests;
  - the package set-up.

## Findings

| source | as written | input that shows it | evidently intended | confidence | as-written member | corrected member |
|---|---|---|---|---|---|---|
| carbspec/spectro/mixture.py:120 | `calc_KBPB(sal, temp)` passes the salinity as the temperature and the temperature as the salinity (the same call is at specfit/spectro/mixture.py:122) | dye BPB, temp = 0, sal = -C1/C2 (about 25.4), any positive fitted a and b | `calc_KBPB(temp, sal)` | not executed | Mixture.PHFromMixedSpectrumAsWritten, with Mixture.PHFromMixedSpectrumSwapDiffers | Mixture.PHFromMixedSpectrum, with Mixture.PHFromMixedSpectrumRecoversPH |
| carbspec/alkalinity/uncertainty.py:11 | the sulfate term of dTA_dm is TS / (KS*H*(1 + TS/KS) + 1), which is not the HSO4 = TS / (1 + KS/Hfree) of TA_from_pH, so dTA_dm is not the slope of TA in the acid mass | positive constants with H != 1, e.g. H = 2, TS = TF = KS = KF = 1, m0 = 1 | (C - (Hfree + HSO4 + HF)) / m0, the derivative of TA_from_pH in m_acid | not executed | AlkUncertainty.DTAdmAt, with AlkUncertainty.DTAdmIsNotTASlope | AlkUncertainty.DTAdmExact, with AlkUncertainty.DTAdmExactIsSlope |
| carbspec/alkalinity/uncertainty.py:31-44 | dTA_dH returns +(m + m0) F / m0, where TA_from_pH's H-slope is -(m + m0) / m0 times the derivative of Hfree + HSO4 + HF; its sulfate term -KS TS (1 + TS/KS) / (KS H (1 + TS/KS) + 1)**2 is not the derivative of HSO4, which is +TS KS (1 + TS/KS) / (H + KS (1 + TS/KS))**2. dTA_dpH = H ln10 dTA_dH inherits the sulfate term | TS = 0.028, TF = 7e-5, KS = 0.1, KF = 0.0025, H = 3e-4, m = 0.1, m0 = 1: dTA_dH is positive while TA_from_pH falls as H rises | -(m + m0) / m0 (1 / (1 + TS/KS) + dHSO4/dH + dHF/dH), the H-slope of TA_from_pH | not executed | AlkUncertainty.DTAdHAt, with AlkUncertainty.DTAdHWrongSign | AlkUncertainty.DTAdHExact, with AlkUncertainty.TADifferenceInH |
| carbspec/dye/Ks.py:171 | an unknown dye makes `', '.join([Kdict.keys()])` raise a TypeError; the ValueError it was building is never raised | dye = "TB" | raise the ValueError listing MCP, MCP_Cam1, BPB, BPB_Cam1 | not executed | Ks.KHandler, with Ks.KHandlerIntendedDiffersOnlyForUnknownDyes | Ks.KHandlerIntended, with Ks.KHandlerIntendedDiffersOnlyForUnknownDyes |
