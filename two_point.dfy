/**
 * carbspec/spectro/two_point.py: the two-point (peak ratio) method. A running
 * mean and standard error of the spectrum, the identification of the acid, base
 * and background peaks on the smoothed spectrum, and the closed-form BPB and
 * MCP relations from the absorbance ratio to pH.
 */
module TwoPoint {

  import opened Wrappers
  import opened Numerics
  import opened Ks

  /** One entry of a numpy float array that may hold NaN (the padding of smooth). */
  datatype Sample = NaN | Val(v: real)

  function Vals(s: seq<real>): (r: seq<Sample>)
    ensures |r| == |s| && forall i :: 0 <= i < |s| ==> r[i] == Val(s[i])
  {
    seq(|s|, i requires 0 <= i < |s| => Val(s[i]))
  }

  function NaNs(n: nat): (r: seq<Sample>)
    ensures |r| == n && forall i :: 0 <= i < n ==> r[i] == NaN
  {
    seq(n, _ => NaN)
  }

  // ---------------------------------------------------------------------------
  // smooth
  // ---------------------------------------------------------------------------

  /** np.concatenate([pad, x, pad]) with h NaN in each pad. */
  function Padded(h: nat, x: seq<real>): (r: seq<Sample>)
    ensures |r| == 2 * h + |x|
    ensures forall i :: 0 <= i < |r| && (i < h || i >= h + |x|) ==> r[i] == NaN
    ensures forall i :: h <= i < h + |x| ==> r[i] == Val(x[i - h])
  {
    NaNs(h) + Vals(x) + NaNs(h)
  }

  /** An even window is widened by one point; the window used is always odd. */
  function OddWindow(win: int): (w: int)
    ensures w % 2 == 1
    ensures w == win || w == win + 1
    ensures win % 2 == 1 ==> w == win
  {
    if win % 2 == 0 then win + 1 else win
  }

  /** Every element minus m (strided - sm[:, np.newaxis] for one window). */
  function Deviations(s: seq<real>, m: real): (r: seq<real>)
    ensures |r| == |s| && forall i :: 0 <= i < |s| ==> r[i] == s[i] - m
  {
    seq(|s|, i requires 0 <= i < |s| => s[i] - m)
  }

  function Squares(s: seq<real>): (r: seq<real>)
    ensures |r| == |s| && forall i :: 0 <= i < |s| ==> r[i] == Product(s[i], s[i]) && r[i] >= 0.0
  {
    seq(|s|, i requires 0 <= i < |s| => Product(s[i], s[i]))
  }

  /** numpy's (population) standard deviation: sqrt(mean(|x - mean(x)|**2)). */
  function Std(E: Elementary, s: seq<real>): real
    requires |s| > 0
  {
    E.sqrt(Mean(Squares(Deviations(s, Mean(s)))))
  }

  /** The standard error smooth reports for one window of width w. */
  function WindowStderr(E: Elementary, window: seq<real>, w: int): real
    requires |window| > 0 && w > 0 && SqrtLaws(E)
  {
    Std(E, Deviations(window, Mean(window))) / E.sqrt(w as real)
  }

  /**
   * smooth(a, win): the windowed means and standard errors, each padded with
   * win // 2 NaN at both ends. The strided view needs 1 <= win <= len(a) once
   * win is odd: a negative shape or an empty iteration axis raises ValueError.
   */
  function Smooth(E: Elementary, a: seq<real>, win: int): (r: Result<(seq<Sample>, seq<Sample>)>)
    requires SqrtLaws(E)
    ensures r.Ok? <==> 1 <= OddWindow(win) <= |a|
    ensures r.Err? ==> r.error.ValueError?
    ensures r.Ok? ==> r.value == SmoothWindows(E, a, OddWindow(win) / 2)
  {
    var w := OddWindow(win);
    if w < 0 || |a| - w + 1 < 0 then Err(ValueError("negative dimensions are not allowed"))
    else if |a| - w + 1 == 0 then Err(ValueError("cannot apply_along_axis when any iteration dimensions are 0"))
    else Ok(SmoothWindows(E, a, w / 2))
  }

  /**
   * The arrays smooth returns for the odd window 2h + 1 when it fits: as
   * long as a, NaN for the h points at each end, and in between the mean and
   * the standard error of the window centred on each point.
   */
  function SmoothWindows(E: Elementary, a: seq<real>, h: nat): (r: (seq<Sample>, seq<Sample>))
    requires 2 * h + 1 <= |a| && SqrtLaws(E)
    ensures |r.0| == |a| && |r.1| == |a|
    ensures forall i :: 0 <= i < |a| && (i < h || i >= |a| - h) ==> r.0[i] == NaN && r.1[i] == NaN
    ensures forall i :: h <= i < |a| - h ==>
              r.0[i] == Val(Mean(a[i - h..i + h + 1])) &&
              r.1[i] == Val(WindowStderr(E, a[i - h..i + h + 1], 2 * h + 1))
  {
    var w := 2 * h + 1;
    PaddedWindows(E, a, w, h);
    (Padded(h, WindowMeans(a, w)), Padded(h, WindowStderrs(E, a, w)))
  }

  /** The mean of every full window of width w (the strided view's rows). */
  function WindowMeans(a: seq<real>, w: int): (r: seq<real>)
    requires 1 <= w <= |a|
    ensures |r| == |a| - w + 1
    ensures forall j :: 0 <= j < |r| ==> r[j] == Mean(a[j..j + w])
  {
    seq(|a| - w + 1, j requires 0 <= j < |a| - w + 1 => MeanFrom(a, j, w))
  }

  /** The standard error of every full window of width w. */
  function WindowStderrs(E: Elementary, a: seq<real>, w: int): (r: seq<real>)
    requires 1 <= w <= |a| && SqrtLaws(E)
    ensures |r| == |a| - w + 1
    ensures forall j :: 0 <= j < |r| ==> r[j] == WindowStderr(E, a[j..j + w], w)
  {
    seq(|a| - w + 1, j requires 0 <= j < |a| - w + 1 => StderrFrom(E, a, j, w))
  }

  function MeanFrom(a: seq<real>, j: nat, w: int): real
    requires 1 <= w && j + w <= |a|
  {
    Mean(a[j..j + w])
  }

  function StderrFrom(E: Elementary, a: seq<real>, j: nat, w: int): real
    requires 1 <= w && j + w <= |a| && SqrtLaws(E)
  {
    WindowStderr(E, a[j..j + w], w)
  }

  /** Padding by h = w // 2 centres each window on the point it is reported at. */
  lemma PaddedWindows(E: Elementary, a: seq<real>, w: int, h: nat)
    requires 1 <= w <= |a| && SqrtLaws(E) && w == 2 * h + 1
    ensures var sm, se := Padded(h, WindowMeans(a, w)), Padded(h, WindowStderrs(E, a, w));
            forall i :: h <= i < |a| - h ==>
              sm[i] == Val(Mean(a[i - h..i + h + 1])) &&
              se[i] == Val(WindowStderr(E, a[i - h..i + h + 1], w))
  {
    var sm, se := Padded(h, WindowMeans(a, w)), Padded(h, WindowStderrs(E, a, w));
    forall i | h <= i < |a| - h
      ensures sm[i] == Val(Mean(a[i - h..i + h + 1]))
      ensures se[i] == Val(WindowStderr(E, a[i - h..i + h + 1], w))
    {
      assert (i - h) + w == i + h + 1;
    }
  }

  lemma {:induction false} SumOfDeviations(s: seq<real>, m: real)
    ensures Sum(Deviations(s, m)) == Sum(s) - (|s| as real) * m
  {
    if s != [] {
      var last := |s| - 1;
      assert Deviations(s, m)[..last] == Deviations(s[..last], m);
      SumOfDeviations(s[..last], m);
    }
  }

  /** The residuals of a window about its own mean have mean zero. */
  lemma MeanOfDeviationsIsZero(s: seq<real>)
    requires |s| > 0
    ensures Mean(Deviations(s, Mean(s))) == 0.0
  {
    SumOfDeviations(s, Mean(s));
  }

  /**
   * So the standard error is the root mean square of the residuals over
   * sqrt(win): subtracting the window mean a second time changes nothing.
   */
  lemma WindowStderrIsRootMeanSquare(E: Elementary, window: seq<real>, w: int)
    requires |window| > 0 && w > 0 && SqrtLaws(E)
    ensures WindowStderr(E, window, w) ==
            E.sqrt(Mean(Squares(Deviations(window, Mean(window))))) / E.sqrt(w as real)
  {
    var d := Deviations(window, Mean(window));
    MeanOfDeviationsIsZero(window);
    assert Deviations(d, Mean(d)) == d;
  }

  /** A flat window has its value as mean and zero standard error. */
  lemma FlatWindow(E: Elementary, window: seq<real>, c: real, w: int)
    requires |window| > 0 && w > 0 && SqrtLaws(E)
    requires forall i :: 0 <= i < |window| ==> window[i] == c
    ensures Mean(window) == c
    ensures WindowStderr(E, window, w) == 0.0
  {
    MeanOfConstant(window, c);
    var d := Deviations(window, c);
    MeanOfConstant(d, 0.0);
    MeanOfConstant(Squares(Deviations(d, 0.0)), 0.0);
  }

  /** Smoothing a flat spectrum returns it unchanged, with zero error, between the pads. */
  lemma SmoothFlatSpectrum(E: Elementary, a: seq<real>, c: real, h: nat, i: int)
    requires SqrtLaws(E) && 2 * h + 1 <= |a|
    requires forall j :: 0 <= j < |a| ==> a[j] == c
    requires h <= i < |a| - h
    ensures SmoothWindows(E, a, h).0[i] == Val(c)
    ensures SmoothWindows(E, a, h).1[i] == Val(0.0)
  {
    var window := a[i - h..i + h + 1];
    forall j | 0 <= j < |window|
      ensures window[j] == c
    {
      assert window[j] == a[i - h + j];
    }
    FlatWindow(E, window, c, 2 * h + 1);
  }

  // ---------------------------------------------------------------------------
  // peak_ID
  // ---------------------------------------------------------------------------

  /** Python's abs(x - y). */
  function Distance(x: real, y: real): (r: real)
    ensures r >= 0.0 && (r == x - y || r == y - x)
  {
    if x >= y then x - y else y - x
  }

  /** (wavelength >= loc - win) & (wavelength <= loc + win) */
  function InWindow(wl: seq<real>, loc: real, win: real): (r: seq<bool>)
    ensures |r| == |wl| && forall i :: 0 <= i < |wl| ==> (r[i] <==> loc - win <= wl[i] <= loc + win)
  {
    seq(|wl|, i requires 0 <= i < |wl| => loc - win <= wl[i] <= loc + win)
  }

  /** The position arr[mask][0] reads: the first selected index, if any. */
  function FirstTrue(mask: seq<bool>): (r: Option<nat>)
    ensures r.None? <==> forall i :: 0 <= i < |mask| ==> !mask[i]
    ensures r.Some? ==> r.value < |mask| && mask[r.value] && forall j :: 0 <= j < r.value ==> !mask[j]
  {
    if mask == [] then None
    else if mask[0] then Some(0)
    else match FirstTrue(mask[1..])
      case None => None
      case Some(k) => Some(k + 1)
  }

  /** np.nanmax over the selected entries: None when every selected entry is NaN. */
  function NanMax(s: seq<Sample>, mask: seq<bool>): (r: Option<real>)
    requires |s| == |mask|
    ensures r.None? <==> forall i :: 0 <= i < |s| && mask[i] ==> s[i] == NaN
    ensures r.Some? ==> exists i :: 0 <= i < |s| && mask[i] && s[i] == Val(r.value)
    ensures r.Some? ==> forall i :: 0 <= i < |s| && mask[i] && s[i].Val? ==> s[i].v <= r.value
  {
    if s == [] then None
    else
      var rest := NanMax(s[1..], mask[1..]);
      assert forall i :: 1 <= i < |s| ==> s[1..][i - 1] == s[i] && mask[1..][i - 1] == mask[i];
      if !mask[0] || s[0] == NaN then rest
      else if rest.Some? && rest.value > s[0].v then rest
      else Some(s[0].v)
  }

  /** aind[aind] = s[aind] == m: keep the selected entries equal to m (NaN never equals). */
  function KeepEqual(s: seq<Sample>, mask: seq<bool>, m: Option<real>): (r: seq<bool>)
    requires |s| == |mask|
    ensures |r| == |mask|
    ensures forall i :: 0 <= i < |s| ==> (r[i] <==> mask[i] && m.Some? && s[i] == Val(m.value))
  {
    seq(|s|, i requires 0 <= i < |s| => mask[i] && m.Some? && s[i] == Val(m.value))
  }

  /** min(abs(wavelength - loc)) */
  function MinDistance(wl: seq<real>, loc: real): (r: real)
    requires |wl| > 0
    ensures exists i :: 0 <= i < |wl| && Distance(wl[i], loc) == r
    ensures forall i :: 0 <= i < |wl| ==> r <= Distance(wl[i], loc)
  {
    if |wl| == 1 then Distance(wl[0], loc)
    else
      var rest := MinDistance(wl[1..], loc);
      assert forall i :: 1 <= i < |wl| ==> wl[1..][i - 1] == wl[i];
      if Distance(wl[0], loc) <= rest then Distance(wl[0], loc) else rest
  }

  /** abs(wavelength - loc) == min(abs(wavelength - loc)) */
  function NearestMask(wl: seq<real>, loc: real): (r: seq<bool>)
    requires |wl| > 0
    ensures |r| == |wl|
    ensures forall i :: 0 <= i < |wl| ==>
              (r[i] <==> forall j :: 0 <= j < |wl| ==> Distance(wl[i], loc) <= Distance(wl[j], loc))
    ensures exists i :: 0 <= i < |wl| && r[i]
  {
    var d := MinDistance(wl, loc);
    seq(|wl|, i requires 0 <= i < |wl| => Distance(wl[i], loc) == d)
  }

  /** The grid point nearest loc, the first one on a tie. */
  function FirstNearest(wl: seq<real>, loc: real): (k: nat)
    requires |wl| > 0
    ensures k < |wl|
    ensures forall j :: 0 <= j < |wl| ==> Distance(wl[k], loc) <= Distance(wl[j], loc)
    ensures forall j :: 0 <= j < k ==> Distance(wl[j], loc) > Distance(wl[k], loc)
  {
    FirstTrue(NearestMask(wl, loc)).value
  }

  /**
   * k is the first wavelength within loc +- win at which the smoothed spectrum
   * takes its largest non-NaN value over that window.
   */
  ghost predicate IsWindowPeak(wl: seq<real>, s: seq<Sample>, loc: real, win: real, k: nat)
    requires |wl| == |s|
  {
    && k < |wl|
    && loc - win <= wl[k] <= loc + win
    && s[k].Val?
    && (forall j :: 0 <= j < |wl| && loc - win <= wl[j] <= loc + win && s[j].Val? ==> s[j].v <= s[k].v)
    && (forall j :: 0 <= j < k && loc - win <= wl[j] <= loc + win ==> s[j] != s[k])
  }

  /**
   * The window search of peak_ID: an empty window makes nanmax raise
   * ValueError; a window of NaN only selects nothing, and reading element 0
   * raises IndexError.
   */
  function WindowPeak(wl: seq<real>, s: seq<Sample>, loc: real, win: real): (r: Result<nat>)
    requires |wl| == |s|
    ensures (forall i :: 0 <= i < |wl| ==> !(loc - win <= wl[i] <= loc + win)) <==> r.Err? && r.error.ValueError?
    ensures r == Err(IndexError) <==>
              (exists i :: 0 <= i < |wl| && loc - win <= wl[i] <= loc + win) &&
              (forall i :: 0 <= i < |wl| && loc - win <= wl[i] <= loc + win ==> s[i] == NaN)
    ensures r.Ok? ==> IsWindowPeak(wl, s, loc, win, r.value)
  {
    var mask := InWindow(wl, loc, win);
    if FirstTrue(mask).None? then Err(ValueError("zero-size array to reduction operation fmax which has no identity"))
    else
      var m := NanMax(s, mask);
      var k := FirstTrue(KeepEqual(s, mask, m));
      if k.None? then Err(IndexError) else Ok(k.value)
  }

  /** The window peaks are unique: any index with the WindowPeak property is the one WindowPeak returns. */
  lemma WindowPeakUnique(wl: seq<real>, s: seq<Sample>, loc: real, win: real, k: nat)
    requires |wl| == |s|
    requires IsWindowPeak(wl, s, loc, win, k)
    ensures WindowPeak(wl, s, loc, win) == Ok(k)
  {
    var r := WindowPeak(wl, s, loc, win);
    assert !(forall i :: 0 <= i < |wl| ==> !(loc - win <= wl[i] <= loc + win));
    assert r.Ok? by {
      assert !(forall i :: 0 <= i < |wl| && loc - win <= wl[i] <= loc + win ==> s[i] == NaN);
    }
  }

  /** The absorbance, its standard error and the location read at one peak. */
  datatype Peak = Peak(absorbance: Sample, stderr: Sample, loc: real)

  datatype Peaks = Peaks(acid: Peak, base: Peak, bkg: Peak)

  /** The dict peak_ID receives: it reads 'wavelength' and 'Abs' and adds 'sm_spec' and 'se_spec'. */
  class Spectrum {
    var wavelength: seq<real>
    var abs: seq<real>
    var smSpec: seq<Sample>
    var seSpec: seq<Sample>

    constructor (wavelength: seq<real>, abs: seq<real>)
      ensures this.wavelength == wavelength && this.abs == abs
      ensures smSpec == [] && seSpec == []
    {
      this.wavelength := wavelength;
      this.abs := abs;
      smSpec := [];
      seSpec := [];
    }
  }

  /** How far, as a fraction of peak_win, an acid peak may lie from its expected location. */
  const EdgeFraction: real := 0.95

  /**
   * peak_ID: smooth the spectrum into dat, then locate the acid and base peaks
   * within +- peakWin of their expected wavelengths and read the background at
   * the wavelength nearest bkgLoc. An acid peak found at the window's edge is
   * replaced by the nearest grid point; the corresponding test for the base
   * peak assigns the acid mask, so the base peak is always the window maximum.
   * The background's location is returned as passed in.
   */
  method PeakID(E: Elementary, dat: Spectrum, acidLoc: real, baseLoc: real, bkgLoc: real, peakWin: real, smoothWin: int)
    returns (r: Result<Peaks>)
    requires SqrtLaws(E)
    modifies dat
    ensures dat.wavelength == old(dat.wavelength) && dat.abs == old(dat.abs)
    ensures Smooth(E, old(dat.abs), smoothWin).Err? ==>
              r == Err(Smooth(E, old(dat.abs), smoothWin).error) && unchanged(dat)
    ensures Smooth(E, old(dat.abs), smoothWin).Ok? ==>
              dat.smSpec == Smooth(E, old(dat.abs), smoothWin).value.0 &&
              dat.seSpec == Smooth(E, old(dat.abs), smoothWin).value.1
    ensures Smooth(E, old(dat.abs), smoothWin).Ok? && |dat.wavelength| != |dat.abs| ==>
              r == Err(IndexError)
    ensures Smooth(E, old(dat.abs), smoothWin).Ok? && |dat.wavelength| == |dat.abs|
            && WindowPeak(dat.wavelength, dat.smSpec, acidLoc, peakWin).Err? ==>
              r == Err(WindowPeak(dat.wavelength, dat.smSpec, acidLoc, peakWin).error)
    ensures Smooth(E, old(dat.abs), smoothWin).Ok? && |dat.wavelength| == |dat.abs|
            && WindowPeak(dat.wavelength, dat.smSpec, acidLoc, peakWin).Ok?
            && WindowPeak(dat.wavelength, dat.smSpec, baseLoc, peakWin).Err? ==>
              r == Err(WindowPeak(dat.wavelength, dat.smSpec, baseLoc, peakWin).error)
    ensures r.Ok? <==>
              && Smooth(E, old(dat.abs), smoothWin).Ok?
              && |dat.wavelength| == |dat.abs|
              && WindowPeak(dat.wavelength, dat.smSpec, acidLoc, peakWin).Ok?
              && WindowPeak(dat.wavelength, dat.smSpec, baseLoc, peakWin).Ok?
    ensures r.Ok? ==>
              var wl := dat.wavelength;
              var k := WindowPeak(wl, dat.smSpec, acidLoc, peakWin).value;
              var ka := if Distance(wl[k], acidLoc) >= EdgeFraction * peakWin then FirstNearest(wl, acidLoc) else k;
              r.value.acid == Peak(dat.smSpec[ka], dat.seSpec[ka], wl[ka])
    ensures r.Ok? ==>
              var kb := WindowPeak(dat.wavelength, dat.smSpec, baseLoc, peakWin).value;
              r.value.base == Peak(dat.smSpec[kb], dat.seSpec[kb], dat.wavelength[kb])
    ensures r.Ok? ==>
              var kg := FirstNearest(dat.wavelength, bkgLoc);
              r.value.bkg == Peak(dat.smSpec[kg], dat.seSpec[kg], bkgLoc)
  {
    var smoothed := Smooth(E, dat.abs, smoothWin);
    if smoothed.Err? {
      return Err(smoothed.error);
    }
    dat.smSpec, dat.seSpec := smoothed.value.0, smoothed.value.1;
    var wl, sm, se := dat.wavelength, dat.smSpec, dat.seSpec;
    if |wl| != |sm| {
      // a boolean mask of another length cannot index sm_spec
      return Err(IndexError);
    }

    // acid peak
    var aind, found := WindowMask(wl, sm, acidLoc, peakWin);
    if found.Err? {
      return Err(found.error);
    }
    if Distance(wl[found.value], acidLoc) >= EdgeFraction * peakWin {
      aind := NearestMask(wl, acidLoc);
    }
    var ka := FirstTrue(aind).value;
    var acid := Peak(sm[ka], se[ka], wl[ka]);

    // base peak
    var bind, foundBase := WindowMask(wl, sm, baseLoc, peakWin);
    if foundBase.Err? {
      return Err(foundBase.error);
    }
    if Distance(wl[foundBase.value], baseLoc) >= EdgeFraction * peakWin {
      aind := NearestMask(wl, baseLoc);
    }
    var kb := FirstTrue(bind).value;
    var base := Peak(sm[kb], se[kb], wl[kb]);

    // background
    var kg := FirstTrue(NearestMask(wl, bkgLoc)).value;
    var bkg := Peak(sm[kg], se[kg], bkgLoc);

    return Ok(Peaks(acid, base, bkg));
  }

  /**
   * The masks of one window search: all points within loc +- win, then
   * mask[mask] = s[mask] == nanmax(s[mask]). found is the first remaining
   * position, or the error peak_ID raises on the way.
   */
  method WindowMask(wl: seq<real>, s: seq<Sample>, loc: real, win: real) returns (mask: seq<bool>, found: Result<nat>)
    requires |wl| == |s|
    ensures found == WindowPeak(wl, s, loc, win)
    ensures |mask| == |wl|
    ensures found.Ok? ==> FirstTrue(mask) == Some(found.value)
  {
    mask := InWindow(wl, loc, win);
    if FirstTrue(mask).None? {
      return mask, Err(ValueError("zero-size array to reduction operation fmax which has no identity"));
    }
    mask := KeepEqual(s, mask, NanMax(s, mask));
    if FirstTrue(mask).None? {
      return mask, Err(IndexError);
    }
    found := Ok(FirstTrue(mask).value);
  }

  /**
   * The acid peak peak_ID reports is either the window maximum, strictly
   * inside 0.95 * peakWin of acidLoc, or the grid point nearest acidLoc.
   */
  lemma AcidPeakCloseOrNearest(wl: seq<real>, s: seq<Sample>, acidLoc: real, peakWin: real)
    requires |wl| == |s|
    requires WindowPeak(wl, s, acidLoc, peakWin).Ok?
    ensures var k := WindowPeak(wl, s, acidLoc, peakWin).value;
            var ka := if Distance(wl[k], acidLoc) >= EdgeFraction * peakWin then FirstNearest(wl, acidLoc) else k;
            (ka == k && Distance(wl[ka], acidLoc) < EdgeFraction * peakWin) ||
            (forall j :: 0 <= j < |wl| ==> Distance(wl[ka], acidLoc) <= Distance(wl[j], acidLoc))
  {
  }

  /**
   * The base peak lies within +- peakWin of baseLoc even when it sits at the
   * window's edge, where the acid peak would have been moved.
   */
  lemma BasePeakInWindow(wl: seq<real>, s: seq<Sample>, baseLoc: real, peakWin: real)
    requires |wl| == |s|
    requires WindowPeak(wl, s, baseLoc, peakWin).Ok?
    ensures Distance(wl[WindowPeak(wl, s, baseLoc, peakWin).value], baseLoc) <= peakWin
  {
  }

  // ---------------------------------------------------------------------------
  // BPB: temperature correction of the ratio and pH (Nand & Ellwood 2018)
  // ---------------------------------------------------------------------------

  /** The coefficient A of R25 = R * (1 + A * (25 - temp)). */
  const R25Coefficient: real := 6.774e-3

  function CalcR25(R: real, temp: real): real
  {
    R * (1.0 + R25Coefficient * (25.0 - temp))
  }

  lemma CalcR25At25(R: real)
    ensures CalcR25(R, 25.0) == R
  {
  }

  /** The correction is a temperature-dependent factor: additive and homogeneous in R. */
  lemma CalcR25Linear(R1: real, R2: real, c: real, temp: real)
    ensures CalcR25(R1 + R2, temp) == CalcR25(R1, temp) + CalcR25(R2, temp)
    ensures CalcR25(c * R1, temp) == c * CalcR25(R1, temp)
  {
  }

  const BPBE1: real := 5.3259624e-3
  const BPBE2: real := 2.2319033
  const BPBE3: real := 3.19e-2

  /** (R25 - e1) / (e2 - R25 * e3) */
  function BPBRatio(R25: real): real
    requires BPBE2 - Product(R25, BPBE3) != 0.0
  {
    (R25 - BPBE1) / (BPBE2 - Product(R25, BPBE3))
  }

  /**
   * pH = pK + log10((R25 - e1) / (e2 - R25 * e3)); unp.log10 raises the math
   * domain error when the ratio is not positive.
   */
  function PHFromR(E: Elementary, R: real, temp: real, sal: real): (r: Result<real>)
    requires BPBE2 - Product(CalcR25(R, temp), BPBE3) != 0.0
    ensures r.Err? <==> BPBRatio(CalcR25(R, temp)) <= 0.0
    ensures r.Err? ==> r.error == MathDomainError
    ensures r.Ok? ==> r.value == CalcPKBPB(sal) + E.log10(BPBRatio(CalcR25(R, temp)))
  {
    var l :- CheckedLog10(E, BPBRatio(CalcR25(R, temp)));
    Ok(CalcPKBPB(sal) + l)
  }

  /**
   * Below the denominator's pole, pH_from_R fails exactly when the corrected
   * ratio R25 is at or below e1, the ratio of the pure acid form.
   */
  lemma PHFromRFailsAtOrBelowE1(E: Elementary, R: real, temp: real, sal: real)
    requires BPBE2 - Product(CalcR25(R, temp), BPBE3) > 0.0
    ensures PHFromR(E, R, temp, sal).Err? <==> CalcR25(R, temp) <= BPBE1
  {
    var x := CalcR25(R, temp);
    QuotientSign(x - BPBE1, BPBE2 - Product(x, BPBE3));
  }

  /** Where the correction factor is positive, R25 increases with R. */
  lemma CalcR25Increasing(R1: real, R2: real, temp: real)
    requires R1 < R2 && 1.0 + R25Coefficient * (25.0 - temp) > 0.0
    ensures CalcR25(R1, temp) < CalcR25(R2, temp)
  {
    var f := 1.0 + R25Coefficient * (25.0 - temp);
    assert CalcR25(R2, temp) - CalcR25(R1, temp) == Product(R2 - R1, f);
  }

  /** n1 / d1 < n2 / d2 follows from the cross products when both denominators are positive. */
  lemma DivLessByCross(n1: real, d1: real, n2: real, d2: real)
    requires d1 > 0.0 && d2 > 0.0 && Product(n1, d2) < Product(n2, d1)
    ensures n1 / d1 < n2 / d2
  {
    var r1, r2 := n1 / d1, n2 / d2;
    assert n1 == Product(r1, d1) && n2 == Product(r2, d2);
    var dd := Product(d1, d2);
    assert Product(n1, d2) == Product(r1, dd);
    assert Product(n2, d1) == Product(r2, dd);
    assert Product(r2 - r1, dd) == Product(r2, dd) - Product(r1, dd);
  }

  /** The cross difference of the two ratios factors through x2 - x1. */
  lemma CrossDifference(x1: real, x2: real, u: real, p: real, q: real)
    ensures Product(x2 - u, p - Product(x1, q)) - Product(x1 - u, p - Product(x2, q)) ==
            Product(x2 - x1, p - Product(u, q))
  {
  }

  /**
   * (x - u) / (p - x * q) increases with x where numerator and denominators
   * are positive and p - u * q > 0.
   */
  lemma RatioIncreasing(x1: real, x2: real, u: real, p: real, q: real)
    requires u < x1 < x2
    requires p - Product(x1, q) > 0.0 && p - Product(x2, q) > 0.0 && p - Product(u, q) > 0.0
    ensures 0.0 < (x1 - u) / (p - Product(x1, q)) < (x2 - u) / (p - Product(x2, q))
  {
    CrossDifference(x1, x2, u, p, q);
    DivLessByCross(x1 - u, p - Product(x1, q), x2 - u, p - Product(x2, q));
  }

  /** Within the indicator's range the BPB pH rises with the measured ratio. */
  lemma PHFromRIncreasing(E: Elementary, R1: real, R2: real, temp: real, sal: real)
    requires Log10Increasing(E)
    requires R1 < R2 && 1.0 + R25Coefficient * (25.0 - temp) > 0.0
    requires CalcR25(R1, temp) > BPBE1 && BPBE2 - Product(CalcR25(R2, temp), BPBE3) > 0.0
    ensures BPBE2 - Product(CalcR25(R1, temp), BPBE3) > 0.0
    ensures PHFromR(E, R1, temp, sal).Ok? && PHFromR(E, R2, temp, sal).Ok?
    ensures PHFromR(E, R1, temp, sal).value < PHFromR(E, R2, temp, sal).value
  {
    var x1, x2 := CalcR25(R1, temp), CalcR25(R2, temp);
    CalcR25Increasing(R1, R2, temp);
    assert Product(x1, BPBE3) < Product(x2, BPBE3);
    RatioIncreasing(x1, x2, BPBE1, BPBE2, BPBE3);
    var q1, q2 := BPBRatio(x1), BPBRatio(x2);
    assert 0.0 < q1 < q2;
    assert E.log10(q1) < E.log10(q2);
  }

  // ---------------------------------------------------------------------------
  // MCP (doi:10.1038/s41598-017-02624-0)
  // ---------------------------------------------------------------------------

  /** log(K2 e2) as a function of temperature in kelvin and salinity. */
  function LogK2E2(E: Elementary, TK: real, S: real): real
    requires TK != 0.0
  {
    var s2 := Product(S, S);
    var a := -319.8369 + 0.688159 * S - 0.00018374 * s2;
    var b := 10508.724 - 32.9599 * S + 0.059082 * s2;
    var c := 55.54253 - 0.101639 * S;
    var d := -0.08112151;
    a + Product(b, 1.0 / TK) + Product(c, E.ln(TK)) + d * TK
  }

  function E1(TK: real): real
  {
    -0.004363 + 3.598e-5 * TK
  }

  function E3E2(TK: real, S: real): real
  {
    -0.016224 + 2.42851e-4 * TK + 5.05663e-5 * (S - 35.0)
  }

  const KelvinOffset: real := 273.15

  /**
   * pH_MCP(R, T, S) = logk2e2(TK, S) + log10((R - e1(TK)) / (1 - R * e3_e2(TK, S))),
   * TK = T + 273.15; unp.log10 raises the math domain error when the ratio is not positive.
   */
  function PHMCP(E: Elementary, R: real, T: real, S: real): (r: Result<real>)
    requires T + KelvinOffset != 0.0
    requires 1.0 - Product(R, E3E2(T + KelvinOffset, S)) != 0.0
    ensures r.Err? <==> MCPRatio(R, T + KelvinOffset, S) <= 0.0
    ensures r.Err? ==> r.error == MathDomainError
    ensures r.Ok? ==> r.value == LogK2E2(E, T + KelvinOffset, S) + E.log10(MCPRatio(R, T + KelvinOffset, S))
  {
    var TK := T + KelvinOffset;
    var l :- CheckedLog10(E, MCPRatio(R, TK, S));
    Ok(LogK2E2(E, TK, S) + l)
  }

  /** (R - e1(TK)) / (1 - R * e3_e2(TK, S)) */
  function MCPRatio(R: real, TK: real, S: real): real
    requires 1.0 - Product(R, E3E2(TK, S)) != 0.0
  {
    (R - E1(TK)) / (1.0 - Product(R, E3E2(TK, S)))
  }

  /** Within the indicator's range the MCP pH rises with the measured ratio. */
  lemma PHMCPIncreasing(E: Elementary, R1: real, R2: real, T: real, S: real)
    requires Log10Increasing(E)
    requires T + KelvinOffset != 0.0
    requires E1(T + KelvinOffset) < R1 < R2
    requires 1.0 - Product(R2, E3E2(T + KelvinOffset, S)) > 0.0
    requires 1.0 - Product(R1, E3E2(T + KelvinOffset, S)) > 0.0
    requires 1.0 - Product(E1(T + KelvinOffset), E3E2(T + KelvinOffset, S)) > 0.0
    ensures PHMCP(E, R1, T, S).Ok? && PHMCP(E, R2, T, S).Ok?
    ensures PHMCP(E, R1, T, S).value < PHMCP(E, R2, T, S).value
  {
    var TK := T + KelvinOffset;
    RatioIncreasing(R1, R2, E1(TK), 1.0, E3E2(TK, S));
    var q1, q2 := MCPRatio(R1, TK, S), MCPRatio(R2, TK, S);
    assert 0.0 < q1 < q2;
    assert E.log10(q1) < E.log10(q2);
  }

  /**
   * Below the denominator's pole, pH_MCP fails exactly when the ratio is at
   * or below e1(TK), the ratio of the pure acid form at that temperature.
   */
  lemma PHMCPFailsAtOrBelowE1(E: Elementary, R: real, T: real, S: real)
    requires T + KelvinOffset != 0.0
    requires 1.0 - Product(R, E3E2(T + KelvinOffset, S)) > 0.0
    ensures PHMCP(E, R, T, S).Err? <==> R <= E1(T + KelvinOffset)
  {
    var TK := T + KelvinOffset;
    QuotientSign(R - E1(TK), 1.0 - Product(R, E3E2(TK, S)));
  }
}
