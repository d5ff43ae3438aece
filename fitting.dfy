/**
 * carbspec/spectro/fitting.py: the five-parameter mixture of an acid and a base
 * reference spectrum, its scaled residual, the hand-built Jacobian handed to the
 * least-squares solver, the starting guess and the bounds of fit_spectrum.
 */
module Fitting {

  import opened Wrappers
  import opened Numerics

  /** The parameter vector (a, b, B0, c, m): acid and base amounts, background, wavelength shift and stretch. */
  datatype Params = Params(a: real, b: real, bkg: real, c: real, m: real)

  /** The wavelength at which both splines are read: stretched by m, shifted by c. */
  function Warp(m: real, c: real, w: real): real
  {
    m * w + c
  }

  /** specmix at one wavelength. */
  function SpecMixAt(p: Params, w: real, acid: Spline, base: Spline): real
  {
    p.a * acid.at(Warp(p.m, p.c, w)) + p.b * base.at(Warp(p.m, p.c, w)) + p.bkg
  }

  /** specmix over a wavelength grid. */
  function SpecMix(p: Params, wv: seq<real>, acid: Spline, base: Spline): (r: seq<real>)
    ensures |r| == |wv|
    ensures forall i :: 0 <= i < |wv| ==> r[i] == SpecMixAt(p, wv[i], acid, base)
  {
    seq(|wv|, i requires 0 <= i < |wv| => SpecMixAt(p, wv[i], acid, base))
  }

  /** The parameters s * p + t * q in the linear coordinates (a, b, B0), keeping p's c and m. */
  function Combine(p: Params, q: Params, s: real, t: real): Params
  {
    Params(s * p.a + t * q.a, s * p.b + t * q.b, s * p.bkg + t * q.bkg, p.c, p.m)
  }

  /** For a fixed shift and stretch the mixture is linear in (a, b, B0). */
  lemma SpecMixLinear(p: Params, q: Params, s: real, t: real, w: real, acid: Spline, base: Spline)
    requires p.c == q.c && p.m == q.m
    ensures SpecMixAt(Combine(p, q, s, t), w, acid, base)
         == s * SpecMixAt(p, w, acid, base) + t * SpecMixAt(q, w, acid, base)
  {
    var x := acid.at(Warp(p.m, p.c, w));
    var y := base.at(Warp(p.m, p.c, w));
    var pq := Combine(p, q, s, t);
    assert SpecMixAt(pq, w, acid, base) == pq.a * x + pq.b * y + pq.bkg;
    LinearCombination(s, t, p.a, q.a, p.b, q.b, p.bkg, q.bkg, x, y);
  }

  lemma LinearCombination(s: real, t: real, pa: real, qa: real, pb: real, qb: real, pk: real, qk: real, x: real, y: real)
    ensures (s * pa + t * qa) * x + (s * pb + t * qb) * y + (s * pk + t * qk)
         == s * (pa * x + pb * y + pk) + t * (qa * x + qb * y + qk)
  {
    Distribute(s * pa, t * qa, x);
    Distribute(s * pb, t * qb, y);
    assert s * pa * x + s * pb * y + s * pk == s * (pa * x + pb * y + pk);
    assert t * qa * x + t * qb * y + t * qk == t * (qa * x + qb * y + qk);
  }

  lemma Distribute(u: real, v: real, x: real)
    ensures (u + v) * x == u * x + v * x
  {
  }

  /** The scaled residual at one point of the broadcast grid. */
  function ResidualAt(p: Params, w: real, y: real, sigma: real, acid: Spline, base: Spline): real
    requires sigma != 0.0
  {
    (SpecMixAt(p, w, acid, base) - y) / sigma
  }

  /** Every value sigma takes is a usable divisor. */
  predicate NonZero(sigma: seq<real>)
  {
    forall i :: 0 <= i < |sigma| ==> sigma[i] != 0.0
  }

  /** The length obj_fn's array has, if (specmix - Abs) / sigma broadcasts at all. */
  function ResidualShape(n: nat, nAbs: nat, nSigma: nat): Option<nat>
  {
    match Broadcast(n, nAbs)
    case None => None
    case Some(k) => Broadcast(k, nSigma)
  }

  /**
   * obj_fn: (specmix - Abs) / sigma, element by element after broadcasting; a shape
   * mismatch raises numpy's ValueError.
   */
  function ObjFn(p: Params, wv: seq<real>, abs: seq<real>, sigma: seq<real>, acid: Spline, base: Spline): (r: Result<seq<real>>)
    requires NonZero(sigma)
    ensures r.Ok? <==> ResidualShape(|wv|, |abs|, |sigma|).Some?
    ensures r.Err? ==> r.error.ValueError?
    ensures r.Ok? ==> |r.value| == ResidualShape(|wv|, |abs|, |sigma|).value
    ensures r.Ok? ==> forall i :: 0 <= i < |r.value| ==>
              r.value[i] == ResidualAt(p, At(wv, i), At(abs, i), At(sigma, i), acid, base)
  {
    match ResidualShape(|wv|, |abs|, |sigma|)
    case None => Err(ValueError("operands could not be broadcast together"))
    case Some(k) =>
      Ok(seq(k, i requires 0 <= i < k => ResidualAt(p, At(wv, i), At(abs, i), At(sigma, i), acid, base)))
  }

  /** Scaled back by sigma a residual is model minus data, and it is zero exactly where they agree. */
  lemma ResidualMeaning(p: Params, w: real, y: real, sigma: real, acid: Spline, base: Spline)
    requires sigma != 0.0
    ensures ResidualAt(p, w, y, sigma, acid, base) * sigma == SpecMixAt(p, w, acid, base) - y
    ensures ResidualAt(p, w, y, sigma, acid, base) == 0.0 <==> SpecMixAt(p, w, acid, base) == y
  {
    DivTimes(SpecMixAt(p, w, acid, base) - y, sigma);
  }

  /** obj_fn vanishes at a point exactly where the mixture reproduces the measured absorbance. */
  lemma ObjFnZeroIff(p: Params, wv: seq<real>, abs: seq<real>, sigma: seq<real>, acid: Spline, base: Spline)
    requires NonZero(sigma)
    requires ObjFn(p, wv, abs, sigma, acid, base).Ok?
    ensures var r := ObjFn(p, wv, abs, sigma, acid, base).value;
            forall i :: 0 <= i < |r| ==> (r[i] == 0.0 <==> SpecMixAt(p, At(wv, i), acid, base) == At(abs, i))
  {
    var r := ObjFn(p, wv, abs, sigma, acid, base).value;
    forall i | 0 <= i < |r|
      ensures r[i] == 0.0 <==> SpecMixAt(p, At(wv, i), acid, base) == At(abs, i)
    {
      ResidualMeaning(p, At(wv, i), At(abs, i), At(sigma, i), acid, base);
    }
  }

  lemma DivTimes(x: real, s: real)
    requires s != 0.0
    ensures (x / s) * s == x
  {
  }

  /** Column 0 of the unscaled Jacobian: the acid spline at the warped wavelength. */
  function AcidColumn(p: Params, w: real, acid: Spline): real
  {
    acid.at(Warp(p.m, p.c, w))
  }

  /** Column 1: the base spline at the warped wavelength. */
  function BaseColumn(p: Params, w: real, base: Spline): real
  {
    base.at(Warp(p.m, p.c, w))
  }

  /** Column 3 (shift c): the amount-weighted spline derivatives. */
  function ShiftColumn(p: Params, w: real, acid: Spline, base: Spline): real
  {
    var x := Warp(p.m, p.c, w);
    p.a * acid.derivative(x) + p.b * base.derivative(x)
  }

  /** Column 4 (stretch m), as the source writes it. */
  function StretchColumn(p: Params, w: real, acid: Spline, base: Spline): real
  {
    var x := Warp(p.m, p.c, w);
    w * p.a * acid.derivative(x) + w * p.b * base.derivative(x)
  }

  /** Column j of the unscaled Jacobian at wavelength w; the columns are a, b, B0, c, m. */
  function JacobianCell(p: Params, w: real, acid: Spline, base: Spline, j: nat): real
    requires j < 5
  {
    if j == 0 then AcidColumn(p, w, acid)
    else if j == 1 then BaseColumn(p, w, base)
    else if j == 2 then 1.0
    else if j == 3 then ShiftColumn(p, w, acid, base)
    else StretchColumn(p, w, acid, base)
  }

  /** Entry (i, j) of the Jacobian after it is divided row by row by sigma. */
  function JacobianEntry(p: Params, wv: seq<real>, sigma: seq<real>, acid: Spline, base: Spline, i: nat, j: nat): real
    requires NonZero(sigma)
    requires |wv| == 1 || i < |wv|
    requires |sigma| == 1 || i < |sigma|
    requires j < 5
  {
    JacobianCell(p, At(wv, i), acid, base, j) / At(sigma, i)
  }

  /**
   * Jacobian: J starts as a matrix of ones with one row per wavelength; columns
   * 0, 1, 3 and 4 are overwritten in place (row by row here, column by column in
   * numpy, to the same final matrix); the result is J / sigma.reshape(-1, 1).
   */
  method Jacobian(p: Params, wv: seq<real>, acid: Spline, base: Spline, sigma: seq<real>) returns (r: Result<array2<real>>)
    requires NonZero(sigma)
    ensures r.Ok? <==> Broadcast(|wv|, |sigma|).Some?
    ensures r.Err? ==> r.error.ValueError?
    ensures r.Ok? ==> fresh(r.value)
    ensures r.Ok? ==> r.value.Length0 == Broadcast(|wv|, |sigma|).value && r.value.Length1 == 5
    ensures r.Ok? ==> forall i, j :: 0 <= i < r.value.Length0 && 0 <= j < 5 ==>
              r.value[i, j] == JacobianEntry(p, wv, sigma, acid, base, i, j)
  {
    var J := UnscaledJacobian(p, wv, acid, base);
    var shape := Broadcast(|wv|, |sigma|);
    if shape.None? {
      return Err(ValueError("operands could not be broadcast together"));
    }
    var scaled := DivideRows(J, shape.value, sigma);
    assert forall i, j :: 0 <= i < scaled.Length0 && 0 <= j < 5 ==>
             scaled[i, j] == JacobianEntry(p, wv, sigma, acid, base, i, j) by {
      forall i, j | 0 <= i < scaled.Length0 && 0 <= j < 5
        ensures scaled[i, j] == JacobianEntry(p, wv, sigma, acid, base, i, j)
      {
        assert At(wv, i) == wv[if |wv| == 1 then 0 else i];
      }
    }
    return Ok(scaled);
  }

  /** The matrix J of Jacobian before it is scaled: ones, then columns 0, 1, 3 and 4 filled in. */
  method UnscaledJacobian(p: Params, wv: seq<real>, acid: Spline, base: Spline) returns (J: array2<real>)
    ensures fresh(J)
    ensures J.Length0 == |wv| && J.Length1 == 5
    ensures forall k, j :: 0 <= k < |wv| && 0 <= j < 5 ==> J[k, j] == JacobianCell(p, wv[k], acid, base, j)
  {
    var n := |wv|;
    J := new real[n, 5]((i, j) => 1.0);
    for i := 0 to n
      invariant forall k, j :: 0 <= k < i && 0 <= j < 5 ==> J[k, j] == JacobianCell(p, wv[k], acid, base, j)
      invariant forall k, j :: i <= k < n && 0 <= j < 5 ==> J[k, j] == 1.0
    {
      FillRow(J, i, p, wv[i], acid, base);
    }
  }

  /** Row i of J: columns 0, 1, 3 and 4 overwritten, the background column and every other row untouched. */
  method FillRow(J: array2<real>, i: nat, p: Params, w: real, acid: Spline, base: Spline)
    requires i < J.Length0 && J.Length1 == 5
    requires J[i, 2] == 1.0
    modifies J
    ensures forall j :: 0 <= j < 5 ==> J[i, j] == JacobianCell(p, w, acid, base, j)
    ensures forall k, j :: 0 <= k < J.Length0 && k != i && 0 <= j < 5 ==> J[k, j] == old(J[k, j])
  {
    var x := Warp(p.m, p.c, w);
    J[i, 0] := acid.at(x);
    J[i, 1] := base.at(x);
    J[i, 3] := p.a * acid.derivative(x) + p.b * base.derivative(x);
    J[i, 4] := w * p.a * acid.derivative(x) + w * p.b * base.derivative(x);
  }


  /** J / sigma.reshape(-1, 1): row i divided by sigma's element i, with numpy broadcasting to rows rows. */
  method DivideRows(J: array2<real>, rows: nat, sigma: seq<real>) returns (scaled: array2<real>)
    requires NonZero(sigma)
    requires J.Length1 == 5
    requires Broadcast(J.Length0, |sigma|) == Some(rows)
    ensures fresh(scaled)
    ensures scaled.Length0 == rows && scaled.Length1 == 5
    ensures forall i, j :: 0 <= i < rows && 0 <= j < 5 ==>
              scaled[i, j] == J[if J.Length0 == 1 then 0 else i, j] / At(sigma, i)
  {
    scaled := new real[rows, 5];
    for i := 0 to rows
      invariant forall k, j :: 0 <= k < i && 0 <= j < 5 ==>
                  scaled[k, j] == J[if J.Length0 == 1 then 0 else k, j] / At(sigma, k)
    {
      var src := if J.Length0 == 1 then 0 else i;
      for j := 0 to 5
        invariant forall k, l :: 0 <= k < i && 0 <= l < 5 ==>
                    scaled[k, l] == J[if J.Length0 == 1 then 0 else k, l] / At(sigma, k)
        invariant forall l :: 0 <= l < j ==> scaled[i, l] == J[src, l] / At(sigma, i)
      {
        scaled[i, j] := J[src, j] / At(sigma, i);
      }
    }
  }

  /** Columns 0 and 1 are the exact change of the residual per unit of a and of b. */
  lemma JacobianAcidColumnIsPartial(p: Params, h: real, w: real, y: real, sigma: real, acid: Spline, base: Spline)
    requires sigma != 0.0
    ensures ResidualAt(p.(a := p.a + h), w, y, sigma, acid, base) - ResidualAt(p, w, y, sigma, acid, base)
         == h * (JacobianCell(p, w, acid, base, 0) / sigma)
  {
    var q := p.(a := p.a + h);
    var x := acid.at(Warp(p.m, p.c, w));
    var rest := p.b * base.at(Warp(p.m, p.c, w)) + p.bkg - y;
    assert SpecMixAt(q, w, acid, base) - y == (p.a + h) * x + rest;
    assert SpecMixAt(p, w, acid, base) - y == p.a * x + rest;
    LinearStep(p.a, h, x, rest, sigma);
  }

  lemma JacobianBaseColumnIsPartial(p: Params, h: real, w: real, y: real, sigma: real, acid: Spline, base: Spline)
    requires sigma != 0.0
    ensures ResidualAt(p.(b := p.b + h), w, y, sigma, acid, base) - ResidualAt(p, w, y, sigma, acid, base)
         == h * (JacobianCell(p, w, acid, base, 1) / sigma)
  {
    var q := p.(b := p.b + h);
    var x := base.at(Warp(p.m, p.c, w));
    var rest := p.a * acid.at(Warp(p.m, p.c, w)) + p.bkg - y;
    assert SpecMixAt(q, w, acid, base) - y == (p.b + h) * x + rest;
    assert SpecMixAt(p, w, acid, base) - y == p.b * x + rest;
    LinearStep(p.b, h, x, rest, sigma);
  }

  /** Column 2 is 1 / sigma: the residual moves by h / sigma when the background moves by h. */
  lemma JacobianBackgroundColumnIsPartial(p: Params, h: real, w: real, y: real, sigma: real, acid: Spline, base: Spline)
    requires sigma != 0.0
    ensures JacobianCell(p, w, acid, base, 2) / sigma == 1.0 / sigma
    ensures ResidualAt(p.(bkg := p.bkg + h), w, y, sigma, acid, base) - ResidualAt(p, w, y, sigma, acid, base)
         == h * (1.0 / sigma)
  {
    var x := p.a * acid.at(Warp(p.m, p.c, w)) + p.b * base.at(Warp(p.m, p.c, w));
    var q := p.(bkg := p.bkg + h);
    assert SpecMixAt(q, w, acid, base) - y == (x - y) + (p.bkg + h);
    assert SpecMixAt(p, w, acid, base) - y == (x - y) + p.bkg;
    LinearStep(p.bkg, h, 1.0, x - y, sigma);
  }

  /** ((a + h) x + rest) / s - (a x + rest) / s == h (x / s) */
  lemma LinearStep(a: real, h: real, x: real, rest: real, s: real)
    requires s != 0.0
    ensures ((a + h) * x + rest) / s - (a * x + rest) / s == h * (x / s)
  {
    Distribute(a, h, x);
    assert (a + h) * x + rest - (a * x + rest) == h * x;
    DivDifference((a + h) * x + rest, a * x + rest, s);
    DivScale(h, x, s);
  }

  /** Column 4 (stretch) is the wavelength times column 3 (shift), row by row. */
  lemma JacobianStretchColumn(p: Params, wv: seq<real>, sigma: seq<real>, acid: Spline, base: Spline, i: nat)
    requires NonZero(sigma)
    requires |wv| == 1 || i < |wv|
    requires |sigma| == 1 || i < |sigma|
    ensures JacobianEntry(p, wv, sigma, acid, base, i, 4)
         == At(wv, i) * JacobianEntry(p, wv, sigma, acid, base, i, 3)
  {
    var w := At(wv, i);
    var x := Warp(p.m, p.c, w);
    var da := acid.derivative(x);
    var db := base.derivative(x);
    assert w * p.a * da + w * p.b * db == w * (p.a * da + p.b * db);
    DivScale(w, p.a * da + p.b * db, At(sigma, i));
  }

  /** Abs[-10:]: the last ten samples, or all of them when there are fewer. */
  function Tail10(s: seq<real>): (r: seq<real>)
    ensures |s| <= 10 ==> r == s
    ensures |s| > 10 ==> |r| == 10 && forall i :: 0 <= i < 10 ==> r[i] == s[|s| - 10 + i]
  {
    if |s| <= 10 then s else s[|s| - 10..]
  }

  /** max(excess, 0) / peak: an amount that explains the clamped excess absorbance at a peak. */
  function ClampedAmount(excess: real, peak: real): (r: real)
    requires peak != 0.0
    ensures Product(r, peak) == Max(excess, 0.0)
    ensures peak > 0.0 ==> r >= 0.0
  {
    DivTimes(Max(excess, 0.0), peak);
    Max(excess, 0.0) / peak
  }

  /** What guess_p0 may divide by: the spline values at the grid's peak of each spline. */
  predicate PeakValuesNonZero(wv: seq<real>, acid: Spline, base: Spline)
  {
    |wv| > 0 ==>
      base.at(wv[ArgMax(EvalAt(base.at, wv))]) != 0.0 &&
      acid.at(wv[ArgMax(EvalAt(acid.at, wv))]) != 0.0
  }

  /**
   * guess_p0: background from the tail of the spectrum, base then acid amounts from
   * the absorbance at each spline's peak, clamped at 0; no shift, unit stretch.
   * An empty grid makes numpy's argmax raise ValueError; a peak index past the end
   * of Abs raises IndexError.
   */
  function GuessP0(wv: seq<real>, abs: seq<real>, acid: Spline, base: Spline): (r: Result<Params>)
    requires PeakValuesNonZero(wv, acid, base)
    ensures |wv| == 0 <==> r == Err(ValueError("attempt to get argmax of an empty sequence"))
    ensures |wv| > 0 ==>
              (r.Ok? <==> ArgMax(EvalAt(base.at, wv)) < |abs| && ArgMax(EvalAt(acid.at, wv)) < |abs|)
    ensures r.Err? && |wv| > 0 ==> r.error == IndexError
    ensures r.Ok? ==> r.value.c == 0.0 && r.value.m == 1.0
    ensures r.Ok? ==> |abs| > 0 && r.value.bkg == Mean(Tail10(abs))
    ensures r.Ok? ==>
              var bl := ArgMax(EvalAt(base.at, wv));
              var al := ArgMax(EvalAt(acid.at, wv));
              Product(r.value.b, base.at(wv[bl])) == Max(abs[bl] - r.value.bkg, 0.0) &&
              Product(r.value.a, acid.at(wv[al])) == Max(abs[al] - r.value.bkg - Product(r.value.b, base.at(wv[al])), 0.0)
    ensures r.Ok? && base.at(wv[ArgMax(EvalAt(base.at, wv))]) > 0.0 ==> r.value.b >= 0.0
    ensures r.Ok? && acid.at(wv[ArgMax(EvalAt(acid.at, wv))]) > 0.0 ==> r.value.a >= 0.0
  {
    if |wv| == 0 then Err(ValueError("attempt to get argmax of an empty sequence"))
    else
      var baseLoc := ArgMax(EvalAt(base.at, wv));
      if baseLoc >= |abs| then Err(IndexError)
      else
        var b0 := Mean(Tail10(abs));
        var bPeak := base.at(wv[baseLoc]);
        var bStart := ClampedAmount(abs[baseLoc] - b0, bPeak);
        var acidLoc := ArgMax(EvalAt(acid.at, wv));
        if acidLoc >= |abs| then Err(IndexError)
        else
          var aPeak := acid.at(wv[acidLoc]);
          var aStart := ClampedAmount(abs[acidLoc] - b0 - Product(bStart, base.at(wv[acidLoc])), aPeak);
          Ok(Params(aStart, bStart, b0, 0.0, 1.0))
  }

  /** The background guess is the mean of the whole spectrum when it has at most ten samples. */
  lemma GuessP0ShortSpectrum(wv: seq<real>, abs: seq<real>, acid: Spline, base: Spline)
    requires PeakValuesNonZero(wv, acid, base)
    requires |abs| <= 10
    ensures GuessP0(wv, abs, acid, base).Ok? ==> GuessP0(wv, abs, acid, base).value.bkg == Mean(abs)
  {
  }

  /** One end of a bound pair: a number, or numpy's -inf / inf. */
  datatype Limit = Unbounded | Finite(value: real)

  datatype Interval = Interval(lo: Limit, hi: Limit)

  predicate Within(x: real, iv: Interval)
  {
    (iv.lo.Unbounded? || iv.lo.value <= x) && (iv.hi.Unbounded? || x <= iv.hi.value)
  }

  datatype Bounds = Bounds(a: Interval, b: Interval, bkg: Interval, c: Interval, m: Interval)

  /** fit_spectrum's default bounds: a, b >= 0, c in [-20, 20], m in [0.98, 1.02], B0 free. */
  const DefaultBounds := Bounds(
    Interval(Finite(0.0), Unbounded),
    Interval(Finite(0.0), Unbounded),
    Interval(Unbounded, Unbounded),
    Interval(Finite(-20.0), Finite(20.0)),
    Interval(Finite(0.98), Finite(1.02)))

  predicate InBounds(p: Params, bnds: Bounds)
  {
    Within(p.a, bnds.a) && Within(p.b, bnds.b) && Within(p.bkg, bnds.bkg) &&
    Within(p.c, bnds.c) && Within(p.m, bnds.m)
  }

  /** With positive spline peaks, the guess lies inside the default bounds. */
  lemma GuessP0InDefaultBounds(wv: seq<real>, abs: seq<real>, acid: Spline, base: Spline)
    requires |wv| > 0
    requires base.at(wv[ArgMax(EvalAt(base.at, wv))]) > 0.0
    requires acid.at(wv[ArgMax(EvalAt(acid.at, wv))]) > 0.0
    ensures GuessP0(wv, abs, acid, base).Ok? ==> InBounds(GuessP0(wv, abs, acid, base).value, DefaultBounds)
  {
  }

  /** The start point of fit_spectrum: the caller's p0, or guess_p0 when p0 is None. */
  function StartPoint(p0: Option<Params>, wv: seq<real>, abs: seq<real>, acid: Spline, base: Spline): (r: Result<Params>)
    requires p0.None? ==> PeakValuesNonZero(wv, acid, base)
    ensures p0.Some? ==> r == Ok(p0.value)
    ensures p0.None? ==> r == GuessP0(wv, abs, acid, base)
  {
    match p0
    case Some(p) => Ok(p)
    case None => GuessP0(wv, abs, acid, base)
  }
}
