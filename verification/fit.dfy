/** Degree-1 least squares (`numpy.polyfit(x, y, 1)` followed by `numpy.poly1d`),
    in exact closed form over the reals. */
module LeastSquares {
  import opened Wrappers

  /** The fitted line y = slope * x + intercept. */
  datatype Line = Line(slope: real, intercept: real)

  function At(l: Line, x: real): real {
    l.slope * x + l.intercept
  }

  /** x * x of one point. */
  function Square(p: (real, real)): real {
    p.0 * p.0
  }

  /** x * y of one point. */
  function Cross(p: (real, real)): real {
    p.0 * p.1
  }

  function SumX(pts: seq<(real, real)>): real {
    if pts == [] then 0.0 else SumX(pts[..|pts| - 1]) + pts[|pts| - 1].0
  }

  function SumY(pts: seq<(real, real)>): real {
    if pts == [] then 0.0 else SumY(pts[..|pts| - 1]) + pts[|pts| - 1].1
  }

  function SumXX(pts: seq<(real, real)>): real {
    if pts == [] then 0.0 else SumXX(pts[..|pts| - 1]) + Square(pts[|pts| - 1])
  }

  function SumXY(pts: seq<(real, real)>): real {
    if pts == [] then 0.0 else SumXY(pts[..|pts| - 1]) + Cross(pts[|pts| - 1])
  }

  /** The determinant n * Sxx - Sx^2 of the normal equations. */
  function Det(pts: seq<(real, real)>): real {
    DetFromSums(|pts| as real, SumX(pts), SumXX(pts))
  }

  function DetFromSums(n: real, sx: real, sxx: real): real {
    n * sxx - sx * sx
  }

  /** The residual y - l(x) of one point. */
  function Deviation(p: (real, real), l: Line): real {
    p.1 - At(l, p.0)
  }

  /** The residual of one point weighted by its x. */
  function Moment(p: (real, real), l: Line): real {
    p.0 * Deviation(p, l)
  }

  /** The sum of the residuals y - l(x). */
  function Residual(pts: seq<(real, real)>, l: Line): real {
    if pts == [] then 0.0
    else
      Residual(pts[..|pts| - 1], l) + Deviation(pts[|pts| - 1], l)
  }

  /** The sum of the residuals weighted by x, x * (y - l(x)). */
  function MomentResidual(pts: seq<(real, real)>, l: Line): real {
    if pts == [] then 0.0
    else
      MomentResidual(pts[..|pts| - 1], l) + Moment(pts[|pts| - 1], l)
  }

  /** The residual sum written with the point sums: Sy - a Sx - n b. */
  function ResidualFromSums(n: real, sx: real, sy: real, a: real, b: real): real {
    sy - a * sx - n * b
  }

  /** The x-weighted residual sum written with the point sums: Sxy - a Sxx - b Sx. */
  function MomentFromSums(sx: real, sxx: real, sxy: real, a: real, b: real): real {
    sxy - a * sxx - b * sx
  }

  lemma ResidualStep(r: real, n: real, sx: real, sy: real, r': real, n': real, sx': real, sy': real,
                     p: (real, real), l: Line)
    requires r == ResidualFromSums(n, sx, sy, l.slope, l.intercept)
    requires r' == r + Deviation(p, l) && n' == n + 1.0 && sx' == sx + p.0 && sy' == sy + p.1
    ensures r' == ResidualFromSums(n', sx', sy', l.slope, l.intercept)
  {
  }

  /** The residual sum in terms of the point sums. */
  lemma {:induction false} ResidualBySums(pts: seq<(real, real)>, l: Line)
    ensures Residual(pts, l) == ResidualFromSums(|pts| as real, SumX(pts), SumY(pts), l.slope, l.intercept)
  {
    if pts != [] {
      var init, p := pts[..|pts| - 1], pts[|pts| - 1];
      ResidualBySums(init, l);
      ResidualStep(Residual(init, l), |init| as real, SumX(init), SumY(init),
                   Residual(pts, l), |pts| as real, SumX(pts), SumY(pts),
                   p, l);
    }
  }

  lemma MomentStep(r: real, sx: real, sxx: real, sxy: real, r': real, sx': real, sxx': real, sxy': real,
                   p: (real, real), l: Line)
    requires r == MomentFromSums(sx, sxx, sxy, l.slope, l.intercept)
    requires r' == r + Moment(p, l) && sx' == sx + p.0 && sxx' == sxx + Square(p) && sxy' == sxy + Cross(p)
    ensures r' == MomentFromSums(sx', sxx', sxy', l.slope, l.intercept)
  {
  }

  /** The x-weighted residual sum in terms of the point sums. */
  lemma {:induction false} MomentBySums(pts: seq<(real, real)>, l: Line)
    ensures MomentResidual(pts, l) == MomentFromSums(SumX(pts), SumXX(pts), SumXY(pts), l.slope, l.intercept)
  {
    if pts != [] {
      var init, p := pts[..|pts| - 1], pts[|pts| - 1];
      MomentBySums(init, l);
      MomentStep(MomentResidual(init, l), SumX(init), SumXX(init), SumXY(init),
                 MomentResidual(pts, l), SumX(pts), SumXX(pts), SumXY(pts),
                 p, l);
    }
  }

  /** The closed-form solution of the normal equations
        n b + Sx a = Sy  and  Sx b + Sxx a = Sxy. */
  function Solve(n: real, sx: real, sy: real, sxx: real, sxy: real): (l: Line)
    requires n != 0.0 && n * sxx - sx * sx != 0.0
    ensures ResidualFromSums(n, sx, sy, l.slope, l.intercept) == 0.0
    ensures MomentFromSums(sx, sxx, sxy, l.slope, l.intercept) == 0.0
  {
    var d := n * sxx - sx * sx;
    var a := (n * sxy - sx * sy) / d;
    var b := (sy - a * sx) / n;
    SolvesNormalEquations(n, sx, sy, sxx, sxy, d, a, b);
    Line(a, b)
  }

  lemma SolvesNormalEquations(n: real, sx: real, sy: real, sxx: real, sxy: real, d: real, a: real, b: real)
    requires n != 0.0 && d == n * sxx - sx * sx && d != 0.0
    requires a == (n * sxy - sx * sy) / d
    requires b == (sy - a * sx) / n
    ensures ResidualFromSums(n, sx, sy, a, b) == 0.0
    ensures MomentFromSums(sx, sxx, sxy, a, b) == 0.0
  {
    assert a * d == n * sxy - sx * sy;
    assert n * b == sy - a * sx;
    calc {
      n * (sxy - a * sxx - b * sx);
      n * sxy - a * (n * sxx) - (n * b) * sx;
      n * sxy - a * (n * sxx) - (sy - a * sx) * sx;
      n * sxy - sx * sy - a * d;
      0.0;
    }
  }

  /** A solution of both normal equations is the closed-form one. */
  lemma NormalEquationsUnique(n: real, sx: real, sy: real, sxx: real, sxy: real, l: Line)
    requires n != 0.0 && n * sxx - sx * sx != 0.0
    requires ResidualFromSums(n, sx, sy, l.slope, l.intercept) == 0.0
    requires MomentFromSums(sx, sxx, sxy, l.slope, l.intercept) == 0.0
    ensures l == Solve(n, sx, sy, sxx, sxy)
  {
    var a, b := l.slope, l.intercept;
    var d := n * sxx - sx * sx;
    calc {
      n * sxy - sx * sy;
      n * (a * sxx + b * sx) - sx * (a * sx + n * b);
      a * d;
    }
    assert a == (n * sxy - sx * sy) / d;
    assert b == (sy - a * sx) / n;
  }

  /** With no points every sum is 0, so there is no fit. */
  lemma EmptyHasNoFit(pts: seq<(real, real)>)
    requires pts == []
    ensures Det(pts) == 0.0
  {
  }

  /** `polyfit(x, y, 1)`: the least-squares line through the points (x, y). It is defined
      when the normal equations have one solution, which needs the determinant to be
      non-zero; the line then makes the residuals and the x-weighted residuals sum to 0. */
  function Fit(pts: seq<(real, real)>): (r: Option<Line>)
    ensures r.Some? <==> Det(pts) != 0.0
    ensures r.Some? ==> |pts| > 0 && Residual(pts, r.value) == 0.0 && MomentResidual(pts, r.value) == 0.0
  {
    if Det(pts) == 0.0 then None
    else
      var l := Solve(|pts| as real, SumX(pts), SumY(pts), SumXX(pts), SumXY(pts));
      ResidualBySums(pts, l);
      MomentBySums(pts, l);
      Some(l)
  }

  /** The fitted line is the only line that makes both residual sums 0. */
  lemma FitIsUnique(pts: seq<(real, real)>, l: Line)
    requires Det(pts) != 0.0
    requires Residual(pts, l) == 0.0 && MomentResidual(pts, l) == 0.0
    ensures Fit(pts) == Some(l)
  {
    ResidualBySums(pts, l);
    MomentBySums(pts, l);
    NormalEquationsUnique(|pts| as real, SumX(pts), SumY(pts), SumXX(pts), SumXY(pts), l);
  }

  /** Points that all lie on the line l. */
  ghost predicate OnLine(pts: seq<(real, real)>, l: Line) {
    forall i :: 0 <= i < |pts| ==> pts[i].1 == At(l, pts[i].0)
  }

  lemma {:induction false} OnLineResiduals(pts: seq<(real, real)>, l: Line)
    requires OnLine(pts, l)
    ensures Residual(pts, l) == 0.0 && MomentResidual(pts, l) == 0.0
  {
    if pts != [] {
      OnLineResiduals(pts[..|pts| - 1], l);
    }
  }

  /** The fit recovers a line exactly from points on it with a non-zero determinant. */
  lemma FitRecoversLine(pts: seq<(real, real)>, l: Line)
    requires OnLine(pts, l) && Det(pts) != 0.0
    ensures Fit(pts) == Some(l)
  {
    OnLineResiduals(pts, l);
    FitIsUnique(pts, l);
  }

  /** Points that all share one x: the normal equations do not determine the line. */
  ghost predicate SameX(pts: seq<(real, real)>, c: real) {
    forall i :: 0 <= i < |pts| ==> pts[i].0 == c
  }

  lemma {:induction false} SameXSums(pts: seq<(real, real)>, c: real)
    requires SameX(pts, c)
    ensures SumX(pts) == |pts| as real * c && SumXX(pts) == |pts| as real * (c * c)
  {
    if pts != [] {
      SameXSums(pts[..|pts| - 1], c);
    }
  }

  /** Fewer than two distinct x values leave no fit. */
  lemma SameXHasNoFit(pts: seq<(real, real)>, c: real)
    ensures SameX(pts, c) ==> Det(pts) == 0.0 && Fit(pts).None?
  {
    if SameX(pts, c) {
      SameXSums(pts, c);
      var n := |pts| as real;
      assert n * (n * (c * c)) == (n * c) * (n * c);
    }
  }

  /** a * b, as a function of its own so that facts about a square carry over
      from the lemma that proves them. */
  function Mul(a: real, b: real): real {
    a * b
  }

  lemma MulPositive(a: real, b: real)
    requires a > 0.0 && b > 0.0
    ensures Mul(a, b) > 0.0
  {
  }

  /** A square is never negative, and it is 0 only at 0. */
  lemma SquareFacts(d: real)
    ensures Mul(d, d) >= 0.0 && (d != 0.0 ==> Mul(d, d) > 0.0)
  {
    if d > 0.0 {
      MulPositive(d, d);
    } else if d < 0.0 {
      assert Mul(d, d) == Mul(-d, -d);
      MulPositive(-d, -d);
    } else {
      assert Mul(d, d) == Mul(0.0, d);
    }
  }

  /** The sum of (x_i - x)^2 over the points. */
  function SpreadFrom(pts: seq<(real, real)>, x: real): real {
    if pts == [] then 0.0
    else SpreadFrom(pts[..|pts| - 1], x) + Mul(pts[|pts| - 1].0 - x, pts[|pts| - 1].0 - x)
  }

  /** The spread is never negative, and it is 0 only when every point sits at x. */
  lemma {:induction false} SpreadZero(pts: seq<(real, real)>, x: real)
    ensures SpreadFrom(pts, x) >= 0.0
    ensures SpreadFrom(pts, x) == 0.0 ==> SameX(pts, x)
  {
    if pts != [] {
      SpreadZero(pts[..|pts| - 1], x);
      SquareFacts(pts[|pts| - 1].0 - x);
    }
  }

  function SpreadFromSums(n: real, sx: real, sxx: real, x: real): real {
    sxx - 2.0 * x * sx + n * (x * x)
  }

  lemma SpreadStep(s: real, n: real, sx: real, sxx: real, s': real, n': real, sx': real, sxx': real,
                   p: (real, real), x: real)
    requires s == SpreadFromSums(n, sx, sxx, x)
    requires s' == s + Mul(p.0 - x, p.0 - x) && n' == n + 1.0 && sx' == sx + p.0 && sxx' == sxx + Square(p)
    ensures s' == SpreadFromSums(n', sx', sxx', x)
  {
  }

  lemma {:induction false} SpreadBySums(pts: seq<(real, real)>, x: real)
    ensures SpreadFrom(pts, x) == SpreadFromSums(|pts| as real, SumX(pts), SumXX(pts), x)
  {
    if pts != [] {
      var init := pts[..|pts| - 1];
      SpreadBySums(init, x);
      SpreadStep(SpreadFrom(init, x), |init| as real, SumX(init), SumXX(init),
                 SpreadFrom(pts, x), |pts| as real, SumX(pts), SumXX(pts), pts[|pts| - 1], x);
    }
  }

  lemma DetStepArith(n: real, sx: real, sxx: real, n': real, sx': real, sxx': real, p: (real, real))
    requires n' == n + 1.0 && sx' == sx + p.0 && sxx' == sxx + Square(p)
    ensures DetFromSums(n', sx', sxx') == DetFromSums(n, sx, sxx) + SpreadFromSums(n, sx, sxx, p.0)
  {
  }

  /** Adding a point at x raises the determinant by the spread of the other points about x. */
  lemma DetStep(pts: seq<(real, real)>)
    requires pts != []
    ensures Det(pts) == Det(pts[..|pts| - 1]) + SpreadFrom(pts[..|pts| - 1], pts[|pts| - 1].0)
  {
    var init, p := pts[..|pts| - 1], pts[|pts| - 1];
    SpreadBySums(init, p.0);
    DetStepArith(|init| as real, SumX(init), SumXX(init), |pts| as real, SumX(pts), SumXX(pts), p);
  }

  /** The determinant is 0 exactly when all points share their x (Cauchy-Schwarz). */
  lemma {:induction false} DetZeroSameX(pts: seq<(real, real)>)
    requires pts != []
    ensures Det(pts) >= 0.0
    ensures Det(pts) == 0.0 ==> SameX(pts, pts[0].0)
  {
    var init, p := pts[..|pts| - 1], pts[|pts| - 1];
    DetStep(pts);
    if init == [] {
      assert pts == [p];
    } else {
      DetZeroSameX(init);
      SpreadZero(init, p.0);
    }
  }

  /** The mean of the y values. */
  function MeanY(pts: seq<(real, real)>): real
    requires pts != []
  {
    SumY(pts) / |pts| as real
  }

  lemma MinimumNormArith(n: real, c: real, sx: real, sy: real)
    requires n > 0.0 && c != 0.0 && sx == n * c
    ensures ResidualFromSums(n, sx, sy, (sy / n) / (2.0 * c), (sy / n) / 2.0) == 0.0
    ensures (sy / n) / (2.0 * c) * c + (sy / n) / 2.0 == sy / n
  {
    var m := sy / n;
    assert m / (2.0 * c) * c == m / 2.0;
    assert (m / (2.0 * c)) * (n * c) == n * (m / 2.0);
    assert n * m == sy;
  }

  /** `numpy.polyfit(x, y, 1)`. polyfit divides each column of the design matrix [x, 1]
      by its norm and takes the minimum-norm least-squares solution of the scaled system.
      With two distinct x values that is the unique solution of the normal equations.
      When all n points share one x = c != 0, the scaled columns coincide up to sign and
      the minimum-norm solution is slope mean(y) / (2c), intercept mean(y) / 2: a line
      through (c, mean(y)). No points, or every x = 0 (a zero column norm), raise. */
  function PolyFit(pts: seq<(real, real)>): (r: Option<Line>)
    ensures r.None? <==> pts == [] || SameX(pts, 0.0)
    ensures Det(pts) != 0.0 ==> r == Fit(pts)
    ensures r.Some? ==> Residual(pts, r.value) == 0.0
    ensures r.Some? && Det(pts) == 0.0 ==>
              SameX(pts, pts[0].0) && At(r.value, pts[0].0) == MeanY(pts)
  {
    SameXHasNoFit(pts, 0.0);
    if pts == [] then None
    else if Det(pts) != 0.0 then Fit(pts)
    else
      DetZeroSameX(pts);
      var c := pts[0].0;
      if c == 0.0 then None
      else
        var n := |pts| as real;
        var l := Line((SumY(pts) / n) / (2.0 * c), (SumY(pts) / n) / 2.0);
        SameXSums(pts, c);
        MinimumNormArith(n, c, SumX(pts), SumY(pts));
        ResidualBySums(pts, l);
        Some(l)
  }

  /** A single point (c, y) with c != 0 gives the line through it whose intercept is y/2:
      the forecast from one visit grows in proportion to the time that passes. */
  lemma SinglePointFit(c: real, y: real)
    requires c != 0.0
    ensures PolyFit([(c, y)]) == Some(Line(y / (2.0 * c), y / 2.0))
    ensures At(PolyFit([(c, y)]).value, c) == y
  {
    var pts := [(c, y)];
    assert pts[..0] == [];
    assert SumX(pts) == c && SumXX(pts) == Square((c, y)) && SumY(pts) == y;
    assert Det(pts) == 0.0;
    assert y / 1.0 == y;
  }
}
