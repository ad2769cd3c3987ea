/**
 * The sales forecast (app.py:224-239): ordinary least squares of daily
 * revenue on the day's ordinal index 0..k-1, projected 30 indices ahead.
 */
module Forecaster {
  import opened Wrappers
  import opened Sums
  import Algebra

  /** A fitted line: revenue = slope * index + intercept. */
  datatype Line = Line(slope: real, intercept: real)

  /** `model.predict` at index i. */
  function Predict(l: Line, x: real): real
  {
    l.slope * x + l.intercept
  }

  /*
   * The closed form of simple least squares works on five sums over the
   * points (x_i, y_i): n, Sx, Sy, Sxx and Sxy. For the revenue series the
   * x_i are the day indices 0..k-1.
   */

  /** n * Sxx - Sx^2: n^2 times the variance of x. */
  function Spread(n: real, sx: real, sxx: real): real
  {
    n * sxx - sx * sx
  }

  /** n * Sxy - Sx * Sy: n^2 times the covariance of x and y. */
  function Covariation(n: real, sx: real, sy: real, sxy: real): real
  {
    n * sxy - sx * sy
  }

  /**
   * The least-squares slope. With a single point x has no spread and the
   * minimum-norm solution that the solver returns has slope 0.
   */
  function Slope(n: real, sx: real, sy: real, sxx: real, sxy: real): real
  {
    if Spread(n, sx, sxx) == 0.0 then 0.0 else Covariation(n, sx, sy, sxy) / Spread(n, sx, sxx)
  }

  /** The least-squares intercept for slope s: the line passes through the mean point. */
  function Intercept(n: real, sx: real, sy: real, s: real): real
    requires n > 0.0
  {
    (sy - s * sx) / n
  }

  /** The least-squares line of the five sums. */
  function FitOf(n: real, sx: real, sy: real, sxx: real, sxy: real): Line
    requires n > 0.0
  {
    Line(Slope(n, sx, sy, sxx, sxy), Intercept(n, sx, sy, Slope(n, sx, sy, sxx, sxy)))
  }

  /** `LinearRegression().fit(Days, TotalPrice)` with Days = 0..k-1, in closed form. */
  function Fit(ys: seq<real>): Line
    requires |ys| > 0
  {
    FitOf(|ys| as real, Sum(Indices(|ys|)), Sum(ys), Sum(IndexSquares(|ys|)), Sum(Products(Indices(|ys|), ys)))
  }

  /** The residuals ys[i] - Predict(l, i) of a line over the series. */
  function Residuals(ys: seq<real>, l: Line): (r: seq<real>)
    ensures |r| == |ys|
    ensures forall i :: 0 <= i < |ys| ==> r[i] == ys[i] - Predict(l, i as real)
  {
    seq(|ys|, i requires 0 <= i < |ys| => ys[i] - Predict(l, i as real))
  }

  /** The squared error of a line over the series: what least squares minimises. */
  function SquaredError(ys: seq<real>, l: Line): real
  {
    var r := Residuals(ys, l);
    Sum(Products(r, r))
  }

  /** Two or more days always have spread in their index. */
  lemma SpreadPositive(k: nat)
    requires k >= 2
    ensures Spread(k as real, Sum(Indices(k)), Sum(IndexSquares(k))) > 0.0
  {
    SumIndices(k);
    SumIndexSquares(k);
    Algebra.IndexSpreadPositive(k as real, Sum(Indices(k)), Sum(IndexSquares(k)));
    assert Spread(k as real, Sum(Indices(k)), Sum(IndexSquares(k))) ==
      (k as real) * Sum(IndexSquares(k)) - Sum(Indices(k)) * Sum(Indices(k));
  }

  /** A single day has neither spread nor covariation. */
  lemma SingleDaySums(ys: seq<real>)
    requires |ys| == 1
    ensures Sum(Indices(1)) == 0.0 && Sum(IndexSquares(1)) == 0.0
    ensures Sum(ys) == ys[0] && Sum(Products(Indices(1), ys)) == 0.0
  {
    assert Indices(1) == [0.0];
    assert IndexSquares(1) == [0.0];
    assert Products(Indices(1), ys) == [0.0];
    assert ys == [ys[0]];
  }

  /** The slope is well founded: there is spread, or nothing to explain. */
  lemma SpreadOrNoCovariation(ys: seq<real>)
    requires |ys| > 0
    ensures var k := |ys|;
      Spread(k as real, Sum(Indices(k)), Sum(IndexSquares(k))) > 0.0 ||
      Covariation(k as real, Sum(Indices(k)), Sum(ys), Sum(Products(Indices(k), ys))) == 0.0
  {
    if |ys| == 1 {
      SingleDaySums(ys);
    } else {
      SpreadPositive(|ys|);
    }
  }

  /** The residuals of a line are the revenue less slope times index less intercept. */
  lemma ResidualsSplit(ys: seq<real>, l: Line)
    ensures Differenced(ys, Scale(Indices(|ys|), l.slope), Constant(|ys|, l.intercept), Residuals(ys, l))
  {
  }

  lemma ResidualsSumSplit(ys: seq<real>, l: Line)
    ensures Sum(Residuals(ys, l)) == Sum(ys) - Sum(Scale(Indices(|ys|), l.slope)) - Sum(Constant(|ys|, l.intercept))
  {
    ResidualsSplit(ys, l);
    SumDifference(ys, Scale(Indices(|ys|), l.slope), Constant(|ys|, l.intercept), Residuals(ys, l));
  }

  /** The residuals of a line add up to Sy - slope * Sx - intercept * n. */
  lemma ResidualsSum(ys: seq<real>, l: Line)
    ensures Sum(Residuals(ys, l)) == Sum(ys) - l.slope * Sum(Indices(|ys|)) - l.intercept * (|ys| as real)
  {
    ResidualsSumSplit(ys, l);
    SumScale(Indices(|ys|), l.slope);
    SumConstant(|ys|, l.intercept);
  }

  /** Index times residual is index times revenue, less slope times squared index, less intercept times index. */
  lemma WeightedResidualsSplit(ys: seq<real>, l: Line)
    ensures var xs := Indices(|ys|);
      Differenced(Products(xs, ys), Scale(IndexSquares(|ys|), l.slope), Scale(xs, l.intercept), Products(xs, Residuals(ys, l)))
  {
    var xs, r := Indices(|ys|), Residuals(ys, l);
    forall i | 0 <= i < |ys|
      ensures Products(xs, r)[i] == Products(xs, ys)[i] - Scale(IndexSquares(|ys|), l.slope)[i] - Scale(xs, l.intercept)[i]
    {
      Algebra.WeightedResidual(i as real, ys[i], l.slope, l.intercept);
    }
  }

  /** The index-weighted residuals of a line add up to Sxy - slope * Sxx - intercept * Sx. */
  lemma WeightedResidualsSum(ys: seq<real>, l: Line)
    ensures Sum(Products(Indices(|ys|), Residuals(ys, l))) ==
      Sum(Products(Indices(|ys|), ys)) - l.slope * Sum(IndexSquares(|ys|)) - l.intercept * Sum(Indices(|ys|))
  {
    WeightedResidualsSplit(ys, l);
    SumDifference(Products(Indices(|ys|), ys), Scale(IndexSquares(|ys|), l.slope), Scale(Indices(|ys|), l.intercept),
      Products(Indices(|ys|), Residuals(ys, l)));
    SumScale(IndexSquares(|ys|), l.slope);
    SumScale(Indices(|ys|), l.intercept);
  }

  /** The closed-form slope and intercept solve the normal equations of the five sums. */
  lemma SumsNormalEquations(n: real, sx: real, sy: real, sxx: real, sxy: real, s: real, c: real)
    requires n > 0.0
    requires Spread(n, sx, sxx) > 0.0 || Covariation(n, sx, sy, sxy) == 0.0
    requires s == Slope(n, sx, sy, sxx, sxy) && c == Intercept(n, sx, sy, s)
    ensures sy - s * sx - c * n == 0.0
    ensures sxy - s * sxx - c * sx == 0.0
  {
    Algebra.NormalEquations(n, sx, sy, sxx, sxy, s, c, sy - s * sx - c * n, sxy - s * sxx - c * sx);
  }

  /** Line l solves the normal equations of least squares for the sums of the series. */
  ghost predicate SolvesNormalEquations(ys: seq<real>, l: Line)
  {
    && Sum(ys) - l.slope * Sum(Indices(|ys|)) - l.intercept * (|ys| as real) == 0.0
    && Sum(Products(Indices(|ys|), ys)) - l.slope * Sum(IndexSquares(|ys|)) - l.intercept * Sum(Indices(|ys|)) == 0.0
  }

  /** The fitted line solves the normal equations of the sums of the series. */
  lemma FitSolvesNormalEquations(ys: seq<real>)
    requires |ys| > 0
    ensures SolvesNormalEquations(ys, Fit(ys))
  {
    SpreadOrNoCovariation(ys);
    SumsNormalEquations(|ys| as real, Sum(Indices(|ys|)), Sum(ys), Sum(IndexSquares(|ys|)),
      Sum(Products(Indices(|ys|), ys)), Fit(ys).slope, Fit(ys).intercept);
  }

  /**
   * A line that solves the normal equations leaves residuals that add up to
   * zero and are orthogonal to the index.
   */
  lemma BalancedResiduals(ys: seq<real>, l: Line)
    requires SolvesNormalEquations(ys, l)
    ensures Sum(Residuals(ys, l)) == 0.0
    ensures Sum(Products(Indices(|ys|), Residuals(ys, l))) == 0.0
  {
    ResidualsSum(ys, l);
    WeightedResidualsSum(ys, l);
  }

  /**
   * The fitted line solves the normal equations of least squares: its
   * residuals add up to zero and are orthogonal to the index.
   */
  lemma FitNormalEquations(ys: seq<real>)
    requires |ys| > 0
    ensures Sum(Residuals(ys, Fit(ys))) == 0.0
    ensures Sum(Products(Indices(|ys|), Residuals(ys, Fit(ys)))) == 0.0
  {
    FitSolvesNormalEquations(ys);
    BalancedResiduals(ys, Fit(ys));
  }

  /** With one day the fit is the flat line through it. */
  lemma FitSingleDay(ys: seq<real>)
    requires |ys| == 1
    ensures Fit(ys) == Line(0.0, ys[0])
  {
    SingleDaySums(ys);
  }

  /** The gaps ds*i + dc between two lines over the indices 0..k-1. */
  function Gaps(k: nat, ds: real, dc: real): (g: seq<real>)
    ensures |g| == k
    ensures forall i :: 0 <= i < k ==> g[i] == ds * (i as real) + dc
  {
    seq(k, i => ds * (i as real) + dc)
  }

  /** The gaps from line l to line o. */
  function GapsBetween(k: nat, l: Line, o: Line): (g: seq<real>)
    ensures |g| == k
  {
    Gaps(k, o.slope - l.slope, o.intercept - l.intercept)
  }

  /** The squared residuals of o are those of l, plus the squared gaps, less twice the residuals times the gaps. */
  lemma ErrorSplit(ys: seq<real>, l: Line, o: Line)
    ensures var r, g := Residuals(ys, l), GapsBetween(|ys|, l, o);
      Expanded(Products(r, r), Products(g, g), Products(r, g), Products(Residuals(ys, o), Residuals(ys, o)))
  {
    var r, g, ro := Residuals(ys, l), GapsBetween(|ys|, l, o), Residuals(ys, o);
    forall i | 0 <= i < |ys|
      ensures Products(ro, ro)[i] == Products(r, r)[i] + Products(g, g)[i] - 2.0 * Products(r, g)[i]
    {
      Algebra.LineGap(i as real, ys[i], l.slope, l.intercept, o.slope, o.intercept);
      Algebra.SquareOfDifference(r[i], g[i]);
    }
  }

  /** Squared error of o = squared error of l + squared gaps - 2 * (residuals of l times gaps). */
  lemma ErrorExpansion(ys: seq<real>, l: Line, o: Line)
    ensures var r, g := Residuals(ys, l), GapsBetween(|ys|, l, o);
      SquaredError(ys, o) == SquaredError(ys, l) + Sum(Products(g, g)) - 2.0 * Sum(Products(r, g))
  {
    var r, g, ro := Residuals(ys, l), GapsBetween(|ys|, l, o), Residuals(ys, o);
    ErrorSplit(ys, l, o);
    SumExpansion(Products(r, r), Products(g, g), Products(r, g), Products(ro, ro));
  }

  /** A residual times a gap is ds times index-weighted residual plus dc times residual. */
  lemma CrossSplit(ys: seq<real>, l: Line, ds: real, dc: real)
    ensures var xs, r := Indices(|ys|), Residuals(ys, l);
      Added(Scale(Products(xs, r), ds), Scale(r, dc), Products(r, Gaps(|ys|, ds, dc)))
  {
    var xs, r, g := Indices(|ys|), Residuals(ys, l), Gaps(|ys|, ds, dc);
    forall i | 0 <= i < |ys|
      ensures Products(r, g)[i] == Scale(Products(xs, r), ds)[i] + Scale(r, dc)[i]
    {
      Algebra.GapProduct(r[i], i as real, ds, dc);
    }
  }

  /** The residuals of the fit are orthogonal to the gaps towards any other line. */
  lemma CrossTermVanishes(ys: seq<real>, ds: real, dc: real)
    requires |ys| > 0
    ensures Sum(Products(Residuals(ys, Fit(ys)), Gaps(|ys|, ds, dc))) == 0.0
  {
    var xs, r := Indices(|ys|), Residuals(ys, Fit(ys));
    var w := Products(xs, r);
    CrossSplit(ys, Fit(ys), ds, dc);
    SumAdd(Scale(w, ds), Scale(r, dc), Products(r, Gaps(|ys|, ds, dc)));
    SumScale(w, ds);
    SumScale(r, dc);
    FitNormalEquations(ys);
    Algebra.VanishingCross(ds, Sum(w), dc, Sum(r), Sum(Products(r, Gaps(|ys|, ds, dc))));
  }

  /** A sum of squares is non-negative. */
  lemma SquaresNonnegative(g: seq<real>)
    ensures Sum(Products(g, g)) >= 0.0
  {
    forall i | 0 <= i < |g|
      ensures Products(g, g)[i] >= 0.0
    {
      Algebra.SquareNonnegative(g[i]);
    }
    SumNonnegative(Products(g, g));
  }

  /**
   * Least squares: no line has a smaller squared error over the series than
   * the fitted one. The excess error of any other line is the sum of the
   * squared gaps between the two lines.
   */
  lemma FitMinimizesSquaredError(ys: seq<real>, other: Line)
    requires |ys| > 0
    ensures SquaredError(ys, Fit(ys)) <= SquaredError(ys, other)
  {
    var g := GapsBetween(|ys|, Fit(ys), other);
    ErrorExpansion(ys, Fit(ys), other);
    CrossTermVanishes(ys, other.slope - Fit(ys).slope, other.intercept - Fit(ys).intercept);
    SquaresNonnegative(g);
  }

  /** A series that lies on the line a*i + b. */
  ghost predicate OnLine(ys: seq<real>, a: real, b: real)
  {
    forall i :: 0 <= i < |ys| ==> ys[i] == a * (i as real) + b
  }

  /** On a line a*i + b, revenue is a times the index plus b. */
  lemma LineSplit(ys: seq<real>, a: real, b: real)
    requires OnLine(ys, a, b)
    ensures Added(Scale(Indices(|ys|), a), Constant(|ys|, b), ys)
  {
  }

  /** On a line a*i + b, Sy = a*Sx + b*n. */
  lemma LineSum(ys: seq<real>, a: real, b: real)
    requires OnLine(ys, a, b)
    ensures Sum(ys) == a * Sum(Indices(|ys|)) + b * (|ys| as real)
  {
    LineSplit(ys, a, b);
    SumAdd(Scale(Indices(|ys|), a), Constant(|ys|, b), ys);
    SumScale(Indices(|ys|), a);
    SumConstant(|ys|, b);
  }

  /** On a line a*i + b, index times revenue is a times squared index plus b times index. */
  lemma LineWeightedSplit(ys: seq<real>, a: real, b: real)
    requires OnLine(ys, a, b)
    ensures var xs := Indices(|ys|);
      Added(Scale(IndexSquares(|ys|), a), Scale(xs, b), Products(xs, ys))
  {
    var xs := Indices(|ys|);
    forall i | 0 <= i < |ys|
      ensures Products(xs, ys)[i] == Scale(IndexSquares(|ys|), a)[i] + Scale(xs, b)[i]
    {
      Algebra.LinePoint(i as real, ys[i], a, b);
    }
  }

  /** On a line a*i + b, Sxy = a*Sxx + b*Sx. */
  lemma LineWeightedSum(ys: seq<real>, a: real, b: real)
    requires OnLine(ys, a, b)
    ensures Sum(Products(Indices(|ys|), ys)) == a * Sum(IndexSquares(|ys|)) + b * Sum(Indices(|ys|))
  {
    var xs, xx := Indices(|ys|), IndexSquares(|ys|);
    LineWeightedSplit(ys, a, b);
    SumAdd(Scale(xx, a), Scale(xs, b), Products(xs, ys));
    SumScale(xx, a);
    SumScale(xs, b);
  }

  /** Over two or more days at most one line solves the normal equations. */
  lemma NormalEquationsUnique(ys: seq<real>, l: Line, m: Line)
    requires |ys| >= 2
    requires SolvesNormalEquations(ys, l) && SolvesNormalEquations(ys, m)
    ensures l == m
  {
    SpreadPositive(|ys|);
    Algebra.UniqueSolution(|ys| as real, Sum(Indices(|ys|)), Sum(ys), Sum(IndexSquares(|ys|)),
      Sum(Products(Indices(|ys|), ys)), l.slope, l.intercept, m.slope, m.intercept);
  }

  /** Over two or more days, a line that solves the normal equations is the fitted line. */
  lemma FitOfSolution(ys: seq<real>, l: Line)
    requires |ys| >= 2 && SolvesNormalEquations(ys, l)
    ensures Fit(ys) == l
  {
    FitSolvesNormalEquations(ys);
    NormalEquationsUnique(ys, Fit(ys), l);
  }

  /** A series on the line a*i + b has that line as a solution of its normal equations. */
  lemma LineSolvesNormalEquations(ys: seq<real>, a: real, b: real)
    requires OnLine(ys, a, b)
    ensures SolvesNormalEquations(ys, Line(a, b))
  {
    LineSum(ys, a, b);
    LineWeightedSum(ys, a, b);
  }

  /** On a series that lies exactly on a line a*i + b (two days or more), the fit recovers that line. */
  lemma FitExactOnLine(ys: seq<real>, a: real, b: real)
    requires |ys| >= 2 && OnLine(ys, a, b)
    ensures Fit(ys) == Line(a, b)
  {
    LineSolvesNormalEquations(ys, a, b);
    FitOfSolution(ys, Line(a, b));
  }

  /** How many days `pd.date_range(..., periods=30)` and `np.arange(k, k + 30)` cover. */
  const Horizon: nat := 30

  /** One day of revenue: the day number and the revenue. */
  datatype Point = Point(date: int, sales: real)

  /** Fitting needs at least one sample; with none the regression raises. */
  datatype ForecastError = NoHistory

  /** The revenue column of a series of days. */
  function SalesOf(ps: seq<Point>): (ys: seq<real>)
    ensures |ys| == |ps|
    ensures forall i :: 0 <= i < |ps| ==> ys[i] == ps[i].sales
  {
    seq(|ps|, i requires 0 <= i < |ps| => ps[i].sales)
  }

  /** Thirty days along line l, dated from `last` on and predicted at indices k, k+1, ... */
  function Extrapolate(l: Line, k: nat, last: int): (ps: seq<Point>)
    ensures |ps| == Horizon
    ensures forall j :: 0 <= j < Horizon ==> ps[j] == Point(last + j, Predict(l, (k + j) as real))
  {
    seq(Horizon, j requires 0 <= j < Horizon => Point(last + j, Predict(l, (k + j) as real)))
  }

  /**
   * The forecast: fit on the k observed days, predict indices k..k+29, and
   * date them from the last observed day onwards, that day included.
   */
  function Forecast(history: seq<Point>): (r: Result<seq<Point>, ForecastError>)
    ensures r.Failure? <==> history == []
    ensures r.Success? ==> |r.value| == Horizon
    ensures r.Success? ==> forall j :: 0 <= j < Horizon ==> r.value[j].date == history[|history| - 1].date + j
    ensures r.Success? ==> forall j :: 0 <= j < Horizon ==>
      r.value[j].sales == Predict(Fit(SalesOf(history)), (|history| + j) as real)
  {
    if history == [] then Failure(NoHistory)
    else Success(Extrapolate(Fit(SalesOf(history)), |history|, history[|history| - 1].date))
  }

  /** When the daily revenue grows on a line, the forecast continues that line. */
  lemma ForecastContinuesLine(history: seq<Point>, a: real, b: real)
    requires |history| >= 2 && OnLine(SalesOf(history), a, b)
    ensures Forecast(history).Success?
    ensures forall j :: 0 <= j < Horizon ==>
      Forecast(history).value[j].sales == a * ((|history| + j) as real) + b
  {
    FitPredictsLine(SalesOf(history), a, b);
  }

  /** On a series on the line a*i + b (two days or more), the fit predicts a*x + b everywhere. */
  lemma FitPredictsLine(ys: seq<real>, a: real, b: real)
    requires |ys| >= 2 && OnLine(ys, a, b)
    ensures forall x :: Predict(Fit(ys), x) == a * x + b
  {
    FitExactOnLine(ys, a, b);
  }

  /** With a single day the forecast is flat at that day's revenue. */
  lemma ForecastSingleDay(p: Point)
    ensures Forecast([p]).Success?
    ensures forall j :: 0 <= j < Horizon ==> Forecast([p]).value[j] == Point(p.date + j, p.sales)
  {
    FitSingleDay(SalesOf([p]));
  }

  /** Revenue of 100, 200, 300 on three days gives 400 as the next day predicted revenue. */
  lemma ForecastExample(d: int)
    ensures Forecast([Point(d, 100.0), Point(d + 1, 200.0), Point(d + 2, 300.0)]).Success?
    ensures Forecast([Point(d, 100.0), Point(d + 1, 200.0), Point(d + 2, 300.0)]).value[0] == Point(d + 2, 400.0)
  {
    var h := [Point(d, 100.0), Point(d + 1, 200.0), Point(d + 2, 300.0)];
    var a, b := 100.0, 100.0;
    assert OnLine(SalesOf(h), a, b);
    ForecastContinuesLine(h, a, b);
  }
}
