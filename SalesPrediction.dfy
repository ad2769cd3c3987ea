/**
 * The sales forecast page: the daily revenue series, the thirty-day forecast
 * and the chart data that joins them (app.py, AI Sales Prediction page).
 */
module SalesPrediction {
  import opened Wrappers
  import opened Loader
  import opened TableOps
  import opened Grouping
  import opened Dashboard
  import opened Forecaster

  /** `daily_sales`: one point per day with a sale, in ascending order of day. */
  function DailyPoints(t: seq<Row>): (ps: seq<Point>)
    ensures |ps| == |DailySales(t)|
    ensures forall i :: 0 <= i < |ps| ==> ps[i] == Point(DailySales(t)[i].key, DailySales(t)[i].total)
    ensures forall i, j :: 0 <= i < j < |ps| ==> ps[i].date < ps[j].date
    ensures ps == [] <==> t == []
  {
    var daily := DailySales(t);
    var ps := seq(|daily|, i requires 0 <= i < |daily| => Point(daily[i].key, daily[i].total));
    assert forall i :: 0 <= i < |ps| ==> ps[i].date == Keys(daily)[i];
    assert t != [] ==> DayOf(t[0]) in Keys(daily);
    ps
  }

  /** The `Type` column of the chart data. */
  datatype Series = Actual | Predicted

  /** One row of the chart data: `Date`, `Sales` and `Type`. */
  datatype TimePoint = TimePoint(date: int, sales: real, series: Series)

  /** The points with their `Type` column set to `series`. */
  function Tagged(ps: seq<Point>, series: Series): (r: seq<TimePoint>)
    ensures |r| == |ps|
    ensures forall i :: 0 <= i < |ps| ==> r[i] == TimePoint(ps[i].date, ps[i].sales, series)
  {
    seq(|ps|, i requires 0 <= i < |ps| => TimePoint(ps[i].date, ps[i].sales, series))
  }

  /**
   * `pd.concat([actual_df, future_df])`: the actual rows in their order,
   * labelled Actual, then the predicted rows in theirs, labelled Predicted;
   * nothing is re-sorted or merged.
   */
  function Combine(actual: seq<Point>, predicted: seq<Point>): (r: seq<TimePoint>)
    ensures |r| == |actual| + |predicted|
    ensures forall i :: 0 <= i < |actual| ==> r[i] == TimePoint(actual[i].date, actual[i].sales, Actual)
    ensures forall j :: 0 <= j < |predicted| ==>
      r[|actual| + j] == TimePoint(predicted[j].date, predicted[j].sales, Predicted)
  {
    Tagged(actual, Actual) + Tagged(predicted, Predicted)
  }

  predicate IsActual(p: TimePoint) { p.series == Actual }

  predicate IsPredicted(p: TimePoint) { p.series == Predicted }

  /** Selecting either label of the chart data gives back that series, tagged, in its order. */
  lemma CombineSplits(actual: seq<Point>, predicted: seq<Point>)
    ensures Filter(Combine(actual, predicted), IsActual) == Tagged(actual, Actual)
    ensures Filter(Combine(actual, predicted), IsPredicted) == Tagged(predicted, Predicted)
  {
    var a, p := Tagged(actual, Actual), Tagged(predicted, Predicted);
    assert Combine(actual, predicted) == a + p;
    FilterConcat(a, p, IsActual);
    FilterConcat(a, p, IsPredicted);
    FilterAll(a, IsActual);
    FilterNone(p, IsActual);
    FilterNone(a, IsPredicted);
    FilterAll(p, IsPredicted);
  }

  /** What the forecast page shows: the next day's predicted revenue and the chart data. */
  datatype PredictionReport = PredictionReport(nextDay: real, combined: seq<TimePoint>)

  /**
   * The forecast over a daily series: fails when there is no day to fit on;
   * otherwise the chart holds the k observed days and then the thirty
   * predicted ones, the value at position i being the fitted line at index i,
   * dated on consecutive days from the last observed day on; the first
   * prediction thus repeats the last observed date and is the headline.
   */
  function Prediction(actual: seq<Point>): (r: Result<PredictionReport, ForecastError>)
    ensures r.Failure? <==> actual == []
    ensures r.Success? ==> |r.value.combined| == |actual| + Horizon
    ensures r.Success? ==> forall i :: 0 <= i < |actual| ==>
      r.value.combined[i] == TimePoint(actual[i].date, actual[i].sales, Actual)
    ensures r.Success? ==> forall i :: |actual| <= i < |r.value.combined| ==>
      r.value.combined[i].series == Predicted &&
      r.value.combined[i].sales == Predict(Fit(SalesOf(actual)), i as real)
    ensures r.Success? ==> forall i :: |actual| <= i < |r.value.combined| ==>
      r.value.combined[i].date == actual[|actual| - 1].date + (i - |actual|)
    ensures r.Success? ==> r.value.combined[|actual|].date == r.value.combined[|actual| - 1].date
    ensures r.Success? ==> r.value.nextDay == r.value.combined[|actual|].sales
  {
    match Forecast(actual)
    case Failure(e) => Failure(e)
    case Success(predicted) =>
      CombinedPredictions(actual, predicted, Fit(SalesOf(actual)), actual[|actual| - 1].date);
      ChartJoin(actual, predicted);
      Success(PredictionReport(predicted[0].sales, Combine(actual, predicted)))
  }

  /**
   * The forecast page over the filtered table: it fails exactly when no row
   * is selected; otherwise the chart holds the daily revenue trend, tagged
   * Actual, then thirty rows tagged Predicted, the row at position i holding
   * the line fitted to the daily revenue at index i and dated i - k days
   * after the last day with a sale; the headline is the first of them.
   */
  function PredictionPage(t: seq<Row>): (r: Result<PredictionReport, ForecastError>)
    ensures r.Failure? <==> t == []
    ensures r.Success? ==> |r.value.combined| == |DailySales(t)| + Horizon
    ensures r.Success? ==> forall i :: 0 <= i < |DailySales(t)| ==>
      r.value.combined[i] == TimePoint(DailySales(t)[i].key, DailySales(t)[i].total, Actual)
    ensures r.Success? ==> forall i :: |DailySales(t)| <= i < |r.value.combined| ==>
      r.value.combined[i] == TimePoint(DailySales(t)[|DailySales(t)| - 1].key + (i - |DailySales(t)|),
        Predict(Fit(Totals(DailySales(t))), i as real), Predicted)
    ensures r.Success? ==> r.value.nextDay == Predict(Fit(Totals(DailySales(t))), |DailySales(t)| as real)
  {
    DailyRevenue(t);
    Prediction(DailyPoints(t))
  }

  /** The revenue column of the daily points is the daily trend's totals. */
  lemma DailyRevenue(t: seq<Row>)
    ensures SalesOf(DailyPoints(t)) == Totals(DailySales(t))
  {
  }

  /** Where the two series meet, the first predicted row repeats the date of the last actual one. */
  lemma ChartJoin(actual: seq<Point>, predicted: seq<Point>)
    requires actual != [] && predicted != []
    requires predicted[0].date == actual[|actual| - 1].date
    ensures Combine(actual, predicted)[|actual|] == TimePoint(predicted[0].date, predicted[0].sales, Predicted)
    ensures Combine(actual, predicted)[|actual|].date == Combine(actual, predicted)[|actual| - 1].date
  {
    assert Combine(actual, predicted)[|actual| + 0] == TimePoint(predicted[0].date, predicted[0].sales, Predicted);
  }

  /**
   * In the chart data, the row at position i past the actual ones holds the
   * prediction for index i, dated i - k days after `last`.
   */
  lemma CombinedPredictions(actual: seq<Point>, predicted: seq<Point>, l: Line, last: int)
    requires forall j :: 0 <= j < |predicted| ==>
      predicted[j].sales == Predict(l, (|actual| + j) as real) && predicted[j].date == last + j
    ensures forall i :: |actual| <= i < |Combine(actual, predicted)| ==>
      Combine(actual, predicted)[i].series == Predicted &&
      Combine(actual, predicted)[i].sales == Predict(l, i as real) &&
      Combine(actual, predicted)[i].date == last + (i - |actual|)
  {
    var r := Combine(actual, predicted);
    forall i | |actual| <= i < |r|
      ensures r[i].series == Predicted && r[i].sales == Predict(l, i as real) && r[i].date == last + (i - |actual|)
    {
      var j := i - |actual|;
      assert r[|actual| + j] == TimePoint(predicted[j].date, predicted[j].sales, Predicted);
    }
  }
}
