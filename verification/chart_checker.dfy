/** The chart consistency checker: recomputes what each chart should show from
    the dataset and reports charts whose categories, values or x-values do
    not match, charts without output, and charts built from an older
    version of the dataset. */
module ChartChecker {
  import opened Common
  import opened Values
  import opened Table
  import opened ChartSpecs
  import Sorting

  // ---------------------------------------------------------------------------
  // Issues and the report
  // ---------------------------------------------------------------------------

  datatype ChartMessage =
    | BarSpecIncomplete
    | UnsupportedAggregation(aggregation: string)
    | CategoryMismatch
    | ValuesDiffer
    | UnknownXValues
    | NoValidator(kind: string)
    | OutputMissing
    | Stale
  {
    /** The message text the checker writes. */
    function Text(): string
    {
      match this
      case BarSpecIncomplete => "Bar charts must define 'y' and 'aggregation'."
      case UnsupportedAggregation(a) => "Unsupported aggregation: " + a
      case CategoryMismatch => "Category mismatch between chart and data."
      case ValuesDiffer => "Aggregated values differ from data."
      case UnknownXValues => "Chart includes x-values that do not exist in the dataset."
      case NoValidator(k) => "No validator registered for chart kind: " + k
      case OutputMissing => "Chart output missing."
      case Stale => "Chart is stale relative to the dataset signature."
    }
  }

  datatype ChartContext =
    | NoContext
    | Categories(expected: seq<Cell>, observed: seq<Cell>)
    | MaxDelta(maxDelta: real)
    | MissingValues(values: seq<Cell>)
    | Signatures(chartSignature: string, dataSignature: string)

  datatype ChartIssue = ChartIssue(identifier: string, level: Level, message: ChartMessage, context: ChartContext)

  datatype ChartValidationReport = ChartValidationReport(issues: seq<ChartIssue>, dataSignature: string)

  /** `any(issue.level == "ERROR" for issue in issues)`. */
  function AnyError(issues: seq<ChartIssue>): (b: bool)
    ensures b <==> exists i :: 0 <= i < |issues| && issues[i].level == Error
  {
    if |issues| == 0 then false
    else issues[0].level == Error || AnyError(issues[1..])
  }

  /** `report.has_errors()`. */
  function HasErrors(report: ChartValidationReport): (b: bool)
    ensures b <==> exists issue :: issue in report.issues && issue.level == Error
  {
    AnyError(report.issues)
  }

  // ---------------------------------------------------------------------------
  // Row filters
  // ---------------------------------------------------------------------------

  /** Whether a row passes one filter: a scalar is compared with `==`, which a
      null cell never satisfies (and a `None` scalar matches nothing); a
      collection is matched with `isin`, by membership. */
  predicate Matches(row: Row, filter: (string, Expected))
  {
    match filter.1
    case Scalar(v) => v.Some? && CellOf(row, filter.0) == v
    case Members(vs) => CellOf(row, filter.0) in vs
  }

  predicate MatchesAll(row: Row, filters: seq<(string, Expected)>)
  {
    forall k :: 0 <= k < |filters| ==> Matches(row, filters[k])
  }

  function Matcher(filter: (string, Expected)): Row -> bool
  {
    row => Matches(row, filter)
  }

  function AllMatcher(filters: seq<(string, Expected)>): Row -> bool
  {
    row => MatchesAll(row, filters)
  }

  function FilterColumnMissing(column: string): Failure
  {
    KeyError("Filter column not found: " + column)
  }

  /** Applies the filters one after the other; every filter column is looked
      up in the original dataset. */
  function Narrow(df: Frame, rows: seq<Row>, filters: seq<(string, Expected)>): (r: Result<seq<Row>>)
    ensures r.Ok? <==> forall k :: 0 <= k < |filters| ==> HasColumn(df, filters[k].0)
    ensures r.Err? ==> exists k :: 0 <= k < |filters| && !HasColumn(df, filters[k].0)
                                   && r.failure == FilterColumnMissing(filters[k].0)
                                   && forall j :: 0 <= j < k ==> HasColumn(df, filters[j].0)
    decreases |filters|
  {
    if |filters| == 0 then Ok(rows)
    else if !HasColumn(df, filters[0].0) then Err(FilterColumnMissing(filters[0].0))
    else
      var r := Narrow(df, Filter(rows, Matcher(filters[0])), filters[1..]);
      assert forall k :: 0 < k < |filters| ==> filters[k] == filters[1..][k - 1];
      r
  }

  /** `_apply_filters(df, filters)`. */
  function ApplyFilters(df: Frame, filters: seq<(string, Expected)>): (r: Result<Frame>)
    ensures r.Ok? <==> forall k :: 0 <= k < |filters| ==> HasColumn(df, filters[k].0)
    ensures r.Ok? ==> r.value.columns == df.columns
  {
    var rows := Narrow(df, df.rows, filters);
    if rows.Err? then Err(rows.failure) else Ok(Frame(df.columns, rows.value))
  }

  lemma {:induction false} NarrowKeeps(df: Frame, rows: seq<Row>, filters: seq<(string, Expected)>)
    requires Narrow(df, rows, filters).Ok?
    ensures Narrow(df, rows, filters).value == Filter(rows, AllMatcher(filters))
    decreases |filters|
  {
    if |filters| == 0 {
      FilterAll(rows, AllMatcher(filters));
    } else {
      var rest := filters[1..];
      NarrowKeeps(df, Filter(rows, Matcher(filters[0])), rest);
      forall row: Row
        ensures AllMatcher(filters)(row) == (Matcher(filters[0])(row) && AllMatcher(rest)(row))
      {
        assert forall k :: 0 < k < |filters| ==> filters[k] == rest[k - 1];
        if MatchesAll(row, filters) {
          assert forall k :: 0 <= k < |rest| ==> rest[k] == filters[k + 1];
        }
      }
      FilterFilter(rows, Matcher(filters[0]), AllMatcher(rest), AllMatcher(filters));
    }
  }

  /** `_apply_filters` fails on the first filter column the dataset lacks;
      otherwise it keeps, in their original order, exactly the rows that
      pass every filter. */
  lemma ApplyFiltersKeeps(df: Frame, filters: seq<(string, Expected)>)
    ensures ApplyFilters(df, filters).Err? ==>
      exists k :: 0 <= k < |filters| && !HasColumn(df, filters[k].0)
                  && ApplyFilters(df, filters).failure == FilterColumnMissing(filters[k].0)
                  && forall j :: 0 <= j < k ==> HasColumn(df, filters[j].0)
    ensures ApplyFilters(df, filters).Ok? ==>
      ApplyFilters(df, filters).value.rows == Filter(df.rows, AllMatcher(filters))
    ensures ApplyFilters(df, filters).Ok? ==>
      forall row :: row in ApplyFilters(df, filters).value.rows <==> row in df.rows && MatchesAll(row, filters)
  {
    if Narrow(df, df.rows, filters).Ok? {
      NarrowKeeps(df, df.rows, filters);
    }
  }

  /** Without filters the dataset is used as it is. */
  lemma NoFiltersKeepAll(df: Frame)
    ensures ApplyFilters(df, []) == Ok(df)
  {
  }

  // ---------------------------------------------------------------------------
  // Bar-chart aggregates
  // ---------------------------------------------------------------------------

  datatype Aggregation = Mean | Sum | Count

  /** The aggregations a bar chart may name. */
  function AggregationNamed(name: string): (r: Option<Aggregation>)
    ensures r.Some? <==> name == "mean" || name == "sum" || name == "count"
  {
    if name == "mean" then Some(Mean)
    else if name == "sum" then Some(Sum)
    else if name == "count" then Some(Count)
    else None
  }

  function AsCell(v: Value): Cell
  {
    Some(v)
  }

  function ByColumn(name: string): Row -> Cell
  {
    row => CellOf(row, name)
  }

  /** The group keys of `groupby(x)`: the distinct non-null x values; rows
      whose key is null belong to no group. */
  function GroupKeys(rows: seq<Row>, x: string): (r: seq<Value>)
    ensures forall v :: v in r <==> Some(v) in Series(rows, x)
    ensures Distinct(r)
  {
    Dedup(NonNull(Series(rows, x)))
  }

  function InGroup(x: string, key: Value): Row -> bool
  {
    row => CellOf(row, x) == Some(key)
  }

  /** The y cells of the group with this key, in row order. */
  function GroupCells(rows: seq<Row>, x: string, key: Value, y: string): seq<Cell>
  {
    Series(Filter(rows, InGroup(x, key)), y)
  }

  function SumOf(xs: seq<real>): real
  {
    if |xs| == 0 then 0.0 else xs[0] + SumOf(xs[1..])
  }

  /** The numbers among the cells, nulls skipped. */
  function Numbers(cells: seq<Cell>): (r: seq<real>)
    ensures |r| <= |cells|
  {
    if |cells| == 0 then []
    else (if cells[0].Some? && cells[0].value.Num? then [cells[0].value.n] else []) + Numbers(cells[1..])
  }

  /** `mean()`, `sum()` or `count()` of one group's y cells, nulls skipped:
      the mean of a group without numbers is NaN (`None`), its sum is 0, and
      the count counts every non-null cell. */
  function Aggregate(agg: Aggregation, cells: seq<Cell>): (r: Float)
    ensures agg != Mean ==> r.Some?
    ensures agg == Count ==> r == Some(|NonNull(cells)| as real)
    ensures agg == Mean ==> (r.None? <==> |Numbers(cells)| == 0)
    ensures agg == Mean && r.Some? ==> r.value * |Numbers(cells)| as real == SumOf(Numbers(cells))
  {
    match agg
    case Count => Some(|NonNull(cells)| as real)
    case Sum => Some(SumOf(Numbers(cells)))
    case Mean =>
      var ns := Numbers(cells);
      if |ns| == 0 then None else Some(SumOf(ns) / |ns| as real)
  }

  /** In a group without text, the mean is NaN exactly when the count is 0,
      and otherwise the mean times the count is the sum. */
  lemma MeanCountSum(cells: seq<Cell>)
    requires forall i :: 0 <= i < |cells| ==> cells[i].None? || cells[i].value.Num?
    ensures Aggregate(Mean, cells).None? <==> Aggregate(Count, cells) == Some(0.0)
    ensures Aggregate(Mean, cells).Some? ==>
      Aggregate(Mean, cells).value * Aggregate(Count, cells).value == Aggregate(Sum, cells).value
  {
    NumbersOfNumeric(cells);
  }

  /** Without text cells, every non-null cell is a number. */
  lemma {:induction false} NumbersOfNumeric(cells: seq<Cell>)
    requires forall i :: 0 <= i < |cells| ==> cells[i].None? || cells[i].value.Num?
    ensures |Numbers(cells)| == |NonNull(cells)|
  {
    if |cells| > 0 {
      NumbersOfNumeric(cells[1..]);
    }
  }

  /** Some row of a group holds a text y value, which `mean()` and `sum()`
      cannot add up. */
  predicate TextInGroups(rows: seq<Row>, x: string, y: string)
  {
    exists i :: 0 <= i < |rows| && CellOf(rows[i], x).Some? && CellOf(rows[i], y).Some? && CellOf(rows[i], y).value.Text?
  }

  /** One bar: a category and its aggregate (`None` for NaN). */
  datatype Point = Point(x: Value, y: Float)

  predicate AscendingKeys(points: seq<Point>)
  {
    forall i, j :: 0 <= i < j < |points| ==> ValueLe(points[i].x, points[j].x) && points[i].x != points[j].x
  }

  const AggregationFailed := "agg function failed: text values cannot be added"
  const MixedComparison := "'<' not supported between instances of 'str' and 'float'"

  /** Distinct values in ascending order. */
  function SortedKeys(keys: seq<Value>): (r: seq<Value>)
    requires Distinct(keys)
    ensures forall v :: v in r <==> v in keys
    ensures forall i, j :: 0 <= i < j < |r| ==> ValueLe(r[i], r[j]) && r[i] != r[j]
  {
    var sorted := Sorting.SortBy(keys, AsCell);
    Sorting.SortByMembers(keys, AsCell);
    DistinctPermutation(keys, sorted);
    sorted
  }

  /** One point per key, in the keys' order. */
  function PointsOf(keys: seq<Value>, rows: seq<Row>, x: string, y: string, agg: Aggregation): (r: seq<Point>)
    ensures |r| == |keys|
    ensures forall i :: 0 <= i < |r| ==> r[i].x == keys[i]
    ensures forall i :: 0 <= i < |r| ==> r[i].y == Aggregate(agg, GroupCells(rows, x, keys[i], y))
  {
    seq(|keys|, i requires 0 <= i < |keys| => Point(keys[i], Aggregate(agg, GroupCells(rows, x, keys[i], y))))
  }

  /** `expected_df`: the aggregate per group, sorted by category.  Adding up
      text raises first; sorting categories of both kinds raises next. */
  function ExpectedPoints(rows: seq<Row>, x: string, y: string, agg: Aggregation): (r: Result<seq<Point>>)
    ensures r.Err? <==> (agg != Count && TextInGroups(rows, x, y)) || MixedKinds(GroupKeys(rows, x))
    ensures r.Ok? ==> AscendingKeys(r.value)
  {
    var keys := GroupKeys(rows, x);
    if agg != Count && TextInGroups(rows, x, y) then Err(TypeError(AggregationFailed))
    else if MixedKinds(keys) then Err(TypeError(MixedComparison))
    else Ok(PointsOf(SortedKeys(keys), rows, x, y, agg))
  }

  /** The expected bars are one per distinct non-null x value of the filtered
      rows, each carrying its group's aggregate. */
  lemma ExpectedPointsGroups(rows: seq<Row>, x: string, y: string, agg: Aggregation)
    requires ExpectedPoints(rows, x, y, agg).Ok?
    ensures var points := ExpectedPoints(rows, x, y, agg).value;
      forall v :: (exists i :: 0 <= i < |points| && points[i].x == v) <==> Some(v) in Series(rows, x)
    ensures var points := ExpectedPoints(rows, x, y, agg).value;
      forall i :: 0 <= i < |points| ==> points[i].y == Aggregate(agg, GroupCells(rows, x, points[i].x, y))
  {
    var keys := SortedKeys(GroupKeys(rows, x));
    var points := ExpectedPoints(rows, x, y, agg).value;
    assert points == PointsOf(keys, rows, x, y, agg);
    PointsOfKeys(keys, rows, x, y, agg);
  }

  /** The bars' categories are the keys. */
  lemma PointsOfKeys(keys: seq<Value>, rows: seq<Row>, x: string, y: string, agg: Aggregation)
    ensures var points := PointsOf(keys, rows, x, y, agg);
      forall v :: (exists i :: 0 <= i < |points| && points[i].x == v) <==> v in keys
  {
    var points := PointsOf(keys, rows, x, y, agg);
    forall v | v in keys
      ensures exists i :: 0 <= i < |points| && points[i].x == v
    {
      var i :| 0 <= i < |keys| && keys[i] == v;
      assert points[i].x == v;
    }
  }

  // ---------------------------------------------------------------------------
  // Comparing a bar chart with its expected bars
  // ---------------------------------------------------------------------------

  function XCells(points: seq<Point>): (r: seq<Cell>)
    ensures |r| == |points| && forall i :: 0 <= i < |r| ==> r[i] == Some(points[i].x)
  {
    seq(|points|, i requires 0 <= i < |points| => Some(points[i].x))
  }

  function YValues(points: seq<Point>): (r: seq<Float>)
    ensures |r| == |points| && forall i :: 0 <= i < |r| ==> r[i] == points[i].y
  {
    seq(|points|, i requires 0 <= i < |points| => points[i].y)
  }

  /** `series.astype(float)`: a null becomes NaN, a number stays as it is,
      and a text is read by `float()`; the first text it rejects raises
      `ValueError`. */
  function AsFloats(cells: seq<Cell>, parse: FloatParser): (r: Result<seq<Float>>)
    ensures r.Ok? <==> forall i :: 0 <= i < |cells| ==> cells[i].None? || cells[i].value.Num? || parse(cells[i].value.s).Some?
    ensures r.Err? ==> r.failure.ValueError?
    ensures r.Ok? ==> |r.value| == |cells|
    ensures r.Ok? ==> forall i :: 0 <= i < |cells| ==>
      r.value[i] == (if cells[i].None? then None else if cells[i].value.Num? then Some(cells[i].value.n) else parse(cells[i].value.s).value)
  {
    if |cells| == 0 then Ok([])
    else
      var rest := AsFloats(cells[1..], parse);
      assert forall i :: 0 < i < |cells| ==> cells[i] == cells[1..][i - 1];
      var first: Option<Float> :=
        if cells[0].None? then Some(None)
        else if cells[0].value.Num? then Some(Some(cells[0].value.n))
        else parse(cells[0].value.s);
      if first.None? then Err(ValueError("could not convert string to float: '" + cells[0].value.s + "'"))
      else if rest.Err? then Err(rest.failure)
      else Ok([first.value] + rest.value)
  }

  /** `(deltas > tolerance).any()`: NaN deltas never exceed. */
  predicate Exceeds(e: seq<Float>, c: seq<Float>, tolerance: real)
    requires |e| == |c|
  {
    exists i :: 0 <= i < |e| && Beyond(e[i], c[i], tolerance)
  }

  /** `deltas.max()`, skipping NaN. */
  function LargestDelta(e: seq<Float>, c: seq<Float>): (r: Float)
    requires |e| == |c|
    ensures r.None? <==> forall i :: 0 <= i < |e| ==> Delta(e[i], c[i]).None?
    ensures r.Some? ==> forall i :: 0 <= i < |e| && Delta(e[i], c[i]).Some? ==> Delta(e[i], c[i]).value <= r.value
    ensures r.Some? ==> exists i :: 0 <= i < |e| && Delta(e[i], c[i]) == r
  {
    if |e| == 0 then None
    else
      var rest := LargestDelta(e[1..], c[1..]);
      var d := Delta(e[0], c[0]);
      assert forall i :: 0 < i < |e| ==> e[i] == e[1..][i - 1] && c[i] == c[1..][i - 1];
      if d.None? then rest
      else if rest.None? || rest.value <= d.value then d
      else rest
  }

  /** The chart's rows in x order (`chart_data.sort_values(x)`), nulls last. */
  function SortedChartRows(chart: Frame, x: string): (r: seq<Row>)
    ensures multiset(r) == multiset(chart.rows)
    ensures Sorting.SortedBy(r, ByColumn(x))
  {
    Sorting.SortBy(chart.rows, ByColumn(x))
  }

  /** Some text y cell of the chart faces an expected number.  Subtracting an
      object column from a float column, pandas falls back to a masked
      operation that subtracts only where both sides are non-null; a text
      facing an expected NaN is skipped (its delta is NaN), while a text
      facing a number raises `TypeError`. */
  predicate TextFacesNumber(ys: seq<Cell>, expected: seq<Float>)
  {
    exists i :: 0 <= i < |ys| && i < |expected| && ys[i].Some? && ys[i].value.Text? && expected[i].Some?
  }

  /** Compares the expected bars with the chart's rows sorted by x: first the
      category sequences, then the values. */
  function CompareBar(identifier: string, points: seq<Point>, chart: Frame, x: string, y: string, tolerance: real, parse: FloatParser)
    : (r: Result<Option<ChartIssue>>)
    ensures !HasColumn(chart, x) ==> r == Err(KeyError(x))
    ensures r.Ok? && r.value.Some? ==> r.value.value.identifier == identifier && r.value.value.level == Error
    ensures r.Ok? && r.value.Some? ==> r.value.value.message == CategoryMismatch || r.value.value.message == ValuesDiffer
  {
    if !HasColumn(chart, x) then Err(KeyError(x))
    else if MixedKinds(NonNull(Series(chart.rows, x))) then Err(TypeError(MixedComparison))
    else
      var candidate := SortedChartRows(chart, x);
      var expectedX, observedX := XCells(points), Series(candidate, x);
      if expectedX != observedX then
        Ok(Some(ChartIssue(identifier, Error, CategoryMismatch, Categories(expectedX, observedX))))
      else if !HasColumn(chart, y) then Err(KeyError(y))
      else
        var ys := Series(candidate, y);
        var observedY := AsFloats(ys, parse);
        if observedY.Err? then Err(observedY.failure)
        else
          var expectedY := YValues(points);
          if expectedY == observedY.value then Ok(None)
          else if TextFacesNumber(ys, expectedY) then Err(TypeError("unsupported operand type(s) for -: 'float' and 'str'"))
          else if !Exceeds(expectedY, observedY.value, tolerance) then Ok(None)
          else Ok(Some(ChartIssue(identifier, Error, ValuesDiffer, MaxDelta(LargestDelta(expectedY, observedY.value).value))))
  }

  // ---------------------------------------------------------------------------
  // One chart
  // ---------------------------------------------------------------------------

  /** The chart x-values absent from the filtered x column, in chart order. */
  function UnknownX(chartX: seq<Cell>, dataX: seq<Cell>): (r: seq<Cell>)
    ensures forall c :: c in r <==> c in chartX && c !in dataX
  {
    Filter(chartX, c => c !in dataX)
  }

  /** `verify_chart(df, spec, chart_data, tolerance=tolerance)`: `Ok(None)` when
      the chart is consistent, `Ok(Some(issue))` for the one issue found, `Err`
      for what the check lets escape (a missing column, a filter column the
      dataset lacks, values that cannot be aggregated, sorted or converted). */
  function VerifyChart(df: Frame, spec: ChartSpec, chart: Frame, tolerance: real, parse: FloatParser): (r: Result<Option<ChartIssue>>)
    ensures ApplyFilters(df, spec.filters).Err? ==> r == Err(ApplyFilters(df, spec.filters).failure)
    ensures r.Ok? && r.value.Some? ==> r.value.value.identifier == spec.identifier
    ensures r.Ok? && r.value.Some? ==> r.value.value.message != Stale && r.value.value.message != OutputMissing
    ensures r.Ok? && r.value.Some? && r.value.value.level == Warn <==>
              ApplyFilters(df, spec.filters).Ok? && spec.kind != "bar" && spec.kind != "line"
    ensures ApplyFilters(df, spec.filters).Ok? && spec.kind == "bar" && spec.y.Some? && spec.aggregation.Some? ==>
              (!HasColumn(df, spec.x) ==> r == Err(KeyError(spec.x)))
              && (HasColumn(df, spec.x) && !HasColumn(df, spec.y.value) ==>
                    r == Err(KeyError("Column not found: " + spec.y.value)))
  {
    var filtered := ApplyFilters(df, spec.filters);
    if filtered.Err? then Err(filtered.failure)
    else
      var rows := filtered.value.rows;
      if spec.kind == "bar" then
        if spec.y.None? || spec.aggregation.None? then
          Ok(Some(ChartIssue(spec.identifier, Error, BarSpecIncomplete, NoContext)))
        else if !HasColumn(df, spec.x) then Err(KeyError(spec.x))
        else if !HasColumn(df, spec.y.value) then Err(KeyError("Column not found: " + spec.y.value))
        else
          var agg := AggregationNamed(spec.aggregation.value);
          if agg.None? then
            Ok(Some(ChartIssue(spec.identifier, Error, UnsupportedAggregation(spec.aggregation.value), NoContext)))
          else
            var points := ExpectedPoints(rows, spec.x, spec.y.value, agg.value);
            if points.Err? then Err(points.failure)
            else CompareBar(spec.identifier, points.value, chart, spec.x, spec.y.value, tolerance, parse)
      else if spec.kind == "line" then
        if !HasColumn(chart, spec.x) || !HasColumn(df, spec.x) then Err(KeyError(spec.x))
        else
          var missing := UnknownX(Series(chart.rows, spec.x), Series(rows, spec.x));
          if |missing| == 0 then Ok(None)
          else Ok(Some(ChartIssue(spec.identifier, Error, UnknownXValues, MissingValues(missing))))
      else
        Ok(Some(ChartIssue(spec.identifier, Warn, NoValidator(spec.kind), NoContext)))
  }

  // ---------------------------------------------------------------------------
  // What one chart's verdict means
  // ---------------------------------------------------------------------------

  /** A bar spec without y or aggregation, or naming an aggregation other than
      mean, sum and count, gets a single ERROR. */
  lemma BarSpecRejected(df: Frame, spec: ChartSpec, chart: Frame, tolerance: real, parse: FloatParser)
    requires spec.kind == "bar" && ApplyFilters(df, spec.filters).Ok?
    ensures spec.y.None? || spec.aggregation.None? ==>
      VerifyChart(df, spec, chart, tolerance, parse) == Ok(Some(ChartIssue(spec.identifier, Error, BarSpecIncomplete, NoContext)))
    ensures spec.y.Some? && spec.aggregation.Some? && HasColumn(df, spec.x) && HasColumn(df, spec.y.value)
            && spec.aggregation.value != "mean" && spec.aggregation.value != "sum" && spec.aggregation.value != "count" ==>
      VerifyChart(df, spec, chart, tolerance, parse)
        == Ok(Some(ChartIssue(spec.identifier, Error, UnsupportedAggregation(spec.aggregation.value), NoContext)))
  {
  }

  /** A bar spec whose expected bars could be computed, and whose chart can be
      sorted by x. */
  predicate BarComparable(df: Frame, spec: ChartSpec, chart: Frame)
  {
    && spec.kind == "bar" && spec.y.Some? && spec.aggregation.Some?
    && AggregationNamed(spec.aggregation.value).Some?
    && ApplyFilters(df, spec.filters).Ok?
    && HasColumn(df, spec.x) && HasColumn(df, spec.y.value)
    && ExpectedPoints(ApplyFilters(df, spec.filters).value.rows, spec.x, spec.y.value,
                      AggregationNamed(spec.aggregation.value).value).Ok?
    && HasColumn(chart, spec.x) && !MixedKinds(NonNull(Series(chart.rows, spec.x)))
  }

  function BarPoints(df: Frame, spec: ChartSpec, chart: Frame): seq<Point>
    requires BarComparable(df, spec, chart)
  {
    ExpectedPoints(ApplyFilters(df, spec.filters).value.rows, spec.x, spec.y.value,
                   AggregationNamed(spec.aggregation.value).value).value
  }

  /** Both sides sorted by x, a bar chart gets a "Category mismatch" ERROR
      exactly when the category sequences differ, with both sequences in the
      context. */
  lemma BarCategories(df: Frame, spec: ChartSpec, chart: Frame, tolerance: real, parse: FloatParser)
    requires BarComparable(df, spec, chart)
    ensures var expectedX := XCells(BarPoints(df, spec, chart));
      var observedX := Series(SortedChartRows(chart, spec.x), spec.x);
      expectedX != observedX <==>
        VerifyChart(df, spec, chart, tolerance, parse)
          == Ok(Some(ChartIssue(spec.identifier, Error, CategoryMismatch, Categories(expectedX, observedX))))
  {
    var points := BarPoints(df, spec, chart);
    assert VerifyChart(df, spec, chart, tolerance, parse) == CompareBar(spec.identifier, points, chart, spec.x, spec.y.value, tolerance, parse);
    CompareBarCategories(spec.identifier, points, chart, spec.x, spec.y.value, tolerance, parse);
  }

  /** The category step of the comparison, for a chart sortable by x. */
  lemma CompareBarCategories(identifier: string, points: seq<Point>, chart: Frame, x: string, y: string, tolerance: real, parse: FloatParser)
    requires HasColumn(chart, x) && !MixedKinds(NonNull(Series(chart.rows, x)))
    ensures var expectedX, observedX := XCells(points), Series(SortedChartRows(chart, x), x);
      expectedX != observedX <==>
        CompareBar(identifier, points, chart, x, y, tolerance, parse)
          == Ok(Some(ChartIssue(identifier, Error, CategoryMismatch, Categories(expectedX, observedX))))
  {
  }

  /** The value step of the comparison, once the categories agree. */
  lemma CompareBarValues(identifier: string, points: seq<Point>, chart: Frame, x: string, y: string, tolerance: real, parse: FloatParser)
    requires HasColumn(chart, x) && !MixedKinds(NonNull(Series(chart.rows, x)))
    requires XCells(points) == Series(SortedChartRows(chart, x), x)
    requires HasColumn(chart, y) && AsFloats(Series(SortedChartRows(chart, x), y), parse).Ok?
    ensures var ys := Series(SortedChartRows(chart, x), y);
      var expectedY, observedY := YValues(points), AsFloats(ys, parse).value;
      var r := CompareBar(identifier, points, chart, x, y, tolerance, parse);
      && (expectedY == observedY ==> r == Ok(None))
      && (expectedY != observedY && TextFacesNumber(ys, expectedY) ==> r.Err? && r.failure.TypeError?)
      && (expectedY != observedY && !TextFacesNumber(ys, expectedY) ==>
            && r.Ok?
            && (r.value.Some? <==> Exceeds(expectedY, observedY, tolerance))
            && (r.value.Some? ==>
                  r.value.value == ChartIssue(identifier, Error, ValuesDiffer, MaxDelta(LargestDelta(expectedY, observedY).value))))
  {
  }

  /** With equal categories and a y column `float()` can read, a bar chart
      passes when the values are equal.  Otherwise a text among the chart's y
      cells facing an expected number makes the subtraction raise
      `TypeError`; without one (a text facing an expected NaN is masked), the chart
      gets an ERROR exactly when some |expected - observed| exceeds the
      tolerance, and the context holds the largest difference. */
  lemma BarValues(df: Frame, spec: ChartSpec, chart: Frame, tolerance: real, parse: FloatParser)
    requires BarComparable(df, spec, chart)
    requires XCells(BarPoints(df, spec, chart)) == Series(SortedChartRows(chart, spec.x), spec.x)
    requires HasColumn(chart, spec.y.value) && AsFloats(Series(SortedChartRows(chart, spec.x), spec.y.value), parse).Ok?
    ensures var ys := Series(SortedChartRows(chart, spec.x), spec.y.value);
      var expectedY := YValues(BarPoints(df, spec, chart));
      var observedY := AsFloats(ys, parse).value;
      var r := VerifyChart(df, spec, chart, tolerance, parse);
      && (expectedY == observedY ==> r == Ok(None))
      && (expectedY != observedY && TextFacesNumber(ys, expectedY) ==> r.Err? && r.failure.TypeError?)
      && (expectedY != observedY && !TextFacesNumber(ys, expectedY) ==>
            && r.Ok?
            && (r.value.Some? <==> Exceeds(expectedY, observedY, tolerance))
            && (r.value.Some? ==>
                  r.value.value == ChartIssue(spec.identifier, Error, ValuesDiffer, MaxDelta(LargestDelta(expectedY, observedY).value))))
  {
    var points := BarPoints(df, spec, chart);
    assert VerifyChart(df, spec, chart, tolerance, parse) == CompareBar(spec.identifier, points, chart, spec.x, spec.y.value, tolerance, parse);
    CompareBarValues(spec.identifier, points, chart, spec.x, spec.y.value, tolerance, parse);
  }

  /** A one-bar chart whose y cell holds the text "3". */
  function TextScoreChart(): Frame
  {
    Frame([Column("segment", ObjectDtype), Column("score", ObjectDtype)],
          [map["segment" := Text("A"), "score" := Text("3")]])
  }

  /** Against a group whose mean is NaN (no numbers), a text y cell is
      masked out of the subtraction: no TypeError and no issue. */
  lemma TextFacingNaNPasses(parse: FloatParser)
    requires parse("3").Some?
    ensures CompareBar("c", [Point(Text("A"), None)], TextScoreChart(), "segment", "score", 0.000001, parse) == Ok(None)
  {
    var chart, points := TextScoreChart(), [Point(Text("A"), None)];
    assert HasColumn(chart, "segment") by { assert chart.columns[0].name == "segment"; }
    assert HasColumn(chart, "score") by { assert chart.columns[1].name == "score"; }
    assert Series(chart.rows, "segment") == [Some(Text("A"))];
    assert !MixedKinds(NonNull(Series(chart.rows, "segment")));
    var candidate := SortedChartRows(chart, "segment");
    assert candidate == chart.rows by {
      assert |candidate| == 1 && candidate[0] in multiset(chart.rows);
    }
    assert XCells(points) == Series(candidate, "segment");
    var ys := Series(candidate, "score");
    assert ys == [Some(Text("3"))];
    assert ys[0].value.s == "3";
    var observedY := AsFloats(ys, parse);
    assert observedY.Ok? && |observedY.value| == 1;
    var expectedY := YValues(points);
    assert expectedY == [None];
    assert !TextFacesNumber(ys, expectedY);
    assert !Exceeds(expectedY, observedY.value, 0.000001);
  }

  /** A y cell holding numeric text is read as its number: "4.5" matches an
      expected 4.5. */
  lemma NumericTextRead(parse: FloatParser)
    requires parse("4.5") == Some(Some(4.5))
    ensures AsFloats([Some(Text("4.5")), None, Some(Num(2.0))], parse) == Ok([Some(4.5), None, Some(2.0)])
  {
    var cells: seq<Cell> := [Some(Text("4.5")), None, Some(Num(2.0))];
    var r := AsFloats(cells, parse);
    assert cells[0].value.s == "4.5";
    assert r.Ok?;
    assert r.value[0] == Some(4.5) && r.value[1] == None && r.value[2] == Some(2.0);
    assert r.value == [Some(4.5), None, Some(2.0)];
  }

  /** A line chart gets an ERROR exactly when some chart x-value is absent from
      the filtered x column; the values listed are exactly those, in chart
      order. */
  lemma LineVerdict(df: Frame, spec: ChartSpec, chart: Frame, tolerance: real, parse: FloatParser)
    requires spec.kind == "line" && ApplyFilters(df, spec.filters).Ok?
    requires HasColumn(chart, spec.x) && HasColumn(df, spec.x)
    ensures var chartX := Series(chart.rows, spec.x);
      var dataX := Series(ApplyFilters(df, spec.filters).value.rows, spec.x);
      && VerifyChart(df, spec, chart, tolerance, parse).Ok?
      && (VerifyChart(df, spec, chart, tolerance, parse).value.Some? <==> exists i :: 0 <= i < |chartX| && chartX[i] !in dataX)
      && (VerifyChart(df, spec, chart, tolerance, parse).value.Some? ==>
            VerifyChart(df, spec, chart, tolerance, parse).value.value
              == ChartIssue(spec.identifier, Error, UnknownXValues, MissingValues(UnknownX(chartX, dataX))))
  {
    var chartX := Series(chart.rows, spec.x);
    var dataX := Series(ApplyFilters(df, spec.filters).value.rows, spec.x);
    var missing := UnknownX(chartX, dataX);
    assert VerifyChart(df, spec, chart, tolerance, parse)
      == if |missing| == 0 then Ok(None)
         else Ok(Some(ChartIssue(spec.identifier, Error, UnknownXValues, MissingValues(missing))));
    UnknownXEmpty(chartX, dataX);
  }

  /** Some chart x-value is unknown exactly when the list of unknown ones is
      not empty. */
  lemma UnknownXEmpty(chartX: seq<Cell>, dataX: seq<Cell>)
    ensures |UnknownX(chartX, dataX)| > 0 <==> exists i :: 0 <= i < |chartX| && chartX[i] !in dataX
  {
    var missing := UnknownX(chartX, dataX);
    if exists i :: 0 <= i < |chartX| && chartX[i] !in dataX {
      var i :| 0 <= i < |chartX| && chartX[i] !in dataX;
      assert chartX[i] in missing;
    }
    if |missing| > 0 {
      assert missing[0] in chartX && missing[0] !in dataX;
      var i :| 0 <= i < |chartX| && chartX[i] == missing[0];
    }
  }

  /** Any other kind gets only a WARN, which is not an error. */
  lemma OtherKindWarns(df: Frame, spec: ChartSpec, chart: Frame, tolerance: real, parse: FloatParser)
    requires spec.kind != "bar" && spec.kind != "line" && ApplyFilters(df, spec.filters).Ok?
    ensures VerifyChart(df, spec, chart, tolerance, parse) == Ok(Some(ChartIssue(spec.identifier, Warn, NoValidator(spec.kind), NoContext)))
    ensures !AnyError([VerifyChart(df, spec, chart, tolerance, parse).value.value])
  {
  }

  // ---------------------------------------------------------------------------
  // A chart holding exactly the expected bars
  // ---------------------------------------------------------------------------

  /** The row of a chart that shows this bar (no y cell for a NaN aggregate). */
  function ExactRow(p: Point, x: string, y: string): Row
  {
    if p.y.Some? then map[x := p.x, y := Num(p.y.value)] else map[x := p.x]
  }

  function ExactRows(points: seq<Point>, x: string, y: string): (r: seq<Row>)
    requires x != y
    ensures |r| == |points|
    ensures forall i :: 0 <= i < |r| ==> CellOf(r[i], x) == Some(points[i].x)
    ensures forall i :: 0 <= i < |r| ==> CellOf(r[i], y) == (if points[i].y.Some? then Some(Num(points[i].y.value)) else None)
  {
    seq(|points|, i requires 0 <= i < |points| => ExactRow(points[i], x, y))
  }

  /** Rearranging a chart's rows does not change the order the checker sees:
      sorted by x, the rows of any arrangement of the exact bars are the
      bars in category order. */
  lemma ExactRowsSorted(points: seq<Point>, chart: Frame, x: string, y: string)
    requires x != y && AscendingKeys(points)
    requires multiset(chart.rows) == multiset(ExactRows(points, x, y))
    ensures SortedChartRows(chart, x) == ExactRows(points, x, y)
  {
    var e := ExactRows(points, x, y);
    var key := ByColumn(x);
    assert Sorting.SortedBy(e, key) by {
      forall i, j | 0 <= i < j < |e|
        ensures CellLe(key(e[i]), key(e[j]))
      {
      }
    }
    assert forall i, j :: 0 <= i < |e| && 0 <= j < |e| && key(e[i]) == key(e[j]) ==> e[i] == e[j] by {
      forall i, j | 0 <= i < |e| && 0 <= j < |e| && key(e[i]) == key(e[j])
        ensures e[i] == e[j]
      {
      }
    }
    Sorting.SortByPermutationInvariant(e, chart.rows, key);
    Sorting.SortedUnique(e, Sorting.SortBy(e, key), key);
  }

  lemma MixedKindsSubset(a: seq<Value>, b: seq<Value>)
    requires forall v :: v in a ==> v in b
    ensures MixedKinds(a) ==> MixedKinds(b)
  {
    if MixedKinds(a) {
      var i :| 0 <= i < |a| && a[i].Num?;
      var j :| 0 <= j < |a| && a[j].Text?;
      assert a[i] in b && a[j] in b;
    }
  }

  /** The x-values of a chart holding the expected bars are group keys, so
      they are of one kind and sorting them does not raise. */
  lemma ExactChartSortable(rows: seq<Row>, points: seq<Point>, chart: Frame, x: string, y: string)
    requires x != y
    requires forall i :: 0 <= i < |points| ==> Some(points[i].x) in Series(rows, x)
    requires !MixedKinds(GroupKeys(rows, x))
    requires multiset(chart.rows) == multiset(ExactRows(points, x, y))
    ensures !MixedKinds(NonNull(Series(chart.rows, x)))
  {
    var e := ExactRows(points, x, y);
    var keys := GroupKeys(rows, x);
    forall v | v in NonNull(Series(chart.rows, x))
      ensures v in keys
    {
      var i :| 0 <= i < |chart.rows| && Series(chart.rows, x)[i] == Some(v);
      assert chart.rows[i] in multiset(e);
      var j :| 0 <= j < |e| && e[j] == chart.rows[i];
      assert v == points[j].x;
    }
    MixedKindsSubset(NonNull(Series(chart.rows, x)), keys);
  }

  /** Reading the exact rows back gives the expected categories and values. */
  lemma ExactRowsRead(points: seq<Point>, x: string, y: string, parse: FloatParser)
    requires x != y
    ensures Series(ExactRows(points, x, y), x) == XCells(points)
    ensures AsFloats(Series(ExactRows(points, x, y), y), parse) == Ok(YValues(points))
  {
    var ys := Series(ExactRows(points, x, y), y);
    assert AsFloats(ys, parse).Ok?;
    assert AsFloats(ys, parse).value == YValues(points);
  }

  /** A bar chart whose rows are the exact aggregates, in any order, passes:
      its categories match and its values are the expected ones. */
  lemma ExactAggregatesPass(df: Frame, spec: ChartSpec, chart: Frame, tolerance: real, parse: FloatParser)
    requires spec.kind == "bar" && spec.y.Some? && spec.aggregation.Some? && spec.x != spec.y.value
    requires AggregationNamed(spec.aggregation.value).Some?
    requires ApplyFilters(df, spec.filters).Ok?
    requires HasColumn(df, spec.x) && HasColumn(df, spec.y.value)
    requires ExpectedPoints(ApplyFilters(df, spec.filters).value.rows, spec.x, spec.y.value,
                            AggregationNamed(spec.aggregation.value).value).Ok?
    requires HasColumn(chart, spec.x) && HasColumn(chart, spec.y.value)
    requires multiset(chart.rows) == multiset(ExactRows(ExpectedPoints(ApplyFilters(df, spec.filters).value.rows,
               spec.x, spec.y.value, AggregationNamed(spec.aggregation.value).value).value, spec.x, spec.y.value))
    ensures VerifyChart(df, spec, chart, tolerance, parse) == Ok(None)
  {
    var rows := ApplyFilters(df, spec.filters).value.rows;
    var agg := AggregationNamed(spec.aggregation.value).value;
    ExactRowsCompare(spec.identifier, rows, spec.x, spec.y.value, agg, chart, tolerance, parse);
    assert VerifyChart(df, spec, chart, tolerance, parse)
      == CompareBar(spec.identifier, ExpectedPoints(rows, spec.x, spec.y.value, agg).value, chart, spec.x, spec.y.value, tolerance, parse);
  }

  /** The exact aggregates, in any order, compare equal to the expected bars. */
  lemma ExactRowsCompare(identifier: string, rows: seq<Row>, x: string, y: string, agg: Aggregation, chart: Frame, tolerance: real, parse: FloatParser)
    requires x != y && ExpectedPoints(rows, x, y, agg).Ok?
    requires HasColumn(chart, x) && HasColumn(chart, y)
    requires multiset(chart.rows) == multiset(ExactRows(ExpectedPoints(rows, x, y, agg).value, x, y))
    ensures CompareBar(identifier, ExpectedPoints(rows, x, y, agg).value, chart, x, y, tolerance, parse) == Ok(None)
  {
    var points := ExpectedPoints(rows, x, y, agg).value;
    ExpectedPointsGroups(rows, x, y, agg);
    assert forall i :: 0 <= i < |points| ==> Some(points[i].x) in Series(rows, x) by {
      forall i | 0 <= i < |points|
        ensures Some(points[i].x) in Series(rows, x)
      {
        var v := points[i].x;
        assert exists k :: 0 <= k < |points| && points[k].x == v;
      }
    }
    ExactChartSortable(rows, points, chart, x, y);
    ExactRowsSorted(points, chart, x, y);
    ExactRowsRead(points, x, y, parse);
  }

  // ---------------------------------------------------------------------------
  // All charts
  // ---------------------------------------------------------------------------

  /** The chart captured a dataset signature that is not the current one. */
  predicate IsStale(spec: ChartSpec, signature: string)
  {
    spec.dataSignature.Some? && spec.dataSignature.value != "" && spec.dataSignature.value != signature
  }

  function StaleIssue(spec: ChartSpec, signature: string): ChartIssue
    requires spec.dataSignature.Some?
  {
    ChartIssue(spec.identifier, Error, Stale, Signatures(spec.dataSignature.value, signature))
  }

  /** The issues one spec contributes to the report.  A chart without output
      gets "Chart output missing." and nothing else; otherwise the chart's own
      issue, if any, is followed by the staleness issue, if any. */
  function SpecIssues(df: Frame, spec: ChartSpec, charts: map<string, Frame>, tolerance: real, parse: FloatParser, signature: string)
    : (r: Result<seq<ChartIssue>>)
    ensures spec.identifier !in charts ==> r == Ok([ChartIssue(spec.identifier, Error, OutputMissing, NoContext)])
    ensures spec.identifier in charts ==> (r.Ok? <==> VerifyChart(df, spec, charts[spec.identifier], tolerance, parse).Ok?)
    ensures r.Ok? ==> forall issue :: issue in r.value ==> issue.identifier == spec.identifier
  {
    if spec.identifier !in charts then Ok([ChartIssue(spec.identifier, Error, OutputMissing, NoContext)])
    else
      var issue := VerifyChart(df, spec, charts[spec.identifier], tolerance, parse);
      if issue.Err? then Err(issue.failure)
      else Ok(OwnIssue(issue.value) + StaleIssues(spec, signature))
  }

  function OwnIssue(issue: Option<ChartIssue>): (r: seq<ChartIssue>)
    ensures |r| <= 1 && (issue.Some? ==> r == [issue.value])
  {
    if issue.Some? then [issue.value] else []
  }

  function StaleIssues(spec: ChartSpec, signature: string): (r: seq<ChartIssue>)
    ensures IsStale(spec, signature) ==> r == [StaleIssue(spec, signature)]
    ensures !IsStale(spec, signature) ==> r == []
  {
    if IsStale(spec, signature) then [StaleIssue(spec, signature)] else []
  }

  /** A chart with output gets the staleness ERROR exactly when it captured a
      non-empty signature that differs from the dataset's, with both
      signatures in the context, as the last of its issues: even when its
      aggregates match. */
  lemma SpecIssuesStale(df: Frame, spec: ChartSpec, charts: map<string, Frame>, tolerance: real, parse: FloatParser, signature: string)
    requires spec.identifier in charts && SpecIssues(df, spec, charts, tolerance, parse, signature).Ok?
    ensures var issues := SpecIssues(df, spec, charts, tolerance, parse, signature).value;
      (exists k :: 0 <= k < |issues| && issues[k].message == Stale) <==> IsStale(spec, signature)
    ensures var issues := SpecIssues(df, spec, charts, tolerance, parse, signature).value;
      IsStale(spec, signature) ==> |issues| > 0 && issues[|issues| - 1] == StaleIssue(spec, signature)
  {
    var issue := VerifyChart(df, spec, charts[spec.identifier], tolerance, parse).value;
    var issues := SpecIssues(df, spec, charts, tolerance, parse, signature).value;
    assert issues == OwnIssue(issue) + StaleIssues(spec, signature);
    if IsStale(spec, signature) {
      assert issues[|issues| - 1].message == Stale;
    } else {
      assert issues == OwnIssue(issue);
      assert issue.Some? ==> issue.value.message != Stale;
    }
  }

  function SpecResults(df: Frame, specs: seq<ChartSpec>, charts: map<string, Frame>, tolerance: real, parse: FloatParser, signature: string)
    : (r: seq<Result<seq<ChartIssue>>>)
    ensures |r| == |specs|
    ensures forall k :: 0 <= k < |specs| ==> r[k] == SpecIssues(df, specs[k], charts, tolerance, parse, signature)
  {
    seq(|specs|, k requires 0 <= k < |specs| => SpecIssues(df, specs[k], charts, tolerance, parse, signature))
  }

  /** `validate_charts(df, specs, charts, tolerance=tolerance)`, with the
      dataset signature computed by `hash`.  Specs are checked in order; an
      exception from one chart escapes the whole call. */
  function ValidateCharts(df: Frame, specs: seq<ChartSpec>, charts: map<string, Frame>, tolerance: real, parse: FloatParser, hash: Frame -> string)
    : (r: Result<ChartValidationReport>)
    ensures r.Ok? ==> r.value.dataSignature == hash(df)
    ensures r.Ok? <==> forall k :: 0 <= k < |specs| ==> SpecIssues(df, specs[k], charts, tolerance, parse, hash(df)).Ok?
    ensures r.Err? ==> exists k :: 0 <= k < |specs| && SpecIssues(df, specs[k], charts, tolerance, parse, hash(df)) == Err(r.failure)
  {
    var signature := hash(df);
    var issues := Collect(SpecResults(df, specs, charts, tolerance, parse, signature));
    if issues.Err? then Err(issues.failure) else Ok(ChartValidationReport(issues.value, signature))
  }

  /** The report lists each spec's issues after those of the specs before it. */
  lemma ValidateChartsSnoc(df: Frame, specs: seq<ChartSpec>, spec: ChartSpec, charts: map<string, Frame>, tolerance: real, parse: FloatParser, hash: Frame -> string)
    requires ValidateCharts(df, specs, charts, tolerance, parse, hash).Ok?
    requires SpecIssues(df, spec, charts, tolerance, parse, hash(df)).Ok?
    ensures ValidateCharts(df, specs + [spec], charts, tolerance, parse, hash)
      == Ok(ChartValidationReport(ValidateCharts(df, specs, charts, tolerance, parse, hash).value.issues
                                  + SpecIssues(df, spec, charts, tolerance, parse, hash(df)).value, hash(df)))
  {
    var signature := hash(df);
    var rs := SpecResults(df, specs, charts, tolerance, parse, signature);
    var last := SpecIssues(df, spec, charts, tolerance, parse, signature);
    assert SpecResults(df, specs + [spec], charts, tolerance, parse, signature) == rs + [last];
    CollectSnoc(rs, last.value);
  }

  /** Every issue in the report names one of the specs. */
  lemma ReportNamesSpecs(df: Frame, specs: seq<ChartSpec>, charts: map<string, Frame>, tolerance: real, parse: FloatParser, hash: Frame -> string, i: nat)
    requires ValidateCharts(df, specs, charts, tolerance, parse, hash).Ok?
    requires i < |ValidateCharts(df, specs, charts, tolerance, parse, hash).value.issues|
    ensures exists k :: 0 <= k < |specs|
                        && ValidateCharts(df, specs, charts, tolerance, parse, hash).value.issues[i].identifier == specs[k].identifier
  {
    var rs := SpecResults(df, specs, charts, tolerance, parse, hash(df));
    CollectFrom(rs, i);
    var k, m :| 0 <= k < |rs| && 0 <= m < |rs[k].value| && Collect(rs).value[i] == rs[k].value[m];
    assert rs[k].value[m] in rs[k].value;
  }

  /** A single spec without output: the report holds exactly the one
      "Chart output missing." ERROR, whatever signature the spec captured. */
  lemma MissingOutputOnly(df: Frame, spec: ChartSpec, charts: map<string, Frame>, tolerance: real, parse: FloatParser, hash: Frame -> string)
    requires spec.identifier !in charts
    ensures ValidateCharts(df, [spec], charts, tolerance, parse, hash)
      == Ok(ChartValidationReport([ChartIssue(spec.identifier, Error, OutputMissing, NoContext)], hash(df)))
  {
    var rs := SpecResults(df, [spec], charts, tolerance, parse, hash(df));
    var issues := [ChartIssue(spec.identifier, Error, OutputMissing, NoContext)];
    assert rs == [Ok(issues)];
    CollectSnoc([], issues);
    assert [] + rs == rs;
    assert [] + issues == issues;
  }

  // ---------------------------------------------------------------------------
  // A fresh chart and a stale one
  // ---------------------------------------------------------------------------

  /** The chart `groupby(x)[y].<aggregation>().reset_index()` materialises:
      one row per expected bar, in category order.  Column dtype tags play no
      part in the comparison. */
  function ExactChart(points: seq<Point>, x: string, y: string): Frame
    requires x != y
  {
    Frame([Column(x, ObjectDtype), Column(y, FloatDtype)], ExactRows(points, x, y))
  }

  /** `df.groupby(x)[y].<aggregation>().reset_index()` for a dataset whose
      aggregation can be computed (a chart with no rows otherwise). */
  function AggregatedChart(df: Frame, x: string, y: string, agg: Aggregation): Frame
    requires x != y
  {
    var points := ExpectedPoints(df.rows, x, y, agg);
    ExactChart(if points.Ok? then points.value else [], x, y)
  }

  /** With a single spec, the report holds exactly that spec's issues. */
  lemma SingleSpecReport(df: Frame, spec: ChartSpec, charts: map<string, Frame>, tolerance: real, parse: FloatParser, hash: Frame -> string)
    requires SpecIssues(df, spec, charts, tolerance, parse, hash(df)).Ok?
    ensures ValidateCharts(df, [spec], charts, tolerance, parse, hash)
      == Ok(ChartValidationReport(SpecIssues(df, spec, charts, tolerance, parse, hash(df)).value, hash(df)))
  {
    var issues := SpecIssues(df, spec, charts, tolerance, parse, hash(df)).value;
    var rs := SpecResults(df, [spec], charts, tolerance, parse, hash(df));
    assert rs == [Ok(issues)];
    CollectSnoc([], issues);
    assert [] + rs == rs;
    assert [] + issues == issues;
  }

  /** A bar chart materialised from the dataset by the same aggregation,
      without filters, and the spec with the captured signature it was given. */
  predicate FreshBar(df: Frame, spec: ChartSpec, charts: map<string, Frame>)
  {
    && spec.kind == "bar" && spec.y.Some? && spec.x != spec.y.value
    && spec.aggregation.Some? && AggregationNamed(spec.aggregation.value).Some?
    && spec.filters == []
    && HasColumn(df, spec.x) && HasColumn(df, spec.y.value)
    && ExpectedPoints(df.rows, spec.x, spec.y.value, AggregationNamed(spec.aggregation.value).value).Ok?
    && charts == map[spec.identifier := AggregatedChart(df, spec.x, spec.y.value, AggregationNamed(spec.aggregation.value).value)]
  }

  lemma FreshBarVerifies(df: Frame, spec: ChartSpec, charts: map<string, Frame>, tolerance: real, parse: FloatParser)
    requires FreshBar(df, spec, charts)
    ensures VerifyChart(df, spec, charts[spec.identifier], tolerance, parse) == Ok(None)
  {
    NoFiltersKeepAll(df);
    var chart := charts[spec.identifier];
    assert HasColumn(chart, spec.x) by { assert chart.columns[0].name == spec.x; }
    assert HasColumn(chart, spec.y.value) by { assert chart.columns[1].name == spec.y.value; }
    ExactAggregatesPass(df, spec, chart, tolerance, parse);
  }

  lemma FreshSpecIssues(df: Frame, spec: ChartSpec, charts: map<string, Frame>, tolerance: real, parse: FloatParser, signature: string)
    requires FreshBar(df, spec, charts)
    ensures SpecIssues(df, spec, charts, tolerance, parse, signature) == Ok(StaleIssues(spec, signature))
  {
    FreshBarVerifies(df, spec, charts, tolerance, parse);
    assert spec.identifier in charts;
    assert OwnIssue(None) + StaleIssues(spec, signature) == StaleIssues(spec, signature);
  }

  /** A chart recomputed from the current data, whose spec captured no
      signature, gives a report without errors. */
  lemma FreshChartPasses(df: Frame, spec: ChartSpec, charts: map<string, Frame>, tolerance: real, parse: FloatParser, hash: Frame -> string)
    requires FreshBar(df, spec, charts) && spec.dataSignature.None?
    ensures ValidateCharts(df, [spec], charts, tolerance, parse, hash) == Ok(ChartValidationReport([], hash(df)))
    ensures !HasErrors(ValidateCharts(df, [spec], charts, tolerance, parse, hash).value)
  {
    FreshSpecIssues(df, spec, charts, tolerance, parse, hash(df));
    assert StaleIssues(spec, hash(df)) == [];
    SingleSpecReport(df, spec, charts, tolerance, parse, hash);
  }

  /** The same chart, its spec carrying a signature the dataset no longer has,
      gets exactly one ERROR: the staleness issue naming both signatures. */
  lemma StaleChartFlagged(df: Frame, spec: ChartSpec, charts: map<string, Frame>, tolerance: real, parse: FloatParser, hash: Frame -> string)
    requires FreshBar(df, spec, charts) && spec.dataSignature == Some("old_signature")
    requires hash(df) != "old_signature"
    ensures ValidateCharts(df, [spec], charts, tolerance, parse, hash)
      == Ok(ChartValidationReport([ChartIssue(spec.identifier, Error, Stale, Signatures("old_signature", hash(df)))], hash(df)))
    ensures HasErrors(ValidateCharts(df, [spec], charts, tolerance, parse, hash).value)
  {
    FreshSpecIssues(df, spec, charts, tolerance, parse, hash(df));
    assert IsStale(spec, hash(df));
    SingleSpecReport(df, spec, charts, tolerance, parse, hash);
  }

  /** A survey response with a segment and a numeric satisfaction score. */
  function Response(segment: string, satisfaction: real): Row
  {
    map["segment" := Text(segment), "satisfaction" := Num(satisfaction)]
  }

  function Responses(answers: seq<(string, real)>): (rows: seq<Row>)
    ensures |rows| == |answers|
    ensures forall i :: 0 <= i < |rows| ==> CellOf(rows[i], "segment") == Some(Text(answers[i].0))
    ensures forall i :: 0 <= i < |rows| ==> CellOf(rows[i], "satisfaction") == Some(Num(answers[i].1))
  {
    seq(|answers|, i requires 0 <= i < |answers| => Response(answers[i].0, answers[i].1))
  }

  function SurveyFrame(answers: seq<(string, real)>): Frame
  {
    Frame([Column("segment", ObjectDtype), Column("satisfaction", IntegerDtype)], Responses(answers))
  }

  /** Text segments and numeric scores: every aggregate per segment can be
      computed, since there is no text to add up and no mix of kinds to sort. */
  lemma SurveyAggregatesComputable(answers: seq<(string, real)>, agg: Aggregation)
    ensures ExpectedPoints(Responses(answers), "segment", "satisfaction", agg).Ok?
  {
    var rows := Responses(answers);
    var keys := GroupKeys(rows, "segment");
    assert forall v :: v in keys ==> v.Text? by {
      forall v | v in keys
        ensures v.Text?
      {
        var i :| 0 <= i < |rows| && Series(rows, "segment")[i] == Some(v);
      }
    }
    assert forall i :: 0 <= i < |keys| ==> keys[i] in keys;
    assert !TextInGroups(rows, "segment", "satisfaction");
  }

  /** A bar spec of mean satisfaction per segment, without filters. */
  function SatisfactionSpec(identifier: string, signature: Option<string>): ChartSpec
  {
    ChartSpec(identifier, "bar", "segment", Some("satisfaction"), Some("mean"), [], signature, None, [])
  }

  lemma SatisfactionChartFresh(answers: seq<(string, real)>, spec: ChartSpec, charts: map<string, Frame>)
    requires spec == SatisfactionSpec(spec.identifier, spec.dataSignature)
    requires charts == map[spec.identifier := AggregatedChart(SurveyFrame(answers), "segment", "satisfaction", Mean)]
    ensures FreshBar(SurveyFrame(answers), spec, charts)
  {
    var df := SurveyFrame(answers);
    SurveyAggregatesComputable(answers, Mean);
    assert HasColumn(df, "segment") by { assert df.columns[0].name == "segment"; }
    assert HasColumn(df, "satisfaction") by { assert df.columns[1].name == "satisfaction"; }
  }

  /** Segments A, A, B scoring 4, 5, 3, charted as mean satisfaction per
      segment by the same aggregation, with no captured signature: no errors. */
  lemma SegmentChartPasses(df: Frame, spec: ChartSpec, charts: map<string, Frame>, parse: FloatParser, hash: Frame -> string)
    requires df == SurveyFrame([("A", 4.0), ("A", 5.0), ("B", 3.0)])
    requires spec == SatisfactionSpec("fresh_chart", None)
    requires charts == map["fresh_chart" := AggregatedChart(df, "segment", "satisfaction", Mean)]
    ensures ValidateCharts(df, [spec], charts, 0.000001, parse, hash).Ok?
    ensures !HasErrors(ValidateCharts(df, [spec], charts, 0.000001, parse, hash).value)
  {
    SatisfactionChartFresh([("A", 4.0), ("A", 5.0), ("B", 3.0)], spec, charts);
    FreshChartPasses(df, spec, charts, 0.000001, parse, hash);
  }

  /** The same chart, its spec carrying the signature "old_signature" that the
      dataset does not have: an error, the staleness issue. */
  lemma SegmentChartStale(df: Frame, spec: ChartSpec, charts: map<string, Frame>, parse: FloatParser, hash: Frame -> string)
    requires df == SurveyFrame([("A", 4.0), ("A", 5.0), ("B", 3.0)])
    requires spec == SatisfactionSpec("satisfaction_by_segment", Some("old_signature"))
    requires charts == map["satisfaction_by_segment" := AggregatedChart(df, "segment", "satisfaction", Mean)]
    requires hash(df) != "old_signature"
    ensures ValidateCharts(df, [spec], charts, 0.000001, parse, hash).Ok?
    ensures HasErrors(ValidateCharts(df, [spec], charts, 0.000001, parse, hash).value)
    ensures exists issue :: issue in ValidateCharts(df, [spec], charts, 0.000001, parse, hash).value.issues
                            && issue.message == Stale
  {
    SatisfactionChartFresh([("A", 4.0), ("A", 5.0), ("B", 3.0)], spec, charts);
    StaleChartFlagged(df, spec, charts, 0.000001, parse, hash);
    var issue := ChartIssue(spec.identifier, Error, Stale, Signatures("old_signature", hash(df)));
    assert issue in ValidateCharts(df, [spec], charts, 0.000001, parse, hash).value.issues;
  }
}
