/** The schema validator of `surveykit/validate_data.py`: it checks a dataset
    against declared columns, in schema order, and reports ERROR and WARN
    issues, optionally appending the report to an audit log and failing when
    errors are present. */
module SchemaValidator {
  import opened Common
  import opened Values
  import opened Table
  import Strings
  import Sorting

  // ---------------------------------------------------------------------------
  // Schema and report records
  // ---------------------------------------------------------------------------

  datatype ColumnSchema = ColumnSchema(
    name: string,
    dtype: string,
    required: bool,
    nullable: bool,
    allowedValues: Option<seq<Value>>,
    minimum: Option<real>,
    maximum: Option<real>,
    notes: Option<string>)

  datatype SchemaDefinition = SchemaDefinition(
    columns: seq<ColumnSchema>,
    version: Option<string>,
    description: Option<string>)

  /** The fixed issue messages; `Text` gives the exact string each one carries. */
  datatype Message =
    | MissingRequiredColumn
    | OptionalColumnMissing
    | NullsNotPermitted
    | UnsupportedDtype(declared: string)
    | UnexpectedDtype
    | OutsideAllowedSet
    | BelowMinimum
    | AboveMaximum
    | UnexpectedColumn
  {
    function Text(): string
    {
      match this
      case MissingRequiredColumn => "Missing required column"
      case OptionalColumnMissing => "Optional column missing"
      case NullsNotPermitted => "Null values not permitted"
      case UnsupportedDtype(declared) => UnsupportedPrefix + declared
      case UnexpectedDtype => "Unexpected dtype"
      case OutsideAllowedSet => "Values outside allowed set"
      case BelowMinimum => "Values below minimum"
      case AboveMaximum => "Values above maximum"
      case UnexpectedColumn => "Unexpected column present"
    }
  }

  const UnsupportedPrefix := "Unsupported dtype in schema: "

  /** Distinct messages carry distinct strings, so a message is recoverable
      from its text. */
  lemma MessageTextInjective(a: Message, b: Message)
    requires a.Text() == b.Text()
    ensures a == b
  {
    if a.UnsupportedDtype? && b.UnsupportedDtype? {
      assert a.declared == a.Text()[|UnsupportedPrefix|..];
      assert b.declared == b.Text()[|UnsupportedPrefix|..];
    }
  }

  /** The `context` dictionary of an issue, one shape per kind of violation. */
  datatype IssueContext =
    | NoContext
    | NullCount(nullCount: nat)
    | DtypeContext(observed: Dtype, expected: string)
    | InvalidValues(invalidValues: seq<Value>)
    | MinimumContext(minimum: real, belowCount: nat)
    | MaximumContext(maximum: real, aboveCount: nat)

  datatype ValidationIssue = ValidationIssue(
    level: Level,
    column: Option<string>,
    message: Message,
    context: IssueContext)

  /** `validatedAt` is the `datetime.utcnow()` reading the caller supplies. */
  datatype ValidationReport = ValidationReport(
    issues: seq<ValidationIssue>,
    dataSignature: string,
    schemaVersion: Option<string>,
    validatedAt: string)

  /** One line of the audit log: the time it was written and the report. */
  datatype LogEntry = LogEntry(ts: string, report: ValidationReport)

  predicate IsError(issue: ValidationIssue) { issue.level == Error }

  predicate IsWarning(issue: ValidationIssue) { issue.level == Warn }

  /** `report.errors`. */
  function Errors(report: ValidationReport): (r: seq<ValidationIssue>)
    ensures forall issue :: issue in r <==> issue in report.issues && issue.level == Error
  {
    Filter(report.issues, IsError)
  }

  /** `report.warnings`. */
  function Warnings(report: ValidationReport): (r: seq<ValidationIssue>)
    ensures forall issue :: issue in r <==> issue in report.issues && issue.level == Warn
  {
    Filter(report.issues, IsWarning)
  }

  /** `report.has_errors()`. */
  predicate HasErrors(report: ValidationReport)
  {
    |Errors(report)| > 0
  }

  /** `errors` and `warnings` split the issues between them, and
      `has_errors()` holds exactly when some issue is at ERROR level. */
  lemma ErrorsWarningsPartition(report: ValidationReport)
    ensures |Errors(report)| + |Warnings(report)| == |report.issues|
    ensures forall issue :: issue in report.issues ==> (issue in Errors(report) <==> issue !in Warnings(report))
    ensures HasErrors(report) <==> exists i :: 0 <= i < |report.issues| && report.issues[i].level == Error
  {
    FilterComplement(report.issues, IsError, IsWarning);
    HasErrorsIff(report);
  }

  lemma HasErrorsIff(report: ValidationReport)
    ensures HasErrors(report) <==> exists i :: 0 <= i < |report.issues| && report.issues[i].level == Error
  {
    var errors := Errors(report);
    if exists i :: 0 <= i < |report.issues| && report.issues[i].level == Error {
      var i :| 0 <= i < |report.issues| && report.issues[i].level == Error;
      assert report.issues[i] in errors;
    }
    if |errors| > 0 {
      assert errors[0] in report.issues;
      var i :| 0 <= i < |report.issues| && report.issues[i] == errors[0];
      assert report.issues[i].level == Error;
    }
  }

  // ---------------------------------------------------------------------------
  // Declared dtypes
  // ---------------------------------------------------------------------------

  /** `_PANDAS_TYPE_CHECKS`: for each declared dtype, the observed dtypes one
      of its pandas predicates accepts. */
  const TypeChecks: map<string, set<Dtype>> := map[
    "integer" := {IntegerDtype},
    "float" := {FloatDtype},
    "number" := {FloatDtype, IntegerDtype},
    "string" := {StringDtype, ObjectDtype},
    "boolean" := {BoolDtype},
    "datetime" := {DatetimeDtype},
    "category" := {CategoryDtype}
  ]

  /** `_series_has_dtype`: raises `ValueError` for an unknown declaration. */
  function SeriesHasDtype(observed: Dtype, expected: string): (r: Result<bool>)
    ensures r.Err? <==> Strings.AsciiLower(expected) !in TypeChecks
    ensures r.Err? ==> r.failure == ValueError(UnsupportedDtype(expected).Text())
    ensures r == Ok(true) ==> observed != OtherDtype
  {
    var lower := Strings.AsciiLower(expected);
    if lower !in TypeChecks then Err(ValueError(UnsupportedDtype(expected).Text()))
    else Ok(observed in TypeChecks[lower])
  }

  /** The declared dtype is matched without regard to case. */
  lemma DtypeCaseInsensitive(observed: Dtype, a: string, b: string)
    requires Strings.AsciiLower(a) == Strings.AsciiLower(b)
    ensures SeriesHasDtype(observed, a).Ok? == SeriesHasDtype(observed, b).Ok?
    ensures SeriesHasDtype(observed, a).Ok? ==> SeriesHasDtype(observed, a) == SeriesHasDtype(observed, b)
  {
  }

  /** "number" accepts exactly the integer and float dtypes. */
  lemma NumberAcceptsIntegerOrFloat(observed: Dtype, expected: string)
    requires Strings.AsciiLower(expected) == "number"
    ensures SeriesHasDtype(observed, expected) == Ok(observed == IntegerDtype || observed == FloatDtype)
  {
  }

  /** "string" accepts exactly the string and object dtypes. */
  lemma StringAcceptsStringOrObject(observed: Dtype, expected: string)
    requires Strings.AsciiLower(expected) == "string"
    ensures SeriesHasDtype(observed, expected) == Ok(observed == StringDtype || observed == ObjectDtype)
  {
  }

  lemma UpperCaseDeclarationsMatch()
    ensures SeriesHasDtype(IntegerDtype, "Number") == Ok(true)
    ensures SeriesHasDtype(ObjectDtype, "STRING") == Ok(true)
    ensures SeriesHasDtype(BoolDtype, "Integer") == Ok(false)
    ensures SeriesHasDtype(FloatDtype, "decimal").Err?
  {
    assert Strings.AsciiLower("Number") == "number";
    assert Strings.AsciiLower("STRING") == "string";
    assert Strings.AsciiLower("Integer") == "integer";
    assert "decimal" !in TypeChecks;
    assert Strings.AsciiLower("decimal") == "decimal";
  }

  // ---------------------------------------------------------------------------
  // Per-column checks
  // ---------------------------------------------------------------------------

  /** The single issue of a declared column that the dataset lacks. */
  function MissingColumnIssue(c: ColumnSchema): (r: ValidationIssue)
    ensures r.column == Some(c.name) && r.context == NoContext
    ensures r.level == Error <==> c.required
    ensures r.message == (if c.required then MissingRequiredColumn else OptionalColumnMissing)
  {
    if c.required then ValidationIssue(Error, Some(c.name), MissingRequiredColumn, NoContext)
    else ValidationIssue(Warn, Some(c.name), OptionalColumnMissing, NoContext)
  }

  predicate IsNull(cell: Cell) { cell.None? }

  /** The null check: a non-nullable column with nulls gets one ERROR that
      counts the null rows. */
  function NullIssues(c: ColumnSchema, s: seq<Cell>): (r: seq<ValidationIssue>)
    ensures |r| <= 1
    ensures |r| == 1 <==> !c.nullable && None in s
    ensures |r| == 1 ==> r[0] == ValidationIssue(Error, Some(c.name), NullsNotPermitted,
                                                 NullCount(|Positions(s, IsNull)|))
  {
    var n := CountIf(s, IsNull);
    CountIfPositions(s, IsNull);
    if !c.nullable && n > 0 then
      [ValidationIssue(Error, Some(c.name), NullsNotPermitted, NullCount(n))]
    else []
  }

  /** The dtype check: an unknown declaration gives its own ERROR and no
      "Unexpected dtype" follows it. */
  function DtypeIssues(c: ColumnSchema, observed: Dtype): (r: seq<ValidationIssue>)
    ensures |r| <= 1
    ensures |r| == 0 <==> SeriesHasDtype(observed, c.dtype) == Ok(true)
    ensures Strings.AsciiLower(c.dtype) !in TypeChecks ==>
      r == [ValidationIssue(Error, Some(c.name), UnsupportedDtype(c.dtype), NoContext)]
    ensures Strings.AsciiLower(c.dtype) in TypeChecks && |r| == 1 ==>
      r == [ValidationIssue(Error, Some(c.name), UnexpectedDtype, DtypeContext(observed, c.dtype))]
  {
    match SeriesHasDtype(observed, c.dtype)
    case Err(e) => [ValidationIssue(Error, Some(c.name), UnsupportedDtype(c.dtype), NoContext)]
    case Ok(ok) =>
      if ok then []
      else [ValidationIssue(Error, Some(c.name), UnexpectedDtype, DtypeContext(observed, c.dtype))]
  }

  function AsKey(v: Value): Cell { Some(v) }

  /** Whether some non-null cell holds a value outside `allowed`. */
  predicate HasDisallowed(s: seq<Cell>, allowed: seq<Value>)
  {
    exists i :: 0 <= i < |s| && s[i].Some? && s[i].value !in allowed
  }

  /** `set(series.dropna().unique()) - set(allowed)`, as a sequence without
      repeats. */
  function Disallowed(s: seq<Cell>, allowed: seq<Value>): (r: seq<Value>)
    ensures forall v :: v in r <==> Some(v) in s && v !in allowed
    ensures Distinct(r)
  {
    Dedup(Filter(NonNull(s), v => v !in allowed))
  }

  lemma DisallowedNonEmpty(s: seq<Cell>, allowed: seq<Value>)
    ensures HasDisallowed(s, allowed) <==> |Disallowed(s, allowed)| > 0
  {
    var bad := Disallowed(s, allowed);
    if HasDisallowed(s, allowed) {
      var i :| 0 <= i < |s| && s[i].Some? && s[i].value !in allowed;
      assert s[i].value in bad;
    }
    if |bad| > 0 {
      assert Some(bad[0]) in s;
    }
  }

  /** `sorted(set(series.dropna().unique()) - set(allowed))`: sorting raises
      `TypeError` when the offending values mix numbers and texts. */
  function InvalidValuesOf(s: seq<Cell>, allowed: seq<Value>): (r: Result<seq<Value>>)
    ensures r.Err? <==> MixedKinds(Disallowed(s, allowed))
    ensures r.Ok? ==> Sorting.SortedBy(r.value, AsKey) && Distinct(r.value)
    ensures r.Ok? ==> forall v :: v in r.value <==> Some(v) in s && v !in allowed
    ensures r.Ok? ==> (|r.value| > 0 <==> HasDisallowed(s, allowed))
  {
    var bad := Disallowed(s, allowed);
    if MixedKinds(bad) then Err(TypeError("'<' not supported between instances of 'str' and 'float'"))
    else
      var sorted := Sorting.SortBy(bad, AsKey);
      Sorting.SortByMembers(bad, AsKey);
      DistinctPermutation(bad, sorted);
      DisallowedNonEmpty(s, allowed);
      Ok(sorted)
  }

  /** The allowed-values check: one ERROR listing the offending values when
      there are any. */
  function AllowedIssues(c: ColumnSchema, s: seq<Cell>): (r: Result<seq<ValidationIssue>>)
    ensures c.allowedValues.None? ==> r == Ok([])
    ensures c.allowedValues.Some? ==> (r.Err? <==> InvalidValuesOf(s, c.allowedValues.value).Err?)
    ensures r.Ok? ==> |r.value| <= 1
    ensures r.Ok? && |r.value| == 1 ==>
      c.allowedValues.Some? && r.value[0] == ValidationIssue(Error, Some(c.name), OutsideAllowedSet,
        InvalidValues(InvalidValuesOf(s, c.allowedValues.value).value))
    ensures r.Ok? && c.allowedValues.Some? ==> (|r.value| == 1 <==> HasDisallowed(s, c.allowedValues.value))
  {
    match c.allowedValues
    case None => Ok([])
    case Some(allowed) =>
      var invalid :- InvalidValuesOf(s, allowed);
      if |invalid| > 0 then Ok([ValidationIssue(Error, Some(c.name), OutsideAllowedSet, InvalidValues(invalid))])
      else Ok([])
  }

  predicate IsBelow(bound: real, cell: Cell) { cell.Some? && cell.value.Num? && cell.value.n < bound }

  predicate IsAbove(bound: real, cell: Cell) { cell.Some? && cell.value.Num? && cell.value.n > bound }

  /** The minimum check: values equal to the bound pass.  Comparing with a
      numeric bound raises `TypeError` for a categorical or datetime column
      whatever its cells hold, even when it has none, and for any other
      column at its first text cell. */
  function MinimumIssues(c: ColumnSchema, s: seq<Cell>, observed: Dtype): (r: Result<seq<ValidationIssue>>)
    ensures c.minimum.None? ==> r == Ok([])
    ensures c.minimum.Some? ==> (r.Err? <==> observed == CategoryDtype || observed == DatetimeDtype || HasTextCell(s))
    ensures r.Err? ==> r.failure.TypeError?
    ensures r.Ok? ==> |r.value| <= 1
    ensures r.Ok? && |r.value| == 1 ==> (c.minimum.Some? &&
      var issue := r.value[0];
      issue.level == Error && issue.column == Some(c.name) && issue.message == BelowMinimum
      && issue.context.MinimumContext? && issue.context.minimum == c.minimum.value)
  {
    match c.minimum
    case None => Ok([])
    case Some(m) =>
      if observed == CategoryDtype then Err(TypeError("Unordered Categoricals can only compare equality or not"))
      else if observed == DatetimeDtype then Err(TypeError("Invalid comparison between dtype=datetime64[ns] and float"))
      else if HasTextCell(s) then Err(TypeError("'<' not supported between instances of 'str' and 'float'"))
      else
        var n := CountIf(s, cell => IsBelow(m, cell));
        if n > 0 then Ok([ValidationIssue(Error, Some(c.name), BelowMinimum, MinimumContext(m, n))])
        else Ok([])
  }

  /** The minimum issue appears exactly when some value lies strictly below
      the bound, and its count is the number of such rows. */
  lemma MinimumIssuesCount(c: ColumnSchema, s: seq<Cell>, observed: Dtype)
    requires c.minimum.Some? && MinimumIssues(c, s, observed).Ok?
    ensures var r := MinimumIssues(c, s, observed).value;
      && (|r| == 1 <==> exists i :: 0 <= i < |s| && IsBelow(c.minimum.value, s[i]))
      && (|r| == 1 ==> r[0].context.belowCount == |Positions(s, cell => IsBelow(c.minimum.value, cell))|)
  {
    CountIfPositions(s, cell => IsBelow(c.minimum.value, cell));
  }

  /** The maximum check, independent of the minimum one. */
  function MaximumIssues(c: ColumnSchema, s: seq<Cell>, observed: Dtype): (r: Result<seq<ValidationIssue>>)
    ensures c.maximum.None? ==> r == Ok([])
    ensures c.maximum.Some? ==> (r.Err? <==> observed == CategoryDtype || observed == DatetimeDtype || HasTextCell(s))
    ensures r.Err? ==> r.failure.TypeError?
    ensures r.Ok? ==> |r.value| <= 1
    ensures r.Ok? && |r.value| == 1 ==> (c.maximum.Some? &&
      var issue := r.value[0];
      issue.level == Error && issue.column == Some(c.name) && issue.message == AboveMaximum
      && issue.context.MaximumContext? && issue.context.maximum == c.maximum.value)
  {
    match c.maximum
    case None => Ok([])
    case Some(m) =>
      if observed == CategoryDtype then Err(TypeError("Unordered Categoricals can only compare equality or not"))
      else if observed == DatetimeDtype then Err(TypeError("Invalid comparison between dtype=datetime64[ns] and float"))
      else if HasTextCell(s) then Err(TypeError("'>' not supported between instances of 'str' and 'float'"))
      else
        var n := CountIf(s, cell => IsAbove(m, cell));
        if n > 0 then Ok([ValidationIssue(Error, Some(c.name), AboveMaximum, MaximumContext(m, n))])
        else Ok([])
  }

  /** The maximum issue appears exactly when some value lies strictly above
      the bound, and its count is the number of such rows. */
  lemma MaximumIssuesCount(c: ColumnSchema, s: seq<Cell>, observed: Dtype)
    requires c.maximum.Some? && MaximumIssues(c, s, observed).Ok?
    ensures var r := MaximumIssues(c, s, observed).value;
      && (|r| == 1 <==> exists i :: 0 <= i < |s| && IsAbove(c.maximum.value, s[i]))
      && (|r| == 1 ==> r[0].context.aboveCount == |Positions(s, cell => IsAbove(c.maximum.value, cell))|)
  {
    CountIfPositions(s, cell => IsAbove(c.maximum.value, cell));
  }

  /** Whether an issue is one that the checks of the declared column `name`
      raise (every message but the extra-column one). */
  predicate IsColumnIssue(issue: ValidationIssue, name: string)
  {
    issue.column == Some(name) && !issue.message.UnexpectedColumn?
  }

  /** The checks of a column the dataset has: nulls, dtype, allowed values,
      minimum, maximum, in that order. */
  function PresentChecks(c: ColumnSchema, s: seq<Cell>, observed: Dtype): (r: Result<seq<ValidationIssue>>)
    ensures r.Err? <==> AllowedIssues(c, s).Err? || MinimumIssues(c, s, observed).Err? || MaximumIssues(c, s, observed).Err?
    ensures r.Ok? ==> |r.value| <= 5
    ensures r.Ok? ==> forall issue :: issue in r.value ==> IsColumnIssue(issue, c.name)
  {
    var allowed, below, above := AllowedIssues(c, s), MinimumIssues(c, s, observed), MaximumIssues(c, s, observed);
    if allowed.Err? then Err(allowed.failure)
    else if below.Err? then Err(below.failure)
    else if above.Err? then Err(above.failure)
    else
      var nulls, kind := NullIssues(c, s), DtypeIssues(c, observed);
      var issues := nulls + kind + allowed.value + below.value + above.value;
      assert forall issue :: issue in issues ==>
        issue in nulls || issue in kind || issue in allowed.value || issue in below.value || issue in above.value;
      Ok(issues)
  }

  /** All checks of one declared column, in the order the source runs them;
      a comparison that raises aborts the whole validation. */
  function CheckColumn(df: Frame, c: ColumnSchema): (r: Result<seq<ValidationIssue>>)
    ensures !HasColumn(df, c.name) ==> r == Ok([MissingColumnIssue(c)])
    ensures r.Ok? ==> forall issue :: issue in r.value ==> IsColumnIssue(issue, c.name)
  {
    if !HasColumn(df, c.name) then Ok([MissingColumnIssue(c)])
    else PresentChecks(c, Series(df.rows, c.name), DtypeOf(df, c.name))
  }

  /** Checking a column raises exactly when the column is present and its
      allowed-values, minimum or maximum comparison raises. */
  lemma CheckColumnRaises(df: Frame, c: ColumnSchema)
    ensures CheckColumn(df, c).Err? <==> (HasColumn(df, c.name) &&
      var s := Series(df.rows, c.name);
      var observed := DtypeOf(df, c.name);
      AllowedIssues(c, s).Err? || MinimumIssues(c, s, observed).Err? || MaximumIssues(c, s, observed).Err?)
  {
  }

  /** A present column's issues are exactly the five checks' issues in order,
      each check contributing at most one. */
  lemma PresentColumnIssues(df: Frame, c: ColumnSchema)
    requires HasColumn(df, c.name)
    requires CheckColumn(df, c).Ok?
    ensures var s, observed := Series(df.rows, c.name), DtypeOf(df, c.name);
      && AllowedIssues(c, s).Ok? && MinimumIssues(c, s, observed).Ok? && MaximumIssues(c, s, observed).Ok?
      && CheckColumn(df, c).value
         == NullIssues(c, s) + DtypeIssues(c, observed)
            + AllowedIssues(c, s).value + MinimumIssues(c, s, observed).value + MaximumIssues(c, s, observed).value
    ensures |CheckColumn(df, c).value| <= 5
  {
  }

  /** Each declared column's check result, schema order. */
  function ColumnResults(df: Frame, columns: seq<ColumnSchema>): (rs: seq<Result<seq<ValidationIssue>>>)
    ensures |rs| == |columns|
    ensures forall k :: 0 <= k < |columns| ==> rs[k] == CheckColumn(df, columns[k])
  {
    seq(|columns|, k requires 0 <= k < |columns| => CheckColumn(df, columns[k]))
  }

  /** The declared columns' issues, schema order; the first column whose
      check raises aborts the walk with that exception. */
  function DeclaredIssues(df: Frame, columns: seq<ColumnSchema>): (r: Result<seq<ValidationIssue>>)
    ensures r.Ok? <==> forall k :: 0 <= k < |columns| ==> CheckColumn(df, columns[k]).Ok?
    ensures r.Err? ==> exists k :: (0 <= k < |columns| && CheckColumn(df, columns[k]) == Err(r.failure)
      && forall j :: 0 <= j < k ==> CheckColumn(df, columns[j]).Ok?)
  {
    Collect(ColumnResults(df, columns))
  }

  /** Every issue of the walk is one of a walked column's own issues. */
  lemma DeclaredIssuesNameColumns(df: Frame, columns: seq<ColumnSchema>, i: nat)
    requires DeclaredIssues(df, columns).Ok? && i < |DeclaredIssues(df, columns).value|
    ensures exists k :: 0 <= k < |columns| && IsColumnIssue(DeclaredIssues(df, columns).value[i], columns[k].name)
  {
    var rs := ColumnResults(df, columns);
    CollectFrom(rs, i);
    var k, m :| 0 <= k < |rs| && 0 <= m < |rs[k].value| && Collect(rs).value[i] == rs[k].value[m];
    assert rs[k].value[m] in CheckColumn(df, columns[k]).value;
  }

  /** Walking one more column appends that column's issues at the end. */
  lemma DeclaredIssuesSnoc(df: Frame, columns: seq<ColumnSchema>, c: ColumnSchema)
    requires DeclaredIssues(df, columns).Ok? && CheckColumn(df, c).Ok?
    ensures DeclaredIssues(df, columns + [c])
         == Ok(DeclaredIssues(df, columns).value + CheckColumn(df, c).value)
  {
    assert ColumnResults(df, columns + [c]) == ColumnResults(df, columns) + [Ok(CheckColumn(df, c).value)];
    CollectSnoc(ColumnResults(df, columns), CheckColumn(df, c).value);
  }

  predicate Declared(schema: SchemaDefinition, name: string)
  {
    exists k :: 0 <= k < |schema.columns| && schema.columns[k].name == name
  }

  function NameKey(name: string): Cell { Some(Text(name)) }

  function ExtraWarning(name: string): ValidationIssue
  {
    ValidationIssue(Warn, Some(name), UnexpectedColumn, NoContext)
  }

  /** `sorted(present_columns)` after the declared ones are discarded. */
  function ExtraColumns(df: Frame, schema: SchemaDefinition): (r: seq<string>)
    ensures forall n :: n in r <==> HasColumn(df, n) && !Declared(schema, n)
    ensures forall i, j :: 0 <= i < j < |r| ==> Strings.Less(r[i], r[j])
  {
    var names := ColumnNames(df);
    var extra := Dedup(Filter(names, n => !Declared(schema, n)));
    var sorted := Sorting.SortBy(extra, NameKey);
    Sorting.SortByMembers(extra, NameKey);
    ColumnNamesMembers(df);
    SortedNamesStrict(extra, sorted);
    sorted
  }

  /** The names `ColumnNames` lists are exactly the frame's columns. */
  lemma ColumnNamesMembers(df: Frame)
    ensures forall n :: n in ColumnNames(df) <==> HasColumn(df, n)
  {
    var names := ColumnNames(df);
    forall n
      ensures n in names <==> HasColumn(df, n)
    {
      if HasColumn(df, n) {
        var i :| 0 <= i < |df.columns| && df.columns[i].name == n;
        assert names[i] == n;
      }
    }
  }

  /** Sorting distinct names by their key puts them in strictly ascending
      order. */
  lemma SortedNamesStrict(names: seq<string>, sorted: seq<string>)
    requires Distinct(names) && sorted == Sorting.SortBy(names, NameKey)
    ensures forall i, j :: 0 <= i < j < |sorted| ==> Strings.Less(sorted[i], sorted[j])
  {
    Sorting.SortByMembers(names, NameKey);
    DistinctPermutation(names, sorted);
    forall i, j | 0 <= i < j < |sorted|
      ensures Strings.Less(sorted[i], sorted[j])
    {
      assert CellLe(NameKey(sorted[i]), NameKey(sorted[j]));
    }
  }

  /** The trailing "Unexpected column present" warnings: one per undeclared
      dataset column, in ascending name order. */
  function ExtraWarnings(df: Frame, schema: SchemaDefinition): (r: seq<ValidationIssue>)
    ensures forall i :: 0 <= i < |r| ==>
      r[i].level == Warn && r[i].message == UnexpectedColumn && r[i].column.Some?
    ensures forall n :: (exists i :: 0 <= i < |r| && r[i].column == Some(n)) <==>
      HasColumn(df, n) && !Declared(schema, n)
    ensures forall i, j :: 0 <= i < j < |r| ==> Strings.Less(r[i].column.value, r[j].column.value)
  {
    var names := ExtraColumns(df, schema);
    WarningsColumns(names);
    WarningsFor(names)
  }

  /** One "Unexpected column present" warning per name, in order. */
  function WarningsFor(names: seq<string>): (r: seq<ValidationIssue>)
    ensures |r| == |names|
    ensures forall i :: 0 <= i < |r| ==> r[i] == ExtraWarning(names[i])
  {
    seq(|names|, i requires 0 <= i < |names| => ExtraWarning(names[i]))
  }

  lemma WarningsColumns(names: seq<string>)
    ensures forall n :: (exists i :: 0 <= i < |WarningsFor(names)| && WarningsFor(names)[i].column == Some(n)) <==> n in names
  {
    var r := WarningsFor(names);
    forall n
      ensures (exists i :: 0 <= i < |r| && r[i].column == Some(n)) <==> n in names
    {
      if n in names {
        var i :| 0 <= i < |names| && names[i] == n;
        assert r[i].column == Some(n);
      }
    }
  }

  /** All issues of a validation run: declared columns first, then the extras. */
  function Issues(df: Frame, schema: SchemaDefinition): (r: Result<seq<ValidationIssue>>)
    ensures r.Ok? <==> DeclaredIssues(df, schema.columns).Ok?
    ensures r.Ok? ==> r.value == DeclaredIssues(df, schema.columns).value + ExtraWarnings(df, schema)
  {
    var declared :- DeclaredIssues(df, schema.columns);
    Ok(declared + ExtraWarnings(df, schema))
  }

  /** Every issue of a declared column's checks precedes every
      "Unexpected column present" warning. */
  lemma ExtrasFollowDeclared(df: Frame, schema: SchemaDefinition, i: nat, j: nat)
    requires Issues(df, schema).Ok?
    requires var r := Issues(df, schema).value;
      i < |r| && j < |r| && r[j].message == UnexpectedColumn && !r[i].message.UnexpectedColumn?
    ensures i < j
  {
    var declared := DeclaredIssues(df, schema.columns).value;
    if j < |declared| {
      DeclaredIssuesNameColumns(df, schema.columns, j);
    }
  }

  // ---------------------------------------------------------------------------
  // The validation call
  // ---------------------------------------------------------------------------

  /** What a call leaves behind: its result (a report or the exception it
      raised) and the audit log (`None` when no log path was configured). */
  datatype Outcome = Outcome(result: Result<ValidationReport>, log: Option<seq<LogEntry>>)

  /** The class of the scalars `series.dropna().unique()` yields for a column
      of this dtype, when `json.dumps` has no encoding for it: numpy's `int64`
      (the 64-bit integer class, standing for every integer width) and `bool`
      (numpy 2 names `bool_` so), pandas' `Timestamp`, and `Timedelta` for the
      other tags.  Float columns are taken as 64-bit, whose `float64` scalars
      are `float` subclasses, and object, string and categorical columns yield
      Python values, which all encode. */
  function UnencodableClass(d: Dtype): (r: Option<string>)
    ensures r.Some? <==> d !in {FloatDtype, ObjectDtype, StringDtype, CategoryDtype}
  {
    match d
    case IntegerDtype => Some("int64")
    case BoolDtype => Some("bool")
    case DatetimeDtype => Some("Timestamp")
    case OtherDtype => Some("Timedelta")
    case _ => None
  }

  /** An issue whose `invalid_values` hold scalars `json.dumps` cannot encode:
      a "Values outside allowed set" issue on a column of such a dtype. */
  predicate Unencodable(df: Frame, issue: ValidationIssue)
  {
    && issue.level == Error && issue.message == OutsideAllowedSet && issue.context.InvalidValues?
    && issue.column.Some? && HasColumn(df, issue.column.value)
    && UnencodableClass(DtypeOf(df, issue.column.value)).Some?
  }

  /** The class `json.dumps` names when it stops at the first unencodable
      issue of the report, or `None` when the whole report encodes. */
  function FirstUnencodable(df: Frame, issues: seq<ValidationIssue>): (r: Option<string>)
    ensures r.None? <==> forall i :: 0 <= i < |issues| ==> !Unencodable(df, issues[i])
    ensures r.Some? ==> exists i :: (0 <= i < |issues| && Unencodable(df, issues[i])
      && (forall j :: 0 <= j < i ==> !Unencodable(df, issues[j]))
      && r == UnencodableClass(DtypeOf(df, issues[i].column.value)))
  {
    if |issues| == 0 then None
    else if Unencodable(df, issues[0]) then UnencodableClass(DtypeOf(df, issues[0].column.value))
    else
      var r := FirstUnencodable(df, issues[1..]);
      UnencodableShift(df, issues);
      r
  }

  /** Indices of the tail are one less than those of the whole. */
  lemma UnencodableShift(df: Frame, issues: seq<ValidationIssue>)
    requires |issues| > 0
    ensures forall i :: 0 < i < |issues| ==> issues[i] == issues[1..][i - 1]
  {
  }

  function NotSerializable(className: string): string
  {
    "Object of type " + className + " is not JSON serializable"
  }

  /** `validate_dataframe`.  `log` is the current content of the audit log
      (`None`: no `log_path`), `signature` is `_hash_dataframe`, and the two
      timestamps are the `datetime.utcnow()` readings of the report and of
      the log line. */
  function ValidateDataframe(
    df: Frame, schema: SchemaDefinition, log: Option<seq<LogEntry>>, haltOnError: bool,
    signature: Frame -> string, validatedAt: string, loggedAt: string): (o: Outcome)
    ensures Issues(df, schema).Err? ==> o == Outcome(Err(Issues(df, schema).failure), log)
    ensures Issues(df, schema).Ok? && log.Some? && FirstUnencodable(df, Issues(df, schema).value).Some? ==>
      o == Outcome(Err(TypeError(NotSerializable(FirstUnencodable(df, Issues(df, schema).value).value))), log)
    ensures Issues(df, schema).Ok? && (log.None? || FirstUnencodable(df, Issues(df, schema).value).None?) ==>
      var report := ValidationReport(Issues(df, schema).value, signature(df), schema.version, validatedAt);
      && o.log == (if log.Some? then Some(log.value + [LogEntry(loggedAt, report)]) else None)
      && (o.result.Err? <==> haltOnError && HasErrors(report))
      && (o.result.Err? ==> o.result.failure == ValidationError(|Errors(report)|))
      && (o.result.Ok? ==> o.result.value == report)
  {
    match Issues(df, schema)
    case Err(e) => Outcome(Err(e), log)
    case Ok(issues) =>
      var report := ValidationReport(issues, signature(df), schema.version, validatedAt);
      var unencodable := FirstUnencodable(df, issues);
      if log.Some? && unencodable.Some? then Outcome(Err(TypeError(NotSerializable(unencodable.value))), log)
      else
        var log' := if log.Some? then Some(log.value + [LogEntry(loggedAt, report)]) else None;
        if haltOnError && HasErrors(report) then Outcome(Err(ValidationError(|Errors(report)|)), log')
        else Outcome(Ok(report), log')
  }

  /** With a log, a report that encodes gets its line, carrying the report's
      signature, appended before anything else happens; one that does not
      encode leaves the log as it was and the call raises TypeError, halting
      or not.  With `halt_on_error` the call otherwise fails exactly when the
      report has errors; without it the logged report is returned. */
  lemma HaltPolicy(df: Frame, schema: SchemaDefinition, log: seq<LogEntry>, haltOnError: bool,
                   signature: Frame -> string, validatedAt: string, loggedAt: string)
    requires Issues(df, schema).Ok?
    ensures var o := ValidateDataframe(df, schema, Some(log), haltOnError, signature, validatedAt, loggedAt);
      var issues := Issues(df, schema).value;
      var encodes := forall i :: 0 <= i < |issues| ==> !Unencodable(df, issues[i]);
      && o.log.Some?
      && (encodes ==> |o.log.value| == |log| + 1 && o.log.value[..|log|] == log
                      && o.log.value[|log|].report.dataSignature == signature(df))
      && (!encodes ==> o.log.value == log && o.result.Err? && o.result.failure.TypeError?)
      && (o.result.Err? <==> !encodes || (haltOnError && exists i :: 0 <= i < |issues| && issues[i].level == Error))
      && (!haltOnError && encodes ==> o.result.Ok? && o.result.value == o.log.value[|log|].report)
  {
    var report := ValidationReport(Issues(df, schema).value, signature(df), schema.version, validatedAt);
    ErrorsWarningsPartition(report);
  }

  // ---------------------------------------------------------------------------
  // The repository's own scenarios
  // ---------------------------------------------------------------------------

  function ConformingFrame(): Frame
  {
    Frame([Column("respondent_id", IntegerDtype), Column("age", IntegerDtype)],
          [map["respondent_id" := Num(1.0), "age" := Num(30.0)],
           map["respondent_id" := Num(2.0), "age" := Num(28.0)]])
  }

  function ConformingSchema(): SchemaDefinition
  {
    SchemaDefinition([
      ColumnSchema("respondent_id", "integer", true, false, None, None, None, None),
      ColumnSchema("age", "number", true, true, None, Some(18.0), Some(99.0), None),
      ColumnSchema("segment", "string", false, true, None, None, None, None)
    ], None, None)
  }

  lemma ConformingIdClean()
    ensures CheckColumn(ConformingFrame(), ConformingSchema().columns[0]) == Ok([])
  {
    var df, id := ConformingFrame(), ConformingSchema().columns[0];
    assert HasColumn(df, "respondent_id") by { assert df.columns[0].name == "respondent_id"; }
    var sid := Series(df.rows, "respondent_id");
    assert sid == [Some(Num(1.0)), Some(Num(2.0))];
    assert Strings.AsciiLower("integer") == "integer";
    assert NullIssues(id, sid) == [];
    assert DtypeIssues(id, DtypeOf(df, "respondent_id")) == [];
  }

  lemma ConformingAgeClean()
    ensures CheckColumn(ConformingFrame(), ConformingSchema().columns[1]) == Ok([])
  {
    var df, age := ConformingFrame(), ConformingSchema().columns[1];
    assert HasColumn(df, "age") by { assert df.columns[1].name == "age"; }
    var sage := Series(df.rows, "age");
    assert sage == [Some(Num(30.0)), Some(Num(28.0))];
    assert Strings.AsciiLower("number") == "number";
    assert DtypeIssues(age, DtypeOf(df, "age")) == [];
    assert !HasTextCell(sage);
    assert DtypeOf(df, "age") == IntegerDtype;
    MinimumIssuesCount(age, sage, IntegerDtype);
    MaximumIssuesCount(age, sage, IntegerDtype);
  }

  lemma ConformingDeclaredIssues()
    ensures DeclaredIssues(ConformingFrame(), ConformingSchema().columns)
         == Ok([MissingColumnIssue(ConformingSchema().columns[2])])
  {
    var df, columns := ConformingFrame(), ConformingSchema().columns;
    var rs := ColumnResults(df, columns);
    ConformingColumnResults(rs);
    CollectOfThreeResults(rs);
    var missing := [MissingColumnIssue(columns[2])];
    assert [] + ([] + missing) == missing;
    assert DeclaredIssues(df, columns) == Collect(rs);
  }

  /** The three declared columns' checks: two clean, one missing. */
  lemma ConformingColumnResults(rs: seq<Result<seq<ValidationIssue>>>)
    requires rs == ColumnResults(ConformingFrame(), ConformingSchema().columns)
    ensures |rs| == 3 && rs[0] == Ok([]) && rs[1] == Ok([]) && rs[2] == Ok([MissingColumnIssue(ConformingSchema().columns[2])])
  {
    ConformingIdClean();
    ConformingAgeClean();
    ConformingSegmentMissing();
  }

  lemma ConformingSegmentMissing()
    ensures CheckColumn(ConformingFrame(), ConformingSchema().columns[2])
         == Ok([MissingColumnIssue(ConformingSchema().columns[2])])
  {
    var df := ConformingFrame();
    assert df.columns[0].name != "segment" && df.columns[1].name != "segment";
    assert !HasColumn(df, "segment");
  }

  lemma ConformingHasNoExtras()
    ensures ExtraWarnings(ConformingFrame(), ConformingSchema()) == []
  {
    var df, schema := ConformingFrame(), ConformingSchema();
    assert Declared(schema, "respondent_id") by { assert schema.columns[0].name == "respondent_id"; }
    assert Declared(schema, "age") by { assert schema.columns[1].name == "age"; }
    assert forall n :: HasColumn(df, n) ==> Declared(schema, n);
  }

  lemma ConformingIssues(df: Frame, schema: SchemaDefinition)
    requires df == ConformingFrame() && schema == ConformingSchema()
    ensures Issues(df, schema) == Ok([MissingColumnIssue(schema.columns[2])])
  {
    ConformingDeclaredIssues();
    ConformingHasNoExtras();
    IssuesWithoutExtras(df, schema);
  }

  /** A run without halting whose only issue is a warning returns a report
      with no errors and one warning, and logs that report. */
  lemma SingleWarningOutcome(df: Frame, schema: SchemaDefinition, signature: Frame -> string, w: ValidationIssue)
    requires Issues(df, schema) == Ok([w]) && w.level == Warn
    ensures var o := ValidateDataframe(df, schema, Some([]), false, signature, "t0", "t1");
      && o.result.Ok?
      && |Errors(o.result.value)| == 0
      && |Warnings(o.result.value)| == 1
      && o.log.Some? && |o.log.value| == 1
      && o.log.value[0].report.dataSignature == o.result.value.dataSignature
  {
    var report := ValidationReport([w], signature(df), schema.version, "t0");
    assert FirstUnencodable(df, [w]).None?;
    assert Errors(report) == [];
    assert Warnings(report) == [w];
  }

  /** A conforming dataset missing only an optional column: no errors, one
      warning, and the log line carries the report's signature. */
  lemma ConformingDatasetHasOneWarning(signature: Frame -> string)
    ensures var o := ValidateDataframe(ConformingFrame(), ConformingSchema(), Some([]), false, signature, "t0", "t1");
      && o.result.Ok?
      && |Errors(o.result.value)| == 0
      && |Warnings(o.result.value)| == 1
      && o.log.Some? && |o.log.value| == 1
      && o.log.value[0].report.dataSignature == o.result.value.dataSignature
  {
    ConformingIssues(ConformingFrame(), ConformingSchema());
    SingleWarningOutcome(ConformingFrame(), ConformingSchema(), signature, MissingColumnIssue(ConformingSchema().columns[2]));
  }

  function MissingIdFrame(): Frame
  {
    Frame([Column("age", IntegerDtype)], [map["age" := Num(34.0)]])
  }

  function MissingIdSchema(): SchemaDefinition
  {
    SchemaDefinition([ColumnSchema("respondent_id", "integer", true, true, None, None, None, None)], None, None)
  }

  lemma MissingIdIssues()
    ensures Issues(MissingIdFrame(), MissingIdSchema()).Ok?
    ensures var issues := Issues(MissingIdFrame(), MissingIdSchema()).value;
      |issues| >= 1 && issues[0] == MissingColumnIssue(MissingIdSchema().columns[0])
      && forall i :: 1 <= i < |issues| ==> issues[i].level == Warn
  {
    var df, schema := MissingIdFrame(), MissingIdSchema();
    var c := schema.columns[0];
    assert !HasColumn(df, "respondent_id");
    assert DeclaredIssues(df, []) == Ok([]);
    DeclaredIssuesSnoc(df, [], c);
    assert [] + [c] == schema.columns;
    assert [] + [MissingColumnIssue(c)] == [MissingColumnIssue(c)];
  }

  /** A report whose first issue is its only ERROR has exactly one error. */
  lemma SingleLeadingError(report: ValidationReport)
    requires |report.issues| >= 1 && report.issues[0].level == Error
    requires forall i :: 1 <= i < |report.issues| ==> report.issues[i].level == Warn
    ensures Errors(report) == [report.issues[0]]
  {
    var issues := report.issues;
    assert issues == [issues[0]] + issues[1..];
    FilterAppend([issues[0]], issues[1..], IsError);
    FilterNone(issues[1..], IsError);
  }

  function ScoreFrame(): Frame
  {
    Frame([Column("score", IntegerDtype)], [map["score" := Num(7.0)]])
  }

  function ScoreSchema(): SchemaDefinition
  {
    SchemaDefinition([ColumnSchema("score", "integer", true, true,
                                   Some([Num(1.0), Num(2.0), Num(3.0), Num(4.0), Num(5.0)]), None, None, None)], None, None)
  }

  /** The allowed-values check finds 7 and nothing else. */
  lemma ScoreInvalidValues()
    ensures var c := ScoreSchema().columns[0];
      InvalidValuesOf(Series(ScoreFrame().rows, "score"), c.allowedValues.value) == Ok([Num(7.0)])
  {
    var s := Series(ScoreFrame().rows, "score");
    assert s == [Some(Num(7.0))];
    var allowed := ScoreSchema().columns[0].allowedValues.value;
    assert Num(7.0) !in allowed;
    assert HasDisallowed(s, allowed) by { assert s[0].Some? && s[0].value !in allowed; }
    assert !MixedKinds(Disallowed(s, allowed)) by {
      assert forall v :: v in Disallowed(s, allowed) ==> v == Num(7.0);
    }
    var invalid := InvalidValuesOf(s, allowed).value;
    assert forall v :: v in invalid <==> v == Num(7.0);
    assert |invalid| > 0 && invalid[0] == Num(7.0);
  }

  /** The score column's checks give the single allowed-values ERROR. */
  lemma ScoreCheckColumn()
    ensures CheckColumn(ScoreFrame(), ScoreSchema().columns[0])
         == Ok([ValidationIssue(Error, Some("score"), OutsideAllowedSet, InvalidValues([Num(7.0)]))])
  {
    var df, c := ScoreFrame(), ScoreSchema().columns[0];
    assert HasColumn(df, "score") by { assert df.columns[0].name == "score"; }
    var s := Series(df.rows, "score");
    assert s == [Some(Num(7.0))];
    assert Strings.AsciiLower("integer") == "integer";
    assert DtypeOf(df, "score") == IntegerDtype;
    assert DtypeIssues(c, IntegerDtype) == [];
    assert NullIssues(c, s) == [];
    ScoreInvalidValues();
    var issue := ValidationIssue(Error, Some("score"), OutsideAllowedSet, InvalidValues([Num(7.0)]));
    assert AllowedIssues(c, s) == Ok([issue]);
    assert MinimumIssues(c, s, IntegerDtype) == Ok([]);
    assert MaximumIssues(c, s, IntegerDtype) == Ok([]);
    assert PresentChecks(c, s, IntegerDtype) == Ok([] + [] + [issue] + [] + []);
    assert [] + [] + [issue] + [] + [] == [issue];
    assert CheckColumn(df, c) == PresentChecks(c, s, DtypeOf(df, "score"));
  }

  /** The one issue of an int64 score column holding 7 against the allowed
      values 1 to 5. */
  lemma ScoreIssues()
    ensures Issues(ScoreFrame(), ScoreSchema())
         == Ok([ValidationIssue(Error, Some("score"), OutsideAllowedSet, InvalidValues([Num(7.0)]))])
  {
    ScoreDeclaredIssues();
    ScoreHasNoExtras();
    IssuesWithoutExtras(ScoreFrame(), ScoreSchema());
  }

  /** Without undeclared columns the issues are the declared ones. */
  lemma IssuesWithoutExtras(df: Frame, schema: SchemaDefinition)
    requires DeclaredIssues(df, schema.columns).Ok? && ExtraWarnings(df, schema) == []
    ensures Issues(df, schema) == DeclaredIssues(df, schema.columns)
  {
    var declared := DeclaredIssues(df, schema.columns).value;
    assert declared + [] == declared;
  }

  lemma ScoreDeclaredIssues()
    ensures DeclaredIssues(ScoreFrame(), ScoreSchema().columns)
         == Ok([ValidationIssue(Error, Some("score"), OutsideAllowedSet, InvalidValues([Num(7.0)]))])
  {
    var df, columns := ScoreFrame(), ScoreSchema().columns;
    ScoreCheckColumn();
    assert DeclaredIssues(df, []) == Ok([]);
    DeclaredIssuesSnoc(df, [], columns[0]);
    assert [] + [columns[0]] == columns;
    var issues := CheckColumn(df, columns[0]).value;
    assert [] + issues == issues;
  }

  lemma ScoreHasNoExtras()
    ensures ExtraWarnings(ScoreFrame(), ScoreSchema()) == []
  {
    var df, schema := ScoreFrame(), ScoreSchema();
    assert Declared(schema, "score") by { assert schema.columns[0].name == "score"; }
    assert forall n :: HasColumn(df, n) ==> Declared(schema, n);
  }

  /** With a log configured, that run raises TypeError from `json.dumps`,
      whether or not it halts on errors, and the log gains no line. */
  lemma IntegerOutsideAllowedUnlogged(log: seq<LogEntry>, haltOnError: bool, signature: Frame -> string)
    ensures var o := ValidateDataframe(ScoreFrame(), ScoreSchema(), Some(log), haltOnError, signature, "t0", "t1");
      o.result == Err(TypeError("Object of type int64 is not JSON serializable")) && o.log == Some(log)
  {
    ScoreUnencodable();
    UnencodableRaises(ScoreFrame(), ScoreSchema(), log, haltOnError, signature, "t0", "t1");
    Int64Message();
  }

  lemma Int64Message()
    ensures NotSerializable("int64") == "Object of type int64 is not JSON serializable"
  {
  }

  lemma UnencodableRaises(df: Frame, schema: SchemaDefinition, log: seq<LogEntry>, haltOnError: bool,
                          signature: Frame -> string, validatedAt: string, loggedAt: string)
    requires Issues(df, schema).Ok? && FirstUnencodable(df, Issues(df, schema).value).Some?
    ensures var o := ValidateDataframe(df, schema, Some(log), haltOnError, signature, validatedAt, loggedAt);
      o.result == Err(TypeError(NotSerializable(FirstUnencodable(df, Issues(df, schema).value).value)))
      && o.log == Some(log)
  {
  }

  /** `json.dumps` stops at the score issue's int64 values. */
  lemma ScoreUnencodable()
    ensures Issues(ScoreFrame(), ScoreSchema()).Ok?
    ensures FirstUnencodable(ScoreFrame(), Issues(ScoreFrame(), ScoreSchema()).value) == Some("int64")
  {
    var df := ScoreFrame();
    ScoreIssues();
    var issue := ValidationIssue(Error, Some("score"), OutsideAllowedSet, InvalidValues([Num(7.0)]));
    assert HasColumn(df, "score") by { assert df.columns[0].name == "score"; }
    assert DtypeOf(df, "score") == IntegerDtype;
    assert Unencodable(df, issue);
  }

  /** A dataset lacking a required column fails under `halt_on_error`, after
      the log line is written. */
  lemma MissingRequiredColumnHalts(df: Frame, schema: SchemaDefinition, signature: Frame -> string)
    requires df == MissingIdFrame() && schema == MissingIdSchema()
    ensures var o := ValidateDataframe(df, schema, Some([]), true, signature, "t0", "t1");
      && o.result == Err(ValidationError(1))
      && o.log.Some? && |o.log.value| == 1
  {
    MissingIdIssues();
    var issues := Issues(df, schema).value;
    var report := ValidationReport(issues, signature(df), None, "t0");
    SingleLeadingError(report);
    LeadingErrorEncodes(df, issues);
  }

  /** Issues whose only ERROR is not an allowed-values one all encode. */
  lemma LeadingErrorEncodes(df: Frame, issues: seq<ValidationIssue>)
    requires |issues| >= 1 && issues[0].message != OutsideAllowedSet
    requires forall i :: 1 <= i < |issues| ==> issues[i].level == Warn
    ensures FirstUnencodable(df, issues).None?
  {
    assert forall i :: 0 <= i < |issues| ==> !Unencodable(df, issues[i]);
  }
}
