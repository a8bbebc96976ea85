# surveykit audit core, in Dafny

This project models the audit components of the survey-analysis kit's
advanced pipeline (`02_advanced_pipeline`) and proves what they promise.
pandas frames, files and hashes are immutable Dafny values, and every
operation is a pure function. The components are:

- **Schema validator** (`surveykit/validate_data.py`). It walks the declared
  columns in schema order and reports:
  - missing columns, nulls in non-nullable columns, dtype mismatches and
    unknown dtype declarations;
  - values outside the allowed set, values below the minimum or above the
    maximum;
  - undeclared extra columns, after everything else.

  It logs the report and, with `halt_on_error`, raises `ValidationError`
  when the report has errors.
- **Chart consistency checker** (`surveykit/validate_charts.py`):
  - the `ChartSpec` stored form (`to_dict`/`from_dict`, ISO timestamps);
  - the row filters;
  - bar-chart re-aggregation (mean, sum, count) and the category and value
    comparison;
  - the line-chart x-value check;
  - the staleness flag against the dataset signature.
- **Integrity manifest** (`surveykit/integrity.py`):
  - the file and directory digests;
  - the five-entry artefact map;
  - the canonically hashed record linked to the previous manifest's hash,
    and the file it is written to.
- **Small helpers**:
  - the review-status tracker (`tools/review_tracker.py`);
  - the summary evidence checker (`surveykit/summary_writer.py`);
  - keyword counting and the word-list sentiment fallback
    (`surveykit/text_analysis.py`);
  - the audit-log level/event counter (`tools/audit_summary.py`).

## How things are represented

- **Cells.**
  - A cell holds `Num(real)` or `Text(string)`.
  - A null cell (`None`, NaN) is `None`.
  - Python booleans compare and hash as 0 and 1, so they are numbers.
- **Frames.** A frame is a list of column headers plus rows. Each header is a
  name with the dtype tag pandas inferred for it. A row is a map, and a
  missing key is a null.
- **Failures.** An exception the code lets escape is an `Err` of a `Result`:
  `KeyError`, `ValueError`, `TypeError` or `ValidationError`. A stored
  chart field of the wrong shape is `Malformed`.
- **Black boxes become function parameters.** This covers:
  - SHA-256 (`Codec.sha`);
  - the dataset signature `_hash_dataframe`;
  - the JSON text of numbers and strings;
  - `float()` on a string;
  - the clock readings `time.time()` and `datetime.utcnow()`.

  Nothing is assumed about them beyond being functions.
- **Dictionaries.** A Python dictionary whose insertion order is observable
  is an association list in that order. This covers filters, evidence,
  statuses and Counters.
- **Sorting.** Python's `sorted` and pandas' `sort_values` are a stable
  insertion sort on a `Cell` key. Two lemmas show the result does not depend
  on input order when no two elements share a key: `Sorting.SortedUnique`
  and `Sorting.SortByPermutationInvariant`.

## Model

| member | source | states |
|---|---|---|
| SchemaValidator.MessageTextInjective | 02_advanced_pipeline/surveykit/validate_data.py:178-267 | The fixed issue messages are pairwise distinct strings, so an issue's message text identifies which check raised it |
| SchemaValidator.Errors | 02_advanced_pipeline/surveykit/validate_data.py:88-90 | `errors` holds exactly the report's ERROR issues |
| SchemaValidator.Warnings | 02_advanced_pipeline/surveykit/validate_data.py:92-94 | `warnings` holds exactly the report's WARN issues |
| SchemaValidator.ErrorsWarningsPartition | 02_advanced_pipeline/surveykit/validate_data.py:88-97 | `errors` and `warnings` split the issues between them (lengths add up, each issue in exactly one), and `has_errors()` holds iff some issue is at ERROR level |
| SchemaValidator.SeriesHasDtype | 02_advanced_pipeline/surveykit/validate_data.py:137-156 | Raises ValueError "Unsupported dtype in schema: …" exactly when the lower-cased declaration is not one of the seven known names; an accepted column never has the "other" dtype tag |
| SchemaValidator.DtypeCaseInsensitive | 02_advanced_pipeline/surveykit/validate_data.py:151-156 | Declarations equal up to case are both rejected or both give the same verdict |
| SchemaValidator.NumberAcceptsIntegerOrFloat | 02_advanced_pipeline/surveykit/validate_data.py:140-143 | "number" (any case) accepts exactly the integer and float dtypes |
| SchemaValidator.StringAcceptsStringOrObject | 02_advanced_pipeline/surveykit/validate_data.py:144 | "string" (any case) accepts exactly the string and object dtypes |
| SchemaValidator.UpperCaseDeclarationsMatch | 02_advanced_pipeline/surveykit/validate_data.py:137-156 | Concrete cases: "Number" accepts an integer column, "STRING" an object column, "Integer" rejects a boolean column, "decimal" raises |
| SchemaValidator.MissingColumnIssue | 02_advanced_pipeline/surveykit/validate_data.py:178-195 | An absent declared column gets ERROR "Missing required column" when required, otherwise WARN "Optional column missing", naming the column with no context |
| SchemaValidator.NullIssues | 02_advanced_pipeline/surveykit/validate_data.py:198-206 | At most one issue; one exactly when the column is not nullable and holds a null; its null_count is the number of null rows |
| SchemaValidator.DtypeIssues | 02_advanced_pipeline/surveykit/validate_data.py:208-221 | No issue exactly when the dtype check passes; an unknown declaration gives its own single ERROR and no "Unexpected dtype"; otherwise a mismatch gives "Unexpected dtype" with the observed and declared dtypes |
| SchemaValidator.Disallowed | 02_advanced_pipeline/surveykit/validate_data.py:224 | The set difference of the non-null values and the allowed values, without repeats |
| SchemaValidator.DisallowedNonEmpty | 02_advanced_pipeline/surveykit/validate_data.py:224-225 | The difference is non-empty iff some non-null cell lies outside the allowed set |
| SchemaValidator.InvalidValuesOf | 02_advanced_pipeline/surveykit/validate_data.py:224 | `sorted(...)` raises TypeError iff the offending values mix numbers and texts; otherwise the list is sorted, duplicate-free, exactly the non-null values outside the set, and non-empty iff there is one |
| SchemaValidator.AllowedIssues | 02_advanced_pipeline/surveykit/validate_data.py:223-233 | No check without an allowed list; at most one ERROR, present iff some non-null value is outside the set, carrying the sorted offending values |
| SchemaValidator.MinimumIssues | 02_advanced_pipeline/surveykit/validate_data.py:235-245 | No check without a minimum; raises TypeError iff the column is categorical or datetime (whatever its cells) or a text cell must be compared; at most one "Values below minimum" ERROR carrying the bound |
| SchemaValidator.MinimumIssuesCount | 02_advanced_pipeline/surveykit/validate_data.py:235-245 | The minimum ERROR appears iff some value is strictly below the bound (values equal to it pass), and its count is the number of such rows |
| SchemaValidator.MaximumIssues | 02_advanced_pipeline/surveykit/validate_data.py:246-256 | No check without a maximum; raises TypeError iff the column is categorical or datetime (whatever its cells) or a text cell must be compared; at most one "Values above maximum" ERROR carrying the bound |
| SchemaValidator.MaximumIssuesCount | 02_advanced_pipeline/surveykit/validate_data.py:246-256 | The maximum ERROR appears iff some value is strictly above the bound, and its count is the number of such rows |
| SchemaValidator.PresentChecks | 02_advanced_pipeline/surveykit/validate_data.py:197-256 | A present column's checks raise iff the allowed-values, minimum or maximum comparison raises, give at most five issues, and every issue names that column |
| SchemaValidator.CheckColumn | 02_advanced_pipeline/surveykit/validate_data.py:176-256 | An absent column yields exactly its missing-column issue and nothing else; every issue names the column |
| SchemaValidator.CheckColumnRaises | 02_advanced_pipeline/surveykit/validate_data.py:197-256 | Checking a column raises iff it is present and one of its three comparisons raises |
| SchemaValidator.PresentColumnIssues | 02_advanced_pipeline/surveykit/validate_data.py:197-256 | A present column's issues are the null, dtype, allowed, minimum and maximum issues in that order, at most five |
| SchemaValidator.DeclaredIssues | 02_advanced_pipeline/surveykit/validate_data.py:176-258 | The walk returns iff every column's check returns; otherwise it raises the exception of the first column whose check raises |
| SchemaValidator.DeclaredIssuesNameColumns | 02_advanced_pipeline/surveykit/validate_data.py:176-258 | Every issue of the walk belongs to one of the declared columns |
| SchemaValidator.DeclaredIssuesSnoc | 02_advanced_pipeline/surveykit/validate_data.py:176-258 | Declaring one more column appends that column's issues at the end |
| SchemaValidator.ExtraColumns | 02_advanced_pipeline/surveykit/validate_data.py:258-260 | Exactly the dataset columns no declared column names, in strictly ascending order |
| SchemaValidator.ExtraWarnings | 02_advanced_pipeline/surveykit/validate_data.py:260-267 | One WARN "Unexpected column present" per undeclared dataset column, in strictly ascending name order, and no others |
| SchemaValidator.Issues | 02_advanced_pipeline/surveykit/validate_data.py:173-267 | The declared columns' issues followed by the extra-column warnings; raises iff some column's check raises |
| SchemaValidator.ExtrasFollowDeclared | 02_advanced_pipeline/surveykit/validate_data.py:176-267 | Every declared-column issue comes before every "Unexpected column present" warning |
| SchemaValidator.ValidateDataframe | 02_advanced_pipeline/surveykit/validate_data.py:164-283 | An exception from a check escapes and nothing is logged. With a log, a report whose allowed-values ERROR lists int64, bool, Timestamp or Timedelta scalars makes `json.dumps` raise TypeError naming the first such class, and the log is left as it was. Otherwise the report carries the issues, the dataset's signature and the schema version, one log entry with it is appended when a log is configured, and the call raises ValidationError with the error count iff halting and the report has errors |
| SchemaValidator.HaltPolicy | 02_advanced_pipeline/surveykit/validate_data.py:269-283 | With a log: a report that encodes gets its line, carrying the report's data_signature, appended before anything else happens; one that does not encode leaves the log unchanged and raises TypeError. The call fails iff the report does not encode, or halting and some issue is an ERROR; without halting an encodable report is the logged one returned |
| SchemaValidator.UnencodableClass | 02_advanced_pipeline/surveykit/validate_data.py:224 | `unique()` yields scalars `json.dumps` cannot encode exactly for integer, bool, datetime and the other (timedelta-like) dtypes; float (64-bit), object, string and categorical columns yield encodable values |
| SchemaValidator.FirstUnencodable | 02_advanced_pipeline/surveykit/validate_data.py:278 | `json.dumps` fails iff some allowed-values ERROR lists unencodable scalars, and then names the class of the first such issue in report order |
| SchemaValidator.IntegerOutsideAllowedUnlogged | 02_advanced_pipeline/surveykit/validate_data.py:223-233 | An int64 column holding 7 against allowed values 1 to 5, with a log, raises TypeError("Object of type int64 is not JSON serializable") whether or not halting, and writes no line |
| SchemaValidator.SingleWarningOutcome | 02_advanced_pipeline/surveykit/validate_data.py:269-283 | A run whose only issue is a warning returns a report with no errors and one warning, and logs a line with the same signature |
| SchemaValidator.ConformingDatasetHasOneWarning | 02_advanced_pipeline/tests/test_validate_data.py:17-34 | The test's dataset (respondent_id, age; optional segment missing) without halting: no errors, one warning, and one log line whose signature is the report's |
| SchemaValidator.ConformingIssues | 02_advanced_pipeline/tests/test_validate_data.py:18-25 | The test's dataset has exactly one issue: the optional-column warning for segment |
| SchemaValidator.MissingIdIssues | 02_advanced_pipeline/tests/test_validate_data.py:38-39 | Without respondent_id, the first issue is the missing-required-column ERROR and every later one is a warning |
| SchemaValidator.SingleLeadingError | 02_advanced_pipeline/surveykit/validate_data.py:88-90 | A report whose first issue is its only ERROR has exactly that one error |
| SchemaValidator.MissingRequiredColumnHalts | 02_advanced_pipeline/tests/test_validate_data.py:37-42 | A dataset lacking the required respondent_id fails under halt_on_error with ValidationError(1 error), after the log line is written |
| IsoDate.Isoformat | 02_advanced_pipeline/surveykit/validate_charts.py:38 | `isoformat()` is 19 characters, or 26 exactly when the microsecond is non-zero, with "T" between date and time |
| IsoDate.FromIsoformat | 02_advanced_pipeline/surveykit/validate_charts.py:45 | A string of any length other than 10, 19 or 26 raises ValueError; a date-only string gives midnight |
| IsoDate.FromIsoformatRoundTrip | 02_advanced_pipeline/surveykit/validate_charts.py:38-45 | `fromisoformat(t.isoformat()) == t` for every valid timestamp |
| IsoDate.IsoformatInjective | 02_advanced_pipeline/surveykit/validate_charts.py:38 | Distinct timestamps have distinct texts |
| IsoDate.FromIsoformatText | 02_advanced_pipeline/surveykit/validate_charts.py:45 | Writing back a parsed timestamp reproduces the date and the time of day as written |
| ChartSpecs.OptionalText | 02_advanced_pipeline/surveykit/validate_charts.py:34-37 | An optional text field is stored as null exactly when it is absent |
| ChartSpecs.ToDict | 02_advanced_pipeline/surveykit/validate_charts.py:29-40 | The stored form has exactly the nine keys, and created_at is null iff the spec has no timestamp |
| ChartSpecs.RequiredText | 02_advanced_pipeline/surveykit/validate_charts.py:48-50 | `payload[key]` succeeds iff the key is present with a text, and raises KeyError(key) when absent |
| ChartSpecs.OptionalTextOf | 02_advanced_pipeline/surveykit/validate_charts.py:51-54 | `payload.get(key)` is None for an absent key or null, and otherwise the stored text |
| ChartSpecs.CreatedAtOf | 02_advanced_pipeline/surveykit/validate_charts.py:44-46 | A missing or falsy created_at gives None; a parsed one is `fromisoformat` of the stored text |
| ChartSpecs.FiltersOf | 02_advanced_pipeline/surveykit/validate_charts.py:53 | Missing or null filters read as no filters (Python keeps a stored null as None, which the later `if spec.filters` test treats like an empty mapping) |
| ChartSpecs.MetadataOf | 02_advanced_pipeline/surveykit/validate_charts.py:56 | Missing or null metadata reads as empty (Python keeps a stored null as None; nothing downstream reads it differently) |
| ChartSpecs.FromDict | 02_advanced_pipeline/surveykit/validate_charts.py:42-57 | A bad timestamp raises before anything else, a missing identifier raises KeyError("identifier"), and a result carries the stored identifier, kind and x, with y and filters defaulted when absent |
| ChartSpecs.FromDictRoundTrip | 02_advanced_pipeline/surveykit/validate_charts.py:29-57 | `ChartSpec.from_dict(spec.to_dict()) == spec`, every field included |
| ChartSpecs.ToDictInjective | 02_advanced_pipeline/surveykit/validate_charts.py:29-40 | Distinct specs have distinct stored forms |
| ChartChecker.AnyError | 02_advanced_pipeline/surveykit/validate_charts.py:82 | True iff some issue is at ERROR level |
| ChartChecker.HasErrors | 02_advanced_pipeline/surveykit/validate_charts.py:81-82 | `has_errors()` iff some issue in the report is an ERROR |
| ChartChecker.Narrow | 02_advanced_pipeline/surveykit/validate_charts.py:101-110 | The filters succeed iff every filter column is in the dataset; otherwise the first missing one raises KeyError |
| ChartChecker.ApplyFilters | 02_advanced_pipeline/surveykit/validate_charts.py:101-110 | `_apply_filters` raises iff some filter column is missing, and keeps the dataset's columns |
| ChartChecker.NarrowKeeps | 02_advanced_pipeline/surveykit/validate_charts.py:103-109 | The rows kept are exactly the rows matching every filter, in original order |
| ChartChecker.ApplyFiltersKeeps | 02_advanced_pipeline/surveykit/validate_charts.py:101-110 | The filtered frame's rows are the dataset's rows matching every filter (equality for a scalar, membership for a collection), in order |
| ChartChecker.NoFiltersKeepAll | 02_advanced_pipeline/surveykit/validate_charts.py:122 | No filters keep the dataset as it is |
| ChartChecker.AggregationNamed | 02_advanced_pipeline/surveykit/validate_charts.py:132-143 | Only "mean", "sum" and "count" name an aggregation |
| ChartChecker.GroupKeys | 02_advanced_pipeline/surveykit/validate_charts.py:131 | The groups of `groupby(x)` are the distinct non-null x values |
| ChartChecker.Aggregate | 02_advanced_pipeline/surveykit/validate_charts.py:132-137 | sum and count always give a number; count is the number of non-null cells; mean is NaN exactly when the group has no number, and otherwise mean times the number of values is their sum |
| ChartChecker.MeanCountSum | 02_advanced_pipeline/surveykit/validate_charts.py:132-137 | For a group without text the three aggregations agree: mean is NaN iff count is 0, and otherwise mean × count = sum |
| ChartChecker.SortedKeys | 02_advanced_pipeline/surveykit/validate_charts.py:145 | The group keys in strictly ascending order, none lost |
| ChartChecker.PointsOf | 02_advanced_pipeline/surveykit/validate_charts.py:131-145 | One point per key, each carrying its group's aggregate |
| ChartChecker.ExpectedPoints | 02_advanced_pipeline/surveykit/validate_charts.py:131-145 | Raises iff mean or sum meets a text y value or the categories mix numbers and texts; otherwise the points are in ascending category order |
| ChartChecker.ExpectedPointsGroups | 02_advanced_pipeline/surveykit/validate_charts.py:131-145 | There is one expected bar per distinct non-null x value of the filtered rows, carrying that group's aggregate |
| ChartChecker.AsFloats | 02_advanced_pipeline/surveykit/validate_charts.py:154 | `astype(float)` succeeds iff every text cell is one `float()` reads, and otherwise raises ValueError; nulls become NaN, numbers stay, texts become what `float()` reads |
| ChartChecker.NumericTextRead | 02_advanced_pipeline/surveykit/validate_charts.py:154 | A y cell holding "4.5" is read as 4.5, next to a null (NaN) and a number |
| ChartChecker.TextFacingNaNPasses | 02_advanced_pipeline/surveykit/validate_charts.py:154-159 | A text y cell facing a group whose mean is NaN is masked out of the subtraction: no TypeError, no issue |
| ChartChecker.LargestDelta | 02_advanced_pipeline/surveykit/validate_charts.py:155-161 | `deltas.max()` is NaN iff every delta is NaN, and otherwise the largest delta, attained at some row |
| ChartChecker.SortedChartRows | 02_advanced_pipeline/surveykit/validate_charts.py:146 | The chart's rows rearranged into ascending x order, nulls last |
| ChartChecker.CompareBar | 02_advanced_pipeline/surveykit/validate_charts.py:145-162 | A chart without the x column raises KeyError; an issue is an ERROR for this chart, either "Category mismatch" or "Aggregated values differ" |
| ChartChecker.UnknownX | 02_advanced_pipeline/surveykit/validate_charts.py:165-166 | Exactly the chart x-values absent from the filtered x column |
| ChartChecker.VerifyChart | 02_advanced_pipeline/surveykit/validate_charts.py:113-180 | A failing filter propagates; any issue names the spec and is never a missing-output or staleness issue; the issue is a WARN exactly for a kind other than bar and line; for a complete bar spec, a dataset without x raises KeyError(x) and one without y raises KeyError("Column not found: y") |
| ChartChecker.BarSpecRejected | 02_advanced_pipeline/surveykit/validate_charts.py:124-143 | A bar spec without y or aggregation, or naming another aggregation, gets that single ERROR |
| ChartChecker.BarCategories | 02_advanced_pipeline/surveykit/validate_charts.py:145-153 | With both sides sorted by x, differing category sequences give "Category mismatch" with both sequences as context |
| ChartChecker.BarValues | 02_advanced_pipeline/surveykit/validate_charts.py:154-162 | With equal categories and readable y values: equal values pass; otherwise a text y cell facing an expected number makes the subtraction raise TypeError, and without one (a text facing an expected NaN is masked) an ERROR arises iff some difference exceeds the tolerance, its context the largest difference |
| ChartChecker.CompareBarCategories | 02_advanced_pipeline/surveykit/validate_charts.py:145-153 | For a chart sortable by x, "Category mismatch" with both sorted sequences arises iff the sequences differ |
| ChartChecker.CompareBarValues | 02_advanced_pipeline/surveykit/validate_charts.py:154-162 | Once the categories agree: equal values pass, a text y cell facing an expected number raises TypeError at the subtraction (one facing an expected NaN is masked), and otherwise an ERROR with the largest delta arises iff some delta exceeds the tolerance |
| ChartChecker.LineVerdict | 02_advanced_pipeline/surveykit/validate_charts.py:163-172 | A line chart gets an ERROR iff some chart x-value is absent from the filtered x column, listing exactly those values in chart order |
| ChartChecker.OtherKindWarns | 02_advanced_pipeline/surveykit/validate_charts.py:173-178 | Any other kind gets only a WARN naming the kind, which is not an error |
| ChartChecker.ExactRows | 02_advanced_pipeline/tests/test_validate_charts.py:10 | The chart `reset_index()` builds: one row per bar with its category and value |
| ChartChecker.ExactRowsSorted | 02_advanced_pipeline/surveykit/validate_charts.py:146 | Any arrangement of the exact aggregate rows sorts back to category order |
| ChartChecker.ExactChartSortable | 02_advanced_pipeline/surveykit/validate_charts.py:146 | A chart holding the expected bars has x-values of one kind, so sorting it does not raise |
| ChartChecker.ExactRowsRead | 02_advanced_pipeline/surveykit/validate_charts.py:147-154 | Reading the exact rows back gives the expected categories and values |
| ChartChecker.ExactAggregatesPass | 02_advanced_pipeline/surveykit/validate_charts.py:124-162 | A bar chart holding the exact aggregates, in any row order, has no issue |
| ChartChecker.ExactRowsCompare | 02_advanced_pipeline/surveykit/validate_charts.py:145-162 | Rows that are the expected bars' (x, y) pairs, shuffled, pass the category and value comparison with no issue |
| ChartChecker.SpecIssues | 02_advanced_pipeline/surveykit/validate_charts.py:195-219 | A spec without output gets exactly "Chart output missing." and no staleness check; otherwise it raises iff verify_chart does, and every issue names the spec |
| ChartChecker.StaleIssues | 02_advanced_pipeline/surveykit/validate_charts.py:211-219 | The staleness issue appears iff the spec captured a non-empty signature that differs from the dataset's |
| ChartChecker.SpecIssuesStale | 02_advanced_pipeline/surveykit/validate_charts.py:206-219 | A chart with output is flagged stale iff its captured signature is non-empty and differs; the staleness ERROR then comes last, even when the aggregates match |
| ChartChecker.ValidateCharts | 02_advanced_pipeline/surveykit/validate_charts.py:183-221 | The report's data_signature is the hash of the dataset passed in; the call returns iff no spec's check raises, and otherwise raises a failing spec's exception |
| ChartChecker.ValidateChartsSnoc | 02_advanced_pipeline/surveykit/validate_charts.py:195-219 | One more spec appends its issues after the earlier specs' |
| ChartChecker.ReportNamesSpecs | 02_advanced_pipeline/surveykit/validate_charts.py:195-219 | Every issue in the report names one of the specs |
| ChartChecker.MissingOutputOnly | 02_advanced_pipeline/surveykit/validate_charts.py:196-204 | A spec without output gets exactly one "Chart output missing." ERROR, whatever signature it captured |
| ChartChecker.SingleSpecReport | 02_advanced_pipeline/surveykit/validate_charts.py:192-221 | With one spec, the report holds exactly that spec's issues |
| ChartChecker.FreshBarVerifies | 02_advanced_pipeline/surveykit/validate_charts.py:124-162 | A bar chart materialised from the dataset by the same aggregation passes verify_chart |
| ChartChecker.FreshSpecIssues | 02_advanced_pipeline/surveykit/validate_charts.py:206-219 | Such a chart's only possible issue is staleness |
| ChartChecker.FreshChartPasses | 02_advanced_pipeline/surveykit/validate_charts.py:183-221 | A freshly computed chart whose spec captured no signature gives an empty report without errors |
| ChartChecker.StaleChartFlagged | 02_advanced_pipeline/surveykit/validate_charts.py:211-219 | The same chart with a spec carrying "old_signature" gets exactly one ERROR, the staleness issue naming both signatures |
| ChartChecker.Responses | 02_advanced_pipeline/tests/test_validate_charts.py:9 | The test's rows carry each answer's segment and satisfaction |
| ChartChecker.SurveyAggregatesComputable | 02_advanced_pipeline/tests/test_validate_charts.py:9-10 | Text segments with numeric scores can be aggregated by mean, sum or count |
| ChartChecker.SatisfactionChartFresh | 02_advanced_pipeline/tests/test_validate_charts.py:9-21 | The test's chart is the dataset's own mean-per-segment aggregation |
| ChartChecker.SegmentChartPasses | 02_advanced_pipeline/tests/test_validate_charts.py:28-43 | Segments A, A, B scoring 4, 5, 3, charted by the same aggregation, with no captured signature: no errors |
| ChartChecker.SegmentChartStale | 02_advanced_pipeline/tests/test_validate_charts.py:8-25 | The same chart whose spec captured "old_signature": the report has errors and a staleness issue |
| Integrity.Lookup | 02_advanced_pipeline/surveykit/integrity.py:15 | A path is absent iff no entry has it; a found node is the entry's |
| Integrity.Sha256File | 02_advanced_pipeline/surveykit/integrity.py:13-21 | None exactly when the path is missing or not a regular file |
| Integrity.Sha256FileOfEntry | 02_advanced_pipeline/surveykit/integrity.py:13-21 | A regular file's digest is the digest of its bytes, whatever else the tree holds, and a missing path has none |
| Integrity.Relative | 02_advanced_pipeline/surveykit/integrity.py:29 | For a path below the directory, the relative path joined back to the directory gives the path |
| Integrity.PathKeyInjective | 02_advanced_pipeline/surveykit/integrity.py:27 | The path sort key tells paths apart, so sorting by it is sorting the paths |
| Integrity.Descendants | 02_advanced_pipeline/surveykit/integrity.py:27 | `rglob("*")` yields exactly the entries strictly below the directory |
| Integrity.DirFiles | 02_advanced_pipeline/surveykit/integrity.py:27-28 | Exactly the regular files strictly below the directory |
| Integrity.FeedSkipsOthers | 02_advanced_pipeline/surveykit/integrity.py:28-30 | Directories and other nodes feed nothing to the hash |
| Integrity.Sha256Dir | 02_advanced_pipeline/surveykit/integrity.py:24-31 | In a well-formed tree the directory digest is the digest of the regular files below it alone, each as relative path then bytes, in sorted path order |
| Integrity.FeedOfFiles | 02_advanced_pipeline/surveykit/integrity.py:27-30 | Feeding every sorted entry below the directory gives the same bytes as feeding only its sorted regular files |
| Integrity.DirHashDependsOnFiles | 02_advanced_pipeline/surveykit/integrity.py:24-31 | Two trees with the same regular files below the directory (paths and bytes) have the same directory digest |
| Integrity.DirHashOrderIndependent | 02_advanced_pipeline/surveykit/integrity.py:27 | The directory digest does not depend on the order the tree is listed in |
| Integrity.Canonical | 02_advanced_pipeline/surveykit/integrity.py:48 | Objects stay objects and every other JSON value is left as it is |
| Integrity.CanonicalIdempotent | 02_advanced_pipeline/surveykit/integrity.py:48 | Sorting keys twice gives what sorting once gives, at every depth |
| Integrity.CanonicalObject | 02_advanced_pipeline/surveykit/integrity.py:48 | `sort_keys=True` puts an object's members, each made canonical, in ascending key order, none lost or added |
| Integrity.CanonicalHashMemberOrder | 02_advanced_pipeline/surveykit/integrity.py:48-49 | An object's digest does not depend on the order its members were inserted in |
| Integrity.CanonicalMembersMultiset | 02_advanced_pipeline/surveykit/integrity.py:48 | Rearranging an object's members rearranges its canonical members alike |
| Integrity.CanonicalHash | 02_advanced_pipeline/surveykit/integrity.py:48-49 | A scalar is hashed as its own compact text |
| Integrity.CanonicalHashIdempotent | 02_advanced_pipeline/surveykit/integrity.py:48-49 | Re-canonicalising a value before hashing leaves the digest unchanged |
| Integrity.Artefacts | 02_advanced_pipeline/surveykit/integrity.py:36-42 | The map always has exactly the five keys in order; each file entry is null iff that artefact is not a regular file, and charts_dir_hash is null iff `charts` does not exist |
| Integrity.RecordJson | 02_advanced_pipeline/surveykit/integrity.py:43-47 | The record is an object with exactly ts, artefacts and prev_manifest_hash |
| Integrity.Trunc | 02_advanced_pipeline/surveykit/integrity.py:50 | `int(ts)` truncates toward zero |
| Integrity.Document | 02_advanced_pipeline/surveykit/integrity.py:51-53 | The written document is the record's members followed by manifest_hash holding the hash |
| Integrity.WriteManifest | 02_advanced_pipeline/surveykit/integrity.py:34-54 | The record holds the clock reading, the artefact map and exactly the prev_hash argument; the path is named by the truncated second; the manifest is sealed (hash = canonical digest of the record, written after the record) |
| Integrity.SealedVerifies | 02_advanced_pipeline/surveykit/integrity.py:48-53 | Dropping manifest_hash from the written document and hashing the rest canonically reproduces it: the hash covers the record only |
| Integrity.Chain | 02_advanced_pipeline/surveykit/integrity.py:34 | Successive runs, each passed the previous manifest_hash as prev_hash, write one manifest per run |
| Integrity.ChainLinks | 02_advanced_pipeline/surveykit/integrity.py:43-49 | The first record links to the given hash and every later one to its predecessor's manifest_hash |
| Integrity.ChainSealed | 02_advanced_pipeline/surveykit/integrity.py:34-54 | Every manifest of a chain is the one write_manifest writes for its run and link |
| Integrity.ChainVerifies | 02_advanced_pipeline/surveykit/integrity.py:48-53 | Recomputing any chained manifest's hash reproduces the stored one |
| Integrity.ManifestPathSameSecond | 02_advanced_pipeline/surveykit/integrity.py:50 | Two runs write the same file iff their clock readings truncate to the same second |
| Integrity.ManifestPath | 02_advanced_pipeline/surveykit/integrity.py:50 | The file name is `integrity.manifest.`, the clock reading truncated toward zero in decimal, then `.json` |
| Integrity.SameSecondCollide | 02_advanced_pipeline/surveykit/integrity.py:50 | Two runs within one second write the same file, so manifest paths are not unique |
| ReviewTracker.Find | 02_advanced_pipeline/tools/review_tracker.py:34 | `statuses.get(key)` is None iff no entry has the key, and otherwise an entry's record |
| ReviewTracker.Assign | 02_advanced_pipeline/tools/review_tracker.py:38 | After `statuses[key] = value` the key maps to the value and every other key is unchanged |
| ReviewTracker.AssignPlaces | 02_advanced_pipeline/tools/review_tracker.py:38 | A new key is appended at the end; an existing key keeps its place |
| ReviewTracker.LoadItems | 02_advanced_pipeline/tools/review_tracker.py:23 | The loaded map has distinct keys, each its record's identifier |
| ReviewTracker.Load | 02_advanced_pipeline/tools/review_tracker.py:19-23 | A missing file loads as the empty map; keys are distinct and match their records |
| ReviewTracker.Save | 02_advanced_pipeline/tools/review_tracker.py:26-27 | The saved list holds the map's records, in the map's order |
| ReviewTracker.LoadSaveRoundTrip | 02_advanced_pipeline/tools/review_tracker.py:19-29 | Saving a map whose keys are its records' identifiers and loading it back gives the same map, order included |
| ReviewTracker.Updated | 02_advanced_pipeline/tools/review_tracker.py:33-38 | The identifier's record takes the new status. An unknown identifier starts from a fresh record with that identifier and no comments. Existing comments stay as a prefix, and the comment is appended at the end iff it is non-empty. Every other identifier is unchanged |
| ReviewTracker.UpdateStatus | 02_advanced_pipeline/tools/review_tracker.py:32-39 | The file update_status writes loads back as the updated map; a new deliverable adds one record and a known one keeps the count |
| ReviewTracker.UpdateStatusEffect | 02_advanced_pipeline/tools/review_tracker.py:32-39 | After an update, reloading shows the new status under the identifier and every other deliverable as before |
| ReviewTracker.FirstReview | 02_advanced_pipeline/tools/review_tracker.py:19-39 | A first approval with comment "ok" on a missing file stores exactly that one record |
| SummaryCheck.Add | 02_advanced_pipeline/surveykit/summary_writer.py:37-38 | `add` appends the finding at the end and leaves earlier findings unchanged |
| SummaryCheck.AsFloat | 02_advanced_pipeline/surveykit/summary_writer.py:153 | `float(value)` raises ValueError iff the value is a text `float()` rejects; a float, NaN included, is kept |
| SummaryCheck.CheckEntry | 02_advanced_pipeline/surveykit/summary_writer.py:149-156 | A key absent from the topic's stats gives exactly one "missing from stats" message and no comparison; otherwise a "differs" message with both numbers appears iff the distance exceeds the tolerance, so never when either side is NaN |
| SummaryCheck.CheckEvidence | 02_advanced_pipeline/surveykit/summary_writer.py:149-156 | At most one message per evidence entry, each naming the topic |
| SummaryCheck.CheckFinding | 02_advanced_pipeline/surveykit/summary_writer.py:145-156 | A topic without stats gives no message; otherwise at most one per evidence entry |
| SummaryCheck.VerifySummary | 02_advanced_pipeline/surveykit/summary_writer.py:136-157 | At most one message per evidence entry under a topic that has statistics, and every message names such a topic |
| SummaryCheck.VerifyAfterAdd | 02_advanced_pipeline/surveykit/summary_writer.py:144-157 | Messages come in finding order: adding a finding appends its messages after the earlier ones |
| SummaryCheck.UnmatchedTopicsPass | 02_advanced_pipeline/surveykit/summary_writer.py:145-147 | Findings whose topic has no stats produce no mismatches |
| SummaryCheck.AgreeingEvidencePasses | 02_advanced_pipeline/surveykit/summary_writer.py:149-156 | Evidence with every key present and every value readable and not beyond the tolerance (a NaN on either side included) produces no mismatch |
| SummaryCheck.NaNStatsPass | 02_advanced_pipeline/surveykit/summary_writer.py:153 | A topic whose statistics are all NaN never yields a difference |
| SummaryCheck.MissingKeysReported | 02_advanced_pipeline/surveykit/summary_writer.py:150-152 | Every evidence key missing from the stats is reported |
| SummaryCheck.DifferencesReported | 02_advanced_pipeline/surveykit/summary_writer.py:153-156 | Every readable value farther than the tolerance is reported with both numbers |
| SummaryCheck.ReportedAreReal | 02_advanced_pipeline/surveykit/summary_writer.py:149-156 | Every message names an evidence entry that is missing from the stats or off by more than the tolerance |
| SummaryCheck.MeanMismatchFlagged | 02_advanced_pipeline/tests/test_summary_writer.py:21-27 | Mean 2 against stats 999 is flagged at tolerance 0.1 and the matching std is not |
| SummaryCheck.SingleResponseStdPasses | 02_advanced_pipeline/surveykit/summary_writer.py:149-156 | A one-response column has a NaN standard deviation (summary_writer.py:63), so any claimed deviation passes |
| Strings.Split | 02_advanced_pipeline/surveykit/text_analysis.py:33 | `split()` gives words that are non-empty and contain no whitespace |
| Strings.SplitSpells | 02_advanced_pipeline/surveykit/text_analysis.py:33 | The words spell out exactly the non-whitespace characters, none lost or invented |
| Strings.SplitBlank | 02_advanced_pipeline/tools/audit_summary.py:17 | A whitespace-only string has no words |
| Counters.Bump | 02_advanced_pipeline/tools/audit_summary.py:20-21 | `counter[k] += 1` raises k's count by one and no other |
| Counters.BumpShape | 02_advanced_pipeline/tools/audit_summary.py:20-21 | A new key goes in without disturbing the others: keys stay distinct, counts stay positive, and only the bumped key can be new |
| Counters.Tally | 02_advanced_pipeline/surveykit/text_analysis.py:31-33 | Counting gives every element's number of occurrences, keys distinct and in the input, counts adding up to the input's length |
| Counters.TallySnoc | 02_advanced_pipeline/surveykit/text_analysis.py:33 | Counting one more element bumps its count |
| TextAnalysis.Tokens | 02_advanced_pipeline/surveykit/text_analysis.py:33 | `text.lower().split()` gives non-empty words without whitespace |
| TextAnalysis.TallyEntries | 02_advanced_pipeline/surveykit/text_analysis.py:31-33 | Every Counter entry holds its token's exact count, at least one |
| TextAnalysis.SortedKeysDistinct | 02_advanced_pipeline/surveykit/text_analysis.py:34 | Ordering the Counter by count gives non-increasing counts without repeated tokens |
| TextAnalysis.SortedCounts | 02_advanced_pipeline/surveykit/text_analysis.py:31-34 | The ordered Counter has exact counts, no token twice, and every token |
| TextAnalysis.TopOmitted | 02_advanced_pipeline/surveykit/text_analysis.py:34 | An element cut from a non-increasing list was cut for lack of room and counts no more than any kept |
| TextAnalysis.MostCommonCounts | 02_advanced_pipeline/surveykit/text_analysis.py:31-34 | The kept tokens carry their exact counts, in non-increasing order, each once |
| TextAnalysis.MostCommonOmitted | 02_advanced_pipeline/surveykit/text_analysis.py:34 | A counted token left out was left out for lack of room and occurs no more often than any kept |
| TextAnalysis.MostCommon | 02_advanced_pipeline/surveykit/text_analysis.py:34 | `most_common(n)` keeps n entries, or all of them when there are fewer, and none for n <= 0 |
| TextAnalysis.KeywordCounts | 02_advanced_pipeline/surveykit/text_analysis.py:30-34 | top_n entries, or one per distinct token when there are fewer, and none for top_n <= 0 |
| TextAnalysis.KeywordCountsRanked | 02_advanced_pipeline/surveykit/text_analysis.py:30-34 | Each returned count is the token's total occurrences across all responses; counts are non-increasing and tokens distinct; no omitted token outranks a returned one, and none is omitted while there is room |
| TextAnalysis.WordCloudFrequencies | 02_advanced_pipeline/surveykit/text_analysis.py:37-38 | keyword_counts with top_n 200: at most 200 exact, non-increasing counts; a token is left out only when 200 are kept, and it occurs no more often than any of them |
| TextAnalysis.Clamp | 02_advanced_pipeline/surveykit/text_analysis.py:25 | The result lies in [-1, 1] and equals the input when it already does |
| TextAnalysis.SentimentScore | 02_advanced_pipeline/surveykit/text_analysis.py:15-25 | The score lies in [-1, 1], and the empty string scores 0 |
| TextAnalysis.Fraction | 02_advanced_pipeline/surveykit/text_analysis.py:25 | A numerator no larger than the denominator (≥ 1) gives a fraction in [-1, 1] with the numerator's sign |
| TextAnalysis.RawScoreBounds | 02_advanced_pipeline/surveykit/text_analysis.py:24-25 | The unclamped score lies in [-1, 1] and has the sign of #positive − #negative |
| TextAnalysis.ClampInactive | 02_advanced_pipeline/surveykit/text_analysis.py:20-25 | For non-empty text the clamp never engages: the score is the raw fraction |
| TextAnalysis.SentimentSign | 02_advanced_pipeline/surveykit/text_analysis.py:18-25 | The score is positive iff positive words outnumber negative ones, and negative iff the reverse |
| TextAnalysis.BlankTextNeutral | 02_advanced_pipeline/surveykit/text_analysis.py:18-25 | Whitespace-only text scores 0, like the empty string |
| AuditSummary.Names | 02_advanced_pipeline/tools/audit_summary.py:16-21 | At most one level (or event) name per line of the log |
| AuditSummary.NamesCount | 02_advanced_pipeline/tools/audit_summary.py:16-21 | One name per record, none for blank lines |
| AuditSummary.NamesOccurrences | 02_advanced_pipeline/tools/audit_summary.py:20-21 | A name occurs once per record it is picked from |
| AuditSummary.NamesAppend | 02_advanced_pipeline/tools/audit_summary.py:16 | Lines are processed independently, in file order |
| AuditSummary.Summarise | 02_advanced_pipeline/tools/audit_summary.py:10-22 | A missing log gives both counters empty and missing = true; an existing one succeeds iff every non-blank line is JSON (ValueError otherwise), gives missing = false, and counts each record's level and event |
| AuditSummary.SummaryTotals | 02_advanced_pipeline/tools/audit_summary.py:15-21 | The level counts and the event counts both add up to the number of non-blank lines |
| AuditSummary.LevelCounts | 02_advanced_pipeline/tools/audit_summary.py:20 | A level's count is the number of records naming it, a record without level counting as "INFO" |
| AuditSummary.EventCounts | 02_advanced_pipeline/tools/audit_summary.py:21 | An event's count is the number of records naming it, a record without event counting as "unknown" |
| AuditSummary.BlankLinesIgnored | 02_advanced_pipeline/tools/audit_summary.py:16-17 | A blank or whitespace-only line anywhere in the log changes nothing |

## Left out

- **Hashing and serialisation.** SHA-256 and the CSV/JSON byte encodings
  behind `_hash_dataframe` and the manifest payload are function parameters.
  Their collision-freedom cannot be proved.
- **pandas dtype inference and predicates.** Each column carries an
  enumerated dtype tag instead. `is_string_dtype` is modelled as accepting
  the string and object tags.
- **Duplicate column names.** The model reads a frame's first column of a
  name and checks it. The source raises instead when a declared name occurs
  twice, because `df[name]` is then a DataFrame: for a non-nullable column
  the truth test of `isna().any()` raises ValueError (validate_data.py:198),
  and otherwise `series.dtype` raises AttributeError (validate_data.py:156)
  unless the declared dtype is unknown.
- **Issue and mismatch texts.** Issue messages are an enumeration, and
  `Message.Text` gives their exact strings. Mismatch messages are datatypes
  carrying the topic, key and both numbers, not formatted f-strings.
  `str()` of floats in messages and contexts is not modelled. TypeError
  texts are fixed strings naming `'float'` and `'str'` (or `'<'`/`'>'`
  between `'str'` and `'float'`); Python's text depends on the operand types
  (`'int'` and `'str'` for a sum or count column, say) and, for `sorted`, on
  the order in which it meets the values.
- **`sorted(...)` raising TypeError.** This is modelled for values mixing
  numbers and texts, and for comparing a text with a numeric bound. Other
  incomparable values (datetimes in cells) are not cell values here.
- SchemaValidator.MinimumIssues: every categorical column raises TypeError
  on a bound, as an unordered one does. An ordered categorical whose
  categories include the bound compares by category order in pandas; the
  model does not track orderedness. Timedelta and period columns (the
  `OtherDtype` tag) are not treated as raising.
- SchemaValidator.MaximumIssues: the same as `MinimumIssues` for the upper
  bound.
- **`round(6)` in the bar comparison** (validate_charts.py:154). Values are
  reals. The model compares the unrounded values and raises an ERROR iff
  some difference exceeds the tolerance, so a difference hidden by rounding
  is not modelled.
- **`Series.equals` dtype strictness.** Categories are compared as cell
  sequences; an int64 column against an equal-valued float64 column is not
  distinguished.
- **mean/sum over text y values.** These are modelled as a TypeError. pandas
  concatenates strings under `sum`, which is not modelled.
- ChartChecker.GroupKeys: a categorical x column is treated like any other.
  Its `groupby` (pandas' default `observed=False`) also yields the
  categories no row holds, and `sort_values` orders them by category code;
  the model has no category list, so it yields only the observed values in
  value order. Categorical columns arise only when the caller builds them.
- ChartChecker.ExpectedPoints: the same for a categorical x, whose
  unobserved categories would carry count 0, sum 0 and mean NaN. `mean` and
  `sum` over a categorical y raise TypeError in pandas; the model adds up
  its numbers.
- ChartChecker.ExpectedPointsGroups: "one bar per distinct non-null x value"
  holds for non-categorical x only, for the reason given under `GroupKeys`.
- SchemaValidator.ValidateDataframe: the TypeError message names numpy 2's
  `bool`; numpy 1 names it `bool_`. Complex and period columns share the
  `OtherDtype` tag with timedelta and are named `Timedelta`.
- SchemaValidator.UnencodableClass: integer columns of every width are
  named `int64`, where the source names `int32`, `uint8` and so on by their
  own class. Float columns are taken as 64-bit: `float32` and `float16`
  scalars are not `float` subclasses, so the source raises TypeError for
  them where the model logs the issues.
- **groupby and null keys.** groupby drops rows whose key is null, as in
  pandas' default.
- **Exceptions escaping validate_charts.** They propagate as `Err` of the
  whole call; the KeyError of a missing chart column is among them.
- **Out-of-scope file and orchestration functions.**
  `save_chart_metadata`/`load_chart_metadata`, `load_schema`, `validate_csv`,
  `save_summary`, `save_summary_json`, the markdown and JSON writers, the
  CLI and the non-core surveykit modules are not part of this model.
- **The signer hook** (integrity.py:55-57). It runs a shell command after
  writing, with no effect on the manifest.
- **The JSON text of files.** This covers the status file, the manifest file
  (`indent=2`) and the audit log. The model keeps the values they encode;
  the one encoding failure it models is the audit log's `json.dumps` on
  numpy and pandas scalars in `invalid_values`.
  The manifest's pretty-printed text and the `str()` of `time.time()` are
  parameters.
- **Clocks.** `time.time()` and `datetime.utcnow()` readings are
  parameters.
- IsoDate.FromIsoformat: models the ISO shapes that `isoformat()`
  writes: a date, or a date, a separator and a time with optional
  microseconds. Python 3.11 also accepts other shapes (week dates, time
  zones, shortened fields); those raise ValueError here.
- ChartSpecs.FromDict: a stored value of the wrong shape (a number where
  a text is expected) is rejected as `Malformed`. Python's dataclass would
  store it unchecked and fail later, if at all.
- TextAnalysis.Tokens: `str.lower()` is modelled for ASCII letters only;
  other characters are left unchanged, so keyword counts differ from
  Python's for non-ASCII capitals such as "É".
- **Float division** in the sentiment score is exact `real` division.
- **The TextBlob branch** of `sentiment_score` (text_analysis.py:26-27)
  depends on a foreign library.
- **`float()` on a string** in the summary check and in the chart's
  `astype(float)` is a parameter. It returns `None` where Python raises
  ValueError, and otherwise the number or NaN it reads.
- SummaryCheck.CheckEntry: floats are real numbers or NaN; infinities
  (`float("inf")`) are not represented. In Python an infinite value is
  reported against any finite statistic and passes against an equal
  infinity (the difference is NaN).
- ChartChecker.AsFloats: the same; an infinite y value is not represented.
- **Audit-log parsing.** `json.loads` is abstracted. A line is blank, a
  record with optional string level and event, or text it rejects (a
  ValueError, which the model propagates). JSON values that are not objects,
  and level/event values that are not strings, are not modelled.
- **Special files and symbolic links.** The tree model gives each path
  the node it resolves to. `rglob`'s treatment of symbolic links to
  directories is not modelled.
- TextAnalysis.MostCommon: ties keep the first-counted order, as
  `most_common`'s stable sort does; the model computes that order, but no
  lemma states it.
- SummaryCheck.VerifySummary: its own contract bounds the messages and
  names their topics. What each message means is stated by
  `SummaryCheck.MissingKeysReported`, `SummaryCheck.DifferencesReported`
  and `SummaryCheck.ReportedAreReal`, and their order by
  `SummaryCheck.VerifyAfterAdd`.
- ChartChecker.VerifyChart: its own contract fixes who an issue names and
  its level. The verdict of each kind is stated by
  `ChartChecker.BarSpecRejected`, `ChartChecker.BarCategories`,
  `ChartChecker.BarValues`, `ChartChecker.LineVerdict` and
  `ChartChecker.OtherKindWarns`.
