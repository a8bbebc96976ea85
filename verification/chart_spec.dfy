/** How a chart was produced (`ChartSpec`) and the dictionary form it is
    stored in as chart metadata. */
module ChartSpecs {
  import opened Common
  import opened Values
  import opened IsoDate

  /** The right-hand side of a filter: a single value, compared with `==`,
      or a collection other than a string, matched with `isin`. */
  datatype Expected = Scalar(value: Cell) | Members(values: seq<Cell>)

  /** A chart's recipe.  `filters` keeps the dictionary's insertion order,
      which is the order the filters are applied in. */
  datatype ChartSpec = ChartSpec(
    identifier: string,
    kind: string,
    x: string,
    y: Option<string>,
    aggregation: Option<string>,
    filters: seq<(string, Expected)>,
    dataSignature: Option<string>,
    createdAt: Option<DateTime>,
    metadata: seq<(string, Value)>)

  /** A value of the stored dictionary, by the shape the spec's fields take. */
  datatype Field =
    | Null
    | Str(s: string)
    | Filters(filters: seq<(string, Expected)>)
    | Mapping(entries: seq<(string, Value)>)
    | Number(n: real)

  type Payload = map<string, Field>

  /** Python truthiness of a stored value. */
  predicate Truthy(f: Field)
  {
    match f
    case Null => false
    case Str(s) => s != ""
    case Filters(fs) => fs != []
    case Mapping(es) => es != []
    case Number(n) => n != 0.0
  }

  function OptionalText(v: Option<string>): (f: Field)
    ensures v.None? <==> f == Null
  {
    if v.Some? then Str(v.value) else Null
  }

  /** `spec.to_dict()`. */
  function ToDict(spec: ChartSpec): (p: Payload)
    ensures p.Keys == {"identifier", "kind", "x", "y", "aggregation", "filters",
                       "data_signature", "created_at", "metadata"}
    ensures p["created_at"] == Null <==> spec.createdAt.None?
  {
    map[
      "identifier" := Str(spec.identifier),
      "kind" := Str(spec.kind),
      "x" := Str(spec.x),
      "y" := OptionalText(spec.y),
      "aggregation" := OptionalText(spec.aggregation),
      "filters" := Filters(spec.filters),
      "data_signature" := OptionalText(spec.dataSignature),
      "created_at" := if spec.createdAt.Some? then Str(Isoformat(spec.createdAt.value)) else Null,
      "metadata" := Mapping(spec.metadata)]
  }

  /** `payload[key]` for a text field. */
  function RequiredText(p: Payload, key: string): (r: Result<string>)
    ensures r.Ok? <==> key in p && p[key].Str?
    ensures key !in p ==> r == Err(KeyError(key))
  {
    if key !in p then Err(KeyError(key))
    else if p[key].Str? then Ok(p[key].s)
    else Err(Malformed(key))
  }

  /** `payload.get(key)` for a text field that may be null. */
  function OptionalTextOf(p: Payload, key: string): (r: Result<Option<string>>)
    ensures key !in p || p[key] == Null ==> r == Ok(None)
    ensures r.Ok? && r.value.Some? ==> key in p && p[key] == Str(r.value.value)
  {
    if key !in p || p[key] == Null then Ok(None)
    else if p[key].Str? then Ok(Some(p[key].s))
    else Err(Malformed(key))
  }

  /** `payload.get("created_at")`, parsed only when truthy. */
  function CreatedAtOf(p: Payload): (r: Result<Option<DateTime>>)
    ensures "created_at" !in p || !Truthy(p["created_at"]) ==> r == Ok(None)
    ensures r.Ok? && r.value.Some? ==> p["created_at"].Str? && FromIsoformat(p["created_at"].s) == Ok(r.value.value)
  {
    if "created_at" !in p || !Truthy(p["created_at"]) then Ok(None)
    else if !p["created_at"].Str? then Err(TypeError("fromisoformat: argument must be str"))
    else
      var parsed := FromIsoformat(p["created_at"].s);
      if parsed.Err? then Err(parsed.failure) else Ok(Some(parsed.value))
  }

  function FiltersOf(p: Payload): (r: Result<seq<(string, Expected)>>)
    ensures "filters" !in p ==> r == Ok([])
  {
    if "filters" !in p || p["filters"] == Null then Ok([])
    else if p["filters"].Filters? then Ok(p["filters"].filters)
    else Err(Malformed("filters"))
  }

  function MetadataOf(p: Payload): (r: Result<seq<(string, Value)>>)
    ensures "metadata" !in p ==> r == Ok([])
  {
    if "metadata" !in p || p["metadata"] == Null then Ok([])
    else if p["metadata"].Mapping? then Ok(p["metadata"].entries)
    else Err(Malformed("metadata"))
  }

  /** `ChartSpec.from_dict(payload)`.  The timestamp is parsed first, so a bad
      `created_at` is reported before a missing `identifier`; then the three
      required keys are read in order, raising `KeyError` for the first one
      absent. */
  function FromDict(p: Payload): (r: Result<ChartSpec>)
    ensures CreatedAtOf(p).Err? ==> r == Err(CreatedAtOf(p).failure)
    ensures CreatedAtOf(p).Ok? && "identifier" !in p ==> r == Err(KeyError("identifier"))
    ensures r.Ok? ==> "identifier" in p && "kind" in p && "x" in p
    ensures r.Ok? ==> p["identifier"] == Str(r.value.identifier) && p["kind"] == Str(r.value.kind)
                      && p["x"] == Str(r.value.x)
    ensures r.Ok? && ("y" !in p || p["y"] == Null) ==> r.value.y == None
    ensures r.Ok? && "filters" !in p ==> r.value.filters == []
  {
    var createdAt := CreatedAtOf(p);
    if createdAt.Err? then Err(createdAt.failure)
    else
      var identifier := RequiredText(p, "identifier");
      var kind := RequiredText(p, "kind");
      var x := RequiredText(p, "x");
      var y := OptionalTextOf(p, "y");
      var aggregation := OptionalTextOf(p, "aggregation");
      var filters := FiltersOf(p);
      var signature := OptionalTextOf(p, "data_signature");
      var metadata := MetadataOf(p);
      if identifier.Err? then Err(identifier.failure)
      else if kind.Err? then Err(kind.failure)
      else if x.Err? then Err(x.failure)
      else if y.Err? then Err(y.failure)
      else if aggregation.Err? then Err(aggregation.failure)
      else if filters.Err? then Err(filters.failure)
      else if signature.Err? then Err(signature.failure)
      else if metadata.Err? then Err(metadata.failure)
      else Ok(ChartSpec(identifier.value, kind.value, x.value, y.value, aggregation.value,
                        filters.value, signature.value, createdAt.value, metadata.value))
  }

  /** `ChartSpec.from_dict(spec.to_dict()) == spec`: every field, the
      timestamp included, survives the stored form. */
  lemma FromDictRoundTrip(spec: ChartSpec)
    ensures FromDict(ToDict(spec)) == Ok(spec)
  {
    var p := ToDict(spec);
    if spec.createdAt.Some? {
      FromIsoformatRoundTrip(spec.createdAt.value);
      assert Truthy(p["created_at"]);
    }
    assert CreatedAtOf(p) == Ok(spec.createdAt);
    assert RequiredText(p, "identifier") == Ok(spec.identifier);
    assert RequiredText(p, "kind") == Ok(spec.kind);
    assert RequiredText(p, "x") == Ok(spec.x);
    assert OptionalTextOf(p, "y") == Ok(spec.y);
    assert OptionalTextOf(p, "aggregation") == Ok(spec.aggregation);
    assert FiltersOf(p) == Ok(spec.filters);
    assert OptionalTextOf(p, "data_signature") == Ok(spec.dataSignature);
    assert MetadataOf(p) == Ok(spec.metadata);
  }

  /** The stored form determines the spec. */
  lemma ToDictInjective(a: ChartSpec, b: ChartSpec)
    requires ToDict(a) == ToDict(b)
    ensures a == b
  {
    FromDictRoundTrip(a);
    FromDictRoundTrip(b);
  }
}
