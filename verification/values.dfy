/** Cell values of a survey dataset and the order pandas sorts them in.

    A value is a number or a text.  Python's `bool` compares and hashes equal
    to 0 and 1, so boolean cells are the numbers 0 and 1 here; integers and
    floats are both `real`.  A null cell (None or NaN) is `None`. */
module Values {
  import opened Common
  import Strings

  datatype Value = Num(n: real) | Text(s: string)

  type Cell = Option<Value>

  /** The order of `sorted()` on values of one kind.  Python refuses to compare
      a number with a text; every caller that sorts values checks for such a
      mix first and raises, so placing numbers before texts is never observed. */
  predicate ValueLe(a: Value, b: Value)
  {
    match (a, b)
    case (Num(x), Num(y)) => x <= y
    case (Text(s), Text(t)) => Strings.LessEq(s, t)
    case (Num(_), Text(_)) => true
    case (Text(_), Num(_)) => false
  }

  /** The order of `sort_values()`: values ascending, nulls last. */
  predicate CellLe(a: Cell, b: Cell)
  {
    if b.None? then true
    else if a.None? then false
    else ValueLe(a.value, b.value)
  }

  lemma CellLeReflexive(a: Cell)
    ensures CellLe(a, a)
  {
  }

  lemma CellLeTotal(a: Cell, b: Cell)
    ensures CellLe(a, b) || CellLe(b, a)
  {
    if a.Some? && b.Some? && a.value.Text? && b.value.Text? {
      Strings.LessTotal(a.value.s, b.value.s);
    }
  }

  lemma CellLeTransitive(a: Cell, b: Cell, c: Cell)
    requires CellLe(a, b) && CellLe(b, c)
    ensures CellLe(a, c)
  {
    if a.Some? && b.Some? && c.Some? && a.value.Text? && b.value.Text? && c.value.Text? {
      if a.value.s != b.value.s && b.value.s != c.value.s {
        Strings.LessTransitive(a.value.s, b.value.s, c.value.s);
      }
    }
  }

  lemma CellLeAntisymmetric(a: Cell, b: Cell)
    requires CellLe(a, b) && CellLe(b, a)
    ensures a == b
  {
    if a.Some? && b.Some? && a.value.Text? && b.value.Text? && a.value.s != b.value.s {
      Strings.LessAsymmetric(a.value.s, b.value.s);
    }
  }

  /** The non-null values of a column, in row order (`series.dropna()`). */
  function NonNull(s: seq<Cell>): (r: seq<Value>)
    ensures forall v :: v in r <==> Some(v) in s
  {
    if |s| == 0 then []
    else (if s[0].Some? then [s[0].value] else []) + NonNull(s[1..])
  }

  /** True when Python's `<` would be asked to compare a number with a text
      while sorting these values, which raises `TypeError`. */
  predicate MixedKinds(vs: seq<Value>)
  {
    (exists i :: 0 <= i < |vs| && vs[i].Num?) && (exists j :: 0 <= j < |vs| && vs[j].Text?)
  }

  /** True when some cell holds a text. */
  predicate HasTextCell(s: seq<Cell>)
  {
    exists i :: 0 <= i < |s| && s[i].Some? && s[i].value.Text?
  }

  /** A Python float: a real number, or `None` for NaN. */
  type Float = Option<real>

  function Abs(x: real): (r: real)
    ensures r >= 0.0 && (r == x || r == -x)
  {
    if x < 0.0 then -x else x
  }

  /** `abs(a - b)` on floats: NaN when either side is NaN. */
  function Delta(a: Float, b: Float): (r: Float)
    ensures r.Some? <==> a.Some? && b.Some?
    ensures r.Some? ==> r.value >= 0.0 && (r.value == a.value - b.value || r.value == b.value - a.value)
  {
    if a.Some? && b.Some? then Some(Abs(a.value - b.value)) else None
  }

  /** `abs(a - b) > tolerance`: never true when a NaN is involved, since
      every comparison with NaN is false. */
  predicate Beyond(a: Float, b: Float, tolerance: real)
  {
    Delta(a, b).Some? && Delta(a, b).value > tolerance
  }

  /** What `float(text)` gives for a string: `None` when it raises
      `ValueError`, otherwise the number or NaN it reads. */
  type FloatParser = string -> Option<Float>
}
