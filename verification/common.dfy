/** Shared vocabulary of the audit core: optional values, results that carry the
    Python exception a call lets escape, the two issue severities, and the
    order-preserving filter and counting helpers every component uses. */
module Common {

  /** `None` models Python's `None` (and, for cells, a pandas null). */
  datatype Option<T> = None | Some(value: T)

  /** The exceptions the modelled code raises to its caller. */
  datatype Failure =
    | KeyError(key: string)
    | TypeError(reason: string)
    | ValueError(reason: string)
    | ValidationError(errorCount: nat)
    | Malformed(field: string)

  /** A call either returns a value or raises one of the failures above. */
  datatype Result<T> = Ok(value: T) | Err(failure: Failure) {
    predicate IsFailure() { Err? }

    function PropagateFailure<U>(): Result<U>
      requires Err?
    {
      Err(failure)
    }

    function Extract(): T
      requires Ok?
    {
      value
    }
  }

  /** Severity of a validation or chart issue: "ERROR" or "WARN". */
  datatype Level = Error | Warn

  /** The elements of `s` satisfying `p`, in their original order
      (a Python list comprehension with an `if`). */
  function Filter<T(!new)>(s: seq<T>, p: T -> bool): (r: seq<T>)
    ensures |r| <= |s|
    ensures forall x :: x in r <==> x in s && p(x)
    ensures forall i :: 0 <= i < |r| ==> p(r[i])
  {
    if |s| == 0 then []
    else (if p(s[0]) then [s[0]] else []) + Filter(s[1..], p)
  }

  /** Filtering commutes with concatenation, so it keeps the original order. */
  lemma {:induction false} FilterAppend<T(!new)>(a: seq<T>, b: seq<T>, p: T -> bool)
    ensures Filter(a + b, p) == Filter(a, p) + Filter(b, p)
  {
    if |a| == 0 {
      assert a + b == b;
    } else {
      assert (a + b)[1..] == a[1..] + b;
      FilterAppend(a[1..], b, p);
    }
  }

  /** Filtering twice keeps exactly what the conjunction keeps. */
  lemma {:induction false} FilterFilter<T(!new)>(s: seq<T>, p: T -> bool, q: T -> bool, pq: T -> bool)
    requires forall x :: pq(x) == (p(x) && q(x))
    ensures Filter(Filter(s, p), q) == Filter(s, pq)
  {
    if |s| > 0 {
      FilterFilter(s[1..], p, q, pq);
      var head := if p(s[0]) then [s[0]] else [];
      FilterAppend(head, Filter(s[1..], p), q);
    }
  }

  /** Two pointwise-equal predicates filter alike. */
  lemma {:induction false} FilterExt<T(!new)>(s: seq<T>, p: T -> bool, q: T -> bool)
    requires forall x :: x in s ==> p(x) == q(x)
    ensures Filter(s, p) == Filter(s, q)
  {
    if |s| > 0 {
      FilterExt(s[1..], p, q);
    }
  }

  /** Nothing survives a filter no element passes. */
  lemma {:induction false} FilterNone<T(!new)>(s: seq<T>, p: T -> bool)
    requires forall i :: 0 <= i < |s| ==> !p(s[i])
    ensures Filter(s, p) == []
  {
    if |s| > 0 {
      FilterNone(s[1..], p);
    }
  }

  /** A filter every element passes keeps the sequence as it is. */
  lemma {:induction false} FilterAll<T(!new)>(s: seq<T>, p: T -> bool)
    requires forall i :: 0 <= i < |s| ==> p(s[i])
    ensures Filter(s, p) == s
  {
    if |s| > 0 {
      FilterAll(s[1..], p);
      assert s == [s[0]] + s[1..];
    }
  }

  /** Filtering keeps each passing element as often as it occurs. */
  lemma {:induction false} FilterMultiset<T(!new)>(s: seq<T>, p: T -> bool)
    ensures forall x :: multiset(Filter(s, p))[x] == if p(x) then multiset(s)[x] else 0
  {
    if |s| > 0 {
      FilterMultiset(s[1..], p);
      assert s == [s[0]] + s[1..];
    }
  }

  /** Rearranging a sequence rearranges what a filter keeps of it. */
  lemma FilterPermutation<T(!new)>(a: seq<T>, b: seq<T>, p: T -> bool)
    requires multiset(a) == multiset(b)
    ensures multiset(Filter(a, p)) == multiset(Filter(b, p))
  {
    FilterMultiset(a, p);
    FilterMultiset(b, p);
  }

  /** A predicate and its negation split a sequence between them. */
  lemma {:induction false} FilterComplement<T(!new)>(s: seq<T>, p: T -> bool, q: T -> bool)
    requires forall x :: q(x) == !p(x)
    ensures |Filter(s, p)| + |Filter(s, q)| == |s|
  {
    if |s| > 0 {
      FilterComplement(s[1..], p, q);
    }
  }

  /** Number of elements of `s` satisfying `p` (`sum(1 for x in s if p(x))`). */
  function CountIf<T>(s: seq<T>, p: T -> bool): (n: nat)
    ensures n <= |s|
    ensures n == 0 <==> forall i :: 0 <= i < |s| ==> !p(s[i])
  {
    if |s| == 0 then 0
    else (if p(s[|s| - 1]) then 1 else 0) + CountIf(s[..|s| - 1], p)
  }

  /** The positions of `s` whose element satisfies `p`. */
  ghost function Positions<T>(s: seq<T>, p: T -> bool): set<nat>
  {
    set i: nat | i < |s| && p(s[i])
  }

  /** `CountIf` counts positions, so duplicates are counted with multiplicity. */
  lemma {:induction false} CountIfPositions<T>(s: seq<T>, p: T -> bool)
    ensures CountIf(s, p) == |Positions(s, p)|
  {
    if |s| == 0 {
      assert Positions(s, p) == {};
    } else {
      var n := |s| - 1;
      var front := s[..n];
      CountIfPositions(front, p);
      var last: set<nat> := if p(s[n]) then {n} else {};
      assert Positions(s, p) == Positions(front, p) + last;
      assert n !in Positions(front, p);
    }
  }

  /** Counting over a concatenation adds up. */
  lemma {:induction false} CountIfAppend<T>(a: seq<T>, b: seq<T>, p: T -> bool)
    ensures CountIf(a + b, p) == CountIf(a, p) + CountIf(b, p)
  {
    if |b| == 0 {
      assert a + b == a;
    } else {
      assert (a + b)[..|a + b| - 1] == a + b[..|b| - 1];
      CountIfAppend(a, b[..|b| - 1], p);
    }
  }

  /** Concatenation of a sequence of sequences. */
  function Flatten<T>(ss: seq<seq<T>>): (r: seq<T>)
    ensures |ss| == 0 ==> r == []
  {
    if |ss| == 0 then [] else ss[0] + Flatten(ss[1..])
  }

  lemma {:induction false} FlattenAppend<T>(a: seq<seq<T>>, b: seq<seq<T>>)
    ensures Flatten(a + b) == Flatten(a) + Flatten(b)
  {
    if |a| == 0 {
      assert a + b == b;
    } else {
      assert (a + b)[1..] == a[1..] + b;
      FlattenAppend(a[1..], b);
    }
  }

  /** The elements of `s` without repeats, each at its first occurrence. */
  function Dedup<T(==,!new)>(s: seq<T>): (r: seq<T>)
    ensures forall x :: x in r <==> x in s
    ensures forall i, j :: 0 <= i < j < |r| ==> r[i] != r[j]
    ensures |r| <= |s|
  {
    if |s| == 0 then []
    else
      var front := Dedup(s[..|s| - 1]);
      assert forall x :: x in s <==> x in s[..|s| - 1] || x == s[|s| - 1] by {
        assert s == s[..|s| - 1] + [s[|s| - 1]];
      }
      if s[|s| - 1] in front then front else front + [s[|s| - 1]]
  }

  ghost predicate Distinct<T>(s: seq<T>)
  {
    forall i, j :: 0 <= i < j < |s| ==> s[i] != s[j]
  }

  /** In a sequence without repeats every element occurs at most once. */
  lemma {:induction false} DistinctMultiplicity<T>(s: seq<T>, x: T)
    requires Distinct(s)
    ensures multiset(s)[x] <= 1
  {
    if |s| > 0 {
      var n := |s| - 1;
      assert s == s[..n] + [s[n]];
      DistinctMultiplicity(s[..n], x);
      if s[n] == x {
        assert x !in s[..n];
      }
    }
  }

  /** A rearrangement of a sequence without repeats has no repeats. */
  lemma DistinctPermutation<T>(a: seq<T>, b: seq<T>)
    requires multiset(a) == multiset(b)
    requires Distinct(a)
    ensures Distinct(b)
  {
    forall i, j | 0 <= i < j < |b|
      ensures b[i] != b[j]
    {
      if b[i] == b[j] {
        assert b == b[..j] + [b[j]] + b[j + 1..];
        assert b[i] in b[..j];
        assert multiset(b) == multiset(b[..j]) + multiset{b[j]} + multiset(b[j + 1..]);
        DistinctMultiplicity(a, b[i]);
      }
    }
  }

  /** Runs a sequence of steps that each return issues or raise, in order:
      the first step that raises aborts, otherwise the issues concatenate. */
  function Collect<T>(rs: seq<Result<seq<T>>>): (r: Result<seq<T>>)
    ensures r.Ok? <==> forall k :: 0 <= k < |rs| ==> rs[k].Ok?
    ensures r.Err? ==> exists k :: 0 <= k < |rs| && rs[k] == Err(r.failure) && forall j :: 0 <= j < k ==> rs[j].Ok?
  {
    if |rs| == 0 then Ok([])
    else
      var rest := Collect(rs[1..]);
      assert forall k :: 0 <= k < |rs| - 1 ==> rs[1..][k] == rs[k + 1];
      if rs[0].Err? then Err(rs[0].failure)
      else if rest.Err? then Err(rest.failure)
      else Ok(rs[0].value + rest.value)
  }

  /** Every issue collected comes from one of the steps. */
  lemma {:induction false} CollectFrom<T>(rs: seq<Result<seq<T>>>, i: nat)
    requires Collect(rs).Ok? && i < |Collect(rs).value|
    ensures exists k, m :: 0 <= k < |rs| && 0 <= m < |rs[k].value| && Collect(rs).value[i] == rs[k].value[m]
  {
    var rest := Collect(rs[1..]);
    if i < |rs[0].value| {
      assert Collect(rs).value[i] == rs[0].value[i];
    } else {
      CollectFrom(rs[1..], i - |rs[0].value|);
      var k, m :| 0 <= k < |rs[1..]| && 0 <= m < |rs[1..][k].value|
        && rest.value[i - |rs[0].value|] == rs[1..][k].value[m];
      assert rs[1..][k] == rs[k + 1];
    }
  }

  /** Three successful steps collect to their issues in order. */
  lemma CollectOfThree<T>(x: seq<T>, y: seq<T>, z: seq<T>)
    ensures Collect([Ok(x), Ok(y), Ok(z)]) == Ok(x + (y + z))
  {
    var rs := [Ok(x), Ok(y), Ok(z)];
    var empty: seq<Result<seq<T>>> := [];
    assert [Ok(z)][1..] == empty;
    assert Collect([Ok(z)]) == Ok(z + []);
    assert z + [] == z;
    assert [Ok(y), Ok(z)][1..] == [Ok(z)];
    assert Collect([Ok(y), Ok(z)]) == Ok(y + z);
    assert rs[1..] == [Ok(y), Ok(z)];
  }

  /** Three results that all return collect to their contents in order. */
  lemma CollectOfThreeResults<T>(rs: seq<Result<seq<T>>>)
    requires |rs| == 3 && rs[0].Ok? && rs[1].Ok? && rs[2].Ok?
    ensures Collect(rs) == Ok(rs[0].value + (rs[1].value + rs[2].value))
  {
    assert rs == [Ok(rs[0].value), Ok(rs[1].value), Ok(rs[2].value)];
    CollectOfThree(rs[0].value, rs[1].value, rs[2].value);
  }

  /** Collecting one more successful step appends its issues. */
  lemma {:induction false} CollectSnoc<T>(rs: seq<Result<seq<T>>>, last: seq<T>)
    requires Collect(rs).Ok?
    ensures Collect(rs + [Ok(last)]) == Ok(Collect(rs).value + last)
  {
    if |rs| == 0 {
      assert rs + [Ok(last)] == [Ok(last)];
      assert [Ok(last)][1..] == [];
      assert Collect([Ok(last)]) == Ok(last + []);
      assert last + [] == [] + last == last;
    } else {
      CollectSnoc(rs[1..], last);
      assert (rs + [Ok(last)])[1..] == rs[1..] + [Ok(last)];
      assert (rs + [Ok(last)])[0] == rs[0];
      var head, tail := rs[0].value, Collect(rs[1..]).value;
      assert head + (tail + last) == (head + tail) + last;
    }
  }
}
