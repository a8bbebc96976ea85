/** Python's `sorted(xs, key=...)`: a stable sort, written as an insertion sort
    over sequences, ordering elements by a `Cell` key. */
module Sorting {
  import opened Common
  import opened Values

  predicate SortedBy<T>(s: seq<T>, key: T -> Cell)
  {
    forall i, j :: 0 <= i < j < |s| ==> CellLe(key(s[i]), key(s[j]))
  }

  /** Puts `x` before the first element whose key is not below `key(x)`'s;
      since `x` came first in the input, equal keys keep their input order. */
  function Insert<T>(x: T, s: seq<T>, key: T -> Cell): (r: seq<T>)
    requires SortedBy(s, key)
    ensures |r| == |s| + 1
    ensures multiset(r) == multiset(s) + multiset{x}
    ensures forall k :: 0 <= k < |r| ==> r[k] == x || r[k] in s
    ensures SortedBy(r, key)
    decreases |s|
  {
    if |s| == 0 then [x]
    else if CellLe(key(x), key(s[0])) then
      assert forall k :: 0 <= k < |s| ==> CellLe(key(x), key(s[k])) by {
        forall k | 0 < k < |s| {
          CellLeTransitive(key(x), key(s[0]), key(s[k]));
        }
      }
      [x] + s
    else
      CellLeTotal(key(x), key(s[0]));
      var t := Insert(x, s[1..], key);
      assert s == [s[0]] + s[1..];
      InsertAboveHead(x, s, t, key);
      [s[0]] + t
  }

  /** Every element of the tail's insertion result has a key not below the
      head's, when `x`'s key is not either. */
  lemma InsertAboveHead<T>(x: T, s: seq<T>, t: seq<T>, key: T -> Cell)
    requires |s| > 0 && SortedBy(s, key) && CellLe(key(s[0]), key(x))
    requires forall k :: 0 <= k < |t| ==> t[k] == x || t[k] in s[1..]
    ensures forall k :: 0 <= k < |t| ==> CellLe(key(s[0]), key(t[k]))
  {
    forall k | 0 <= k < |t|
      ensures CellLe(key(s[0]), key(t[k]))
    {
      if t[k] != x {
        var j :| 0 <= j < |s[1..]| && s[1..][j] == t[k];
        assert s[j + 1] == t[k];
      }
    }
  }

  /** `sorted(s, key=key)`: a permutation of `s` in key order. */
  function SortBy<T>(s: seq<T>, key: T -> Cell): (r: seq<T>)
    ensures |r| == |s|
    ensures multiset(r) == multiset(s)
    ensures SortedBy(r, key)
  {
    if |s| == 0 then []
    else
      assert s == [s[0]] + s[1..];
      Insert(s[0], SortBy(s[1..], key), key)
  }

  /** A sequence already in key order comes back unchanged, even with equal
      keys: `Insert` puts an element before an equal key. */
  lemma {:induction false} SortBySorted<T>(s: seq<T>, key: T -> Cell)
    requires SortedBy(s, key)
    ensures SortBy(s, key) == s
  {
    if |s| > 0 {
      assert SortedBy(s[1..], key) by {
        forall i, j | 0 <= i < j < |s[1..]|
          ensures CellLe(key(s[1..][i]), key(s[1..][j]))
        {
          assert s[1..][i] == s[i + 1] && s[1..][j] == s[j + 1];
        }
      }
      SortBySorted(s[1..], key);
      assert s == [s[0]] + s[1..];
      if |s| > 1 {
        assert CellLe(key(s[0]), key(s[1..][0]));
      }
    }
  }

  /** Sorting keeps exactly the elements it was given. */
  lemma SortByMembers<T>(s: seq<T>, key: T -> Cell)
    ensures forall x :: x in SortBy(s, key) <==> x in s
  {
    var r := SortBy(s, key);
    forall x
      ensures x in r <==> x in s
    {
      assert x in r <==> x in multiset(r);
      assert x in s <==> x in multiset(s);
    }
  }

  /** Two sorted arrangements of one multiset, no two distinct elements
      sharing a key, start with the same element. */
  lemma SortedHeadsAgree<T>(a: seq<T>, b: seq<T>, key: T -> Cell)
    requires |a| > 0
    requires SortedBy(a, key) && SortedBy(b, key)
    requires multiset(a) == multiset(b)
    requires forall i, j :: 0 <= i < |a| && 0 <= j < |a| && key(a[i]) == key(a[j]) ==> a[i] == a[j]
    ensures |b| > 0 && a[0] == b[0]
  {
    assert a[0] in multiset(b);
    var k :| 0 <= k < |b| && b[k] == a[0];
    assert b[0] in multiset(a);
    var m :| 0 <= m < |a| && a[m] == b[0];
    CellLeReflexive(key(a[0]));
    CellLeReflexive(key(b[0]));
    assert CellLe(key(a[0]), key(a[m]));
    assert CellLe(key(b[0]), key(b[k]));
    CellLeAntisymmetric(key(a[0]), key(b[0]));
  }

  lemma TailMultisets<T>(a: seq<T>, b: seq<T>)
    requires |a| > 0 && |b| > 0 && a[0] == b[0]
    requires multiset(a) == multiset(b)
    ensures multiset(a[1..]) == multiset(b[1..])
  {
    assert a == [a[0]] + a[1..] && b == [b[0]] + b[1..];
    assert multiset(a[1..]) == multiset(a) - multiset{a[0]};
    assert multiset(b[1..]) == multiset(b) - multiset{b[0]};
  }

  /** When no two distinct elements share a key, there is only one sorted
      arrangement of a multiset: the result does not depend on input order. */
  lemma {:induction false} SortedUnique<T>(a: seq<T>, b: seq<T>, key: T -> Cell)
    requires SortedBy(a, key) && SortedBy(b, key)
    requires multiset(a) == multiset(b)
    requires forall i, j :: 0 <= i < |a| && 0 <= j < |a| && key(a[i]) == key(a[j]) ==> a[i] == a[j]
    ensures a == b
    decreases |a|
  {
    if |a| == 0 {
      assert |b| == |multiset(b)| == 0;
    } else {
      SortedHeadsAgree(a, b, key);
      TailMultisets(a, b);
      var a', b' := a[1..], b[1..];
      assert forall i, j :: 0 <= i < |a'| && 0 <= j < |a'| && key(a'[i]) == key(a'[j]) ==> a'[i] == a'[j] by {
        forall i, j | 0 <= i < |a'| && 0 <= j < |a'| && key(a'[i]) == key(a'[j])
          ensures a'[i] == a'[j]
        {
          assert a'[i] == a[i + 1] && a'[j] == a[j + 1];
        }
      }
      assert SortedBy(a', key) by {
        forall i, j | 0 <= i < j < |a'|
          ensures CellLe(key(a'[i]), key(a'[j]))
        {
          assert a'[i] == a[i + 1] && a'[j] == a[j + 1];
        }
      }
      assert SortedBy(b', key) by {
        forall i, j | 0 <= i < j < |b'|
          ensures CellLe(key(b'[i]), key(b'[j]))
        {
          assert b'[i] == b[i + 1] && b'[j] == b[j + 1];
        }
      }
      SortedUnique(a', b', key);
      assert a == [a[0]] + a' && b == [b[0]] + b';
    }
  }

  /** Sorting two arrangements of the same elements, no two sharing a key,
      gives the same sequence. */
  lemma SortByPermutationInvariant<T>(a: seq<T>, b: seq<T>, key: T -> Cell)
    requires multiset(a) == multiset(b)
    requires forall i, j :: 0 <= i < |a| && 0 <= j < |a| && key(a[i]) == key(a[j]) ==> a[i] == a[j]
    ensures SortBy(a, key) == SortBy(b, key)
  {
    var ra, rb := SortBy(a, key), SortBy(b, key);
    forall i, j | 0 <= i < |ra| && 0 <= j < |ra| && key(ra[i]) == key(ra[j])
      ensures ra[i] == ra[j]
    {
      assert ra[i] in multiset(a) && ra[j] in multiset(a);
      var i' :| 0 <= i' < |a| && a[i'] == ra[i];
      var j' :| 0 <= j' < |a| && a[j'] == ra[j];
    }
    SortedUnique(ra, rb, key);
  }

  /** What a filter keeps of a sorted sequence is still sorted. */
  lemma {:induction false} FilterSorted<T(!new)>(s: seq<T>, key: T -> Cell, p: T -> bool)
    requires SortedBy(s, key)
    ensures SortedBy(Filter(s, p), key)
  {
    if |s| > 0 {
      var rest := s[1..];
      assert SortedBy(rest, key) by {
        forall i, j | 0 <= i < j < |rest|
          ensures CellLe(key(rest[i]), key(rest[j]))
        {
          assert rest[i] == s[i + 1] && rest[j] == s[j + 1];
        }
      }
      FilterSorted(rest, key, p);
      var tail := Filter(rest, p);
      forall k | 0 <= k < |tail|
        ensures CellLe(key(s[0]), key(tail[k]))
      {
        var m :| 0 <= m < |rest| && rest[m] == tail[k];
        assert s[m + 1] == rest[m];
      }
    }
  }

  /** Filtering and sorting commute when no two distinct elements share a key:
      sorting everything and skipping some is sorting what is not skipped. */
  lemma FilterSortBy<T(!new)>(s: seq<T>, key: T -> Cell, p: T -> bool)
    requires forall i, j :: 0 <= i < |s| && 0 <= j < |s| && key(s[i]) == key(s[j]) ==> s[i] == s[j]
    ensures Filter(SortBy(s, key), p) == SortBy(Filter(s, p), key)
  {
    var sorted := SortBy(s, key);
    var a, b := Filter(sorted, p), SortBy(Filter(s, p), key);
    FilterSorted(sorted, key, p);
    FilterPermutation(sorted, s, p);
    forall i, j | 0 <= i < |a| && 0 <= j < |a| && key(a[i]) == key(a[j])
      ensures a[i] == a[j]
    {
      assert a[i] in sorted && a[j] in sorted;
      assert a[i] in multiset(sorted) && a[j] in multiset(sorted);
      assert a[i] in s && a[j] in s;
      var i' :| 0 <= i' < |s| && s[i'] == a[i];
      var j' :| 0 <= j' < |s| && s[j'] == a[j];
    }
    assert multiset(a) == multiset(b);
    SortedUnique(a, b, key);
  }
}
