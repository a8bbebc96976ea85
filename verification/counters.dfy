/** Python's `collections.Counter`, as an insertion-ordered list of
    (key, count) pairs: a key is added at the end the first time it is
    counted and keeps its place afterwards. */
module Counters {

  type Counter<K> = seq<(K, nat)>

  /** `counter[k]`: zero for a key never counted. */
  function Get<K(==,!new)>(c: Counter<K>, k: K): nat
  {
    if |c| == 0 then 0
    else if c[0].0 == k then c[0].1
    else Get(c[1..], k)
  }

  predicate DistinctKeys<K(==,!new)>(c: Counter<K>)
  {
    forall i, j :: 0 <= i < j < |c| ==> c[i].0 != c[j].0
  }

  /** Every entry of a Counter built by counting has been counted at least once. */
  predicate Positive<K>(c: Counter<K>)
  {
    forall i :: 0 <= i < |c| ==> c[i].1 >= 1
  }

  /** Sum of all counts (`sum(counter.values())`). */
  function Total<K>(c: Counter<K>): nat
  {
    if |c| == 0 then 0 else c[0].1 + Total(c[1..])
  }

  /** `counter[k] += 1`. */
  function Bump<K(==,!new)>(c: Counter<K>, k: K): (r: Counter<K>)
    ensures forall k' :: Get(r, k') == Get(c, k') + (if k' == k then 1 else 0)
    ensures Total(r) == Total(c) + 1
  {
    if |c| == 0 then [(k, 1)]
    else if c[0].0 == k then [(k, c[0].1 + 1)] + c[1..]
    else
      var rest := Bump(c[1..], k);
      assert ([c[0]] + rest)[1..] == rest;
      [c[0]] + rest
  }

  /** Bumping adds `k` at the end when it is new and otherwise leaves the
      keys where they are: distinct keys stay distinct, counts stay positive,
      and no key but `k` appears. */
  lemma {:induction false} BumpShape<K(!new)>(c: Counter<K>, k: K)
    ensures DistinctKeys(c) ==> DistinctKeys(Bump(c, k))
    ensures Positive(c) ==> Positive(Bump(c, k))
    ensures forall i :: 0 <= i < |Bump(c, k)| ==> Bump(c, k)[i].0 == k || exists j :: 0 <= j < |c| && c[j].0 == Bump(c, k)[i].0
  {
    if |c| > 0 && c[0].0 != k {
      BumpShape(c[1..], k);
      var rest := Bump(c[1..], k);
      var r := Bump(c, k);
      assert r == [c[0]] + rest;
      assert forall i :: 1 <= i < |r| ==> r[i] == rest[i - 1];
      assert forall j :: 1 <= j < |c| ==> c[j] == c[1..][j - 1];
    }
  }

  /** In a Counter without repeated keys, each entry holds that key's count. */
  lemma {:induction false} GetAt<K(!new)>(c: Counter<K>, i: nat)
    requires DistinctKeys(c) && i < |c|
    ensures Get(c, c[i].0) == c[i].1
  {
    if i > 0 {
      GetAt(c[1..], i - 1);
    }
  }

  /** A key without an entry has count zero. */
  lemma {:induction false} GetAbsent<K(!new)>(c: Counter<K>, k: K)
    requires forall i :: 0 <= i < |c| ==> c[i].0 != k
    ensures Get(c, k) == 0
  {
    if |c| > 0 {
      GetAbsent(c[1..], k);
    }
  }

  /** `Counter(s)`: counts every element of `s`, keys in first-occurrence order. */
  function Tally<K(==,!new)>(s: seq<K>): (c: Counter<K>)
    ensures DistinctKeys(c) && Positive(c)
    ensures forall k :: Get(c, k) == multiset(s)[k]
    ensures forall i :: 0 <= i < |c| ==> c[i].0 in s
    ensures Total(c) == |s|
  {
    if |s| == 0 then []
    else
      var n := |s| - 1;
      assert s == s[..n] + [s[n]];
      BumpShape(Tally(s[..n]), s[n]);
      Bump(Tally(s[..n]), s[n])
  }

  /** Every key counted appears in the Counter. */
  lemma TallyHasAll<K(!new)>(s: seq<K>, k: K)
    requires k in s
    ensures exists i :: 0 <= i < |Tally(s)| && Tally(s)[i].0 == k
  {
    var c := Tally(s);
    assert Get(c, k) >= 1;
    if forall i :: 0 <= i < |c| ==> c[i].0 != k {
      GetAbsent(c, k);
    }
  }

  /** Counting one more element bumps its count. */
  lemma TallySnoc<K(!new)>(s: seq<K>, k: K)
    ensures Tally(s + [k]) == Bump(Tally(s), k)
  {
    assert (s + [k])[..|s|] == s;
  }
}
