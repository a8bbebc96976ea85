/** The client review tracker: a status record per deliverable, kept in a
    JSON list on disk and updated one deliverable at a time. */
module ReviewTracker {
  import opened Common

  /** One deliverable's review state. */
  datatype DeliverableStatus = DeliverableStatus(identifier: string, status: string, comments: seq<string>)

  /** A `Dict[str, DeliverableStatus]` as its (key, value) pairs in insertion
      order. */
  type Statuses = seq<(string, DeliverableStatus)>

  /** The status file: absent, or the list of records it holds.  The JSON
      text of the file is not modelled, only the records it encodes. */
  type StatusFile = Option<seq<DeliverableStatus>>

  predicate DistinctKeys(d: Statuses)
  {
    forall i, j :: 0 <= i < j < |d| ==> d[i].0 != d[j].0
  }

  /** Every key is its record's identifier. */
  predicate KeysMatch(d: Statuses)
  {
    forall i :: 0 <= i < |d| ==> d[i].0 == d[i].1.identifier
  }

  /** `statuses.get(key)`. */
  function Find(d: Statuses, key: string): (r: Option<DeliverableStatus>)
    ensures r.None? <==> forall i :: 0 <= i < |d| ==> d[i].0 != key
    ensures r.Some? ==> (key, r.value) in d
  {
    if |d| == 0 then None
    else if d[0].0 == key then Some(d[0].1)
    else Find(d[1..], key)
  }

  lemma {:induction false} FindAt(d: Statuses, i: nat)
    requires DistinctKeys(d) && i < |d|
    ensures Find(d, d[i].0) == Some(d[i].1)
  {
    if i > 0 {
      FindAt(d[1..], i - 1);
    }
  }

  /** `statuses[key] = value`: an existing key keeps its place and takes the
      new value; a new key goes at the end. */
  function Assign(d: Statuses, key: string, value: DeliverableStatus): (r: Statuses)
    ensures Find(r, key) == Some(value)
    ensures forall k :: k != key ==> Find(r, k) == Find(d, k)
  {
    if |d| == 0 then [(key, value)]
    else if d[0].0 == key then [(key, value)] + d[1..]
    else
      var rest := Assign(d[1..], key, value);
      assert ([d[0]] + rest)[1..] == rest;
      [d[0]] + rest
  }

  /** A new key is appended; an existing one is overwritten in place. */
  lemma {:induction false} AssignPlaces(d: Statuses, key: string, value: DeliverableStatus)
    ensures Find(d, key).None? ==> Assign(d, key, value) == d + [(key, value)]
    ensures Find(d, key).Some? ==>
      |Assign(d, key, value)| == |d| && forall i :: 0 <= i < |d| ==> Assign(d, key, value)[i].0 == d[i].0
  {
    if Find(d, key).None? {
      AssignAppends(d, key, value);
    } else {
      AssignKeepsOrder(d, key, value);
    }
  }

  lemma {:induction false} AssignAppends(d: Statuses, key: string, value: DeliverableStatus)
    requires Find(d, key).None?
    ensures Assign(d, key, value) == d + [(key, value)]
  {
    if |d| > 0 {
      assert d[0].0 != key && Find(d[1..], key).None?;
      AssignAppends(d[1..], key, value);
      assert Assign(d, key, value) == [d[0]] + Assign(d[1..], key, value);
      assert d + [(key, value)] == [d[0]] + (d[1..] + [(key, value)]);
    }
  }

  lemma {:induction false} AssignKeepsOrder(d: Statuses, key: string, value: DeliverableStatus)
    requires Find(d, key).Some?
    ensures |Assign(d, key, value)| == |d|
    ensures forall i :: 0 <= i < |d| ==> Assign(d, key, value)[i].0 == d[i].0
  {
    if d[0].0 != key {
      AssignKeepsOrder(d[1..], key, value);
      var r := Assign(d, key, value);
      assert r == [d[0]] + Assign(d[1..], key, value);
      forall i | 0 <= i < |d|
        ensures r[i].0 == d[i].0
      {
        if i > 0 {
          assert r[i] == Assign(d[1..], key, value)[i - 1];
        }
      }
    }
  }

  /** Assigning a record under its own identifier keeps the map's keys
      distinct and matching. */
  lemma AssignKeepsKeys(d: Statuses, value: DeliverableStatus)
    requires DistinctKeys(d) && KeysMatch(d)
    ensures var r := Assign(d, value.identifier, value);
      DistinctKeys(r) && KeysMatch(r)
  {
    var key := value.identifier;
    var r := Assign(d, key, value);
    AssignPlaces(d, key, value);
    if Find(d, key).Some? {
      var i :| 0 <= i < |d| && d[i] == (key, Find(d, key).value);
      AssignAt(d, key, value, i);
    }
  }

  /** Overwriting the entry at `i` changes that entry only. */
  lemma {:induction false} AssignAt(d: Statuses, key: string, value: DeliverableStatus, i: nat)
    requires DistinctKeys(d) && i < |d| && d[i].0 == key
    ensures Assign(d, key, value) == d[i := (key, value)]
  {
    if i > 0 {
      AssignAt(d[1..], key, value, i - 1);
      assert d[1..][i - 1 := (key, value)] == d[i := (key, value)][1..];
    }
  }

  /** The records read from a list: each stored under its identifier, a
      later record with the same identifier replacing an earlier one. */
  function LoadItems(items: seq<DeliverableStatus>): (r: Statuses)
    ensures DistinctKeys(r) && KeysMatch(r)
  {
    if |items| == 0 then []
    else
      var n := |items| - 1;
      var front := LoadItems(items[..n]);
      assert forall i :: 0 <= i < n ==> items[..n][i] == items[i];
      AssignKeepsKeys(front, items[n]);
      Assign(front, items[n].identifier, items[n])
  }

  /** `load_status(path)`: a missing file reads as no statuses at all. */
  function Load(file: StatusFile): (r: Statuses)
    ensures file.None? ==> r == []
    ensures DistinctKeys(r) && KeysMatch(r)
  {
    if file.None? then [] else LoadItems(file.value)
  }

  /** `save_status(statuses, path)`: the records in the map's order. */
  function Save(d: Statuses): (items: seq<DeliverableStatus>)
    ensures |items| == |d|
    ensures forall i :: 0 <= i < |d| ==> items[i] == d[i].1
  {
    seq(|d|, i requires 0 <= i < |d| => d[i].1)
  }

  /** Saving a map whose keys are its records' identifiers and reading it
      back gives the same map, order included. */
  lemma {:induction false} LoadSaveRoundTrip(d: Statuses)
    requires DistinctKeys(d) && KeysMatch(d)
    ensures Load(Some(Save(d))) == d
    decreases |d|
  {
    if |d| > 0 {
      var n := |d| - 1;
      var front := d[..n];
      assert d == front + [d[n]];
      PrefixKeys(d, n);
      LoadSaveRoundTrip(front);
      var items := Save(d);
      assert items[..n] == Save(front);
      assert LoadItems(items) == Assign(front, d[n].0, d[n].1);
      assert Find(front, d[n].0).None? by {
        assert forall i :: 0 <= i < n ==> front[i].0 == d[i].0;
      }
      AssignPlaces(front, d[n].0, d[n].1);
    }
  }

  lemma PrefixKeys(d: Statuses, n: nat)
    requires DistinctKeys(d) && KeysMatch(d) && n <= |d|
    ensures DistinctKeys(d[..n]) && KeysMatch(d[..n])
  {
    assert forall i :: 0 <= i < n ==> d[..n][i] == d[i];
  }

  /** The record `update_status` stores: the existing record for the
      identifier, or a fresh "pending" one without comments, with its status
      replaced and the comment appended when there is a non-empty one. */
  function Revised(current: Option<DeliverableStatus>, identifier: string, status: string, comment: Option<string>): DeliverableStatus
  {
    var record := if current.Some? then current.value else DeliverableStatus(identifier, "pending", []);
    var appended := if comment.Some? && comment.value != "" then [comment.value] else [];
    DeliverableStatus(record.identifier, status, record.comments + appended)
  }

  /** The map `update_status` saves, given the map it loaded. */
  function Updated(d: Statuses, identifier: string, status: string, comment: Option<string>): (r: Statuses)
    ensures Find(r, identifier).Some? && Find(r, identifier).value.status == status
    ensures Find(d, identifier).None? ==> Find(r, identifier).value.identifier == identifier
    ensures Find(d, identifier).None? && (comment.None? || comment.value == "") ==> Find(r, identifier).value.comments == []
    ensures var before := if Find(d, identifier).Some? then Find(d, identifier).value.comments else [];
      var after := Find(r, identifier).value.comments;
      |before| <= |after| && after[..|before|] == before
      && (|after| == |before| + 1 <==> comment.Some? && comment.value != "")
      && (|after| == |before| + 1 ==> after[|before|] == comment.value)
    ensures forall k :: k != identifier ==> Find(r, k) == Find(d, k)
    ensures DistinctKeys(d) && KeysMatch(d) ==> DistinctKeys(r) && KeysMatch(r)
  {
    RevisedKeepsKeys(d, identifier, status, comment);
    Assign(d, identifier, Revised(Find(d, identifier), identifier, status, comment))
  }

  lemma RevisedKeepsKeys(d: Statuses, identifier: string, status: string, comment: Option<string>)
    ensures var r := Assign(d, identifier, Revised(Find(d, identifier), identifier, status, comment));
      DistinctKeys(d) && KeysMatch(d) ==> DistinctKeys(r) && KeysMatch(r)
  {
    var current := Find(d, identifier);
    var record := Revised(current, identifier, status, comment);
    if DistinctKeys(d) && KeysMatch(d) {
      if current.Some? {
        assert (identifier, current.value) in d;
      }
      AssignKeepsKeys(d, record);
    }
  }

  /** `update_status(path, identifier, status, comment)`: the list written
      back.  It reads back as the updated map, because the stored record
      keeps its identifier; a new deliverable adds one record and a known
      one keeps the count. */
  function UpdateStatus(file: StatusFile, identifier: string, status: string, comment: Option<string>): (saved: seq<DeliverableStatus>)
    ensures Load(Some(saved)) == Updated(Load(file), identifier, status, comment)
    ensures |saved| == |Load(file)| + (if Find(Load(file), identifier).None? then 1 else 0)
  {
    var d := Load(file);
    var updated := Updated(d, identifier, status, comment);
    LoadSaveRoundTrip(updated);
    AssignPlaces(d, identifier, Revised(Find(d, identifier), identifier, status, comment));
    Save(updated)
  }

  /** After an update, reading the file again shows the new status for the
      identifier and every other deliverable as it was. */
  lemma UpdateStatusEffect(file: StatusFile, identifier: string, status: string, comment: Option<string>)
    ensures var after := Load(Some(UpdateStatus(file, identifier, status, comment)));
      Find(after, identifier).Some? && Find(after, identifier).value.status == status
      && Find(after, identifier).value.identifier == identifier
      && forall k :: k != identifier ==> Find(after, k) == Find(Load(file), k)
  {
    var d := Load(file);
    if Find(d, identifier).Some? {
      assert (identifier, Find(d, identifier).value) in d;
    }
  }

  /** The first review of a deliverable on an empty tracker. */
  lemma FirstReview(identifier: string)
    ensures Load(Some(UpdateStatus(None, identifier, "approved", Some("ok")))) == [(identifier, DeliverableStatus(identifier, "approved", ["ok"]))]
  {
  }
}
