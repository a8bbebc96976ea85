/** Tamper evidence for the pipeline's outputs: SHA-256 digests of the
    artefact files and of the charts directory, gathered into a manifest
    record that is hashed canonically and linked to the previous manifest.

    SHA-256 itself and the JSON encoders of a float and of a string are
    black boxes, passed in as a `Codec`. */
module Integrity {
  import opened Common
  import opened Strings
  import opened Values
  import Sorting

  type Byte = b: int | 0 <= b < 256

  type Bytes = seq<Byte>

  /** `str.encode()`: the UTF-8 bytes of one character. */
  function Utf8Char(c: char): (r: Bytes)
    ensures 1 <= |r| <= 4
    ensures |r| == 1 <==> c as int < 0x80
  {
    var n := c as int;
    if n < 0x80 then [n]
    else if n < 0x800 then [0xC0 + n / 0x40, 0x80 + n % 0x40]
    else if n < 0x1_0000 then [0xE0 + n / 0x1000, 0x80 + n / 0x40 % 0x40, 0x80 + n % 0x40]
    else [0xF0 + n / 0x4_0000, 0x80 + n / 0x1000 % 0x40, 0x80 + n / 0x40 % 0x40, 0x80 + n % 0x40]
  }

  function Utf8(s: string): (r: Bytes)
    ensures |r| >= |s|
  {
    if |s| == 0 then [] else Utf8Char(s[0]) + Utf8(s[1..])
  }

  /** The black boxes: `hashlib.sha256(...).hexdigest()`, and the JSON text
      `json.dumps` writes for a float and for a string (quotes included). */
  datatype Codec = Codec(sha: Bytes -> string, number: real -> string, quote: string -> string)

  /** What a path names once symbolic links are followed. */
  datatype Node = RegularFile(content: Bytes) | Directory | Special

  /** A path relative to the artefact root, parts joined by "/", and its node. */
  datatype Entry = Entry(path: string, node: Node)

  /** The tree under the artefact root, in the order the operating system
      happens to list it. */
  type Fs = seq<Entry>

  /** A path names one node. */
  ghost predicate WellFormed(fs: Fs)
  {
    forall a, b :: a in fs && b in fs && a.path == b.path ==> a == b
  }

  /** The node at `path`, if the path exists. */
  function Lookup(fs: Fs, path: string): (r: Option<Node>)
    ensures r.None? <==> forall i :: 0 <= i < |fs| ==> fs[i].path != path
    ensures r.Some? ==> Entry(path, r.value) in fs
  {
    if |fs| == 0 then None
    else if fs[0].path == path then Some(fs[0].node)
    else Lookup(fs[1..], path)
  }

  lemma LookupEntry(fs: Fs, e: Entry)
    requires WellFormed(fs) && e in fs
    ensures Lookup(fs, e.path) == Some(e.node)
  {
  }

  predicate IsRegular(fs: Fs, path: string)
  {
    Lookup(fs, path).Some? && Lookup(fs, path).value.RegularFile?
  }

  /** `sha256_file(p)`: the digest of a regular file's bytes; `None` for a
      path that does not exist or is not a regular file.  Feeding the bytes
      in 1 MiB chunks hashes the same byte string as feeding them at once. */
  function Sha256File(fs: Fs, path: string, codec: Codec): (r: Option<string>)
    ensures r.None? <==> !IsRegular(fs, path)
  {
    var node := Lookup(fs, path);
    if node.None? || !node.value.RegularFile? then None
    else Some(codec.sha(node.value.content))
  }

  /** A regular file's digest is the digest of its bytes, whatever else the
      tree holds; a missing path has none. */
  lemma Sha256FileOfEntry(fs: Fs, path: string, content: Bytes, codec: Codec)
    requires WellFormed(fs)
    ensures Entry(path, RegularFile(content)) in fs ==> Sha256File(fs, path, codec) == Some(codec.sha(content))
    ensures (forall e :: e in fs ==> e.path != path) ==> Sha256File(fs, path, codec) == None
  {
    if Entry(path, RegularFile(content)) in fs {
      LookupEntry(fs, Entry(path, RegularFile(content)));
    }
  }

  /** `path` lies strictly below directory `dir`. */
  predicate Under(path: string, dir: string)
  {
    |path| > |dir| + 1 && path[..|dir|] == dir && path[|dir|] == '/'
  }

  /** `p.relative_to(d).as_posix()`. */
  function Relative(path: string, dir: string): (r: string)
    ensures Under(path, dir) ==> path == dir + "/" + r
  {
    if Under(path, dir) then path[|dir| + 1..] else path
  }

  function SwapSeparator(c: char): char
  {
    if c == '/' then '\0' else if c == '\0' then '/' else c
  }

  /** `pathlib` orders paths part by part, which is the string order once the
      separator ranks below every other character.  NUL cannot occur in a
      path, so swapping it with "/" gives that order. */
  function PathKey(path: string): (r: string)
    ensures |r| == |path|
  {
    seq(|path|, i requires 0 <= i < |path| => SwapSeparator(path[i]))
  }

  lemma PathKeyInjective(a: string, b: string)
    requires PathKey(a) == PathKey(b)
    ensures a == b
  {
    assert forall i :: 0 <= i < |a| ==> SwapSeparator(PathKey(a)[i]) == a[i];
  }

  function EntryKey(e: Entry): Cell
  {
    Some(Text(PathKey(e.path)))
  }

  function Below(dir: string): Entry -> bool
  {
    (e: Entry) => Under(e.path, dir)
  }

  /** `d.rglob("*")`: every path below `dir`, files and directories alike. */
  function Descendants(fs: Fs, dir: string): (r: seq<Entry>)
    ensures forall e :: e in r <==> e in fs && Under(e.path, dir)
  {
    Filter(fs, Below(dir))
  }

  predicate HoldsBytes(e: Entry)
  {
    e.node.RegularFile?
  }

  /** The bytes fed to the hash: for each regular file in turn, its relative
      path and then its contents; other entries add nothing. */
  function Feed(entries: seq<Entry>, dir: string): (r: Bytes)
  {
    if |entries| == 0 then [] else Chunk(entries[0], dir) + Feed(entries[1..], dir)
  }

  function Chunk(e: Entry, dir: string): (r: Bytes)
    ensures !HoldsBytes(e) ==> r == []
  {
    if HoldsBytes(e) then Utf8(Relative(e.path, dir)) + e.node.content else []
  }

  /** The regular files below `dir`. */
  function DirFiles(fs: Fs, dir: string): (r: seq<Entry>)
    ensures forall e :: e in r <==> e in fs && Under(e.path, dir) && e.node.RegularFile?
  {
    Filter(Descendants(fs, dir), HoldsBytes)
  }

  /** `sha256_dir(d)`: one digest over every entry below `dir` in sorted path
      order.  In a well-formed tree that is the digest of the regular files
      below `dir` alone, each as its relative path then its bytes, in sorted
      path order. */
  function Sha256Dir(fs: Fs, dir: string, codec: Codec): (r: string)
    ensures WellFormed(fs) ==> r == codec.sha(Feed(Sorting.SortBy(DirFiles(fs, dir), EntryKey), dir))
  {
    FeedOfFiles(fs, dir);
    codec.sha(Feed(Sorting.SortBy(Descendants(fs, dir), EntryKey), dir))
  }

  /** In a well-formed tree, sorting every entry below `dir` and feeding it
      gives the bytes of the sorted regular files alone. */
  lemma FeedOfFiles(fs: Fs, dir: string)
    ensures WellFormed(fs) ==>
      Feed(Sorting.SortBy(Descendants(fs, dir), EntryKey), dir) == Feed(Sorting.SortBy(DirFiles(fs, dir), EntryKey), dir)
  {
    if WellFormed(fs) {
      var below := Descendants(fs, dir);
      KeysUnique(fs, below);
      Sorting.FilterSortBy(below, EntryKey, HoldsBytes);
      FeedSkipsOthers(Sorting.SortBy(below, EntryKey), dir);
    }
  }

  /** Only regular files contribute: skipping every other entry feeds the
      same bytes. */
  lemma {:induction false} FeedSkipsOthers(entries: seq<Entry>, dir: string)
    ensures Feed(entries, dir) == Feed(Filter(entries, HoldsBytes), dir)
  {
    if |entries| > 0 {
      FeedSkipsOthers(entries[1..], dir);
      var rest := Filter(entries[1..], HoldsBytes);
      if HoldsBytes(entries[0]) {
        assert Filter(entries, HoldsBytes) == [entries[0]] + rest;
        assert ([entries[0]] + rest)[1..] == rest;
      } else {
        assert Filter(entries, HoldsBytes) == rest;
      }
    }
  }

  /** In a well-formed tree no two distinct entries share a sort key. */
  lemma KeysUnique(fs: Fs, s: seq<Entry>)
    requires WellFormed(fs)
    requires forall e :: e in s ==> e in fs
    ensures forall i, j :: 0 <= i < |s| && 0 <= j < |s| && EntryKey(s[i]) == EntryKey(s[j]) ==> s[i] == s[j]
  {
    forall i, j | 0 <= i < |s| && 0 <= j < |s| && EntryKey(s[i]) == EntryKey(s[j])
      ensures s[i] == s[j]
    {
      PathKeyInjective(s[i].path, s[j].path);
    }
  }

  /** The directory digest depends only on the regular files below `dir`,
      their paths and their bytes: not on the order the tree is listed in,
      and not on directories or other nodes. */
  lemma DirHashDependsOnFiles(fs1: Fs, fs2: Fs, dir: string, codec: Codec)
    requires WellFormed(fs1) && WellFormed(fs2)
    requires multiset(DirFiles(fs1, dir)) == multiset(DirFiles(fs2, dir))
    ensures Sha256Dir(fs1, dir, codec) == Sha256Dir(fs2, dir, codec)
  {
    KeysUnique(fs1, DirFiles(fs1, dir));
    Sorting.SortByPermutationInvariant(DirFiles(fs1, dir), DirFiles(fs2, dir), EntryKey);
  }

  /** Listing the same tree in another order gives the same directory digest. */
  lemma DirHashOrderIndependent(fs1: Fs, fs2: Fs, dir: string, codec: Codec)
    requires WellFormed(fs1)
    requires multiset(fs1) == multiset(fs2)
    ensures Sha256Dir(fs1, dir, codec) == Sha256Dir(fs2, dir, codec)
  {
    assert forall e :: e in fs1 <==> e in fs2 by {
      forall e
        ensures e in fs1 <==> e in fs2
      {
        assert e in fs1 <==> e in multiset(fs1);
        assert e in fs2 <==> e in multiset(fs2);
      }
    }
    FilterPermutation(fs1, fs2, Below(dir));
    FilterPermutation(Descendants(fs1, dir), Descendants(fs2, dir), HoldsBytes);
    DirHashDependsOnFiles(fs1, fs2, dir, codec);
  }

  /** A JSON value as `json.dumps` sees it. */
  datatype Json = JNull | JText(s: string) | JNumber(x: real) | JObject(fields: seq<(string, Json)>)

  function Keys(fields: seq<(string, Json)>): (r: seq<string>)
    ensures |r| == |fields|
    ensures forall i :: 0 <= i < |r| ==> r[i] == fields[i].0
  {
    seq(|fields|, i requires 0 <= i < |fields| => fields[i].0)
  }

  function FieldKey(f: (string, Json)): Cell
  {
    Some(Text(f.0))
  }

  /** Each member of an object with its value made canonical, in stored order. */
  function CanonicalMembers(fields: seq<(string, Json)>): (r: seq<(string, Json)>)
    ensures |r| == |fields|
    ensures forall i :: 0 <= i < |r| ==> r[i].0 == fields[i].0
  {
    seq(|fields|, i requires 0 <= i < |fields| => (fields[i].0, Canonical(fields[i].1)))
  }

  /** `sort_keys=True`: every object's members in ascending key order, at
      every depth. */
  function Canonical(j: Json): (r: Json)
    ensures j.JObject? <==> r.JObject?
    ensures !j.JObject? ==> r == j
  {
    match j
    case JObject(fields) =>
      JObject(Sorting.SortBy(seq(|fields|, i requires 0 <= i < |fields| => (fields[i].0, Canonical(fields[i].1))), FieldKey))
    case _ => j
  }

  /** A canonical object holds the same members, each made canonical, in
      ascending key order. */
  lemma CanonicalObject(fields: seq<(string, Json)>)
    ensures Canonical(JObject(fields)).JObject?
    ensures var r := Canonical(JObject(fields)).fields;
      Sorting.SortedBy(r, FieldKey) && multiset(r) == multiset(CanonicalMembers(fields))
  {
    assert Canonical(JObject(fields)) == JObject(Sorting.SortBy(CanonicalMembers(fields), FieldKey));
  }

  /** `json.dumps(j, separators=(",", ":"))`, members in their stored order. */
  function Compact(j: Json, codec: Codec): string
  {
    match j
    case JNull => "null"
    case JText(s) => codec.quote(s)
    case JNumber(x) => codec.number(x)
    case JObject(fields) =>
      "{" + Join(seq(|fields|, i requires 0 <= i < |fields| => codec.quote(fields[i].0) + ":" + Compact(fields[i].1, codec)), ",") + "}"
  }

  function Nullable(v: Option<string>): (j: Json)
    ensures j == JNull <==> v.None?
  {
    if v.Some? then JText(v.value) else JNull
  }

  /** The five artefact names, in the order the map is written. */
  const ArtefactNames: seq<string> := ["report_md", "audit_jsonl", "provenance_manifest", "charts_dir_hash", "lineage_json"]

  /** The artefacts map: four file digests and the charts directory digest,
      each null when the artefact is absent instead of aborting. */
  function Artefacts(fs: Fs, codec: Codec): (r: seq<(string, Json)>)
    ensures Keys(r) == ArtefactNames
    ensures r[0].1 == JNull <==> !IsRegular(fs, "report.md")
    ensures r[1].1 == JNull <==> !IsRegular(fs, "audit.jsonl")
    ensures r[2].1 == JNull <==> !IsRegular(fs, "provenance.manifest.json")
    ensures r[3].1 == JNull <==> Lookup(fs, "charts").None?
    ensures r[4].1 == JNull <==> !IsRegular(fs, "lineage/lineage.json")
  {
    var charts := if Lookup(fs, "charts").Some? then Some(Sha256Dir(fs, "charts", codec)) else None;
    var r := [("report_md", Nullable(Sha256File(fs, "report.md", codec))),
     ("audit_jsonl", Nullable(Sha256File(fs, "audit.jsonl", codec))),
     ("provenance_manifest", Nullable(Sha256File(fs, "provenance.manifest.json", codec))),
     ("charts_dir_hash", Nullable(charts)),
     ("lineage_json", Nullable(Sha256File(fs, "lineage/lineage.json", codec)))];
    assert |Keys(r)| == |ArtefactNames| && forall i :: 0 <= i < 5 ==> Keys(r)[i] == ArtefactNames[i];
    r
  }

  /** The record that is hashed: the clock reading, the artefacts map and the
      previous manifest's hash (null on the first run). */
  datatype ManifestRecord = ManifestRecord(ts: real, artefacts: seq<(string, Json)>, prev: Option<string>)

  function RecordJson(rec: ManifestRecord): (j: Json)
    ensures j.JObject? && Keys(j.fields) == ["ts", "artefacts", "prev_manifest_hash"]
  {
    JObject([("ts", JNumber(rec.ts)), ("artefacts", JObject(rec.artefacts)), ("prev_manifest_hash", Nullable(rec.prev))])
  }

  /** The digest of the sorted-key, compact serialisation of a JSON value;
      a scalar is hashed as its own compact text. */
  function CanonicalHash(j: Json, codec: Codec): (r: string)
    ensures !j.JObject? ==> r == codec.sha(Utf8(Compact(j, codec)))
  {
    codec.sha(Utf8(Compact(Canonical(j), codec)))
  }

  /** Hashing a value already in canonical form gives the digest of the
      value it came from. */
  lemma CanonicalHashIdempotent(j: Json, codec: Codec)
    ensures CanonicalHash(Canonical(j), codec) == CanonicalHash(j, codec)
  {
    CanonicalIdempotent(j);
  }

  /** Sorting keys is idempotent: a canonical value is its own canonical
      form, at every depth. */
  lemma {:induction false} CanonicalIdempotent(j: Json)
    ensures Canonical(Canonical(j)) == Canonical(j)
  {
    if j.JObject? {
      var c := CanonicalMembers(j.fields);
      var r := Sorting.SortBy(c, FieldKey);
      assert Canonical(j) == JObject(r);
      forall k | 0 <= k < |r|
        ensures CanonicalMembers(r)[k] == r[k]
      {
        assert r[k] in multiset(c);
        var m :| 0 <= m < |c| && c[m] == r[k];
        CanonicalIdempotent(j.fields[m].1);
      }
      assert CanonicalMembers(r) == r;
      Sorting.SortBySorted(r, FieldKey);
      assert Canonical(JObject(r)) == JObject(Sorting.SortBy(CanonicalMembers(r), FieldKey));
    }
  }

  /** Because `sort_keys=True` orders the members, an object's digest does
      not depend on the order its members were inserted in. */
  lemma CanonicalHashMemberOrder(f1: seq<(string, Json)>, f2: seq<(string, Json)>, codec: Codec)
    requires multiset(f1) == multiset(f2)
    requires forall i, j :: 0 <= i < j < |f1| ==> f1[i].0 != f1[j].0
    ensures CanonicalHash(JObject(f1), codec) == CanonicalHash(JObject(f2), codec)
  {
    var c1, c2 := CanonicalMembers(f1), CanonicalMembers(f2);
    CanonicalMembersMultiset(f1, f2);
    forall i, j | 0 <= i < |c1| && 0 <= j < |c1| && FieldKey(c1[i]) == FieldKey(c1[j])
      ensures c1[i] == c1[j]
    {
      assert c1[i].0 == f1[i].0 && c1[j].0 == f1[j].0;
      assert i == j;
    }
    Sorting.SortByPermutationInvariant(c1, c2, FieldKey);
    assert Canonical(JObject(f1)) == JObject(Sorting.SortBy(c1, FieldKey));
    assert Canonical(JObject(f2)) == JObject(Sorting.SortBy(c2, FieldKey));
  }

  lemma CanonicalMembersAppend(u: seq<(string, Json)>, v: seq<(string, Json)>)
    ensures CanonicalMembers(u + v) == CanonicalMembers(u) + CanonicalMembers(v)
  {
    assert forall i :: 0 <= i < |v| ==> (u + v)[|u| + i] == v[i];
  }

  /** Rearranging an object's members rearranges its canonical members alike. */
  lemma {:induction false} CanonicalMembersMultiset(a: seq<(string, Json)>, b: seq<(string, Json)>)
    requires multiset(a) == multiset(b)
    ensures multiset(CanonicalMembers(a)) == multiset(CanonicalMembers(b))
    decreases |a|
  {
    if |a| == 0 {
      assert |b| == |multiset(b)| == 0;
    } else {
      var n := |a| - 1;
      var x := a[n];
      assert x in multiset(b);
      var k :| 0 <= k < |b| && b[k] == x;
      var rest := b[..k] + b[k + 1..];
      assert b == b[..k] + [x] + b[k + 1..];
      assert a == a[..n] + [x];
      assert multiset(a) == multiset(a[..n]) + multiset{x};
      assert multiset(b) == multiset(b[..k]) + multiset{x} + multiset(b[k + 1..]);
      assert multiset(rest) == multiset(b[..k]) + multiset(b[k + 1..]);
      assert multiset(a[..n]) == multiset(a) - multiset{x};
      assert multiset(rest) == multiset(b) - multiset{x};
      CanonicalMembersMultiset(a[..n], rest);
      CanonicalMembersAppend(a[..n], [x]);
      CanonicalMembersAppend(b[..k], [x]);
      CanonicalMembersAppend(b[..k] + [x], b[k + 1..]);
      CanonicalMembersAppend(b[..k], b[k + 1..]);
    }
  }

  /** `int(ts)`: truncation toward zero. */
  function Trunc(ts: real): (r: int)
    ensures ts >= 0.0 ==> r as real <= ts < r as real + 1.0
    ensures ts < 0.0 ==> r as real - 1.0 < ts <= r as real
  {
    if ts >= 0.0 then ts.Floor else -((-ts).Floor)
  }

  /** `integrity.manifest.<int(ts)>.json`: the truncated clock reading
      between a fixed prefix and suffix. */
  function ManifestPath(ts: real): (r: string)
    ensures |r| == |IntToString(Trunc(ts))| + 24
    ensures r[..19] == "integrity.manifest." && r[|r| - 5..] == ".json"
    ensures r[19..|r| - 5] == IntToString(Trunc(ts))
  {
    "integrity.manifest." + IntToString(Trunc(ts)) + ".json"
  }

  /** One run of `write_manifest`: where it wrote, the record, its hash and
      the document written (the record followed by `manifest_hash`). */
  datatype Manifest = Manifest(path: string, record: ManifestRecord, hash: string, document: Json)

  const HashKey: string := "manifest_hash"

  /** The document written: the record's members in order, then
      `manifest_hash`. */
  function Document(record: ManifestRecord, hash: string): (j: Json)
    ensures j.JObject? && Keys(j.fields) == ["ts", "artefacts", "prev_manifest_hash", HashKey]
    ensures j.fields[3].1 == JText(hash)
  {
    JObject(RecordJson(record).fields + [(HashKey, JText(hash))])
  }

  /** A manifest whose hash is the canonical digest of its record, written
      out with that hash. */
  predicate Sealed(m: Manifest, codec: Codec)
  {
    m.hash == CanonicalHash(RecordJson(m.record), codec) && m.document == Document(m.record, m.hash)
  }

  /** `write_manifest(root, prev_hash)` with the clock reading `ts`. */
  function WriteManifest(fs: Fs, prevHash: Option<string>, ts: real, codec: Codec): (m: Manifest)
    ensures m.record == ManifestRecord(ts, Artefacts(fs, codec), prevHash)
    ensures m.path == ManifestPath(ts)
    ensures Sealed(m, codec)
  {
    var record := ManifestRecord(ts, Artefacts(fs, codec), prevHash);
    var hash := CanonicalHash(RecordJson(record), codec);
    Manifest(ManifestPath(ts), record, hash, Document(record, hash))
  }

  predicate NotHashKey(f: (string, Json))
  {
    f.0 != HashKey
  }

  /** Checks a written manifest: the members other than `manifest_hash`,
      hashed canonically, must give the stored `manifest_hash`. */
  predicate Verifies(document: Json, codec: Codec)
  {
    document.JObject?
    && exists i :: 0 <= i < |document.fields| && document.fields[i] == (HashKey, JText(
         CanonicalHash(JObject(Filter(document.fields, NotHashKey)), codec)))
  }

  /** Dropping `manifest_hash` from the written document leaves the record. */
  lemma StripHash(record: ManifestRecord, hash: string)
    ensures Filter(Document(record, hash).fields, NotHashKey) == RecordJson(record).fields
  {
    var fields := RecordJson(record).fields;
    var last := [(HashKey, JText(hash))];
    FilterAppend(fields, last, NotHashKey);
    FilterAll(fields, NotHashKey);
    FilterNone(last, NotHashKey);
  }

  /** The stored hash covers the record only, not itself: dropping it from
      the written document and hashing the rest reproduces it. */
  lemma SealedVerifies(m: Manifest, codec: Codec)
    requires Sealed(m, codec)
    ensures Verifies(m.document, codec)
  {
    StripHash(m.record, m.hash);
    assert JObject(Filter(m.document.fields, NotHashKey)) == RecordJson(m.record);
    assert m.document.fields[3] == (HashKey, JText(m.hash));
  }

  /** Runs `write_manifest` once per (tree, clock reading), passing each
      run's `manifest_hash` on as the next run's `prev_hash`. */
  function Chain(runs: seq<(Fs, real)>, prevHash: Option<string>, codec: Codec): (ms: seq<Manifest>)
    ensures |ms| == |runs|
  {
    if |runs| == 0 then []
    else
      var m := WriteManifest(runs[0].0, prevHash, runs[0].1, codec);
      [m] + Chain(runs[1..], Some(m.hash), codec)
  }

  /** In a chain the first record links to the given hash and every later
      record links to its predecessor's hash. */
  lemma {:induction false} ChainLinks(runs: seq<(Fs, real)>, prevHash: Option<string>, codec: Codec)
    ensures var ms := Chain(runs, prevHash, codec);
      (|ms| > 0 ==> ms[0].record.prev == prevHash)
      && forall i :: 0 < i < |ms| ==> ms[i].record.prev == Some(ms[i - 1].hash)
  {
    if |runs| > 0 {
      var m := WriteManifest(runs[0].0, prevHash, runs[0].1, codec);
      var rest := Chain(runs[1..], Some(m.hash), codec);
      ChainLinks(runs[1..], Some(m.hash), codec);
      ChainUnfold(runs, prevHash, codec);
    }
  }

  /** Every manifest of a chain is the one `write_manifest` writes for its
      run and link, so it is sealed by its own record. */
  lemma ChainSealed(runs: seq<(Fs, real)>, prevHash: Option<string>, codec: Codec)
    ensures var ms := Chain(runs, prevHash, codec);
      forall i :: 0 <= i < |ms| ==> ms[i] == WriteManifest(runs[i].0, ms[i].record.prev, runs[i].1, codec)
  {
    forall i | 0 <= i < |runs|
      ensures Chain(runs, prevHash, codec)[i]
        == WriteManifest(runs[i].0, Chain(runs, prevHash, codec)[i].record.prev, runs[i].1, codec)
    {
      ChainSealedAt(runs, prevHash, codec, i);
    }
  }

  lemma {:induction false} ChainSealedAt(runs: seq<(Fs, real)>, prevHash: Option<string>, codec: Codec, i: nat)
    requires i < |runs|
    ensures Chain(runs, prevHash, codec)[i]
      == WriteManifest(runs[i].0, Chain(runs, prevHash, codec)[i].record.prev, runs[i].1, codec)
  {
    var m := WriteManifest(runs[0].0, prevHash, runs[0].1, codec);
    ChainUnfold(runs, prevHash, codec);
    if i == 0 {
      assert Chain(runs, prevHash, codec)[0] == m && m.record.prev == prevHash;
    } else {
      var rest := Chain(runs[1..], Some(m.hash), codec);
      ChainSealedAt(runs[1..], Some(m.hash), codec, i - 1);
      assert Chain(runs, prevHash, codec)[i] == rest[i - 1];
      assert runs[1..][i - 1] == runs[i];
    }
  }

  /** A chain is its first run's manifest followed by the chain of the other
      runs linked to it. */
  lemma ChainUnfold(runs: seq<(Fs, real)>, prevHash: Option<string>, codec: Codec)
    requires |runs| > 0
    ensures var m := WriteManifest(runs[0].0, prevHash, runs[0].1, codec);
      Chain(runs, prevHash, codec) == [m] + Chain(runs[1..], Some(m.hash), codec)
  {
  }

  /** Recomputing the hash of any manifest of a chain reproduces the stored one. */
  lemma ChainVerifies(runs: seq<(Fs, real)>, prevHash: Option<string>, codec: Codec)
    ensures forall m :: m in Chain(runs, prevHash, codec) ==> Verifies(m.document, codec)
  {
    ChainSealed(runs, prevHash, codec);
    forall m | m in Chain(runs, prevHash, codec)
      ensures Verifies(m.document, codec)
    {
      SealedVerifies(m, codec);
    }
  }

  /** Two runs write to the same file exactly when their clock readings
      truncate to the same second: same-second runs overwrite each other. */
  lemma ManifestPathSameSecond(t1: real, t2: real)
    ensures ManifestPath(t1) == ManifestPath(t2) <==> Trunc(t1) == Trunc(t2)
  {
    if ManifestPath(t1) == ManifestPath(t2) {
      var a, b := IntToString(Trunc(t1)), IntToString(Trunc(t2));
      var prefix := "integrity.manifest.";
      assert ManifestPath(t1) == prefix + (a + ".json");
      assert ManifestPath(t2) == prefix + (b + ".json");
      assert (prefix + (a + ".json"))[|prefix|..] == a + ".json";
      assert (prefix + (b + ".json"))[|prefix|..] == b + ".json";
      assert a == (a + ".json")[..|a + ".json"| - 5];
      assert b == (b + ".json")[..|b + ".json"| - 5];
      IntToStringInjective(Trunc(t1), Trunc(t2));
    }
  }

  /** Two runs within one second collide. */
  lemma SameSecondCollide()
    ensures ManifestPath(1700000000.25) == ManifestPath(1700000000.75)
  {
    ManifestPathSameSecond(1700000000.25, 1700000000.75);
  }
}
