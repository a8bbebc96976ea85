/** The executive summary's findings and the check of their evidence against
    independently computed statistics. */
module SummaryCheck {
  import opened Common
  import opened Values

  /** An evidence value, `float | str`: a float, NaN included, or a text. */
  datatype EvidenceValue = FloatValue(f: Float) | StrValue(s: string)

  /** One narrative insight with the numbers it rests on; `evidence` keeps
      the dictionary's insertion order. */
  datatype SummaryFinding = SummaryFinding(topic: string, text: string, evidence: seq<(string, EvidenceValue)>, severity: string)

  datatype SummaryDocument = SummaryDocument(findings: seq<SummaryFinding>)

  /** `doc.add(finding)`. */
  function Add(doc: SummaryDocument, finding: SummaryFinding): (r: SummaryDocument)
    ensures |r.findings| == |doc.findings| + 1
    ensures r.findings[..|doc.findings|] == doc.findings
    ensures r.findings[|doc.findings|] == finding
  {
    SummaryDocument(doc.findings + [finding])
  }

  /** Statistics per topic, then per evidence key; a statistic may be NaN,
      as the standard deviation of a single value is. */
  type Stats = map<string, map<string, Float>>

  /** `str()` of a float, given `str()` of a real number. */
  function FloatText(x: Float, repr: real -> string): string
  {
    if x.None? then "nan" else repr(x.value)
  }

  /** A mismatch message: an evidence key the topic's statistics lack, or a
      value farther than the tolerance from the expected one. */
  datatype Mismatch =
    | MissingFromStats(topic: string, key: string)
    | Differs(topic: string, key: string, expected: Float, observed: EvidenceValue)
  {
    /** The message text, given `str()` of a real number. */
    function Text(repr: real -> string): string
    {
      match this
      case MissingFromStats(topic, key) => topic + ": evidence '" + key + "' missing from stats"
      case Differs(topic, key, expected, observed) =>
        topic + ": evidence '" + key + "' differs (expected " + FloatText(expected, repr) + ", observed "
        + (if observed.FloatValue? then FloatText(observed.f, repr) else observed.s) + ")"
    }
  }

  /** `float(value)`, with `parse` standing for `float()` on a string. */
  function AsFloat(v: EvidenceValue, parse: FloatParser): (r: Result<Float>)
    ensures r.Err? <==> v.StrValue? && parse(v.s).None?
    ensures r.Err? ==> r.failure.ValueError?
    ensures v.FloatValue? ==> r == Ok(v.f)
  {
    if v.FloatValue? then Ok(v.f)
    else if parse(v.s).Some? then Ok(parse(v.s).value)
    else Err(ValueError("could not convert string to float: '" + v.s + "'"))
  }

  /** The check of one evidence entry against its topic's statistics.  The
      comparison `abs(expected - observed) > tolerance` is false when either
      side is NaN, so such an entry is never reported. */
  function CheckEntry(topic: string, expected: map<string, Float>, key: string, value: EvidenceValue,
                      tolerance: real, parse: FloatParser): (r: Result<seq<Mismatch>>)
    ensures key !in expected ==> r == Ok([MissingFromStats(topic, key)])
    ensures key in expected ==> (r.Err? <==> AsFloat(value, parse).Err?)
    ensures key in expected && r.Ok? ==>
      (r.value != [] <==> Beyond(expected[key], AsFloat(value, parse).value, tolerance))
    ensures key in expected && r.Ok? && (expected[key].None? || AsFloat(value, parse).value.None?) ==> r.value == []
    ensures r.Ok? && r.value != [] && key in expected ==> r.value == [Differs(topic, key, expected[key], value)]
  {
    if key !in expected then Ok([MissingFromStats(topic, key)])
    else
      var observed := AsFloat(value, parse);
      if observed.Err? then Err(observed.failure)
      else if Beyond(expected[key], observed.value, tolerance) then Ok([Differs(topic, key, expected[key], value)])
      else Ok([])
  }

  /** The checks of a finding's evidence entries, in order; the first value
      that cannot be read as a float aborts. */
  function CheckEvidence(topic: string, expected: map<string, Float>, evidence: seq<(string, EvidenceValue)>,
                         tolerance: real, parse: FloatParser): (r: Result<seq<Mismatch>>)
    ensures r.Ok? ==> |r.value| <= |evidence|
    ensures r.Ok? ==> forall m :: m in r.value ==> m.topic == topic
    decreases |evidence|
  {
    if |evidence| == 0 then Ok([])
    else
      var n := |evidence| - 1;
      var front := CheckEvidence(topic, expected, evidence[..n], tolerance, parse);
      if front.Err? then front
      else
        var last := CheckEntry(topic, expected, evidence[n].0, evidence[n].1, tolerance, parse);
        if last.Err? then last else Ok(front.value + last.value)
  }

  /** The mismatches of one finding: none for a topic without statistics. */
  function CheckFinding(finding: SummaryFinding, stats: Stats, tolerance: real, parse: FloatParser): (r: Result<seq<Mismatch>>)
    ensures finding.topic !in stats ==> r == Ok([])
    ensures r.Ok? ==> |r.value| <= (if finding.topic in stats then |finding.evidence| else 0)
  {
    if finding.topic !in stats then Ok([])
    else CheckEvidence(finding.topic, stats[finding.topic], finding.evidence, tolerance, parse)
  }

  /** Number of evidence entries under findings whose topic has statistics. */
  function CheckedEntries(findings: seq<SummaryFinding>, stats: Stats): nat
  {
    if |findings| == 0 then 0
    else
      var n := |findings| - 1;
      CheckedEntries(findings[..n], stats) + (if findings[n].topic in stats then |findings[n].evidence| else 0)
  }

  function VerifyFindings(findings: seq<SummaryFinding>, stats: Stats, tolerance: real, parse: FloatParser): (r: Result<seq<Mismatch>>)
    ensures r.Ok? ==> |r.value| <= CheckedEntries(findings, stats)
    ensures r.Ok? ==> forall m :: m in r.value ==> m.topic in stats
  {
    if |findings| == 0 then Ok([])
    else
      var n := |findings| - 1;
      var front := VerifyFindings(findings[..n], stats, tolerance, parse);
      if front.Err? then front
      else
        var last := CheckFinding(findings[n], stats, tolerance, parse);
        if last.Err? then last else Ok(front.value + last.value)
  }

  /** `verify_summary_against_stats(doc, stats, tolerance=tolerance)`: the
      mismatches in finding-then-evidence order, at most one per evidence
      entry under a topic that has statistics. */
  function VerifySummary(doc: SummaryDocument, stats: Stats, tolerance: real, parse: FloatParser): (r: Result<seq<Mismatch>>)
    ensures r.Ok? ==> |r.value| <= CheckedEntries(doc.findings, stats)
    ensures r.Ok? ==> forall m :: m in r.value ==> m.topic in stats
  {
    VerifyFindings(doc.findings, stats, tolerance, parse)
  }

  /** Adding a finding leaves the earlier findings' mismatches first and
      appends the new finding's. */
  lemma VerifyAfterAdd(doc: SummaryDocument, finding: SummaryFinding, stats: Stats, tolerance: real, parse: FloatParser)
    requires VerifySummary(doc, stats, tolerance, parse).Ok?
    requires CheckFinding(finding, stats, tolerance, parse).Ok?
    ensures VerifySummary(Add(doc, finding), stats, tolerance, parse)
      == Ok(VerifySummary(doc, stats, tolerance, parse).value + CheckFinding(finding, stats, tolerance, parse).value)
  {
    var findings := Add(doc, finding).findings;
    assert findings[..|findings| - 1] == doc.findings;
  }

  /** Findings on topics without statistics produce no mismatches. */
  lemma {:induction false} UnmatchedTopicsPass(findings: seq<SummaryFinding>, stats: Stats, tolerance: real, parse: FloatParser)
    requires forall i :: 0 <= i < |findings| ==> findings[i].topic !in stats
    ensures VerifyFindings(findings, stats, tolerance, parse) == Ok([])
  {
    if |findings| > 0 {
      var n := |findings| - 1;
      assert forall i :: 0 <= i < n ==> findings[..n][i] == findings[i];
      UnmatchedTopicsPass(findings[..n], stats, tolerance, parse);
    }
  }

  /** Evidence whose keys are all in the statistics and whose values are all
      readable and not beyond the tolerance gives no mismatch; a NaN on
      either side counts as agreeing. */
  lemma {:induction false} AgreeingEvidencePasses(topic: string, expected: map<string, Float>, evidence: seq<(string, EvidenceValue)>,
                                                  tolerance: real, parse: FloatParser)
    requires forall i :: 0 <= i < |evidence| ==>
      evidence[i].0 in expected && AsFloat(evidence[i].1, parse).Ok?
      && !Beyond(expected[evidence[i].0], AsFloat(evidence[i].1, parse).value, tolerance)
    ensures CheckEvidence(topic, expected, evidence, tolerance, parse) == Ok([])
    decreases |evidence|
  {
    if |evidence| > 0 {
      var n := |evidence| - 1;
      assert forall i :: 0 <= i < n ==> evidence[..n][i] == evidence[i];
      AgreeingEvidencePasses(topic, expected, evidence[..n], tolerance, parse);
    }
  }

  /** Every evidence key the statistics lack is reported, whatever its value. */
  lemma {:induction false} MissingKeysReported(topic: string, expected: map<string, Float>, evidence: seq<(string, EvidenceValue)>,
                                               tolerance: real, parse: FloatParser, j: nat)
    requires CheckEvidence(topic, expected, evidence, tolerance, parse).Ok?
    requires j < |evidence| && evidence[j].0 !in expected
    ensures MissingFromStats(topic, evidence[j].0) in CheckEvidence(topic, expected, evidence, tolerance, parse).value
    decreases |evidence|
  {
    var n := |evidence| - 1;
    if j < n {
      assert evidence[..n][j] == evidence[j];
      MissingKeysReported(topic, expected, evidence[..n], tolerance, parse, j);
    }
  }

  /** Every readable value farther than the tolerance from its statistic is
      reported with both numbers. */
  lemma {:induction false} DifferencesReported(topic: string, expected: map<string, Float>, evidence: seq<(string, EvidenceValue)>,
                                               tolerance: real, parse: FloatParser, j: nat)
    requires CheckEvidence(topic, expected, evidence, tolerance, parse).Ok?
    requires j < |evidence| && evidence[j].0 in expected
    requires AsFloat(evidence[j].1, parse).Ok?
    requires Beyond(expected[evidence[j].0], AsFloat(evidence[j].1, parse).value, tolerance)
    ensures Differs(topic, evidence[j].0, expected[evidence[j].0], evidence[j].1) in CheckEvidence(topic, expected, evidence, tolerance, parse).value
    decreases |evidence|
  {
    var n := |evidence| - 1;
    if j < n {
      assert evidence[..n][j] == evidence[j];
      DifferencesReported(topic, expected, evidence[..n], tolerance, parse, j);
    }
  }

  /** Only real discrepancies are reported: each message names an evidence
      key that is missing, or one whose value is off by more than the
      tolerance. */
  lemma {:induction false} ReportedAreReal(topic: string, expected: map<string, Float>, evidence: seq<(string, EvidenceValue)>,
                                           tolerance: real, parse: FloatParser, m: Mismatch)
    requires CheckEvidence(topic, expected, evidence, tolerance, parse).Ok?
    requires m in CheckEvidence(topic, expected, evidence, tolerance, parse).value
    ensures m.MissingFromStats? ==> m.key !in expected && exists i :: 0 <= i < |evidence| && evidence[i].0 == m.key
    ensures m.Differs? ==>
      m.key in expected && m.expected == expected[m.key]
      && AsFloat(m.observed, parse).Ok? && Beyond(m.expected, AsFloat(m.observed, parse).value, tolerance)
      && m.expected.Some? && AsFloat(m.observed, parse).value.Some?
      && exists i :: 0 <= i < |evidence| && evidence[i] == (m.key, m.observed)
    decreases |evidence|
  {
    var n := |evidence| - 1;
    var front := CheckEvidence(topic, expected, evidence[..n], tolerance, parse);
    var last := CheckEntry(topic, expected, evidence[n].0, evidence[n].1, tolerance, parse);
    if m in front.value {
      ReportedAreReal(topic, expected, evidence[..n], tolerance, parse, m);
      assert forall i :: 0 <= i < n ==> evidence[..n][i] == evidence[i];
    } else {
      assert m in last.value;
    }
  }

  /** A topic whose statistics are all NaN (those of an all-null column)
      never yields a difference, whatever readable evidence it carries. */
  lemma NaNStatsPass(topic: string, expected: map<string, Float>, evidence: seq<(string, EvidenceValue)>,
                     tolerance: real, parse: FloatParser)
    requires forall k :: k in expected ==> expected[k].None?
    requires forall i :: 0 <= i < |evidence| ==> evidence[i].0 in expected && AsFloat(evidence[i].1, parse).Ok?
    ensures CheckEvidence(topic, expected, evidence, tolerance, parse) == Ok([])
  {
    AgreeingEvidencePasses(topic, expected, evidence, tolerance, parse);
  }

  /** A summary claiming mean 2 where the statistics say 999 is flagged, and
      its matching standard deviation is not. */
  lemma MeanMismatchFlagged(parse: FloatParser)
    ensures var finding := SummaryFinding("score (numeric)", "Average of 2.00",
                                          [("mean", FloatValue(Some(2.0))), ("std", FloatValue(Some(1.0)))], "info");
      var stats := map["score (numeric)" := map["mean" := Some(999.0), "std" := Some(1.0)]];
      VerifySummary(SummaryDocument([finding]), stats, 0.1, parse)
        == Ok([Differs("score (numeric)", "mean", Some(999.0), FloatValue(Some(2.0)))])
  {
    var topic := "score (numeric)";
    var evidence := [("mean", FloatValue(Some(2.0))), ("std", FloatValue(Some(1.0)))];
    var expected := map["mean" := Some(999.0), "std" := Some(1.0)];
    var differs := Differs(topic, "mean", Some(999.0), FloatValue(Some(2.0)));
    assert CheckEntry(topic, expected, "mean", FloatValue(Some(2.0)), 0.1, parse) == Ok([differs]);
    assert CheckEntry(topic, expected, "std", FloatValue(Some(1.0)), 0.1, parse) == Ok([]);
    assert evidence[..1][..0] == [];
    assert CheckEvidence(topic, expected, evidence[..1], 0.1, parse) == Ok([] + [differs]);
    assert evidence[..1] == [("mean", FloatValue(Some(2.0)))];
    assert evidence[1].0 == "std" && evidence[1].1 == FloatValue(Some(1.0));
    assert CheckEntry(topic, expected, evidence[1].0, evidence[1].1, 0.1, parse) == Ok([]);
    var n := |evidence| - 1;
    assert n == 1;
    assert CheckEvidence(topic, expected, evidence, 0.1, parse)
      == Ok(CheckEvidence(topic, expected, evidence[..n], 0.1, parse).value
            + CheckEntry(topic, expected, evidence[n].0, evidence[n].1, 0.1, parse).value);
    assert CheckEvidence(topic, expected, evidence[..n], 0.1, parse).value == [] + [differs] == [differs];
    assert CheckEvidence(topic, expected, evidence, 0.1, parse) == Ok([differs] + []);
    var findings := [SummaryFinding(topic, "Average of 2.00", evidence, "info")];
    assert findings[..0] == [];
    assert [] + [differs] == [differs] + [] == [differs];
  }

  /** A one-response column: its standard deviation is NaN, so a summary
      whose evidence gives any deviation at all is not flagged. */
  lemma SingleResponseStdPasses(parse: FloatParser, claimed: real)
    ensures var finding := SummaryFinding("score (numeric)", "Average of 4.00",
                                          [("mean", FloatValue(Some(4.0))), ("std", FloatValue(Some(claimed)))], "info");
      var stats := map["score (numeric)" := map["mean" := Some(4.0), "std" := None]];
      VerifySummary(SummaryDocument([finding]), stats, 0.000001, parse) == Ok([])
  {
    var topic := "score (numeric)";
    var evidence := [("mean", FloatValue(Some(4.0))), ("std", FloatValue(Some(claimed)))];
    var expected := map["mean" := Some(4.0), "std" := None];
    assert evidence[0].0 == "mean" && evidence[1].0 == "std";
    assert !Beyond(expected["mean"], Some(4.0), 0.000001) && !Beyond(expected["std"], Some(claimed), 0.000001);
    AgreeingEvidencePasses(topic, expected, evidence, 0.000001, parse);
    var stats := map[topic := expected];
    var findings := [SummaryFinding(topic, "Average of 4.00", evidence, "info")];
    assert findings[..0] == [];
    assert CheckFinding(findings[0], stats, 0.000001, parse) == CheckEvidence(topic, expected, evidence, 0.000001, parse);
    assert VerifyFindings(findings, stats, 0.000001, parse) == Ok([] + []);
  }
}
