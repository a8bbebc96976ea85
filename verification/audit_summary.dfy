/** The audit-log summary: how many JSON-lines records carry each level and
    each event name. */
module AuditSummary {
  import opened Common
  import opened Counters

  /** One line of the log: only whitespace, a JSON object with or without
      the string fields "level" and "event", or text `json.loads` rejects. */
  datatype LogLine =
    | Blank
    | Record(level: Option<string>, event: Option<string>)
    | Garbled

  /** The log file: absent, or its lines. */
  type Log = Option<seq<LogLine>>

  /** `{"levels": ..., "events": ..., "missing": ...}`. */
  datatype Summary = Summary(levels: Counter<string>, events: Counter<string>, missing: bool)

  const DefaultLevel := "INFO"

  const DefaultEvent := "unknown"

  /** `record.get("level", "INFO")`. */
  function LevelName(line: LogLine): string
  {
    if line.Record? && line.level.Some? then line.level.value else DefaultLevel
  }

  /** `record.get("event", "unknown")`. */
  function EventName(line: LogLine): string
  {
    if line.Record? && line.event.Some? then line.event.value else DefaultEvent
  }

  predicate IsRecord(line: LogLine)
  {
    line.Record?
  }

  /** Holds for the records `name` picks `key` from. */
  function Picks(name: LogLine -> string, key: string): LogLine -> bool
  {
    (l: LogLine) => l.Record? && name(l) == key
  }

  /** Holds for the records whose level is `key`, "INFO" when they have none. */
  function LevelIs(key: string): LogLine -> bool
  {
    (l: LogLine) => l.Record? && (if l.level.Some? then l.level.value else DefaultLevel) == key
  }

  /** Holds for the records whose event is `key`, "unknown" when they have none. */
  function EventIs(key: string): LogLine -> bool
  {
    (l: LogLine) => l.Record? && (if l.event.Some? then l.event.value else DefaultEvent) == key
  }

  /** The name `name` picks from each record, in log order; other lines
      contribute nothing. */
  function Names(lines: seq<LogLine>, name: LogLine -> string): (r: seq<string>)
    ensures |r| <= |lines|
  {
    if |lines| == 0 then []
    else
      var n := |lines| - 1;
      Names(lines[..n], name) + (if lines[n].Record? then [name(lines[n])] else [])
  }

  /** The names of a prefix one line longer. */
  lemma NamesStep(lines: seq<LogLine>, i: nat, name: LogLine -> string)
    requires i < |lines|
    ensures Names(lines[..i + 1], name) == Names(lines[..i], name) + (if lines[i].Record? then [name(lines[i])] else [])
  {
    assert lines[..i + 1][..i] == lines[..i];
  }

  /** The counter of a prefix one line longer: bumped for a record,
      unchanged otherwise. */
  lemma TallyStep(lines: seq<LogLine>, i: nat, name: LogLine -> string)
    requires i < |lines|
    ensures Tally(Names(lines[..i + 1], name))
      == if lines[i].Record? then Bump(Tally(Names(lines[..i], name)), name(lines[i])) else Tally(Names(lines[..i], name))
  {
    NamesStep(lines, i, name);
    if lines[i].Record? {
      TallySnoc(Names(lines[..i], name), name(lines[i]));
    } else {
      assert Names(lines[..i + 1], name) == Names(lines[..i], name);
    }
  }

  /** The names of a concatenation are the names of its parts. */
  lemma {:induction false} NamesAppend(a: seq<LogLine>, b: seq<LogLine>, name: LogLine -> string)
    ensures Names(a + b, name) == Names(a, name) + Names(b, name)
    decreases |b|
  {
    if |b| == 0 {
      assert a + b == a;
    } else {
      var n := |b| - 1;
      assert (a + b)[..|a| + n] == a + b[..n];
      assert (a + b)[|a| + n] == b[n];
      NamesAppend(a, b[..n], name);
    }
  }

  /** One name per record, none for other lines. */
  lemma {:induction false} NamesCount(lines: seq<LogLine>, name: LogLine -> string)
    ensures |Names(lines, name)| == CountIf(lines, IsRecord)
  {
    if |lines| > 0 {
      NamesCount(lines[..|lines| - 1], name);
    }
  }

  /** `key` occurs among the names exactly as often as there are records
      `name` picks it from. */
  lemma {:induction false} NamesOccurrences(lines: seq<LogLine>, name: LogLine -> string, key: string)
    ensures multiset(Names(lines, name))[key] == CountIf(lines, Picks(name, key))
  {
    if |lines| > 0 {
      var n := |lines| - 1;
      NamesOccurrences(lines[..n], name, key);
      var tail := if lines[n].Record? then [name(lines[n])] else [];
      assert multiset(Names(lines, name)) == multiset(Names(lines[..n], name)) + multiset(tail);
    }
  }

  /** `summarise(path)`: a missing log gives empty counters flagged
      missing; otherwise every non-blank line is parsed and counted, and the
      first line that is not JSON raises `ValueError`. */
  method Summarise(log: Log) returns (r: Result<Summary>)
    ensures log.None? ==> r == Ok(Summary([], [], true))
    ensures log.Some? ==> (r.Ok? <==> forall i :: 0 <= i < |log.value| ==> !log.value[i].Garbled?)
    ensures log.Some? && r.Err? ==> r.failure.ValueError?
    ensures log.Some? && r.Ok? ==>
      r.value == Summary(Tally(Names(log.value, LevelName)), Tally(Names(log.value, EventName)), false)
  {
    if log.None? {
      return Ok(Summary([], [], true));
    }
    var lines := log.value;
    var levels: Counter<string> := [];
    var events: Counter<string> := [];
    var i := 0;
    while i < |lines|
      invariant 0 <= i <= |lines|
      invariant forall k :: 0 <= k < i ==> !lines[k].Garbled?
      invariant levels == Tally(Names(lines[..i], LevelName))
      invariant events == Tally(Names(lines[..i], EventName))
    {
      var line := lines[i];
      if line.Garbled? {
        return Err(ValueError("line is not valid JSON"));
      }
      assert forall k :: 0 <= k < i + 1 ==> !lines[k].Garbled?;
      TallyStep(lines, i, LevelName);
      TallyStep(lines, i, EventName);
      if line.Record? {
        levels := Bump(levels, LevelName(line));
        events := Bump(events, EventName(line));
      }
      i := i + 1;
    }
    assert lines[..i] == lines;
    return Ok(Summary(levels, events, false));
  }

  /** Each record is counted once among the levels and once among the
      events: both counters total the number of records. */
  lemma SummaryTotals(lines: seq<LogLine>)
    ensures Total(Tally(Names(lines, LevelName))) == CountIf(lines, IsRecord)
    ensures Total(Tally(Names(lines, EventName))) == CountIf(lines, IsRecord)
  {
    NamesCount(lines, LevelName);
    NamesCount(lines, EventName);
  }

  /** A level's count is the number of records that name it, records
      without a level counting as "INFO". */
  lemma LevelCounts(lines: seq<LogLine>, key: string)
    ensures Get(Tally(Names(lines, LevelName)), key)
      == CountIf(lines, LevelIs(key))
  {
    NamesOccurrences(lines, LevelName, key);
    forall l: LogLine
      ensures Picks(LevelName, key)(l) == LevelIs(key)(l)
    {
      assert Picks(LevelName, key)(l) == (l.Record? && LevelName(l) == key);
      assert LevelIs(key)(l) == (l.Record? && (if l.level.Some? then l.level.value else DefaultLevel) == key);
    }
    CountIfSame(lines, Picks(LevelName, key), LevelIs(key));
  }

  /** An event's count is the number of records that name it, records
      without an event counting as "unknown". */
  lemma EventCounts(lines: seq<LogLine>, key: string)
    ensures Get(Tally(Names(lines, EventName)), key)
      == CountIf(lines, EventIs(key))
  {
    NamesOccurrences(lines, EventName, key);
    forall l: LogLine
      ensures Picks(EventName, key)(l) == EventIs(key)(l)
    {
      assert Picks(EventName, key)(l) == (l.Record? && EventName(l) == key);
      assert EventIs(key)(l) == (l.Record? && (if l.event.Some? then l.event.value else DefaultEvent) == key);
    }
    CountIfSame(lines, Picks(EventName, key), EventIs(key));
  }

  lemma {:induction false} CountIfSame(s: seq<LogLine>, p: LogLine -> bool, q: LogLine -> bool)
    requires forall x :: p(x) == q(x)
    ensures CountIf(s, p) == CountIf(s, q)
  {
    if |s| > 0 {
      CountIfSame(s[..|s| - 1], p, q);
    }
  }

  /** Blank lines anywhere in the log change nothing. */
  lemma BlankLinesIgnored(before: seq<LogLine>, after: seq<LogLine>, name: LogLine -> string)
    ensures Names(before + [Blank] + after, name) == Names(before + after, name)
  {
    NamesAppend(before + [Blank], after, name);
    NamesAppend(before, [Blank], name);
    NamesAppend(before, after, name);
    assert Names([Blank], name) == Names([], name) + [];
  }
}
