/** The ad-hoc latency runner: a batch file is split on a delimiter
    string, each segment is cleaned of `GO` lines, and each non-empty
    segment is executed once, giving one probe record. The database is an
    input: `execute` tells, for the statement at a 1-based position of the
    batch and its text, whether it raised and otherwise which result sets
    it produced and how long it took. Keying by position lets the same
    text behave differently at two places in one batch, as it may on a
    connection whose state (caches, earlier statements) changes. */
module Latency {
  import opened Wrappers
  import opened Strings

  /** The literal that separates statements in the batch file. */
  const DELIMITER: string := "-- ### NEXT QUERY ###"

  /** Error messages are cut to this many characters. */
  const MAX_ERROR_LENGTH: nat := 200

  // ---------------------------------------------------------------------
  // Cleaning a segment

  /** The word `GO`, in any letter case. */
  predicate IsGoWord(w: string) {
    |w| == 2 && (w[0] == 'G' || w[0] == 'g') && (w[1] == 'O' || w[1] == 'o')
  }

  /** A line holding only the word `GO`, with optional whitespace around it. */
  predicate IsGoLine(line: string) {
    IsGoWord(Strip(line))
  }

  /** The pattern `^\s*GO\s*$`, case-insensitive, matches `line` with the
      word at index `i`: whitespace before it and whitespace after it. */
  predicate GoPatternAt(line: string, i: int) {
    0 <= i <= |line| - 2 && Blank(line[..i]) && IsGoWord(line[i..i + 2]) && Blank(line[i + 2..])
  }

  /** `IsGoLine` is that pattern matched against one line. */
  lemma GoLinePattern(line: string)
    ensures IsGoLine(line) <==> exists i :: GoPatternAt(line, i)
  {
    if IsGoLine(line) {
      GoLineMatches(line);
    }
    if exists i :: GoPatternAt(line, i) {
      var i :| GoPatternAt(line, i);
      MatchIsGoLine(line, i);
    }
  }

  lemma GoLineMatches(line: string)
    requires IsGoLine(line)
    ensures exists i :: GoPatternAt(line, i)
  {
    StripIsInfix(line);
    var i :| 0 <= i <= |line| - |Strip(line)| && Strip(line) == line[i..i + |Strip(line)|]
             && Blank(line[..i]) && Blank(line[i + |Strip(line)|..]);
    assert GoPatternAt(line, i);
  }

  lemma MatchIsGoLine(line: string, i: int)
    requires GoPatternAt(line, i)
    ensures IsGoLine(line)
  {
    forall j | 0 <= j < i ensures IsSpace(line[j]) {
      assert line[..i][j] == line[j];
    }
    forall m | i + 2 <= m < |line| ensures IsSpace(line[m]) {
      assert line[i + 2..][m - (i + 2)] == line[m];
    }
    TextStartAt(line, i);
    TextEndAt(line, i + 2);
    assert Strip(line) == line[i..i + 2];
  }

  function Lines(text: string): seq<string> {
    Split(text, "\n")
  }

  /** The lines of `text` with every `GO` line emptied and every other line kept. */
  function DropGoLines(lines: seq<string>): (out: seq<string>)
    ensures |out| == |lines|
    ensures forall i :: 0 <= i < |lines| ==> out[i] == if IsGoLine(lines[i]) then [] else lines[i]
  {
    seq(|lines|, i requires 0 <= i < |lines| => if IsGoLine(lines[i]) then [] else lines[i])
  }

  /** `clean_sql`: blank out the `GO` lines, then strip the text. */
  function CleanSql(text: string): (sql: string)
    ensures sql == [] || (!IsSpace(sql[0]) && !IsSpace(sql[|sql| - 1]))
  {
    Strip(Join(DropGoLines(Lines(text)), "\n"))
  }

  /** Cleaning is line-wise: the cleaned text, before stripping, has the
      same lines as the input, except that each `GO` line is empty, so no
      `GO` line is left, and lines mentioning `GO` beside other text stay. */
  lemma CleanedLines(text: string)
    ensures var before, after := Lines(text), Lines(Join(DropGoLines(Lines(text)), "\n"));
      && |after| == |before|
      && (forall i :: 0 <= i < |before| && IsGoLine(before[i]) ==> after[i] == [])
      && (forall i :: 0 <= i < |before| && !IsGoLine(before[i]) ==> after[i] == before[i])
      && (forall i :: 0 <= i < |after| ==> !IsGoLine(after[i]))
  {
    var before := Lines(text);
    var kept := DropGoLines(before);
    SplitCharFree(text, '\n');
    forall p | p in kept ensures '\n' !in p {
      var i :| 0 <= i < |kept| && kept[i] == p;
      assert before[i] in before;
    }
    SplitJoin(kept, '\n');
    assert !IsGoLine([]);
  }

  /** A segment made only of blank lines and `GO` lines cleans to nothing
      (and so is skipped). */
  lemma GoOnlySegmentIsEmpty(text: string)
    requires forall line <- Lines(text) :: IsGoLine(line) || Blank(line)
    ensures CleanSql(text) == []
  {
    var kept := DropGoLines(Lines(text));
    forall p | p in kept ensures Blank(p) {
      var i :| 0 <= i < |kept| && kept[i] == p;
      assert Lines(text)[i] in Lines(text);
    }
    JoinBlank(kept, "\n");
  }

  /** Any segment that holds a character other than whitespace on a line
      that is not a `GO` line survives cleaning. */
  lemma StatementSurvives(text: string, i: nat, j: nat)
    requires i < |Lines(text)| && !IsGoLine(Lines(text)[i])
    requires j < |Lines(text)[i]| && !IsSpace(Lines(text)[i][j])
    ensures CleanSql(text) != []
  {
    var kept := DropGoLines(Lines(text));
    assert kept[i] == Lines(text)[i];
    JoinContains(kept, "\n", i, j);
  }

  /** A character of a piece is a character of the joined text. */
  lemma {:induction false} JoinContains(parts: seq<string>, sep: string, i: nat, j: nat)
    requires i < |parts| && j < |parts[i]|
    ensures parts[i][j] in Join(parts, sep)
    decreases |parts|
  {
    if i == 0 {
      if |parts| > 1 {
        assert Join(parts, sep)[j] == parts[0][j];
      }
    } else {
      JoinContains(parts[1..], sep, i - 1, j);
      var rest := Join(parts[1..], sep);
      var k :| 0 <= k < |rest| && rest[k] == parts[i][j];
      assert Join(parts, sep)[|parts[0]| + |sep| + k] == rest[k];
    }
  }

  // ---------------------------------------------------------------------
  // Running one statement

  /** One result set of a statement: whether it has column metadata
      (`cursor.description`) and how many rows it holds. */
  datatype ResultSet = ResultSet(described: bool, rows: nat)

  /** What executing a statement did: raised with a message, or produced
      result sets after `latencyMs` milliseconds. */
  datatype Execution = Raised(message: string) | Executed(latencyMs: real, resultSets: seq<ResultSet>)

  datatype Status = Success | Failed

  datatype ProbeRecord = ProbeRecord(queryId: nat, latencyMs: real, rowsReturned: nat, status: Status, errorMsg: Option<string>)

  /** The row count reported for a statement: the size of the first result
      set that has column metadata, or 0 when none has any. */
  function RowsReturned(sets: seq<ResultSet>): (n: nat)
    ensures (forall i :: 0 <= i < |sets| ==> !sets[i].described) ==> n == 0
    ensures forall j :: 0 <= j < |sets| && sets[j].described && (forall i :: 0 <= i < j ==> !sets[i].described)
                        ==> n == sets[j].rows
  {
    if sets == [] then 0
    else if sets[0].described then sets[0].rows
    else
      var n := RowsReturned(sets[1..]);
      assert forall j :: 1 <= j < |sets| ==> sets[1..][j - 1] == sets[j];
      n
  }

  /** The scan of `run_benchmarks`: look at the current result set; take
      its rows if it has metadata, else move to the next set, until none is left. */
  method ScanResultSets(sets: seq<ResultSet>) returns (rowCount: nat)
    ensures rowCount == RowsReturned(sets)
  {
    rowCount := 0;
    var i := 0;
    while i < |sets|
      invariant 0 <= i <= |sets|
      invariant RowsReturned(sets[i..]) == RowsReturned(sets)
      invariant rowCount == 0
    {
      if sets[i].described {
        rowCount := sets[i].rows;
        break;
      }
      assert sets[i..][1..] == sets[i + 1..];
      i := i + 1;
    }
  }

  /** The record of the segment at 1-based position `id`, given the
      segment's cleaned text `sql`: none when it is empty, else exactly
      one, carrying `id`. */
  function SegmentRecords(id: nat, sql: string, execute: (nat, string) -> Execution): (rs: seq<ProbeRecord>)
    ensures |rs| <= 1 && (rs == [] <==> sql == [])
    ensures rs != [] ==> rs[0].queryId == id
  {
    if sql == [] then []
    else
      match execute(id, sql)
      case Raised(message) => [ProbeRecord(id, 0.0, 0, Failed, Some(Take(message, MAX_ERROR_LENGTH)))]
      case Executed(latencyMs, sets) => [ProbeRecord(id, latencyMs, RowsReturned(sets), Success, None)]
  }

  /** The fields of a segment's record: a statement that raised gives
      latency 0, no rows, status Failed and its message cut to 200
      characters; one that ran gives its latency and the row count of the
      result-set scan, with status Success and no message. */
  lemma SegmentRecordFields(id: nat, sql: string, execute: (nat, string) -> Execution)
    requires sql != []
    ensures var r := SegmentRecords(id, sql, execute)[0];
      && (r.status == Failed <==> execute(id, sql).Raised?)
      && (r.status == Failed ==>
            && r.latencyMs == 0.0 && r.rowsReturned == 0
            && r.errorMsg == Some(Take(execute(id, sql).message, MAX_ERROR_LENGTH))
            && |r.errorMsg.value| <= MAX_ERROR_LENGTH)
      && (r.status == Success ==>
            && r.latencyMs == execute(id, sql).latencyMs
            && r.rowsReturned == RowsReturned(execute(id, sql).resultSets)
            && r.errorMsg.None?)
  {
  }

  /** Every segment of the batch, cleaned. */
  function CleanAll(segments: seq<string>): (cleaned: seq<string>)
    ensures |cleaned| == |segments|
    ensures forall i :: 0 <= i < |segments| ==> cleaned[i] == CleanSql(segments[i])
  {
    seq(|segments|, i requires 0 <= i < |segments| => CleanSql(segments[i]))
  }

  /** The records of the cleaned segments `cleaned`, in order; the segment
      at index `i` reports itself as query `i + 1`. */
  function BatchRecords(cleaned: seq<string>, execute: (nat, string) -> Execution): (rs: seq<ProbeRecord>)
    ensures |rs| <= |cleaned|
  {
    if cleaned == [] then []
    else BatchRecords(cleaned[..|cleaned| - 1], execute)
         + SegmentRecords(|cleaned|, cleaned[|cleaned| - 1], execute)
  }

  /** `r` names a position of `cleaned` and is the record that segment yields. */
  predicate IsSegmentRecord(cleaned: seq<string>, execute: (nat, string) -> Execution, r: ProbeRecord) {
    1 <= r.queryId <= |cleaned| && SegmentRecords(r.queryId, cleaned[r.queryId - 1], execute) == [r]
  }

  /** Each record names the position of its segment and is the record
      that segment yields. */
  lemma {:induction false} BatchRecordsPositions(cleaned: seq<string>, execute: (nat, string) -> Execution)
    ensures forall j :: 0 <= j < |BatchRecords(cleaned, execute)| ==>
              IsSegmentRecord(cleaned, execute, BatchRecords(cleaned, execute)[j])
    decreases |cleaned|
  {
    if cleaned != [] {
      var front := cleaned[..|cleaned| - 1];
      BatchRecordsPositions(front, execute);
      var fr := BatchRecords(front, execute);
      var last := SegmentRecords(|cleaned|, cleaned[|cleaned| - 1], execute);
      var rs := fr + last;
      assert rs == BatchRecords(cleaned, execute);
      forall j | 0 <= j < |rs| ensures IsSegmentRecord(cleaned, execute, rs[j]) {
        if j < |fr| {
          assert rs[j] == fr[j];
          assert IsSegmentRecord(front, execute, fr[j]);
          assert cleaned[fr[j].queryId - 1] == front[fr[j].queryId - 1];
        } else {
          assert rs[j] == last[0];
        }
      }
    }
  }

  /** Query ids strictly increase along the records. */
  lemma {:induction false} BatchRecordsIncreasing(cleaned: seq<string>, execute: (nat, string) -> Execution)
    ensures forall a, b :: 0 <= a < b < |BatchRecords(cleaned, execute)| ==>
              BatchRecords(cleaned, execute)[a].queryId < BatchRecords(cleaned, execute)[b].queryId
    decreases |cleaned|
  {
    if cleaned != [] {
      var front := cleaned[..|cleaned| - 1];
      BatchRecordsIncreasing(front, execute);
      BatchRecordsPositions(front, execute);
      var fr := BatchRecords(front, execute);
      var last := SegmentRecords(|cleaned|, cleaned[|cleaned| - 1], execute);
      var rs := fr + last;
      assert rs == BatchRecords(cleaned, execute);
      forall a, b | 0 <= a < b < |rs| ensures rs[a].queryId < rs[b].queryId {
        assert rs[a] == fr[a];
        assert IsSegmentRecord(front, execute, fr[a]);
        if b >= |fr| {
          assert rs[b] == last[0];
        } else {
          assert rs[b] == fr[b];
        }
      }
    }
  }

  /** Position `p` has a record exactly when its segment does not clean to nothing. */
  lemma {:induction false} BatchRecordsCoverage(cleaned: seq<string>, execute: (nat, string) -> Execution, p: nat)
    requires 1 <= p <= |cleaned|
    ensures (exists j :: 0 <= j < |BatchRecords(cleaned, execute)| && BatchRecords(cleaned, execute)[j].queryId == p)
            <==> cleaned[p - 1] != []
    decreases |cleaned|
  {
    var front := cleaned[..|cleaned| - 1];
    var fr := BatchRecords(front, execute);
    var last := SegmentRecords(|cleaned|, cleaned[|cleaned| - 1], execute);
    var rs := fr + last;
    assert rs == BatchRecords(cleaned, execute);
    BatchRecordsPositions(front, execute);
    if p < |cleaned| {
      BatchRecordsCoverage(front, execute, p);
      assert cleaned[p - 1] == front[p - 1];
      forall j | 0 <= j < |rs| ensures rs[j].queryId == p ==> j < |fr| && fr[j].queryId == p {
        if j < |fr| {
          assert rs[j] == fr[j];
        } else {
          assert rs[j] == last[j - |fr|];
        }
      }
      if j :| 0 <= j < |fr| && fr[j].queryId == p {
        assert rs[j] == fr[j];
      }
    } else {
      if cleaned[p - 1] != [] {
        assert rs[|fr|] == last[0];
      }
      forall j | 0 <= j < |rs| ensures rs[j].queryId == p ==> last != [] {
        if j < |fr| {
          assert rs[j] == fr[j];
          assert IsSegmentRecord(front, execute, fr[j]);
        }
      }
    }
  }

  /** The loop of `run_benchmarks` over the segments of the batch: clean
      each, skip it if empty, else run it and append its record. */
  method RunSegments(segments: seq<string>, execute: (nat, string) -> Execution) returns (results: seq<ProbeRecord>)
    ensures results == BatchRecords(CleanAll(segments), execute)
  {
    ghost var cleaned := CleanAll(segments);
    results := [];
    for i := 0 to |segments|
      invariant results == BatchRecords(cleaned[..i], execute)
    {
      var sql := CleanSql(segments[i]);
      CleanStep(segments, i, execute);
      if sql == [] {
        continue;
      }
      var record := RunStatement(i + 1, sql, execute);
      results := results + [record];
    }
    assert cleaned[..|segments|] == cleaned;
  }

  /** One more segment adds the records of that segment, cleaned, at the end. */
  lemma CleanStep(segments: seq<string>, i: nat, execute: (nat, string) -> Execution)
    requires i < |segments|
    ensures BatchRecords(CleanAll(segments)[..i + 1], execute)
            == BatchRecords(CleanAll(segments)[..i], execute) + SegmentRecords(i + 1, CleanSql(segments[i]), execute)
  {
    var cleaned := CleanAll(segments);
    assert cleaned[..i + 1][..i] == cleaned[..i];
  }

  /** The body of that loop for a non-empty statement: run it, scan its
      result sets, and build the success record, or the failure record if
      it raised. */
  method RunStatement(id: nat, sql: string, execute: (nat, string) -> Execution) returns (record: ProbeRecord)
    requires sql != []
    ensures SegmentRecords(id, sql, execute) == [record]
  {
    match execute(id, sql)
    case Raised(message) =>
      record := ProbeRecord(id, 0.0, 0, Failed, Some(Take(message, MAX_ERROR_LENGTH)));
    case Executed(latencyMs, sets) =>
      var rowCount := ScanResultSets(sets);
      record := ProbeRecord(id, latencyMs, rowCount, Success, None);
  }

  // ---------------------------------------------------------------------
  // The whole run

  /** Connecting and enabling the preview features: succeeded or raised. */
  datatype Setup = Connected | SetupFailed(message: string)

  datatype BatchRun = ConnectionFailed(message: string) | InputMissing | Completed(records: seq<ProbeRecord>)

  /** `run_benchmarks`: a failed setup ends the run before the file is
      read; a missing file ends it before any statement runs; otherwise
      every segment of the file, split on the delimiter, is run in order. */
  method RunBenchmarks(setup: Setup, input: Option<string>, execute: (nat, string) -> Execution) returns (run: BatchRun)
    ensures setup.SetupFailed? ==> run == ConnectionFailed(setup.message)
    ensures setup.Connected? && input.None? ==> run == InputMissing
    ensures setup.Connected? && input.Some? ==> run == Completed(BatchRecords(CleanAll(Split(input.value, DELIMITER)), execute))
  {
    if setup.SetupFailed? {
      return ConnectionFailed(setup.message);
    }
    if input.None? {
      return InputMissing;
    }
    var segments := Split(input.value, DELIMITER);
    var records := RunSegments(segments, execute);
    return Completed(records);
  }
}
