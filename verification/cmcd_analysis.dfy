/** The analysis tools of the CMCD MCP server, with the database query
    replaced by its outcome: the buffer-level scan, the playback-error
    rules, the per-field grouping of a session timeline and the fallback
    chain that reads the average bitrate out of a result row. */
module CmcdAnalysis {
  import opened Results
  import opened Seqs
  import opened Dicts

  /** One processed query record: its field name, its time stamp in ISO
      form, its value in milliseconds and its `session_id` tag, any of
      which the query layer may have been unable to read. */
  datatype Point = Point(field: Option<string>, time: Option<string>, value: int, sessionTag: Option<string>)

  /** What the query helper hands to a tool: the records, or the error text. */
  datatype QueryResult<R> = QueryOk(rows: seq<R>) | QueryError(message: string)

  /** The tools only analyse a successful, non-empty result. */
  predicate HasRows<R>(q: QueryResult<R>) {
    q.QueryOk? && |q.rows| > 0
  }

  /** The `session_id` tag, or `unknown` when the record has none. */
  function SessionOf(p: Point): string {
    p.sessionTag.GetOr("unknown")
  }

  // ---------------------------------------------------------------------
  // analyze_buffer_events

  const NoBufferData: string := "No buffer level data found for the specified criteria"

  datatype BufferEvent = BufferEvent(time: Option<string>, bufferLevelMs: int, sessionId: string)

  datatype BufferReport = BufferReport(
    totalBufferEvents: nat,
    lowBufferEvents: nat,
    lowBufferEventsDetails: seq<BufferEvent>,
    thresholdMs: int)

  function EventOf(p: Point): BufferEvent {
    BufferEvent(p.time, p.value, SessionOf(p))
  }

  /** A buffer level strictly below the threshold is low. */
  function IsLow(thresholdMs: int): Point -> bool {
    (p: Point) => p.value < thresholdMs
  }

  /** The buffer scan: every record becomes an event, and the events
      whose level is below the threshold are reported in order. */
  method AnalyzeBufferEvents(q: QueryResult<Point>, thresholdMs: int) returns (r: Result<BufferReport, string>)
    ensures r.Failure? <==> !HasRows(q)
    ensures r.Failure? ==> r.error == NoBufferData
    ensures r.Success? ==>
              && r.value.totalBufferEvents == |q.rows|
              && r.value.thresholdMs == thresholdMs
              && r.value.lowBufferEvents == |r.value.lowBufferEventsDetails|
              && Selects(r.value.lowBufferEventsDetails, q.rows, IsLow(thresholdMs), EventOf)
  {
    if !HasRows(q) {
      return Failure(NoBufferData);
    }
    var rows := q.rows;
    var events: seq<BufferEvent> := [];
    var low: seq<BufferEvent> := [];
    var i := 0;
    while i < |rows|
      invariant 0 <= i <= |rows|
      invariant |events| == i
      invariant Selects(low, rows[..i], IsLow(thresholdMs), EventOf)
    {
      var event := EventOf(rows[i]);
      events := events + [event];
      SelectsSnoc(low, rows[..i], rows[i], IsLow(thresholdMs), EventOf);
      if rows[i].value < thresholdMs {
        low := low + [event];
      }
      assert rows[..i + 1] == rows[..i] + [rows[i]];
      i := i + 1;
    }
    assert rows[..|rows|] == rows;
    return Success(BufferReport(|events|, |low|, low, thresholdMs));
  }

  /** What the low-buffer details mean: at most one per record, each
      strictly below the threshold, and every record below the threshold
      is reported (an untagged one as `unknown`); a record exactly at the
      threshold is not. */
  lemma LowBufferDetails(rows: seq<Point>, thresholdMs: int, details: seq<BufferEvent>)
    requires Selects(details, rows, IsLow(thresholdMs), EventOf)
    ensures |details| <= |rows|
    ensures forall e :: e in details ==> e.bufferLevelMs < thresholdMs
    ensures forall i :: 0 <= i < |rows| && rows[i].value < thresholdMs ==>
              BufferEvent(rows[i].time, rows[i].value, rows[i].sessionTag.GetOr("unknown")) in details
  {
    SelectsMembers(details, rows, IsLow(thresholdMs), EventOf);
    forall e | e in details
      ensures e.bufferLevelMs < thresholdMs
    {
      var i :| 0 <= i < |rows| && IsLow(thresholdMs)(rows[i]) && e == EventOf(rows[i]);
    }
  }

  // ---------------------------------------------------------------------
  // identify_playback_errors

  datatype Severity = Medium | High

  datatype PlaybackError =
    | BufferUnderrun(time: Option<string>, bufferLevelMs: int, sessionId: string, severity: Severity)
    | SuddenBufferDrop(time: Option<string>, previousBufferMs: int, currentBufferMs: int, sessionId: string, severity: Severity)
    | ExcessiveStartupDelay(time: Option<string>, startupDelayMs: int, sessionId: string, severity: Severity)

  /** A buffer level below this is an underrun. */
  const UnderrunBelowMs: int := 100
  /** A drop is only looked for when the previous level is above this. */
  const DropAboveMs: int := 1000
  /** A startup delay above this is excessive, */
  const StartupAboveMs: int := 2000
  /** and above this it is severe. */
  const StartupHighAboveMs: int := 5000

  /** `current < previous * 0.5` with the product taken exactly, over the
      reals. Python first turns `previous` into a float, which is exact only
      for magnitudes up to 2^53; buffer levels are taken to stay within that. */
  predicate IsDrop(prev: Option<int>, cur: int) {
    prev.Some? && prev.value > DropAboveMs && (cur as real) < (prev.value as real) * 0.5
  }

  /** Over integers the halving test is `2 * current < previous`. */
  lemma IsDropHalving(prev: int, cur: int)
    ensures IsDrop(Some(prev), cur) <==> prev > 1000 && 2 * cur < prev
  {
  }

  /** The buffer errors one record raises, given the level before it. */
  function ErrorsFor(prev: Option<int>, p: Point): seq<PlaybackError> {
    (if p.value < UnderrunBelowMs
     then [BufferUnderrun(p.time, p.value, SessionOf(p), if p.value == 0 then High else Medium)]
     else [])
    + (if IsDrop(prev, p.value)
       then [SuddenBufferDrop(p.time, prev.value, p.value, SessionOf(p), Medium)]
       else [])
  }

  /** The rules for one record: an underrun iff the level is below 100,
      high exactly at 0; a drop iff there is a previous level above 1000
      and the level is below half of it, always medium; the underrun first. */
  lemma ErrorsForSpec(prev: Option<int>, p: Point)
    ensures var errs := ErrorsFor(prev, p);
            var under := p.value < 100;
            var drop := prev.Some? && prev.value > 1000 && 2 * p.value < prev.value;
            && |errs| == (if under then 1 else 0) + (if drop then 1 else 0)
            && (under ==> errs[0] == BufferUnderrun(p.time, p.value, SessionOf(p), if p.value == 0 then High else Medium))
            && (drop ==> errs[|errs| - 1] == SuddenBufferDrop(p.time, prev.value, p.value, SessionOf(p), Medium))
            && (forall e :: e in errs ==> !e.ExcessiveStartupDelay?)
  {
    if prev.Some? {
      IsDropHalving(prev.value, p.value);
    }
  }

  /** The level seen before record `i`: none for the first record. */
  function PrevOf(rows: seq<Point>, i: nat): Option<int>
    requires i < |rows|
  {
    if i == 0 then None else Some(rows[i - 1].value)
  }

  /** Reference definition: the errors of each record, record by record. */
  function BufferErrors(rows: seq<Point>): seq<PlaybackError>
    decreases |rows|
  {
    if |rows| == 0 then []
    else BufferErrors(rows[..|rows| - 1]) + ErrorsFor(PrevOf(rows, |rows| - 1), rows[|rows| - 1])
  }

  /** One more record appends exactly its own errors. */
  lemma BufferErrorsSnoc(rows: seq<Point>, i: nat)
    requires i < |rows|
    ensures BufferErrors(rows[..i + 1]) == BufferErrors(rows[..i]) + ErrorsFor(PrevOf(rows, i), rows[i])
  {
    assert rows[..i + 1][..i] == rows[..i];
  }

  /** The scan over the buffer records, carrying the previous level from
      one record to the next whatever session either belongs to. */
  method ScanBufferErrors(rows: seq<Point>) returns (errs: seq<PlaybackError>)
    ensures errs == BufferErrors(rows)
  {
    var prev: Option<int> := None;
    errs := [];
    var i := 0;
    while i < |rows|
      invariant 0 <= i <= |rows|
      invariant i < |rows| ==> prev == PrevOf(rows, i)
      invariant errs == BufferErrors(rows[..i])
    {
      ghost var before := errs;
      var cur := rows[i].value;
      if cur < UnderrunBelowMs {
        errs := errs + [BufferUnderrun(rows[i].time, cur, SessionOf(rows[i]), if cur == 0 then High else Medium)];
      }
      if prev.Some? && prev.value > DropAboveMs && (cur as real) < (prev.value as real) * 0.5 {
        errs := errs + [SuddenBufferDrop(rows[i].time, prev.value, cur, SessionOf(rows[i]), Medium)];
      }
      assert errs == before + ErrorsFor(prev, rows[i]);
      BufferErrorsSnoc(rows, i);
      prev := Some(cur);
      i := i + 1;
    }
    assert rows[..|rows|] == rows;
  }

  /** Every buffer error is raised by some record ... */
  lemma {:induction false} BufferErrorSource(rows: seq<Point>, e: PlaybackError) returns (i: nat)
    requires e in BufferErrors(rows)
    ensures i < |rows| && e in ErrorsFor(PrevOf(rows, i), rows[i])
    decreases |rows|
  {
    var n := |rows| - 1;
    var init := rows[..n];
    if e in BufferErrors(init) {
      i := BufferErrorSource(init, e);
      assert PrevOf(init, i) == PrevOf(rows, i) && init[i] == rows[i];
    } else {
      i := n;
    }
  }

  /** ... and every error a record raises is reported. */
  lemma {:induction false} BufferErrorReported(rows: seq<Point>, i: nat, e: PlaybackError)
    requires i < |rows| && e in ErrorsFor(PrevOf(rows, i), rows[i])
    ensures e in BufferErrors(rows)
    decreases |rows|
  {
    var n := |rows| - 1;
    var init := rows[..n];
    if i < n {
      assert PrevOf(init, i) == PrevOf(rows, i) && init[i] == rows[i];
      BufferErrorReported(init, i, e);
    }
  }

  /** Underruns, whole sequence: one is reported for a record exactly when
      its level is below 100. */
  lemma UnderrunsOfScan(rows: seq<Point>)
    ensures forall i :: 0 <= i < |rows| && rows[i].value < 100 ==>
              BufferUnderrun(rows[i].time, rows[i].value, SessionOf(rows[i]), if rows[i].value == 0 then High else Medium) in BufferErrors(rows)
    ensures forall e :: e in BufferErrors(rows) && e.BufferUnderrun? ==>
              e.bufferLevelMs < 100 && (e.severity == High <==> e.bufferLevelMs == 0)
  {
    forall i | 0 <= i < |rows| && rows[i].value < 100
      ensures BufferUnderrun(rows[i].time, rows[i].value, SessionOf(rows[i]), if rows[i].value == 0 then High else Medium) in BufferErrors(rows)
    {
      BufferErrorReported(rows, i, BufferUnderrun(rows[i].time, rows[i].value, SessionOf(rows[i]), if rows[i].value == 0 then High else Medium));
    }
    forall e | e in BufferErrors(rows) && e.BufferUnderrun?
      ensures e.bufferLevelMs < 100 && (e.severity == High <==> e.bufferLevelMs == 0)
    {
      var i := BufferErrorSource(rows, e);
    }
  }

  /** Drops, whole sequence: one is reported for record `i` exactly when
      the record before it (of any session) is above 1000 and more than
      twice the level of record `i`. */
  lemma DropsOfScan(rows: seq<Point>)
    ensures forall i :: 1 <= i < |rows| && rows[i - 1].value > 1000 && 2 * rows[i].value < rows[i - 1].value ==>
              SuddenBufferDrop(rows[i].time, rows[i - 1].value, rows[i].value, SessionOf(rows[i]), Medium) in BufferErrors(rows)
    ensures forall e :: e in BufferErrors(rows) && e.SuddenBufferDrop? ==>
              exists i :: 1 <= i < |rows| && e == SuddenBufferDrop(rows[i].time, rows[i - 1].value, rows[i].value, SessionOf(rows[i]), Medium)
                          && rows[i - 1].value > 1000 && 2 * rows[i].value < rows[i - 1].value
  {
    forall i | 1 <= i < |rows| && rows[i - 1].value > 1000 && 2 * rows[i].value < rows[i - 1].value
      ensures SuddenBufferDrop(rows[i].time, rows[i - 1].value, rows[i].value, SessionOf(rows[i]), Medium) in BufferErrors(rows)
    {
      IsDropHalving(rows[i - 1].value, rows[i].value);
      BufferErrorReported(rows, i, SuddenBufferDrop(rows[i].time, rows[i - 1].value, rows[i].value, SessionOf(rows[i]), Medium));
    }
    forall e | e in BufferErrors(rows) && e.SuddenBufferDrop?
      ensures exists i :: 1 <= i < |rows| && e == SuddenBufferDrop(rows[i].time, rows[i - 1].value, rows[i].value, SessionOf(rows[i]), Medium)
                          && rows[i - 1].value > 1000 && 2 * rows[i].value < rows[i - 1].value
    {
      var i := BufferErrorSource(rows, e);
      IsDropHalving(rows[i - 1].value, rows[i].value);
    }
  }

  /** The first record has nothing to drop from. */
  lemma FirstRecordNeverDrops(rows: seq<Point>)
    requires |rows| > 0
    ensures forall e :: e in BufferErrors(rows[..1]) ==> e.BufferUnderrun?
  {
    assert rows[..1][..0] == [];
  }

  /** Without a session filter, a level from one session and the next
      record's level from another are still compared. */
  lemma DropSpansSessions()
    ensures BufferErrors([Point(None, None, 2000, Some("a")), Point(None, None, 400, Some("b"))])
              == [SuddenBufferDrop(None, 2000, 400, "b", Medium)]
  {
    var rows := [Point(None, None, 2000, Some("a")), Point(None, None, 400, Some("b"))];
    assert rows[..1][..0] == [];
  }

  /** A record that both underruns and drops reports the underrun first. */
  lemma UnderrunBeforeDrop()
    ensures ErrorsFor(Some(1500), Point(None, None, 0, None))
              == [BufferUnderrun(None, 0, "unknown", High), SuddenBufferDrop(None, 1500, 0, "unknown", Medium)]
  {
  }

  /** The previous level must be strictly above 1000: a fall from exactly
      1000 to 200 is no error at all. */
  lemma NoDropFromThousand()
    ensures BufferErrors([Point(None, None, 1000, None), Point(None, None, 200, None)]) == []
  {
    var rows := [Point(None, None, 1000, None), Point(None, None, 200, None)];
    assert rows[..1][..0] == [];
    assert !IsDrop(Some(1000), 200);
  }

  function IsExcessive(p: Point): bool {
    p.value > StartupAboveMs
  }

  function StartupErrorOf(p: Point): PlaybackError {
    ExcessiveStartupDelay(p.time, p.value, SessionOf(p), if p.value > StartupHighAboveMs then High else Medium)
  }

  /** The startup errors: one per record above 2000 ms, in order. */
  function StartupErrors(rows: seq<Point>): (errs: seq<PlaybackError>)
    ensures Selects(errs, rows, IsExcessive, StartupErrorOf)
  {
    FilterMap(rows, IsExcessive, StartupErrorOf)
  }

  /** Startup errors, whole sequence: one per record above 2000, high
      exactly above 5000, and nothing else. */
  lemma StartupErrorsSpec(rows: seq<Point>)
    ensures forall i :: 0 <= i < |rows| && rows[i].value > 2000 ==>
              ExcessiveStartupDelay(rows[i].time, rows[i].value, SessionOf(rows[i]), if rows[i].value > 5000 then High else Medium) in StartupErrors(rows)
    ensures forall e :: e in StartupErrors(rows) ==>
              e.ExcessiveStartupDelay? && e.startupDelayMs > 2000 && (e.severity == High <==> e.startupDelayMs > 5000)
  {
    SelectsMembers(StartupErrors(rows), rows, IsExcessive, StartupErrorOf);
    forall e | e in StartupErrors(rows)
      ensures e.ExcessiveStartupDelay? && e.startupDelayMs > 2000 && (e.severity == High <==> e.startupDelayMs > 5000)
    {
      var i :| 0 <= i < |rows| && IsExcessive(rows[i]) && e == StartupErrorOf(rows[i]);
    }
  }

  /** The report; the tool never fails, so there is no error case. */
  datatype ErrorReport = ErrorReport(totalErrors: nat, errors: seq<PlaybackError>, timeRange: string, sessionId: Option<string>)

  function RowsOrNone(q: QueryResult<Point>): seq<Point> {
    if HasRows(q) then q.rows else []
  }

  /** `identify_playback_errors`: the buffer errors of the buffer query, then
      the startup errors of the startup query; a failed or empty query
      contributes none. */
  method IdentifyPlaybackErrors(bufferQ: QueryResult<Point>, startupQ: QueryResult<Point>, timeRange: string, sessionId: Option<string>)
    returns (r: ErrorReport)
    ensures r.errors == BufferErrors(RowsOrNone(bufferQ)) + StartupErrors(RowsOrNone(startupQ))
    ensures r.totalErrors == |r.errors|
    ensures forall i :: 0 <= i < |r.errors| ==>
              (r.errors[i].ExcessiveStartupDelay? <==> i >= |BufferErrors(RowsOrNone(bufferQ))|)
    ensures r.timeRange == timeRange && r.sessionId == sessionId
  {
    var errors: seq<PlaybackError> := [];
    if HasRows(bufferQ) {
      errors := ScanBufferErrors(bufferQ.rows);
    }
    BufferErrorsNoStartup(RowsOrNone(bufferQ));
    StartupErrorsSpec(RowsOrNone(startupQ));
    ErrorsOrdered(errors, StartupErrors(RowsOrNone(startupQ)));
    errors := errors + StartupErrors(RowsOrNone(startupQ));
    return ErrorReport(|errors|, errors, timeRange, sessionId);
  }

  /** Buffer errors followed by startup errors: the startup errors are exactly the tail. */
  lemma ErrorsOrdered(buffer: seq<PlaybackError>, startup: seq<PlaybackError>)
    requires forall e :: e in buffer ==> !e.ExcessiveStartupDelay?
    requires forall e :: e in startup ==> e.ExcessiveStartupDelay?
    ensures forall i :: 0 <= i < |buffer + startup| ==>
              ((buffer + startup)[i].ExcessiveStartupDelay? <==> i >= |buffer|)
  {
    forall i | 0 <= i < |buffer + startup|
      ensures (buffer + startup)[i].ExcessiveStartupDelay? <==> i >= |buffer|
    {
      if i < |buffer| {
        assert (buffer + startup)[i] == buffer[i];
      } else {
        assert (buffer + startup)[i] == startup[i - |buffer|];
      }
    }
  }

  /** The buffer scan raises no startup errors. */
  lemma BufferErrorsNoStartup(rows: seq<Point>)
    ensures forall e :: e in BufferErrors(rows) ==> !e.ExcessiveStartupDelay?
  {
    forall e | e in BufferErrors(rows)
      ensures !e.ExcessiveStartupDelay?
    {
      var i := BufferErrorSource(rows, e);
      ErrorsForSpec(PrevOf(rows, i), rows[i]);
    }
  }

  // ---------------------------------------------------------------------
  // get_session_details

  datatype Sample = Sample(time: Option<string>, value: int)

  /** A session timeline: first and last time, and the samples of each
      field in first-seen field order. */
  datatype SessionData = SessionData(
    sessionId: string,
    startTime: Option<string>,
    endTime: Option<string>,
    metrics: Dict<Option<string>, seq<Sample>>)

  function FieldOf(p: Point): Option<string> {
    p.field
  }

  function SampleOf(p: Point): Sample {
    Sample(p.time, p.value)
  }

  /** `get_session_details` over the time-sorted records of one session. */
  function GetSessionDetails(q: QueryResult<Point>, sessionId: string): (r: Result<SessionData, string>)
    ensures r.Failure? <==> !HasRows(q)
    ensures r.Failure? ==> r.error == "No data found for session ID: " + sessionId
    ensures r.Success? ==>
              && r.value.sessionId == sessionId
              && r.value.startTime == q.rows[0].time
              && r.value.endTime == q.rows[|q.rows| - 1].time
  {
    if !HasRows(q) then Failure("No data found for session ID: " + sessionId)
    else
      var rows := q.rows;
      Success(SessionData(sessionId, rows[0].time, rows[|rows| - 1].time, GroupBy(rows, FieldOf, SampleOf)))
  }

  /** The metrics of a session: one list per field that occurs, each the
      in-order samples of exactly the records of that field, the list
      lengths summing to the number of records. */
  lemma SessionMetrics(q: QueryResult<Point>, sessionId: string)
    requires HasRows(q)
    ensures var m := GetSessionDetails(q, sessionId).value.metrics;
            && KeysUnique(m)
            && (forall f :: f in Keys(m) <==> exists i :: 0 <= i < |q.rows| && q.rows[i].field == f)
            && TotalSize(m) == |q.rows|
            && (forall f :: Get(m, f).Some? ==> Selects(Get(m, f).value, q.rows, KeyIs(FieldOf, f), SampleOf))
  {
    GroupByUnique(q.rows, FieldOf, SampleOf);
    GroupByKeys(q.rows, FieldOf, SampleOf);
    GroupBySize(q.rows, FieldOf, SampleOf);
    GroupBySelects(q.rows, FieldOf, SampleOf);
  }

  // ---------------------------------------------------------------------
  // get_average_bitrate: reading the value out of the first result row

  /** A Python scalar as it comes back in a record. */
  datatype Scalar = SNone | SBool(b: bool) | SInt(i: int) | SFloat(x: real) | SStr(s: string)

  /** `isinstance(v, (int, float))`; a bool is an int in Python. */
  predicate IsNumeric(v: Scalar) {
    v.SBool? || v.SInt? || v.SFloat?
  }

  /** A result row: its `value` entry (absent, or possibly None) and its
      `raw_values` dictionary (absent, or the record's own values). */
  datatype BitrateRow = BitrateRow(value: Option<Scalar>, rawValues: Option<Dict<string, Scalar>>)

  function NumericNonTable(kv: (string, Scalar)): bool {
    IsNumeric(kv.1) && kv.0 != "table"
  }

  const NoNumericValue: string := "Could not find a numeric value in the result"
  /** How Python prints the `KeyError` of a row without `raw_values`. */
  const MissingRawValues: string := "'raw_values'"

  /** The row's `value` is present and not None. */
  predicate HasDirectValue(row: BitrateRow) {
    row.value.Some? && row.value.value != SNone
  }

  /** The fallback chain: the row's own value, then `raw_values['_value']`,
      then the first numeric raw value whose key is not `table`. */
  function ExtractBitrate(row: BitrateRow): (r: Result<Scalar, string>)
    ensures HasDirectValue(row) ==> r == Success(row.value.value)
    ensures r.Failure? <==>
              && !HasDirectValue(row)
              && (row.rawValues.Some? ==>
                    && "_value" !in Keys(row.rawValues.value)
                    && forall i :: 0 <= i < |row.rawValues.value| ==> !NumericNonTable(row.rawValues.value[i]))
    ensures r.Failure? ==> r.error == (if row.rawValues.None? then MissingRawValues else NoNumericValue)
    ensures !HasDirectValue(row) && row.rawValues.Some? && "_value" in Keys(row.rawValues.value) ==>
              r == Success(Get(row.rawValues.value, "_value").value)
    ensures !HasDirectValue(row) && row.rawValues.Some? && "_value" !in Keys(row.rawValues.value) && r.Success? ==>
              var raw := row.rawValues.value;
              exists i :: 0 <= i < |raw| && NumericNonTable(raw[i]) && r.value == raw[i].1
                          && forall j :: 0 <= j < i ==> !NumericNonTable(raw[j])
  {
    if HasDirectValue(row) then Success(row.value.value)
    else if row.rawValues.Some? && "_value" in Keys(row.rawValues.value) then
      Success(Get(row.rawValues.value, "_value").value)
    else if row.rawValues.None? then Failure(MissingRawValues)
    else
      var raw := row.rawValues.value;
      match FirstIndex(raw, NumericNonTable)
      case Some(i) => Success(raw[i].1)
      case None => Failure(NoNumericValue)
  }

  /** The reported value is never invented: it is the row's value or one
      of its raw values; it is None only when `raw_values['_value']` is
      None, and numeric whenever no `_value` entry was found. */
  lemma ExtractBitrateSource(row: BitrateRow)
    requires ExtractBitrate(row).Success?
    ensures var v := ExtractBitrate(row).value;
            && (HasDirectValue(row) || (row.rawValues.Some? && exists k :: (k, v) in row.rawValues.value))
            && (v == SNone ==> !HasDirectValue(row) && row.rawValues.Some? && Get(row.rawValues.value, "_value") == Some(SNone))
            && (!HasDirectValue(row) && row.rawValues.Some? && "_value" !in Keys(row.rawValues.value) ==>
                  IsNumeric(v) && exists i :: 0 <= i < |row.rawValues.value| && row.rawValues.value[i].1 == v && row.rawValues.value[i].0 != "table")
  {
    var v := ExtractBitrate(row).value;
    if !HasDirectValue(row) && row.rawValues.Some? {
      var raw := row.rawValues.value;
      if "_value" in Keys(raw) {
        assert ("_value", v) in raw;
      } else {
        var i := FirstIndex(raw, NumericNonTable).value;
        assert raw[i] == (raw[i].0, v);
      }
    }
  }

  datatype BitrateReport = BitrateReport(averageBitrateKbps: Scalar, rawResult: Dict<string, Scalar>)

  const NoBitrateData: string := "No bitrate data found for the specified criteria"
  const ExtractionErrorPrefix: string := "Error extracting average bitrate: "

  /** `get_average_bitrate` once the bucket is chosen: an empty or failed
      query is reported as no data; otherwise the first row is read. */
  function AverageBitrate(q: QueryResult<BitrateRow>): (r: Result<BitrateReport, string>)
    ensures !HasRows(q) ==> r == Failure(NoBitrateData)
    ensures HasRows(q) ==>
              match ExtractBitrate(q.rows[0])
              case Success(v) => r.Success? && r.value.averageBitrateKbps == v
              case Failure(e) => r == Failure(ExtractionErrorPrefix + e)
    ensures r.Success? ==> r.value.rawResult == q.rows[0].rawValues.GetOr([])
  {
    if !HasRows(q) then Failure(NoBitrateData)
    else
      var row := q.rows[0];
      match ExtractBitrate(row)
      case Success(v) => Success(BitrateReport(v, row.rawValues.GetOr([])))
      case Failure(e) => Failure(ExtractionErrorPrefix + e)
  }

  /** A row whose only numeric raw value is under `table` has no bitrate. */
  lemma TableIsNotABitrate()
    ensures AverageBitrate(QueryOk([BitrateRow(Some(SNone), Some([("table", SInt(0)), ("_field", SStr("cmcd_br"))]))]))
              == Failure(ExtractionErrorPrefix + NoNumericValue)
  {
    var raw := [("table", SInt(0)), ("_field", SStr("cmcd_br"))];
    assert !NumericNonTable(raw[0]) && !NumericNonTable(raw[1]);
    assert Keys(raw) == ["table", "_field"];
    assert "_value" !in Keys(raw);
    assert ExtractBitrate(BitrateRow(Some(SNone), Some(raw))) == Failure(NoNumericValue);
  }
}
