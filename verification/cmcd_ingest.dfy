/** The ingest function: a CloudFront real-time log line is split into
    tab-separated fields, its `CMCD-*` header lines are parsed into
    key/value pairs, and the result is flattened into Timestream records.
    CMCD (Common Media Client Data, CTA-5004) is read the simplified way the
    function reads it: valueless keys such as `bs` are dropped. */
module CmcdIngest {
  import opened Results
  import opened Seqs
  import opened Dicts
  import opened Strings

  /** The key/value pairs of one CMCD header, in first-seen key order. */
  type CmcdPairs = Dict<string, string>

  /** Header kind (`request`, `object`, `status`, `session`) to its pairs. */
  type CmcdData = Dict<string, CmcdPairs>

  /** A log line with fewer fields than this is not a log record. */
  const MinFields: nat := 10

  const CmcdPrefix: string := "CMCD-"

  /** One parsed log line. The timestamp is in milliseconds. */
  datatype LogEntry = LogEntry(
    timestamp: int,
    clientIp: string,
    status: string,
    uri: string,
    timeTaken: nat,
    edgeLocation: string,
    cmcdData: CmcdData)

  /** What parsing one line gives: no record (too few fields), an exception
      (the timestamp field is not a number), or an entry. */
  datatype LineOutcome = Skipped | Raised | Parsed(entry: LogEntry)

  datatype Dimension = Dimension(name: string, value: string)

  /** One Timestream write record. */
  datatype TimestreamRecord = TimestreamRecord(
    time: string,
    timeUnit: string,
    dimensions: seq<Dimension>,
    measureName: string,
    measureValue: string,
    measureValueType: string)

  // ---------------------------------------------------------------------
  // parse_cmcd_value

  /** One comma-separated segment `key=value`: split at the first `=`, the
      key whitespace-stripped, the value whitespace-stripped and then
      stripped of surrounding double quotes. Segments without `=` give nothing. */
  function PairOf(segment: string): (r: Option<(string, string)>)
    ensures r.None? <==> '=' !in segment
  {
    match SplitOnce(segment, '=')
    case None => None
    case Some(kv) => Some((Strip(kv.0), StripQuotes(Strip(kv.1))))
  }

  /** A segment splits at its first `=`: the key is the stripped text
      before it, the value the stripped, unquoted text after it, `=`s and all. */
  lemma PairOfSplit(key: string, value: string)
    requires '=' !in key
    ensures PairOf(key + "=" + value) == Some((Strip(key), StripQuotes(Strip(value))))
  {
    SplitOnceOf(key, '=', value);
  }

  /** A parsed key holds no `=` and is already stripped; a parsed value is
      already free of surrounding double quotes. */
  lemma PairOfShape(segment: string)
    requires '=' in segment
    ensures PairOf(segment).Some?
    ensures var (k, v) := PairOf(segment).value;
            '=' !in k && Strip(k) == k && StripQuotes(v) == v
  {
    var kv := SplitOnce(segment, '=').value;
    var k := Strip(kv.0);
    var i := StripWithShape(kv.0, IsSpace);
    assert k == kv.0[i..i + |k|];
    StripWithIdempotent(kv.0, IsSpace);
    StripWithIdempotent(Strip(kv.1), IsQuote);
  }

  /** The pairs of one CMCD header value; a later duplicate key overwrites an earlier one. */
  function ParseCmcdValue(value: string): (r: CmcdPairs)
    ensures KeysUnique(r)
  {
    CollectUnique(Split(value, ','), PairOf);
    Collect(Split(value, ','), PairOf)
  }

  /** Every key bound in the header value is bound to what its LAST
      `key=value` segment says; keys no segment binds are absent. */
  lemma ParseCmcdValueLast(value: string, k: string, v: string)
    ensures Get(ParseCmcdValue(value), k) == Some(v) <==> LastBinding(Split(value, ','), PairOf, k, v)
    ensures k in Keys(ParseCmcdValue(value)) <==>
              exists i :: 0 <= i < |Split(value, ',')| && Binds(PairOf(Split(value, ',')[i]), k)
  {
    CollectGet(Split(value, ','), PairOf, k, v);
    CollectKeys(Split(value, ','), PairOf, k);
  }

  /** A header value without any `=` (only valueless keys such as `bs`) yields no pairs. */
  lemma ValuelessKeysDropped(value: string)
    requires '=' !in value
    ensures ParseCmcdValue(value) == []
  {
    var segs := Split(value, ',');
    JoinSplit(value, ',');
    forall i | 0 <= i < |segs|
      ensures PairOf(segs[i]) == None
    {
      if '=' in segs[i] {
        JoinContains(segs, [','], i);
      }
    }
    CollectNone(segs, PairOf);
  }

  /** A character of a piece also occurs in the joined string. */
  lemma {:induction false} JoinContains(parts: seq<string>, sep: string, i: nat)
    requires i < |parts|
    ensures forall c :: c in parts[i] ==> c in Join(parts, sep)
    decreases |parts|
  {
    if i > 0 {
      JoinContains(parts[1..], sep, i - 1);
      assert parts[1..][i - 1] == parts[i];
    }
  }

  lemma {:induction false} CollectNone<T, K(!new), V>(xs: seq<T>, f: T -> Option<(K, V)>)
    requires forall i :: 0 <= i < |xs| ==> f(xs[i]).None?
    ensures Collect(xs, f) == []
    decreases |xs|
  {
    if |xs| > 0 {
      CollectNone(xs[..|xs| - 1], f);
    }
  }

  /** A pair a player can write: the key has no `=` or `,` and no
      surrounding whitespace; the value has no `,` and survives stripping of
      whitespace and quotes. The value may itself contain `=`. */
  predicate WritablePair(p: (string, string)) {
    && '=' !in p.0 && ',' !in p.0 && ',' !in p.1
    && Strip(p.0) == p.0
    && StripQuotes(Strip(p.1)) == p.1
  }

  /** `key=value`. */
  function RenderPair(p: (string, string)): string {
    p.0 + "=" + p.1
  }

  /** `k1=v1,k2=v2,...`, the header value a player sends. */
  function RenderCmcdValue(d: CmcdPairs): string {
    Join(seq(|d|, i requires 0 <= i < |d| => RenderPair(d[i])), ",")
  }

  /** Parsing a rendered segment gives the pair back, splitting at the first `=`. */
  lemma PairOfRender(p: (string, string))
    requires WritablePair(p)
    ensures PairOf(RenderPair(p)) == Some(p)
  {
    var s := RenderPair(p);
    var n := |p.0|;
    assert s[n] == '=' && s[..n] == p.0 && s[n + 1..] == p.1;
    IndexOfFirst(s, '=', n);
  }

  /** Round trip: the header value a player renders from distinct, writable
      pairs parses back to exactly those pairs in the same order. */
  lemma {:induction false} ParseRenderRoundTrip(d: CmcdPairs)
    requires KeysUnique(d)
    requires forall i :: 0 <= i < |d| ==> WritablePair(d[i])
    ensures ParseCmcdValue(RenderCmcdValue(d)) == d
  {
    if |d| == 0 {
      ValuelessKeysDropped(RenderCmcdValue(d));
      return;
    }
    var segs := seq(|d|, i requires 0 <= i < |d| => RenderPair(d[i]));
    forall i | 0 <= i < |segs|
      ensures ',' !in segs[i]
    {
      assert segs[i] == d[i].0 + "=" + d[i].1;
    }
    SplitJoin(segs, ',');
    forall i | 0 <= i < |segs|
      ensures PairOf(segs[i]) == Some(d[i])
    {
      PairOfRender(d[i]);
    }
    CollectDistinct(segs, PairOf, d);
  }

  // ---------------------------------------------------------------------
  // extract_cmcd_headers

  /** `CMCD-Request` becomes `request`: stripped, every `CMCD-` removed, lower-cased. */
  function HeaderKey(name: string): string {
    Lower(RemoveAll(Strip(name), CmcdPrefix))
  }

  /** `replace('CMCD-', '')` on a `CMCD-` name removes exactly the prefix. */
  lemma PrefixRemoved(w: string)
    requires !Contains(w, CmcdPrefix)
    ensures RemoveAll(CmcdPrefix + w, CmcdPrefix) == w
  {
    RemoveAllFirst("", w, CmcdPrefix);
    assert "" + CmcdPrefix + w == CmcdPrefix + w;
  }

  /** The removal is one left-to-right pass: deleting an occurrence can
      bring a new one together, and that one stays. */
  lemma RemovalCanJoinPrefix()
    ensures RemoveAll("CMCCMCD-D-", CmcdPrefix) == "CMCD-"
  {
    var a, b := "CMC", "D-";
    var s := a + CmcdPrefix + b;
    assert s == "CMCCMCD-D-";
    assert s[0..][3] != CmcdPrefix[3];
    assert s[1..][0] != CmcdPrefix[0];
    assert s[2..][1] != CmcdPrefix[1];
    RemoveAllFirst(a, b, CmcdPrefix);
    assert !(CmcdPrefix <= b);
    assert RemoveAll(b, CmcdPrefix) == b;
  }

  /** One header line: it counts only if it contains `CMCD-` (case-sensitive)
      and a `:`; the name is the text before the first `:`. */
  function HeaderEntry(line: string): (r: Option<(string, CmcdPairs)>)
    ensures r.Some? <==> Contains(line, CmcdPrefix) && ':' in line
  {
    if Contains(line, CmcdPrefix) then
      match SplitOnce(line, ':')
      case None => None
      case Some(nv) => Some((HeaderKey(nv.0), ParseCmcdValue(Strip(nv.1))))
    else None
  }

  /** A `CMCD-` line splits at its first `:`: the kind comes from the text
      before it, the pairs from the stripped text after it. */
  lemma HeaderEntryOf(name: string, value: string)
    requires ':' !in name && Contains(name + ":" + value, CmcdPrefix)
    ensures HeaderEntry(name + ":" + value) == Some((HeaderKey(name), ParseCmcdValue(Strip(value))))
  {
    SplitOnceOf(name, ':', value);
  }

  /** All CMCD headers of a newline-separated header block. */
  function ExtractCmcdHeaders(headers: string): (r: CmcdData)
    ensures KeysUnique(r)
  {
    CollectUnique(Split(headers, '\n'), HeaderEntry);
    Collect(Split(headers, '\n'), HeaderEntry)
  }

  /** A header kind is present exactly when some line carrying `CMCD-` and
      `:` normalises to it; its pairs come from the last such line. */
  lemma ExtractCmcdHeadersLast(headers: string, kind: string, pairs: CmcdPairs)
    ensures Get(ExtractCmcdHeaders(headers), kind) == Some(pairs) <==>
              LastBinding(Split(headers, '\n'), HeaderEntry, kind, pairs)
    ensures kind in Keys(ExtractCmcdHeaders(headers)) <==>
              exists i :: 0 <= i < |Split(headers, '\n')| && Binds(HeaderEntry(Split(headers, '\n')[i]), kind)
  {
    CollectGet(Split(headers, '\n'), HeaderEntry, kind, pairs);
    CollectKeys(Split(headers, '\n'), HeaderEntry, kind);
  }

  /** Header kinds are lower case whatever the case of the line. */
  lemma HeaderKindsLowerCase(headers: string)
    ensures forall j, c :: 0 <= j < |ExtractCmcdHeaders(headers)| && c in ExtractCmcdHeaders(headers)[j].0 ==> !IsAsciiUpper(c)
  {
    var d := ExtractCmcdHeaders(headers);
    var lines := Split(headers, '\n');
    forall j | 0 <= j < |d|
      ensures forall c :: c in d[j].0 ==> !IsAsciiUpper(c)
    {
      var k := d[j].0;
      assert Keys(d)[j] == k;
      CollectKeys(lines, HeaderEntry, k);
      var i :| 0 <= i < |lines| && Binds(HeaderEntry(lines[i]), k);
      var nv := SplitOnce(lines[i], ':').value;
      assert k == Lower(RemoveAll(Strip(nv.0), CmcdPrefix));
    }
  }

  // ---------------------------------------------------------------------
  // parse_cloudfront_log

  /** The tab-separated fields of a whitespace-stripped line. */
  function LogFields(line: string): (fs: seq<string>)
    ensures |fs| >= 1
  {
    Split(Strip(line), '\t')
  }

  /** CPython's default limit on the digits `int` converts from a string
      (`sys.int_info.default_max_str_digits`, CPython 3.11 and later and
      the matching security releases). */
  const MaxStrDigits: nat := 4300

  /** `int(field)` raises `ValueError` on an all-digit field that is too long. */
  predicate TimeTakenRaises(field: string) {
    IsDigits(field) && |field| > MaxStrDigits
  }

  /** `int(field) if field.isdigit() else 0`, where it does not raise. */
  function TimeTaken(field: string): nat {
    if IsDigits(field) then DigitsValue(field) else 0
  }

  /** One log line. `toMillis` stands for `int(float(field) * 1000)` and
      is `None` where that raises; `unquote` stands for percent-decoding.
      The entry's fields are computed in order, so a bad timestamp raises
      before the time taken is read, and either raise aborts the line. */
  function ParseCloudFrontLog(line: string, toMillis: string -> Option<int>, unquote: string -> string): (r: LineOutcome)
    ensures r.Skipped? <==> |LogFields(line)| < MinFields
    ensures r.Raised? <==>
              && |LogFields(line)| >= MinFields
              && (toMillis(LogFields(line)[0]).None? || TimeTakenRaises(LogFields(line)[7]))
  {
    var fields := LogFields(line);
    if |fields| < MinFields then Skipped
    else
      // |fields| > 6 always holds here, so the header field is always read.
      var cmcd := ExtractCmcdHeaders(unquote(fields[6]));
      match toMillis(fields[0])
      case None => Raised
      case Some(ms) =>
        if TimeTakenRaises(fields[7]) then Raised
        else Parsed(LogEntry(ms, fields[1], fields[2], fields[4], TimeTaken(fields[7]), fields[8], cmcd))
  }

  /** A line assembled from at least ten tab-free fields (not starting or
      ending in whitespace) parses back to those fields: client IP is field
      1, status 2, URI 4, time taken 7 (0 unless all digits), edge location
      8, and the CMCD data comes from the decoded field 6. */
  lemma ParseJoinedFields(fs: seq<string>, toMillis: string -> Option<int>, unquote: string -> string)
    requires |fs| >= MinFields
    requires forall i :: 0 <= i < |fs| ==> '\t' !in fs[i]
    requires Strip(Join(fs, "\t")) == Join(fs, "\t")
    requires toMillis(fs[0]).Some?
    requires !TimeTakenRaises(fs[7])
    ensures var r := ParseCloudFrontLog(Join(fs, "\t"), toMillis, unquote);
            && r.Parsed?
            && r.entry.timestamp == toMillis(fs[0]).value
            && r.entry.clientIp == fs[1]
            && r.entry.status == fs[2]
            && r.entry.uri == fs[4]
            && r.entry.timeTaken == (if IsDigits(fs[7]) then DigitsValue(fs[7]) else 0)
            && r.entry.edgeLocation == fs[8]
            && r.entry.cmcdData == ExtractCmcdHeaders(unquote(fs[6]))
  {
    SplitJoin(fs, '\t');
  }

  /** A line whose time-taken column holds more than 4300 digits raises,
      even when its timestamp converts. */
  lemma LongTimeTakenRaises(fs: seq<string>, toMillis: string -> Option<int>, unquote: string -> string)
    requires |fs| >= MinFields
    requires forall i :: 0 <= i < |fs| ==> '\t' !in fs[i]
    requires Strip(Join(fs, "\t")) == Join(fs, "\t")
    requires IsDigits(fs[7]) && |fs[7]| > MaxStrDigits
    ensures ParseCloudFrontLog(Join(fs, "\t"), toMillis, unquote) == Raised
  {
    SplitJoin(fs, '\t');
  }

  /** A stripped line with fewer than ten fields is no record. */
  lemma ShortLineSkipped(fs: seq<string>, toMillis: string -> Option<int>, unquote: string -> string)
    requires 1 <= |fs| < MinFields
    requires forall i :: 0 <= i < |fs| ==> '\t' !in fs[i]
    requires Strip(Join(fs, "\t")) == Join(fs, "\t")
    ensures ParseCloudFrontLog(Join(fs, "\t"), toMillis, unquote) == Skipped
  {
    SplitJoin(fs, '\t');
  }

  // ---------------------------------------------------------------------
  // create_timestream_records

  function BaseDimensions(e: LogEntry): seq<Dimension> {
    [Dimension("client_ip", e.clientIp), Dimension("edge_location", e.edgeLocation), Dimension("status", e.status)]
  }

  function TimeTakenRecord(e: LogEntry): TimestreamRecord {
    TimestreamRecord(IntToString(e.timestamp), "MILLISECONDS", BaseDimensions(e),
                     "time_taken", NatToString(e.timeTaken), "BIGINT")
  }

  function CmcdRecord(e: LogEntry, kind: string, key: string, value: string): TimestreamRecord {
    TimestreamRecord(IntToString(e.timestamp), "MILLISECONDS", BaseDimensions(e) + [Dimension("cmcd_type", kind)],
                     "cmcd_" + key, value, "BIGINT")
  }

  predicate HasDigitValue(p: (string, string)) {
    IsDigits(p.1)
  }

  function RecordFor(e: LogEntry, kind: string): ((string, string)) -> TimestreamRecord {
    (p: (string, string)) => CmcdRecord(e, kind, p.0, p.1)
  }

  /** The records of one header kind: one per pair whose value is all digits, in pair order. */
  function KindRecords(e: LogEntry, kind: string, pairs: CmcdPairs): (r: seq<TimestreamRecord>)
    ensures Selects(r, pairs, HasDigitValue, RecordFor(e, kind))
  {
    FilterMap(pairs, HasDigitValue, RecordFor(e, kind))
  }

  /** The records of all header kinds, kind by kind. */
  function AllKindRecords(e: LogEntry, data: CmcdData): seq<TimestreamRecord>
    decreases |data|
  {
    if |data| == 0 then []
    else KindRecords(e, data[0].0, data[0].1) + AllKindRecords(e, data[1..])
  }

  /** Number of pairs, over all kinds, whose value is all digits. */
  function DigitValueCount(data: CmcdData): nat
    decreases |data|
  {
    if |data| == 0 then 0 else Count(data[0].1, HasDigitValue) + DigitValueCount(data[1..])
  }

  /** Some header kind `kind` of `data` binds `key` to `value`. */
  ghost predicate Carries(data: CmcdData, kind: string, key: string, value: string) {
    exists j :: 0 <= j < |data| && data[j].0 == kind && (key, value) in data[j].1
  }

  /** A record built from the CMCD data `data` of `e`: it carries the
      `cmcd_` prefix, all-digit value and `cmcd_type` dimension of some pair. */
  ghost predicate IsCmcdRecordOf(e: LogEntry, data: CmcdData, r: TimestreamRecord) {
    && r.time == IntToString(e.timestamp)
    && r.timeUnit == "MILLISECONDS"
    && r.measureValueType == "BIGINT"
    && |r.measureName| >= 5 && r.measureName[..5] == "cmcd_"
    && IsDigits(r.measureValue)
    && |r.dimensions| == 4 && r.dimensions[..3] == BaseDimensions(e)
    && r.dimensions[3].name == "cmcd_type"
    && Carries(data, r.dimensions[3].value, r.measureName[5..], r.measureValue)
  }

  /** The records of one kind are each built from a pair of that kind. */
  lemma KindRecordsSound(e: LogEntry, data: CmcdData)
    requires |data| > 0
    ensures forall r :: r in KindRecords(e, data[0].0, data[0].1) ==> IsCmcdRecordOf(e, data, r)
  {
    var kind := data[0].0;
    var pairs := data[0].1;
    SelectsMembers(KindRecords(e, kind, pairs), pairs, HasDigitValue, RecordFor(e, kind));
    forall r | r in KindRecords(e, kind, pairs)
      ensures IsCmcdRecordOf(e, data, r)
    {
      var i :| 0 <= i < |pairs| && HasDigitValue(pairs[i]) && r == RecordFor(e, kind)(pairs[i]);
      assert r == CmcdRecord(e, kind, pairs[i].0, pairs[i].1);
      assert ("cmcd_" + pairs[i].0)[5..] == pairs[i].0;
      assert pairs[i] in data[0].1;
    }
  }

  /** A record of the tail's data is also a record of the whole data. */
  lemma CarriesTail(e: LogEntry, data: CmcdData, r: TimestreamRecord)
    requires |data| > 0 && IsCmcdRecordOf(e, data[1..], r)
    ensures IsCmcdRecordOf(e, data, r)
  {
    var j :| 0 <= j < |data[1..]| && data[1..][j].0 == r.dimensions[3].value && (r.measureName[5..], r.measureValue) in data[1..][j].1;
    assert data[j + 1] == data[1..][j];
  }

  /** The CMCD records: as many as there are all-digit values, each built
      from one of them, and every all-digit value has its record. */
  lemma {:induction false} AllKindRecordsSpec(e: LogEntry, data: CmcdData)
    ensures var rs := AllKindRecords(e, data);
            && |rs| == DigitValueCount(data)
            && (forall r :: r in rs ==> IsCmcdRecordOf(e, data, r))
            && (forall j, p :: 0 <= j < |data| && p in data[j].1 && IsDigits(p.1) ==> CmcdRecord(e, data[j].0, p.0, p.1) in rs)
    decreases |data|
  {
    if |data| > 0 {
      AllKindRecordsSpec(e, data[1..]);
      var kind := data[0].0;
      var pairs := data[0].1;
      var head := KindRecords(e, kind, pairs);
      var rest := AllKindRecords(e, data[1..]);
      SelectsMembers(head, pairs, HasDigitValue, RecordFor(e, kind));
      IndicesCount(pairs, HasDigitValue);
      KindRecordsSound(e, data);
      forall r | r in rest
        ensures IsCmcdRecordOf(e, data, r)
      {
        CarriesTail(e, data, r);
      }
      forall j, p | 0 <= j < |data| && p in data[j].1 && IsDigits(p.1)
        ensures CmcdRecord(e, data[j].0, p.0, p.1) in head + rest
      {
        if j == 0 {
          var i :| 0 <= i < |pairs| && pairs[i] == p;
          assert RecordFor(e, kind)(pairs[i]) in head;
        } else {
          assert data[1..][j - 1] == data[j];
        }
      }
    }
  }

  /** `create_timestream_records`: the `time_taken` record first, then the CMCD records. */
  function CreateTimestreamRecords(e: LogEntry): (rs: seq<TimestreamRecord>)
    ensures |rs| >= 1 && rs[0] == TimeTakenRecord(e)
  {
    [TimeTakenRecord(e)] + AllKindRecords(e, e.cmcdData)
  }

  /** One record per all-digit CMCD value besides `time_taken`; every
      record shares the line's time in milliseconds and is a BIGINT; the
      CMCD records are exactly the all-digit pairs of the line's headers. */
  lemma CreateTimestreamRecordsSpec(e: LogEntry)
    ensures var rs := CreateTimestreamRecords(e);
            && |rs| == 1 + DigitValueCount(e.cmcdData)
            && (forall i :: 0 <= i < |rs| ==>
                  && rs[i].time == IntToString(e.timestamp)
                  && rs[i].timeUnit == "MILLISECONDS"
                  && rs[i].measureValueType == "BIGINT"
                  && IsDigits(rs[i].measureValue))
            && (forall i :: 1 <= i < |rs| ==> IsCmcdRecordOf(e, e.cmcdData, rs[i]))
            && (forall j, p :: 0 <= j < |e.cmcdData| && p in e.cmcdData[j].1 && IsDigits(p.1) ==>
                  CmcdRecord(e, e.cmcdData[j].0, p.0, p.1) in rs[1..])
  {
    var rest := AllKindRecords(e, e.cmcdData);
    AllKindRecordsSpec(e, e.cmcdData);
    var rs := CreateTimestreamRecords(e);
    assert rs[1..] == rest;
    assert forall i :: 1 <= i < |rs| ==> rs[i] in rest;
  }

  /** The `time_taken` measure is the canonical decimal form of the parsed
      value: `007` is written as `7`, and reading it back gives the value. */
  lemma TimeTakenMeasure(e: LogEntry)
    ensures DigitsValue(CreateTimestreamRecords(e)[0].measureValue) == e.timeTaken
  {
    NatToStringRoundTrip(e.timeTaken);
  }

  // ---------------------------------------------------------------------
  // lambda_handler

  /** A line contributes records only if it parsed and has CMCD data. */
  predicate Contributes(o: LineOutcome) {
    o.Parsed? && |o.entry.cmcdData| > 0
  }

  function LineRecords(o: LineOutcome): seq<TimestreamRecord> {
    if Contributes(o) then CreateTimestreamRecords(o.entry) else []
  }

  /** The records of a batch of parsed lines, in line order. */
  function BatchRecords(os: seq<LineOutcome>): seq<TimestreamRecord> {
    ConcatMap(os, LineRecords)
  }

  /** A skipped line, or a parsed line without CMCD headers, contributes
      nothing: removing it leaves the batch's records unchanged. */
  lemma NonContributingLine(a: seq<LineOutcome>, o: LineOutcome, b: seq<LineOutcome>)
    requires !Contributes(o)
    ensures BatchRecords(a + [o] + b) == BatchRecords(a + b)
  {
    ConcatMapSkip(a, o, b, LineRecords);
  }

  /** Number of all-digit CMCD values over the contributing lines. */
  function SumDigitValues(os: seq<LineOutcome>): nat
    decreases |os|
  {
    if |os| == 0 then 0
    else
      var o := os[|os| - 1];
      SumDigitValues(os[..|os| - 1]) + (if Contributes(o) then DigitValueCount(o.entry.cmcdData) else 0)
  }

  /** A batch yields one `time_taken` record per contributing line plus one
      record per all-digit CMCD value of those lines. */
  lemma {:induction false} BatchRecordsCount(os: seq<LineOutcome>)
    ensures |BatchRecords(os)| == Count(os, Contributes) + SumDigitValues(os)
    decreases |os|
  {
    if |os| > 0 {
      BatchRecordsCount(os[..|os| - 1]);
      var o := os[|os| - 1];
      if Contributes(o) {
        CreateTimestreamRecordsSpec(o.entry);
      }
    }
  }

  /** The handler's observable effect: the records passed to the single
      Timestream write (absent when there are none) and the response. */
  datatype Invocation = Invocation(written: Option<seq<TimestreamRecord>>, statusCode: int, body: string)

  predicate IsRaised(o: LineOutcome) {
    o.Raised?
  }

  /** `lambda_handler` over the decoded payloads. A line whose timestamp
      does not convert aborts the whole invocation before anything is
      written; the failure carries the position of that line. */
  function LambdaHandler(lines: seq<string>, toMillis: string -> Option<int>, unquote: string -> string): (r: Result<Invocation, nat>)
    ensures var os := seq(|lines|, i requires 0 <= i < |lines| => ParseCloudFrontLog(lines[i], toMillis, unquote));
            && (r.Failure? <==> exists i :: 0 <= i < |lines| && os[i].Raised?)
            && (r.Failure? ==> r.error < |lines| && os[r.error].Raised? && forall j :: 0 <= j < r.error ==> !os[j].Raised?)
            && (r.Success? ==> var rs := BatchRecords(os);
                  && r.value.statusCode == 200
                  && r.value.body == "Processed " + IntToString(|rs|) + " records"
                  && (r.value.written.Some? <==> |rs| > 0)
                  && (r.value.written.Some? ==> r.value.written.value == rs))
  {
    var os := seq(|lines|, i requires 0 <= i < |lines| => ParseCloudFrontLog(lines[i], toMillis, unquote));
    match FirstIndex(os, IsRaised)
    case Some(i) => Failure(i)
    case None =>
      var rs := BatchRecords(os);
      Success(Invocation(if |rs| > 0 then Some(rs) else None, 200, "Processed " + IntToString(|rs|) + " records"))
  }
}
