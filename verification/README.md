# CMCD streaming-telemetry pipeline: a Dafny model

The repository collects CMCD (Common Media Client Data, CTA-5004) beacons and exposes analysis tools over them:

- **Ingest.** A Lambda function reads CloudFront real-time log lines from Kinesis. It splits each line into tab-separated fields and parses the `CMCD-*` request headers into key/value pairs. It then flattens every all-digit CMCD value into one Timestream record, beside a `time_taken` record per line.
- **Analysis.** An MCP server queries the stored metrics through InfluxDB and turns the rows into reports: buffer events, playback errors, session timelines and the average bitrate.
- **Query and client.** A second MCP server runs raw Flux queries. A Bedrock client reshapes MCP tool descriptions and tool outputs for the Converse API.

This project models the logic of those pieces as pure Dafny functions and loop methods, and proves what they promise.

| file | module | what it models |
|---|---|---|
| `results.dfy` | `Results` | `Option` and `Result` |
| `seqs.dfy` | `Seqs` | in-order filter-and-map (`Selects`), counting, first match, concatenated images |
| `strings.dfy` | `Strings` | the Python `str` operations the code uses: `strip`, `split`, `find`, `lower`, `isdigit`, `replace`, `in` |
| `dicts.dfy` | `Dicts` | Python dictionaries as ordered association lists. `d[k] = v` overwrites in place or appends. It also holds the "build a dict in a loop" and "group into lists" patterns. |
| `cmcd_ingest.dfy` | `CmcdIngest` | `lambda_function.py` |
| `cmcd_analysis.dfy` | `CmcdAnalysis` | the loops of `analyze_buffer_events`, `identify_playback_errors` and `get_session_details`, and the value-extraction chain of `get_average_bitrate` (`mcp/cmcd_server.py`) |
| `influx_client.dfy` | `InfluxClient` | `get_influxdb_client` (identical in both servers) and `influxdb_query` |
| `tool_messages.dfy` | `ToolMessages` | `convert_tool_to_json_spec` and `convert_content_to_json` (`mcp/cmcd_client.py`) |

The models take everything outside the program's own logic as a parameter:
- the database is the outcome of a query, either the rows or the error text;
- `int(float(ts) * 1000)` is a function `toMillis` that may fail;
- percent-decoding is a function `unquote`;
- the Flux client is a function `run` from client settings to rows or an error;
- the `ValueError` that `urlsplit` raises for a URL it refuses to split is a function `splitError` from the URL text to the message, if any.

Some behaviour of the code that the model keeps as it is:
- `analyze_buffer_events` reports only records strictly below the threshold. It reports no drop events.
- A sudden drop needs a previous level strictly above 1000 ms and a current level below half of it. It is always `medium`.
- The previous level is carried from one record to the next even across sessions.
- `identify_playback_errors` has no bitrate-drop rule, although its docstring (mcp/cmcd_server.py:413-414) names sudden bitrate drops among the patterns it looks for.
- The average bitrate is the value read from the first result row. A row without a usable value gives an error message.
- Session details group samples by field name, and an empty result gives an error message.

## Model

| member | source | states |
|---|---|---|
| CmcdIngest.PairOf | lambda_function.py:66-68 | a segment yields a pair exactly when it contains `=` |
| CmcdIngest.PairOfSplit | lambda_function.py:66-68 | a segment splits at its first `=`: key = stripped text before it, value = stripped, unquoted text after it, later `=`s included |
| CmcdIngest.PairOfShape | lambda_function.py:67-68 | a parsed key contains no `=` and is already stripped; a parsed value has no surrounding quotes left |
| CmcdIngest.ParseCmcdValue | lambda_function.py:62-69 | the parsed pairs never bind a key twice |
| CmcdIngest.ParseCmcdValueLast | lambda_function.py:64-68 | a key maps to `v` exactly when the last segment binding that key binds it to `v`; a key is present exactly when some segment binds it |
| CmcdIngest.ValuelessKeysDropped | lambda_function.py:65-66 | a header value with no `=` (valueless keys such as `bs`) gives no pairs |
| CmcdIngest.PairOfRender | lambda_function.py:66-68 | `key=value` parses back to the pair, splitting at the first `=`, even when the value itself contains `=` |
| CmcdIngest.ParseRenderRoundTrip | lambda_function.py:62-69 | a comma-joined list of distinct, writable pairs (possibly empty) parses back to exactly those pairs in the same order |
| CmcdIngest.PrefixRemoved | lambda_function.py:57 | on a name `CMCD-w` with no further `CMCD-` in `w`, the removal leaves exactly `w` |
| CmcdIngest.RemovalCanJoinPrefix | lambda_function.py:57 | the removal is a single pass: `CMCCMCD-D-` becomes `CMCD-`, whose new occurrence stays |
| CmcdIngest.HeaderEntry | lambda_function.py:54-59 | a header line counts exactly when it contains `CMCD-` and a `:` |
| CmcdIngest.HeaderEntryOf | lambda_function.py:54-59 | a `CMCD-` line splits at its first `:`: the kind is the normalised text before it, the pairs are parsed from the stripped text after it |
| CmcdIngest.ExtractCmcdHeaders | lambda_function.py:51-60 | the header kinds are unique |
| CmcdIngest.ExtractCmcdHeadersLast | lambda_function.py:51-60 | a kind is present exactly when some qualifying line names it; its pairs come from the last such line |
| CmcdIngest.HeaderKindsLowerCase | lambda_function.py:57 | no header kind contains an upper-case letter |
| CmcdIngest.LogFields | lambda_function.py:34 | a stripped line always splits into at least one field |
| CmcdIngest.ParseCloudFrontLog | lambda_function.py:33-49 | no record exactly when there are fewer than 10 fields; an exception exactly when there are 10 or more and either the timestamp does not convert or the time-taken column is all digits and longer than `int`'s 4300-digit limit |
| CmcdIngest.ParseJoinedFields | lambda_function.py:34-49 | for a line built from at least ten fields, with a convertible timestamp and a time-taken column within `int`'s digit limit, each entry field comes from its own column: ip 1, status 2, uri 4, time taken 7 (0 unless all digits), edge 8, CMCD from decoded column 6 |
| CmcdIngest.LongTimeTakenRaises | lambda_function.py:46 | a time-taken column of more than 4300 digits makes `int` raise, so the line raises even with a valid timestamp |
| CmcdIngest.ShortLineSkipped | lambda_function.py:34-36 | a line built from fewer than ten fields gives no record |
| CmcdIngest.KindRecords | lambda_function.py:94-103 | a kind's records are, in pair order, the images of exactly its all-digit pairs |
| CmcdIngest.KindRecordsSound | lambda_function.py:94-103 | each record of a kind carries the `cmcd_` name, value and `cmcd_type` of one of that kind's pairs |
| CmcdIngest.AllKindRecordsSpec | lambda_function.py:93-103 | one CMCD record per all-digit value over all kinds; each comes from such a value, and every such value has its record |
| CmcdIngest.CreateTimestreamRecords | lambda_function.py:71-90 | the `time_taken` record comes first |
| CmcdIngest.CreateTimestreamRecordsSpec | lambda_function.py:71-105 | 1 + (number of all-digit values) records; all share the line's millisecond time, `MILLISECONDS`, `BIGINT` and a digit-only value; the rest are exactly the CMCD records |
| CmcdIngest.TimeTakenMeasure | lambda_function.py:88 | the `time_taken` measure reads back as the parsed number |
| CmcdIngest.NonContributingLine | lambda_function.py:21-22 | a skipped line, or one without CMCD data, adds no records wherever it sits in the batch |
| CmcdIngest.BatchRecordsCount | lambda_function.py:16-22 | the batch holds one record per contributing line plus one per all-digit CMCD value of those lines |
| CmcdIngest.LambdaHandler | lambda_function.py:13-31 | the invocation fails exactly when some line raises, and names the first such line; otherwise status 200, body `Processed N records` with N the record count, and the write happens exactly when there are records |
| CmcdAnalysis.AnalyzeBufferEvents | mcp/cmcd_server.py:380-406 | error exactly for a failed or empty result; the total is the row count; the low events are, in order, the events of exactly the rows below the threshold |
| CmcdAnalysis.LowBufferDetails | mcp/cmcd_server.py:385-396 | at most one event per row; all strictly below the threshold (so none exactly at it); every row below it is reported, an untagged one as `unknown` |
| CmcdAnalysis.IsDropHalving | mcp/cmcd_server.py:468 | the float test `current < previous * 0.5` is `2 * current < previous` over integers |
| CmcdAnalysis.ErrorsForSpec | mcp/cmcd_server.py:457-476 | per record: an underrun iff below 100 (high exactly at 0), a drop iff the previous level is above 1000 and more than twice the current one (always medium), the underrun first |
| CmcdAnalysis.ScanBufferErrors | mcp/cmcd_server.py:452-478 | the loop with its rolling previous level computes the record-by-record reference definition |
| CmcdAnalysis.BufferErrorSource | mcp/cmcd_server.py:452-478 | every reported buffer error comes from some record's rules |
| CmcdAnalysis.BufferErrorReported | mcp/cmcd_server.py:452-478 | every error a record's rules raise is reported |
| CmcdAnalysis.UnderrunsOfScan | mcp/cmcd_server.py:458-465 | an underrun is reported for a record exactly when its level is below 100, high exactly at 0 |
| CmcdAnalysis.DropsOfScan | mcp/cmcd_server.py:468-476 | a drop is reported for record i exactly when record i-1 is above 1000 and more than twice record i |
| CmcdAnalysis.FirstRecordNeverDrops | mcp/cmcd_server.py:453 | the first record can only underrun |
| CmcdAnalysis.DropSpansSessions | mcp/cmcd_server.py:453-478 | a level of one session and the next record's level of another session are compared |
| CmcdAnalysis.UnderrunBeforeDrop | mcp/cmcd_server.py:458-476 | a record that both underruns and drops reports the underrun first |
| CmcdAnalysis.NoDropFromThousand | mcp/cmcd_server.py:468 | a fall from exactly 1000 to 200 raises no error |
| CmcdAnalysis.StartupErrors | mcp/cmcd_server.py:481-493 | the startup errors are, in order, the images of exactly the records above 2000 |
| CmcdAnalysis.StartupErrorsSpec | mcp/cmcd_server.py:486-493 | one startup error per record above 2000, high exactly above 5000, and nothing else |
| CmcdAnalysis.IdentifyPlaybackErrors | mcp/cmcd_server.py:449-501 | buffer errors then startup errors, a failed or empty query adding none; the total is the list length; the startup errors are exactly the tail |
| CmcdAnalysis.ErrorsOrdered | mcp/cmcd_server.py:449-493 | in the combined list an error is a startup error exactly when it lies past the buffer errors |
| CmcdAnalysis.BufferErrorsNoStartup | mcp/cmcd_server.py:452-478 | the buffer scan raises no startup errors |
| CmcdAnalysis.GetSessionDetails | mcp/cmcd_server.py:328-350 | error exactly for a failed or empty result, with `No data found for session ID: <id>`; start and end times are the first and last rows' |
| CmcdAnalysis.SessionMetrics | mcp/cmcd_server.py:337-346 | one group per field that occurs, fields unique; each group holds, in order, the samples of exactly that field's rows; the group sizes sum to the row count |
| CmcdAnalysis.ExtractBitrate | mcp/cmcd_server.py:264-278 | a present non-None `value` wins; failure exactly when there is no such value, no `_value` raw entry and no numeric raw value outside `table`; a missing `raw_values` fails with the key's message; with a `_value` raw entry the result is that entry's value; otherwise it is the FIRST numeric raw value not under `table` |
| CmcdAnalysis.ExtractBitrateSource | mcp/cmcd_server.py:264-278 | the value found is the row's own or one of its raw values; it is None only via `_value`; a fallback value is numeric and not under `table` |
| CmcdAnalysis.AverageBitrate | mcp/cmcd_server.py:261-305 | a failed or empty result gives the no-data message; otherwise the first row's extracted value, or the extraction error behind its prefix; `raw_result` is the row's `raw_values` or empty |
| CmcdAnalysis.TableIsNotABitrate | mcp/cmcd_server.py:272-278 | a row whose only numeric raw value is `table` has no bitrate |
| InfluxClient.UrlScheme | mcp/influxdb_server.py:108-109 | for a URL `urlsplit` accepts, the reported scheme is empty or a well-formed scheme word, never upper case |
| InfluxClient.UrlSchemeOf | mcp/influxdb_server.py:108-109 | `scheme:rest`, after any leading spaces or control characters, reports the scheme lower-cased when `urlsplit` accepts it |
| InfluxClient.NoColonNoScheme | mcp/influxdb_server.py:108-109 | a URL without `:` has no scheme |
| InfluxClient.MissingUrlHasNoScheme | mcp/influxdb_server.py:108-109 | a missing URL has no scheme |
| InfluxClient.GetInfluxDbClient | mcp/influxdb_server.py:91-124 | a URL `urlsplit` refuses fails with that `ValueError` message before any other test; otherwise the scheme error exactly for a non-http(s) scheme and the token error exactly for an http(s) URL with a missing or empty token; no other failure; on success the arguments are passed through and a missing org becomes `""` |
| InfluxClient.ClientAccepted | mcp/cmcd_server.py:89-107 | a client is built exactly for a URL that `urlsplit` accepts, with an http(s) scheme, and a non-empty token |
| InfluxClient.SchemeCheckedFirst | mcp/influxdb_server.py:107-117 | an `ftp:` URL without a token reports the scheme, not the token |
| InfluxClient.UpperCaseHttpsAccepted | mcp/influxdb_server.py:107-124 | `HTTPS:` is accepted, with default timeout and empty org |
| InfluxClient.BareHostRefused | mcp/influxdb_server.py:107-111 | a host name without a scheme is refused |
| InfluxClient.InfluxDbQuery | mcp/influxdb_server.py:151-194 | never fails outright: a client error or a query error becomes an error result with its message; otherwise the rows with format `json` |
| InfluxClient.QueryReportsValidation | mcp/influxdb_server.py:151-152 | a missing token reaches the caller as the token error result |
| InfluxClient.QueryReportsMalformedUrl | mcp/influxdb_server.py:151-194 | a URL `urlsplit` refuses reaches the caller as an error result with the `ValueError` message, whatever the token, and no query runs |
| InfluxClient.QueryClientDropsVerification | mcp/influxdb_server.py:152 | as written, asking for verification yields a client that does not verify, with a 1 ms timeout |
| InfluxClient.InfluxDbQueryIntended | mcp/influxdb_server.py:151-194 | a successful result comes from running the intended client |
| InfluxClient.IntendedClientKeepsVerification | mcp/influxdb_server.py:91-124 | the intended client validates as before, verifies exactly when asked and keeps the 10000 ms timeout |
| ToolMessages.ConvertPropertiesOk | mcp/cmcd_client.py:49-56 | the properties convert exactly when every property's details are a dictionary |
| ToolMessages.ConvertPropertiesKept | mcp/cmcd_client.py:49-56 | every property name is kept, in order, each reduced to its type (default `string`) and description (default empty) |
| ToolMessages.ConvertPropertiesFirstFailure | mcp/cmcd_client.py:49-51 | a failure names the first property whose details are not a dictionary |
| ToolMessages.ConvertToolToJsonSpec | mcp/cmcd_client.py:37-68 | success exactly when the schema, its `properties` entry and every property's details are dictionaries; a non-dictionary schema or properties entry gives its own error; on success name, description and `required` are carried over, type is `object`, and property i keeps its name with type (default `string`) and description (default empty) |
| ToolMessages.ConvertToolFirstFailure | mcp/cmcd_client.py:49-51 | when the schema and its properties are dictionaries, a failure names the first property whose details are not a dictionary |
| ToolMessages.EmptyToolDefaults | mcp/cmcd_client.py:43-66 | an empty tool dictionary gives empty name and description, type `object`, no properties and an empty `required` list |
| ToolMessages.PropertiesRoundTrip | mcp/cmcd_client.py:48-56 | converting rendered properties gives them back |
| ToolMessages.ToolSpecRoundTrip | mcp/cmcd_client.py:37-68 | a tool dictionary built from a spec converts back to that spec |
| ToolMessages.ExtraKeysDropped | mcp/cmcd_client.py:50-56 | details other than type and description are dropped; a missing description becomes empty |
| ToolMessages.ConvertContentToJson | mcp/cmcd_client.py:70-91 | one user `toolResult` whose id defaults to `default_tool_id`, whose single text block is the output's text, with status `error` exactly for an object flagged `isError` |
| ToolMessages.ContentListRoundTrip | mcp/cmcd_client.py:73-74 | the item texts of a non-empty list of single-line items are recovered by splitting the result text at line breaks |
| Dicts.PutGet | lambda_function.py:68 | after `d[k] = v`, `k` maps to `v` and every other key is unchanged |
| Dicts.PutKeysEq | lambda_function.py:68 | an assigned key keeps its position if present and is appended otherwise |
| Dicts.CollectGet | lambda_function.py:59 | in a dictionary built in a loop, a later binding of a key overwrites an earlier one |
| Dicts.CollectKeys | lambda_function.py:59 | the keys of a dictionary built in a loop are exactly the keys some element binds |
| Dicts.CollectDistinct | lambda_function.py:65-68 | elements binding distinct keys rebuild exactly their bindings in order |
| Dicts.GroupByKeys | mcp/cmcd_server.py:338-342 | there is one group per key value occurring in the input |
| Dicts.GroupBySize | mcp/cmcd_server.py:338-346 | every element lands in exactly one group |
| Dicts.GroupBySelects | mcp/cmcd_server.py:338-346 | each group is the in-order image of exactly the elements with its key |
| Strings.JoinSplit | lambda_function.py:53 | joining the pieces of a split with the separator gives the string back |
| Strings.SplitJoin | lambda_function.py:34 | splitting a join of separator-free pieces gives the pieces back |
| Strings.SplitOnceOf | lambda_function.py:55 | `split(c, 1)` cuts at the first occurrence of `c`, leaving any later ones in the second part |
| Strings.StripWithShape | lambda_function.py:68 | `strip` keeps one contiguous piece of the input, cuts only stripped characters on either side and leaves none at its ends |
| Strings.NatToStringRoundTrip | lambda_function.py:88 | the decimal form of a number reads back as that number |
| Strings.StripWithIdempotent | lambda_function.py:68 | stripping twice is stripping once |
| Strings.RemoveAll | lambda_function.py:57 | `replace('CMCD-', '')` shortens the text exactly when the pattern occurs and otherwise leaves it unchanged |
| Strings.RemoveAllFirst | lambda_function.py:57 | `replace` deletes the leftmost occurrence, keeps the text before it unchanged and carries on after it |
| Strings.ContainsOccurs | lambda_function.py:54 | `'CMCD-' in header` holds exactly when the pattern occurs at some position |

## Findings

| source | as written | input that shows it | evidently intended | confidence | as-written member | corrected member |
|---|---|---|---|---|---|---|
| mcp/influxdb_server.py:152 | `get_influxdb_client(url, token, org, verify_ssl)` puts `verify_ssl` in the `timeout` slot and leaves the client's own `verify_ssl` at `False`. The same call is at mcp/cmcd_server.py:116. | `verify_ssl=True` with a valid https URL and token gives a client with a 1 ms timeout that does not verify certificates | `verify_ssl=verify_ssl` passed by name, timeout left at 10000 ms | high; not executed | InfluxClient.QueryClientDropsVerification | InfluxClient.IntendedClientKeepsVerification |

`InfluxClient.InfluxDbQuery` models the call as written. `InfluxClient.InfluxDbQueryIntended` is the same tool with the intended client.

## Left out

- The Kinesis record decoding (`base64`, UTF-8) and the `write_records` call: I/O. The model produces the batch that would be written.
- Float timestamp conversion: `int(float(x) * 1000)` is the parameter `toMillis`, whose `None` stands for the exception it raises (`ValueError` for text that is not a number or for `nan`, `OverflowError` for an infinite value such as `inf` or `1e309`).
- Percent-decoding (`urllib.parse.unquote`): the parameter `unquote`.
- Unicode: `strip` uses Python's full default whitespace set (`str.isspace`, including U+0085, U+00A0 and U+2000 to U+200A). `isdigit` and `lower` are modelled on ASCII digits and ASCII letters only.
- CmcdIngest.TimeTaken: takes only ASCII digit strings as numbers and gives 0 otherwise. Python's `isdigit` is also true for other Unicode digits. For a decimal digit such as `'٣'`, `int` parses the field at lambda_function.py:46 where the model records 0. For a character such as `'²'`, `isdigit` is true but `int` raises `ValueError`, which aborts the whole invocation where the model records 0.
- CmcdIngest.MaxStrDigits: is CPython's default limit of 4300 digits for `int` from a string (3.11 and later, and the matching security releases). An interpreter configured otherwise (`PYTHONINTMAXSTRDIGITS`, `sys.set_int_max_str_digits`), or one without the limit, raises at another length or not at all.
- CmcdIngest.KindRecords: keeps only CMCD values made of ASCII digits. A value such as `'²'` or `'٣'` passes `isdigit` at lambda_function.py:95 and gets a record in Python, which the model drops.
- CmcdIngest.HeaderKey: lower-cases ASCII letters only, where Python's `lower` also lower-cases other letters.
- CmcdAnalysis.IsDropHalving: compares `current` with exactly half of `previous`. Python first converts `previous` to a float at mcp/cmcd_server.py:468. That conversion rounds levels above 2^53: with previous 2^53+1 and current 2^52, the model reports a drop and Python does not. Above about 1.8e308 the conversion raises `OverflowError`. Buffer levels are taken to be at most 2^53 ms.
- InfluxClient.UrlScheme: follows `urlsplit` of CPython 3.11.4 and later, which strips leading C0 characters and spaces and deletes tab and line breaks; on older interpreters a URL with leading blanks has no scheme. Which URLs `urlsplit` refuses with a `ValueError` (a malformed bracketed IPv6 host; a non-ASCII host part whose NFKC normal form contains `/`, `?`, `#`, `@` or `:`, such as `https://ex℀mple.com`) is the parameter `splitError`, since NFKC normalisation is not modelled.
- The InfluxDB client library and the Flux queries themselves: the query outcome is an input. So is the per-record extraction in `get_cmcd_data` and `influxdb_query` (measurement, field, value, time, tags, raw values).
- Query strings and their session filters (`mcp/cmcd_server.py:364-376`, `420-443`): they only shape what the database returns.
- Bucket probing in `get_average_bitrate` (`mcp/cmcd_server.py:204-235`): only the value-extraction chain on the returned rows is modelled.
- Echo fields of the responses, such as `content_id`, `bucket_used`, `query_used` and `raw_result` in the error case: constants or inputs copied into the response.
- Record values are integers (milliseconds). The bitrate value keeps its Python kind (`Scalar`), since the extraction chain tests it. Record tags are modelled as the `session_id` tag alone.
- Logging, MCP tool registration and the Bedrock conversation loop (`mcp/cmcd_client.py:93-225`): wiring and remote calls.
- `cmcd/check_influxdb.py` and `cmcd/test_influxdb_connection.py`: operational scripts.
- The AWS client factory of the query server (`mcp/influxdb_server.py:1-88`): remote calls.
- Object-valued tool outputs are described by their `text`, `isError` and `str()` form. The `str()` rendering of an arbitrary object is an input.
