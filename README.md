# ltser: CSV-to-JSON pipeline and robust statistics, in Dafny

This project models the core of ltser, a small Go toolkit for long time
series of sensor data. The model covers these parts:

- **`csvjson.Reader`** (`csvjson.dfy`). A stateful converter. It consumes
  `HeadersRows` leading records and keeps only the first of them as the
  header. Without a header it names the columns `column0 … column(W-1)`
  after the first data record. It pairs header and record with `toMap`,
  which rejects a width mismatch, and encodes the map as JSON.
  - The record source is a script of outcomes (`Record(fields)` or an
    error; past its end every read reports end of input).
  - The JSON encoder is an opaque function from the map to bytes or
    failure.
  - Shared pieces live in `records.dfy`: the source outcomes, the default
    column names, `toMap` and `FirstFailure`. The decimal rendering of
    `strconv.Itoa` and the parsing of `strconv.ParseUint` live in
    `decimal.dfy`.
- **The pusher** (`pusher.dfy`): one reader task, `maxConcurrency` sender
  tasks and a coordinator that talk over a data channel and a control
  channel.
  - `read` and `send` are methods that turn what they receive into the
    messages they emit. They are proved equal to trace functions.
  - The coordinator is a `Coordinator` class with a `Receive` step, proved
    against the state machine `Next`/`Run`. Its phases are
    `Phase1 → Phase2(ended) → Completed | Aborted(line)`.
  - Lemmas connect the traces and the state machine:
    - phase 1 ends exactly at the reader's first EOF message, whose line
      becomes `totalLines`;
    - phase 2 counts sentinels and completes on exactly the
      `maxConcurrency`-th of them;
    - every abort comes from a fatal message;
    - a run with no fatal message, in any interleaving of the reader's
      and the senders' messages, ends with `totalLines` the line of the
      reader's EOF, and completes exactly when `maxConcurrency` sentinels
      have arrived after that EOF;
    - in particular the reader's trace followed by the traces of all
      senders, none failing, completes with the reader's count.
- **The sequential pusher** of `matschmazia/pusher/main.go`
  (`legacy_pusher.dfy`). It applies the same header, default-column and
  `toMap` rules inline, numbers the skipped rows by their data index, and
  stops with status 0 at end of input or fatally on any other read error.
- **The sensor-data dump** of `matschmazia/main.go` (`eurac.dfy`). It
  skips `headerRows` records and prints at most `rowsToRead` of the
  records that follow.
- **`NotZeroUint32` and `NotZeroUint32Flag`** (`extensions.dfy`).
  - `Set` accepts exactly the decimal strings denoting a number in
    [1, 2^32-1]; on an error the stored number is left as it was.
  - `Value` is never below 1.
  - `String` renders the raw stored number.
- **`TimeSeries`** (`timeseries.dfy`). `AddWithTime` and `Add` append to the
  series; `Values` and `FloatValues` project out the values.
- **stats** (`stats.dfy`). `copySlice`, `sortedCopy` (an in-place sort of a
  fresh buffer), `Median`, `AbsoluteDeviation`, `MAD`, `MMAD` and the
  `Hampel` filter.
  - The filter is proved against a functional definition: `Filtered` is the
    series with every outlier replaced by its window median, and
    `Outliers` lists the outlier positions.
  - Each window is taken from the original series.
  - Positions outside `[wSize, n-wSize)` are left as they are.
  - The indexes are strictly increasing and are exactly the outliers.

## Model

| member | source | states |
|---|---|---|
| Decimal.Itoa | csvjson/reader.go:63 | `strconv.Itoa`: a non-empty string of decimal digits with no leading zero; "0" for 0 |
| Decimal.ItoaRoundTrip | csvjson/reader.go:63 | reading the rendering of n back gives n |
| Decimal.ItoaInjective | csvjson/reader.go:63 | distinct numbers render differently, so default column names differ |
| Decimal.ParseItoa | extensions/notzerouint.go:21 | `ParseUint(s, 10, 32)` reads back the rendering of any number within range |
| Records.DefaultColumnsDistinct | csvjson/reader.go:61-65 | the synthesised header has W names, pairwise distinct |
| Records.ZipKeys | csvjson/reader.go:97-101 | the map built by `toMap` has exactly the header's names as keys |
| Records.ZipLastWins | csvjson/reader.go:99-101 | a name is bound to the value at its last occurrence in the header |
| Records.ZipDefaultColumns | csvjson/reader.go:61-66 | with the synthesised header every field is kept under its column name |
| Records.ToMap | csvjson/reader.go:92-104 | `toMap` fails iff the widths differ; on success the keys are the header's names and each name with no later duplicate maps to its value |
| CsvJson.Reader.constructor | csvjson/reader.go:29-34 | a new Reader has one header row, no header and nothing consumed |
| CsvJson.Reader.Read | csvjson/reader.go:38-76 | the new fields and the result are those of `ReadSpec` on the old fields: the header loop, the read of one data record, header synthesis, the shape check and the encoding |
| CsvJson.HeaderPhaseConsumes | csvjson/reader.go:41-51 | the header loop consumes up to its first failing read inclusive; a failed read uses up its slot and stops `Read` with that error; only the first consumed record is appended to the header |
| CsvJson.ReadConsumes | csvjson/reader.go:41-58 | every read of the source increments `rowsCount` by one, failed reads included; a source error, end of input included, is returned unchanged |
| CsvJson.ReadKeepsHeaders | csvjson/reader.go:48-65 | once a record has been consumed the header never changes again |
| CsvJson.FirstReadCapturesHeader | csvjson/reader.go:41-51 | from a fresh reader with header rows, the header is the first record (empty if that read failed) |
| CsvJson.SynthesisedHeader | csvjson/reader.go:61-65 | without header rows, the first call names the columns after the first record's width, so that record never fails the shape check; a failed first read leaves the header empty |
| CsvJson.ShapeMismatchIff | csvjson/reader.go:41-69 | in every call, the first one whose header phase runs included, the data record is skipped as malformed iff the header phase succeeded, the data read delivered a record, and its width differs from the header the call leaves; the tag is the 1-based count of consumed records, header rows included |
| CsvJson.ConvertKeepsFields | csvjson/reader.go:66-75 | a well-shaped record under a header of distinct names is encoded with each field under its column name |
| CsvJson.ThreeRowExample | csvjson/reader.go:38-76 | a header and three rows: the short row is skipped as record #3, the others are encoded, then end of input |
| Extensions.ParseNotZero | extensions/notzerouint.go:21-27 | accepts exactly the decimal strings with value in [1, 4294967295]; 0 gives the "minor than 1" error; a syntax or range failure gives the parse error |
| Extensions.Effective | extensions/notzerouint.go:33-38 | `Value()` is at least 1, is the stored number when that is at least 1, and is 1 for 0 |
| Extensions.Render | extensions/notzerouint.go:15-17 | `String()` is a decimal rendering that parses back to the stored number, "0" when it is 0 |
| Extensions.SetRendered | extensions/notzerouint.go:15-29 | setting a flag to the rendering of a number of at least 1 stores that number |
| Extensions.AcceptedIsEffective | extensions/notzerouint.go:25-36 | after an accepted `Set`, `Value()` reports the parsed number |
| Extensions.NotZeroUint32.constructor | extensions/notzerouint.go:10-12 | the zero value stores 0, `Value()` is 1 and `String()` is "0" |
| Extensions.NotZeroUint32.Set | extensions/notzerouint.go:20-30 | stores the parsed number and `Value()` becomes it; on an error the stored number is unchanged |
| Extensions.NotZeroUint32.Value | extensions/notzerouint.go:33-38 | the stored number floored at the default 1 |
| Extensions.NotZeroUint32.String | extensions/notzerouint.go:15-17 | renders the raw stored number, "0" when unset |
| Extensions.NotZeroUint32Flag.constructor | extensions/notzerouintflag.go:10-12 | the zero value stores 0, `Value()` is 1 and `String()` is "0" |
| Extensions.NotZeroUint32Flag.Set | extensions/notzerouintflag.go:20-30 | stores the parsed number and `Value()` becomes it; on an error the stored number is unchanged |
| Extensions.NotZeroUint32Flag.Value | extensions/notzerouintflag.go:33-38 | the stored number floored at the default 1 |
| Extensions.NotZeroUint32Flag.String | extensions/notzerouintflag.go:15-17 | renders the raw stored number, "0" when unset |
| Timeseries.ProjectionAppend | timeseries/timeseries.go:17-35 | appending an item appends its value to the values of the series |
| Timeseries.TimeSeries.constructor | timeseries/timeseries.go:14 | a new series is empty |
| Timeseries.TimeSeries.AddWithTime | timeseries/timeseries.go:17-19 | the length grows by one, the item is last and all earlier items are unchanged |
| Timeseries.TimeSeries.Add | timeseries/timeseries.go:22-25 | `AddWithTime` of the value at the time the clock supplies |
| Timeseries.TimeSeries.Values | timeseries/timeseries.go:29-35 | same length as the series, `res[i]` is the value of item i; the series is not changed |
| Timeseries.TimeSeries.FloatValues | timeseries/timeseries.go:39-45 | same length as the series, item i holds the float `res[i]`; the series is not changed |
| Stats.SortSpecSorted | stats/median.go:41-45 | the reference sort is sorted and a permutation of its input |
| Stats.SortedUnique | stats/median.go:41-45 | two sorted permutations of the same numbers are equal, so the sorted copy is unique |
| Stats.CopySlice | stats/median.go:34-38 | a fresh buffer with the input's elements |
| Stats.SortInPlace | stats/median.go:43 | `sort.Float64s`: the buffer ends up sorted and a permutation of what it held |
| Stats.SortedCopy | stats/median.go:41-45 | a fresh buffer holding the sorted permutation of the input |
| Stats.Median | stats/median.go:10-31 | an `ErrEmptyInput` error iff there are no numbers |
| Stats.MedianOfSorted | stats/median.go:19-28 | for any sorted arrangement c of the input: c[l/2] for odd length l, the mean of c[l/2-1] and c[l/2] for even l |
| Stats.MedianWithin | stats/median.go:10-31 | the median lies between any lower and upper bound of the input |
| Stats.MedianOddVector | stats/median_test.go:14 | the median of 5,3,4,2,1 is 3 |
| Stats.MedianEvenVector | stats/median_test.go:15 | the median of 6,3,2,4,5,1 is 3.5 |
| Stats.MedianShortVectors | stats/median_test.go:16-28 | the median of 1 is 1, of 1,3 it is 2, and of no numbers it is an error |
| Stats.Deviations | stats/deviations.go:7-13 | same length as the series, every element non-negative |
| Stats.AbsoluteDeviation | stats/deviations.go:7-13 | a fresh slice of the same length with `s[i] = abs(series[i] - x)`, each non-negative |
| Stats.MAD | stats/MAD.go:21-27 | fails iff the series is empty; on success it is non-negative |
| Stats.MMAD | stats/MAD.go:7-17 | fails iff the series is empty; on success the median is `Median(series)` and the mad is `MAD(series, median)`, non-negative |
| Stats.Window | stats/hampel.go:23 | the window of position i is the 2·wSize elements `series[i-wSize .. i+wSize)` of the original series |
| Stats.ScaledIsProduct | stats/hampel.go:32 | the threshold `float64(nSigmas)*S0` as modelled is the product nSigmas·S0 |
| Stats.Filtered | stats/hampel.go:20-36 | the filtered series has the input's length, and positions outside `[wSize, n-wSize)` keep their input value |
| Stats.OutliersFacts | stats/hampel.go:22-35 | the reported indexes are strictly increasing, lie in `[wSize, n-wSize)`, and are exactly the outliers |
| Stats.OutlierTestAt | stats/hampel.go:23-32 | at an examined position the outlier test is `abs(series[i] - median) > nSigmas·1.4826·mad` of that window's MMAD |
| Stats.Examine | stats/hampel.go:23-35 | one window: fails iff the window size is 0; otherwise returns the window median exactly when the position is an outlier |
| Stats.Step | stats/hampel.go:23-35 | one iteration: replaces position i by its window median and records it exactly when it is an outlier; on failure the buffer is untouched |
| Stats.Scan | stats/hampel.go:22-36 | the loop fails only at the first window when wSize is 0 and the series is not empty; otherwise it ends past the last examined position with the outliers replaced and recorded |
| Stats.FilterEnds | stats/hampel.go:22-38 | where the loop stops, its buffer is the filtered series and its indexes are the outliers |
| Stats.Hampel | stats/hampel.go:14-39 | an `ErrEmptyInput` error iff wSize is 0 and the series is not empty; otherwise the filtered series and the outlier positions |
| Stats.TukeyMedianFilter | stats/hampel.go:13 | with nSigmas = 0 every examined position takes its window median |
| Stats.ShortSeriesUnchanged | stats/hampel.go:22 | a series of at most 2·wSize elements comes back unchanged with no indexes |
| Eurac.PrintLine | matschmazia/main.go:74 | `fmt.Println` of a record: the fields in brackets, then a newline |
| Eurac.DumpRun | matschmazia/main.go:60-76 | the printed lines are the records after the first `headerRows`, in input order, up to the first failing read within `rowsToRead + headerRows` reads; at most `rowsToRead` of them; fatal iff the first failing read is a CSV error |
| Eurac.FatalAtFirstFailure | matschmazia/main.go:61-68 | the first failing read within the limit is a CSV error iff some read is, after only records |
| Eurac.DefaultDump | matschmazia/main.go:13-17 | with the defaults (2 header rows, no row limit) every record after the first two is printed in order up to the first failing read, which exists; fatal iff that read is a CSV error |
| Eurac.Dump | matschmazia/main.go:60-76 | the loop of `main` prints the lines and ends as `DumpRun` says |
| LegacyPusher.LegacyRun | matschmazia/pusher/main.go:50-89 | the run ends fatally iff a read within the limit is a CSV error after only records |
| LegacyPusher.ReadHeaders | matschmazia/pusher/main.go:50-57 | the header loop fails at the first failing read with its error; otherwise the header is the first header row |
| LegacyPusher.DataRow | matschmazia/pusher/main.go:63-85 | data row 0 under an empty header synthesises `column0 …`; the row gives its JSON or its skip with its data index |
| LegacyPusher.NextRow | matschmazia/pusher/main.go:60-86 | one data row: its read fails with that read's error, or the header and events grow by that row |
| LegacyPusher.Push | matschmazia/pusher/main.go:47-89 | `main` after opening the file produces the events and outcome of `LegacyRun` |
| LegacyPusher.StopsInHeaders | matschmazia/pusher/main.go:52-57 | a read error among the header rows ends the run before any data row, with that error's outcome |
| LegacyPusher.StopsAt | matschmazia/pusher/main.go:60-61 | the run ends at data row n when its read fails (EOF finishes, other errors are fatal) or n reaches the limit |
| LegacyPusher.DataEventsCount | matschmazia/pusher/main.go:60-86 | each data row gives at most one event, exactly one when printing to standard output |
| LegacyPusher.DataEventsRow | matschmazia/pusher/main.go:60-86 | printing to standard output, event k is the event of data row k |
| LegacyPusher.TargetEventsAreSkips | matschmazia/pusher/main.go:60-86 | posting to a target URL, the events are exactly the skips of the standard-output run, in row order |
| LegacyPusher.RowSkips | matschmazia/pusher/main.go:69-84 | posting to a target URL, a data row yields only its skip, if any |
| LegacyPusher.StdoutEvent | matschmazia/pusher/main.go:69-83 | the single event of one data row when printing to standard output |
| LegacyPusher.StdoutEventCases | matschmazia/pusher/main.go:69-83 | a row is skipped for its size iff its width differs from the header's, skipped for encoding iff the encoder fails, and otherwise printed as the encoder's output |
| LegacyPusher.RowLimit | matschmazia/pusher/main.go:60 | with `rowsToRead >= 0` at most that many events |
| LegacyPusher.NoHeaderFirstRowConverts | matschmazia/pusher/main.go:63-67 | without header rows the first row is keyed by the default names and printed |
| Pusher.ReadsFrom | pusher/main.go:142-146 | the reader stops at the row limit or at the first EOF; no read before that is EOF |
| Pusher.ReadTask | pusher/main.go:140-154 | `read` emits the data and control messages of `ReaderTrace` |
| Pusher.ReaderDataLines | pusher/main.go:141-149 | data-message lines are strictly increasing, each below the number of reads, each carrying the bytes of its read |
| Pusher.ReaderDataComplete | pusher/main.go:143-149 | every read that returned no error has its data message |
| Pusher.ReaderControlShape | pusher/main.go:141-153 | one non-fatal control message per read that was not EOF, with its line and error; at most `rowsToRead` reads with a limit; then the EOF message whose line is the number of those reads |
| Pusher.SendTask | pusher/main.go:156-171 | `send` emits one report per message taken and then the sentinel |
| Pusher.SenderTraceShape | pusher/main.go:156-171 | each report has the message's line and is fatal iff the sink failed; exactly one sentinel, last |
| Pusher.LogMsg | pusher/main.go:179-191 | a nil error prints progress, never aborts; a fatal error aborts; any other error is reported |
| Pusher.Next | pusher/main.go:110-131 | one coordinator step: nothing changes once terminal; only the reader's EOF in phase 1 sets `totalLines`; an abort comes from a fatal message; the reader's EOF in phase 1 and a sentinel in phase 2 are counted and not logged, and every other message in a live phase is logged as `logMsg` does |
| Pusher.RunTerminal | pusher/main.go:115-137 | nothing changes after completion or abort |
| Pusher.RunPhases | pusher/main.go:110-131 | phase 1 lasts until the reader's first EOF message, whose line becomes `totalLines`; phase 2 counts the sentinels since; completion comes with the `workers`-th sentinel after it |
| Pusher.RunAborts | pusher/main.go:185-187 | an abort always comes from a message with an error and the fatal flag, with its line |
| Pusher.Phase1Quiet | pusher/main.go:110-119 | messages that are neither the reader's EOF nor fatal keep phase 1 and `totalLines`, and each is logged, in order |
| Pusher.Phase2Quiet | pusher/main.go:124-131 | messages that are neither sentinels nor fatal keep phase 2 |
| Pusher.OneSenderEnds | pusher/main.go:124-131 | a sender's whole trace with no failure adds one ended sender, completing on the last |
| Pusher.SendersDrain | pusher/main.go:124-131 | in phase 2, the traces of the remaining senders with no failure complete the run |
| Pusher.PipelineCompletes | pusher/main.go:105-137 | the reader's trace followed by the traces of all senders with no failure completes, with `totalLines` the reader's count |
| Pusher.Phase2Counts | pusher/main.go:124-131 | in phase 2, messages with no fatal one and fewer sentinels than the senders still running stay in phase 2, counting each sentinel, and keep `totalLines` |
| Pusher.Phase2Logs | pusher/main.go:124-131 | in phase 2, with no fatal message and fewer sentinels than the senders still running, the log grows by `logMsg` of exactly the messages that are not sentinels, in order |
| Pusher.Phase2Completes | pusher/main.go:124-131 | in phase 2, messages with no fatal one carrying the sentinels still missing complete the run, in any order, and keep `totalLines` |
| Pusher.AfterReaderEOF | pusher/main.go:110-119 | up to the reader's first EOF with no fatal message before it, every earlier message is logged in order and phase 2 begins with no sentinel counted and `totalLines` the EOF's line |
| Pusher.RunCompletes | pusher/main.go:110-131 | any run with no fatal message whose first reader EOF is followed by other messages ends with `totalLines` the EOF's line, completed iff at least `maxConcurrency` sentinels follow the EOF, else in phase 2 counting them |
| Pusher.Coordinator.constructor | pusher/main.go:106-108 | `maxConcurrency.Value()` senders, at least 1; phase 1 with nothing logged |
| Pusher.Coordinator.Receive | pusher/main.go:110-131 | one iteration of the control loop of the current phase is `Next` |
| Pusher.Coordinator.LogOne | pusher/main.go:179-191 | `logMsg` appends its action, and a fatal message aborts at its line |
| Pusher.Coordinator.Drive | pusher/main.go:110-135 | consuming messages in order until terminal gives `Run` of all of them |

## Left out

- Goroutines, channel buffering, blocking and backpressure in
  `pusher/main.go`. The reader and each sender are sequential traces, and
  the coordinator consumes any interleaving of them.
- `encoding/csv` parsing and `encoding/json` marshalling are foreign code.
  Records are given sequences of strings, and the encoder is an opaque
  function that may fail. The scripted source may yield records of any
  width, which is more than `csv.Reader` produces: without `FieldsPerRecord`
  set, it reports a record whose width differs from the first one's as a
  parse error, so through it a short row arrives as a CSV error and not as
  a skipped malformed row. The model covers both.
- `float64` is exact real arithmetic. IEEE-754 rounding, NaN results and
  the NaN ordering of `sort.Float64s` are not modelled.
- `ParseUint`'s syntax and range errors are one `ParseFailed` error kind,
  and the error texts are not modelled.
- Timeseries.TimeSeries.Add: takes the current time as a parameter instead
  of reading the clock. A value's dynamic type is only "float64 or other".
- InfluxDB stores, HTTP and standard-output sinks, the ingestor, the
  visualizer, and the model declarations are not modelled. `Send` is an
  abstract delivered/rejected outcome.
- Process exits are outcomes of the model:
  - `os.Exit(1)` in `logMsg` of `pusher/main.go` is the `Aborted` phase;
  - `log.Fatalf` on a read error is the `Fatal` outcome of the sequential
    pusher and of the dump;
  - `os.Exit(0)` after "Finished!" at end of input is the `Finished`
    outcome of the sequential pusher.
- Standard-error output is modelled in part:
  - the coordinator's `logMsg` is the `LogAction` it appends (`r`/`s`
    progress, a reported error or an abort, with the line);
  - the sequential pusher's "Skipped malformed row #i" messages are its
    `Skipped` events, with the row index and the cause;
  - the JSON documents printed to standard output are its `Printed`
    events.

  Not modelled: the wording of these messages and of the error values,
  the "Finished!" message, `trace`'s enter and exit lines, flag
  definitions in `init`, opening the file, and `fmt` formatting beyond
  `Println` of a record.
- Stats.Hampel: requires `wSize >= 0`. With a negative window size the
  source's slice expression panics.
- Timeseries.TimeSeries.FloatValues: requires every value to be a float64.
  Otherwise the source's type assertion panics.
- Stats.SortInPlace: an insertion sort. `sort.Float64s` uses another
  algorithm, but both give the same sorted permutation.
- `pusher/main.go` sets `IndentFormat` and `Indent` on the reader
  (lines 95-99). The `csvjson.Reader` of this revision has no such fields
  and always indents. The reader is modelled as it is.
- In `pusher/main.go`, a reader error other than end of input is not
  fatal: its control message has `isFatal` false, and the reader carries
  on.
- The `readFrom` helper of `csvjson/reader.go` is unused and not modelled.
