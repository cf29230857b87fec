/**
  The first, sequential pusher (matschmazia/pusher/main.go): it reads the
  header rows, then converts each data row to an indented flat JSON object
  and prints it, skipping malformed rows. End of input ends the process
  successfully, any other read error ends it with a fatal error.
 */
module LegacyPusher {
  import opened Wrappers
  import Records
  import CsvJson

  /** What the program writes: a JSON object on standard output, or a "Skipped malformed row" log line. */
  datatype Event = Printed(json: CsvJson.Bytes) | Skipped(row: nat, cause: CsvJson.MalformedCause)

  /** How the process ends: "Finished!" with status 0, or `log.Fatalf` with the read error. */
  datatype Outcome = Finished | Fatal(msg: string)

  function OutcomeOf(e: Records.SourceError): Outcome {
    match e
    case EOF => Finished
    case CsvError(msg) => Fatal(msg)
  }

  /**
    A bound on the number of records read: the header rows plus the row
    limit, or, without a limit, one read past the last record (which reports
    end of input).
   */
  function ReadLimit(src: seq<Records.SourceOutcome>, headersRows: nat, rowsToRead: int): nat {
    if rowsToRead >= 0 then headersRows + rowsToRead
    else (if headersRows > |src| then headersRows else |src|) + 1
  }

  /**
    The header used for the data rows: the first header row, or, when there
    is none or it is empty, the default names `column0`, `column1`, … for the
    width of the first data row.
   */
  function DataHeaders(src: seq<Records.SourceOutcome>, headersRows: nat): seq<string> {
    var h := FirstHeader(src, headersRows);
    if |h| == 0 then Records.DefaultColumns(|Records.FieldsAt(src, headersRows)|) else h
  }

  /** The fields of the first header row, if there is one. */
  function FirstHeader(src: seq<Records.SourceOutcome>, headersRows: nat): seq<string> {
    if headersRows >= 1 then Records.FieldsAt(src, 0) else []
  }

  /** What data row `row` produces: its JSON when printing to standard output, or a skip. */
  function RowEvents(encode: CsvJson.Encoder, toStdout: bool, headers: seq<string>, fields: seq<string>, row: nat): seq<Event> {
    match CsvJson.Convert(encode, headers, fields, row)
    case Json(b) => if toStdout then [Printed(b)] else []
    case Failed(Malformed(_, cause)) => [Skipped(row, cause)]
    case Failed(Source(_)) => []
  }

  /** The events of the first n data rows. */
  function DataEvents(src: seq<Records.SourceOutcome>, headersRows: nat, headers: seq<string>,
                      encode: CsvJson.Encoder, toStdout: bool, n: nat): seq<Event> {
    if n == 0 then []
    else DataEvents(src, headersRows, headers, encode, toStdout, n - 1)
         + RowEvents(encode, toStdout, headers, Records.FieldsAt(src, headersRows + n - 1), n - 1)
  }

  /**
    The whole run: reading stops at the first failing read within the
    limit; the rows read after the header rows are the data rows.
   */
  function LegacyRun(src: seq<Records.SourceOutcome>, headersRows: nat, rowsToRead: int,
                     toStdout: bool, encode: CsvJson.Encoder): (r: (seq<Event>, Outcome))
    ensures r.1.Fatal? <==>
      exists j :: 0 <= j < ReadLimit(src, headersRows, rowsToRead)
                  && Records.At(src, j).Error? && Records.At(src, j).err.CsvError?
                  && (forall i :: 0 <= i < j ==> Records.At(src, i).Record?)
  {
    var hi := ReadLimit(src, headersRows, rowsToRead);
    var stop := Records.FirstFailure(src, 0, hi);
    var rows := if stop > headersRows then stop - headersRows else 0;
    var outcome := if stop < hi then OutcomeOf(Records.At(src, stop).err) else Finished;
    (DataEvents(src, headersRows, DataHeaders(src, headersRows), encode, toStdout, rows), outcome)
  }

  /** The header loop of `main`: reads `headersRows` records and keeps the first; `readFrom` fails on a read error. */
  method ReadHeaders(src: seq<Records.SourceOutcome>, headersRows: nat)
    returns (headers: seq<string>, failed: Option<Records.SourceError>)
    ensures var f := Records.FirstFailure(src, 0, headersRows);
      && (failed.None? <==> f == headersRows)
      && (failed.None? ==> headers == FirstHeader(src, headersRows))
      && (failed.Some? ==> failed.value == Records.At(src, f).err)
  {
    headers := [];
    var i: nat := 0;
    while i < headersRows
      invariant i <= headersRows
      invariant forall j :: 0 <= j < i ==> Records.At(src, j).Record?
      invariant headers == FirstHeader(src, i)
    {
      match Records.At(src, i)
      case Error(e) =>
        assert Records.FirstFailure(src, 0, headersRows) == i;
        return headers, Some(e);
      case Record(record) =>
        if i == 0 {
          headers := headers + record;
        }
      i := i + 1;
    }
    return headers, None;
  }

  /** One iteration of the data loop of `main`, after its `readFrom` returned `record`. */
  method DataRow(headers: seq<string>, record: seq<string>, n: nat, toStdout: bool, encode: CsvJson.Encoder)
    returns (headers': seq<string>, ev: seq<Event>)
    ensures headers' == if n == 0 && |headers| == 0 then Records.DefaultColumns(|record|) else headers
    ensures ev == RowEvents(encode, toStdout, headers', record, n)
  {
    headers' := headers;
    if n == 0 && |headers| == 0 {
      // Headers are missing: generate default column names.
      for k := 0 to |record|
        invariant headers' == Records.DefaultColumns(k)
      {
        assert Records.DefaultColumns(k + 1) == Records.DefaultColumns(k) + [Records.ColumnName(k)];
        headers' := headers' + [Records.ColumnName(k)];
      }
    }
    var m := Records.ToMap(headers', record);
    if m.None? {
      ev := [Skipped(n, CsvJson.SizeMismatch)];
    } else {
      var json := encode(m.value);
      if json.None? {
        ev := [Skipped(n, CsvJson.EncodeFailure)];
      } else if toStdout {
        ev := [Printed(json.value)];
      } else {
        ev := [];
      }
    }
  }

  /** `main` after the flags are parsed and the file is opened; `toStdout` is an empty target URL. */
  method Push(src: seq<Records.SourceOutcome>, headersRows: nat, rowsToRead: int,
              toStdout: bool, encode: CsvJson.Encoder) returns (out: seq<Event>, outcome: Outcome)
    ensures (out, outcome) == LegacyRun(src, headersRows, rowsToRead, toStdout, encode)
  {
    var headers, failed := ReadHeaders(src, headersRows);
    out := [];
    if failed.Some? {
      outcome := OutcomeOf(failed.value);
      StopsInHeaders(src, headersRows, rowsToRead, toStdout, encode);
      return;
    }
    var n: nat := 0;
    while rowsToRead < 0 || n < rowsToRead
      invariant forall j :: 0 <= j < headersRows + n ==> Records.At(src, j).Record?
      invariant n == 0 ==> headers == FirstHeader(src, headersRows)
      invariant n >= 1 ==> headers == DataHeaders(src, headersRows)
      invariant rowsToRead >= 0 ==> n <= rowsToRead
      invariant out == DataEvents(src, headersRows, DataHeaders(src, headersRows), encode, toStdout, n)
      decreases |src| + 1 - (headersRows + n)
    {
      var headers', out', err := NextRow(src, headersRows, n, headers, out, toStdout, encode);
      if err.Some? {
        outcome := OutcomeOf(err.value);
        StopsAt(src, headersRows, rowsToRead, toStdout, encode, n);
        return;
      }
      headers, out := headers', out';
      n := n + 1;
    }
    outcome := Finished;
    StopsAt(src, headersRows, rowsToRead, toStdout, encode, n);
  }

  /** Data row n of the data loop of `main`: its `readFrom`, then `DataRow` on the record read. */
  method NextRow(src: seq<Records.SourceOutcome>, headersRows: nat, n: nat, headers: seq<string>, out: seq<Event>,
                 toStdout: bool, encode: CsvJson.Encoder)
    returns (headers': seq<string>, out': seq<Event>, err: Option<Records.SourceError>)
    requires n == 0 ==> headers == FirstHeader(src, headersRows)
    requires n >= 1 ==> headers == DataHeaders(src, headersRows)
    requires out == DataEvents(src, headersRows, DataHeaders(src, headersRows), encode, toStdout, n)
    ensures err.None? <==> Records.At(src, headersRows + n).Record?
    ensures err.Some? ==> err.value == Records.At(src, headersRows + n).err
    ensures err.None? ==> headers' == DataHeaders(src, headersRows)
                          && out' == DataEvents(src, headersRows, DataHeaders(src, headersRows), encode, toStdout, n + 1)
  {
    match Records.At(src, headersRows + n)
    case Error(e) =>
      return headers, out, Some(e);
    case Record(record) =>
      var ev;
      headers', ev := DataRow(headers, record, n, toStdout, encode);
      out' := out + ev;
      err := None;
  }

  /** A read error among the header rows ends the run before any data row. */
  lemma StopsInHeaders(src: seq<Records.SourceOutcome>, headersRows: nat, rowsToRead: int,
                       toStdout: bool, encode: CsvJson.Encoder)
    requires Records.FirstFailure(src, 0, headersRows) < headersRows
    ensures var f := Records.FirstFailure(src, 0, headersRows);
      LegacyRun(src, headersRows, rowsToRead, toStdout, encode) == ([], OutcomeOf(Records.At(src, f).err))
  {
    var hi := ReadLimit(src, headersRows, rowsToRead);
    assert Records.FirstFailure(src, 0, hi) == Records.FirstFailure(src, 0, headersRows);
  }

  /** The run ends at data row n when that read fails or n reaches the limit. */
  lemma StopsAt(src: seq<Records.SourceOutcome>, headersRows: nat, rowsToRead: int,
                toStdout: bool, encode: CsvJson.Encoder, n: nat)
    requires forall j :: 0 <= j < headersRows + n ==> Records.At(src, j).Record?
    requires rowsToRead >= 0 ==> n <= rowsToRead
    requires Records.At(src, headersRows + n).Error? || (rowsToRead >= 0 && n == rowsToRead)
    ensures LegacyRun(src, headersRows, rowsToRead, toStdout, encode)
            == (DataEvents(src, headersRows, DataHeaders(src, headersRows), encode, toStdout, n),
                if rowsToRead >= 0 && n == rowsToRead then Finished
                else OutcomeOf(Records.At(src, headersRows + n).err))
  {
    var hi := ReadLimit(src, headersRows, rowsToRead);
    if rowsToRead >= 0 && n == rowsToRead {
      assert Records.FirstFailure(src, 0, hi) == hi;
    } else {
      assert Records.FirstFailure(src, 0, hi) == headersRows + n;
    }
  }

  /**
    Every data row gives at most one event, exactly one when printing to
    standard output, and with the row limit no more than that many.
   */
  lemma {:induction false} DataEventsCount(src: seq<Records.SourceOutcome>, headersRows: nat, headers: seq<string>,
                                           encode: CsvJson.Encoder, toStdout: bool, n: nat)
    ensures |DataEvents(src, headersRows, headers, encode, toStdout, n)| <= n
    ensures toStdout ==> |DataEvents(src, headersRows, headers, encode, toStdout, n)| == n
  {
    if n > 0 {
      DataEventsCount(src, headersRows, headers, encode, toStdout, n - 1);
    }
  }

  /** Printing to standard output, event k is the one event of data row k. */
  lemma {:induction false} DataEventsRow(src: seq<Records.SourceOutcome>, headersRows: nat, headers: seq<string>,
                                         encode: CsvJson.Encoder, n: nat, k: nat)
    requires k < n
    ensures |DataEvents(src, headersRows, headers, encode, true, n)| == n
    ensures DataEvents(src, headersRows, headers, encode, true, n)[k]
            == StdoutEvent(encode, headers, Records.FieldsAt(src, headersRows + k), k)
  {
    DataEventsCount(src, headersRows, headers, encode, true, n);
    DataEventsCount(src, headersRows, headers, encode, true, n - 1);
    if k < n - 1 {
      DataEventsRow(src, headersRows, headers, encode, n - 1, k);
    }
  }

  /** The skip events among `evs`, in order. */
  function Skips(evs: seq<Event>): (r: seq<Event>)
    ensures |r| <= |evs|
    ensures forall i :: 0 <= i < |r| ==> r[i].Skipped?
  {
    if |evs| == 0 then []
    else Skips(evs[..|evs| - 1]) + (if evs[|evs| - 1].Skipped? then [evs[|evs| - 1]] else [])
  }

  lemma {:induction false} SkipsAppend(a: seq<Event>, b: seq<Event>)
    ensures Skips(a + b) == Skips(a) + Skips(b)
    decreases |b|
  {
    if |b| == 0 {
      assert a + b == a;
    } else {
      assert (a + b)[..|a + b| - 1] == a + b[..|b| - 1];
      SkipsAppend(a, b[..|b| - 1]);
    }
  }

  /** Posting to the target URL, a data row gives only its skip, if any. */
  lemma RowSkips(encode: CsvJson.Encoder, headers: seq<string>, fields: seq<string>, row: nat)
    ensures RowEvents(encode, false, headers, fields, row) == Skips(RowEvents(encode, true, headers, fields, row))
  {
    var e := RowEvents(encode, true, headers, fields, row);
    if |e| == 1 {
      assert e[..0] == [];
    }
  }

  /** One data row more keeps the target-URL events the skips of the standard-output ones. */
  lemma TargetEventsStep(src: seq<Records.SourceOutcome>, headersRows: nat, headers: seq<string>,
                         encode: CsvJson.Encoder, m: nat)
    requires DataEvents(src, headersRows, headers, encode, false, m)
             == Skips(DataEvents(src, headersRows, headers, encode, true, m))
    ensures DataEvents(src, headersRows, headers, encode, false, m + 1)
            == Skips(DataEvents(src, headersRows, headers, encode, true, m + 1))
  {
    var fields := Records.FieldsAt(src, headersRows + m);
    RowSkips(encode, headers, fields, m);
    SkipsAppend(DataEvents(src, headersRows, headers, encode, true, m), RowEvents(encode, true, headers, fields, m));
  }

  /**
    Posting to the target URL, the only events are the skips, the same ones
    and in the same order as when printing to standard output.
   */
  lemma {:induction false} TargetEventsAreSkips(src: seq<Records.SourceOutcome>, headersRows: nat, headers: seq<string>,
                                                encode: CsvJson.Encoder, n: nat)
    ensures DataEvents(src, headersRows, headers, encode, false, n)
            == Skips(DataEvents(src, headersRows, headers, encode, true, n))
  {
    if n > 0 {
      var m: nat := n - 1;
      TargetEventsAreSkips(src, headersRows, headers, encode, m);
      TargetEventsStep(src, headersRows, headers, encode, m);
    }
  }

  /** The one event of a data row when printing to standard output. */
  function StdoutEvent(encode: CsvJson.Encoder, headers: seq<string>, fields: seq<string>, row: nat): (e: Event)
    ensures [e] == RowEvents(encode, true, headers, fields, row)
  {
    match CsvJson.Convert(encode, headers, fields, row)
    case Json(b) => Printed(b)
    case Failed(Malformed(_, cause)) => Skipped(row, cause)
    case Failed(Source(_)) => assert false; Skipped(row, CsvJson.SizeMismatch)
  }

  /**
    Printing to standard output, a data row gives its JSON, or its skip
    because its width differs from the header or because the encoder failed.
   */
  lemma StdoutEventCases(encode: CsvJson.Encoder, headers: seq<string>, fields: seq<string>, row: nat)
    ensures StdoutEvent(encode, headers, fields, row) == Skipped(row, CsvJson.SizeMismatch) <==> |fields| != |headers|
    ensures StdoutEvent(encode, headers, fields, row) == Skipped(row, CsvJson.EncodeFailure) <==>
              |fields| == |headers| && encode(Records.Zip(headers, fields)).None?
    ensures StdoutEvent(encode, headers, fields, row).Printed? <==>
              |fields| == |headers| && encode(Records.Zip(headers, fields)).Some?
    ensures StdoutEvent(encode, headers, fields, row).Printed? ==>
              Some(StdoutEvent(encode, headers, fields, row).json) == encode(Records.Zip(headers, fields))
  {
  }

  /** With a row limit, the run reads at most that many data rows and so gives at most that many events. */
  lemma RowLimit(src: seq<Records.SourceOutcome>, headersRows: nat, rowsToRead: int,
                 toStdout: bool, encode: CsvJson.Encoder)
    requires rowsToRead >= 0
    ensures |LegacyRun(src, headersRows, rowsToRead, toStdout, encode).0| <= rowsToRead
  {
    var hi := ReadLimit(src, headersRows, rowsToRead);
    var stop := Records.FirstFailure(src, 0, hi);
    var rows := if stop > headersRows then stop - headersRows else 0;
    DataEventsCount(src, headersRows, DataHeaders(src, headersRows), encode, toStdout, rows);
  }

  /**
    Without a header row, rows are keyed by the default names of the first
    data row's width, so a first row of the file always converts.
   */
  lemma NoHeaderFirstRowConverts(src: seq<Records.SourceOutcome>, rowsToRead: int, encode: CsvJson.Encoder)
    requires |src| >= 1 && src[0].Record? && rowsToRead != 0
    requires encode(Records.Zip(Records.DefaultColumns(|src[0].fields|), src[0].fields)).Some?
    ensures LegacyRun(src, 0, rowsToRead, true, encode).0[0]
            == Printed(encode(Records.Zip(Records.DefaultColumns(|src[0].fields|), src[0].fields)).value)
  {
    var hi := ReadLimit(src, 0, rowsToRead);
    var stop := Records.FirstFailure(src, 0, hi);
    assert stop >= 1;
    DataEventsRow(src, 0, DataHeaders(src, 0), encode, stop, 0);
    StdoutEventCases(encode, DataHeaders(src, 0), src[0].fields, 0);
  }
}
