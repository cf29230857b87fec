/**
  The `csvjson.Reader`: a stateful converter that turns the records of a CSV
  source into JSON objects. The first `HeadersRows` records are header rows
  (only the first one names the columns); each later call converts one
  record, keyed by the header.
 */
module CsvJson {
  import opened Wrappers
  import opened Records

  newtype byte = x: int | 0 <= x < 256

  type Bytes = seq<byte>

  /**
    The JSON encoder, `json.MarshalIndent(m, "", "   ")`: it is foreign code,
    so the model only knows that it maps a document to bytes or fails.
   */
  type Encoder = Document -> Option<Bytes>

  /** Default number of header rows of a new Reader. */
  const DefHeaderRows: nat := 1

  datatype MalformedCause = SizeMismatch | EncodeFailure

  /**
    Errors of `Read`: an error of the record source (end of input included),
    handed back unchanged, or "skipped malformed row #row".
   */
  datatype ReadError = Source(err: SourceError) | Malformed(row: nat, cause: MalformedCause)

  datatype ReadResult = Json(bytes: Bytes) | Failed(error: ReadError)

  /** The fields of a Reader that `Read` changes, as a value. */
  datatype ReaderState = ReaderState(headersRows: nat, headers: seq<string>, rowsCount: nat)

  /**
    The header loop of `Read`: while fewer than `headersRows` records were
    consumed, consume one; the first one ever consumed becomes the header; an
    error stops the loop (and `Read`) with that error.
   */
  function HeaderPhase(src: seq<SourceOutcome>, s: ReaderState): (ReaderState, Option<SourceError>)
    decreases s.headersRows - s.rowsCount
  {
    if s.rowsCount >= s.headersRows then (s, None)
    else
      var s1 := s.(rowsCount := s.rowsCount + 1);
      match At(src, s.rowsCount)
      case Error(e) => (s1, Some(e))
      case Record(f) =>
        HeaderPhase(src, if s1.rowsCount == 1 then s1.(headers := s1.headers + f) else s1)
  }

  /** Shape check and encoding of one data record; `row` is the 1-based count of consumed records. */
  function Convert(encode: Encoder, headers: seq<string>, record: seq<string>, row: nat): ReadResult {
    if |record| != |headers| then Failed(Malformed(row, SizeMismatch))
    else match encode(Zip(headers, record))
      case None => Failed(Malformed(row, EncodeFailure))
      case Some(b) => Json(b)
  }

  /**
    The data part of `Read`, once the header rows are consumed: read one
    record; name the columns after it if it is the very first record and
    there is no header; check its shape and encode it.
   */
  function DataStep(src: seq<SourceOutcome>, encode: Encoder, h: ReaderState): (ReaderState, ReadResult) {
    var s1 := h.(rowsCount := h.rowsCount + 1);
    match At(src, h.rowsCount)
    case Error(err) => (s1, Failed(Source(err)))
    case Record(f) =>
      var s2 := if s1.rowsCount == 1 && |s1.headers| == 0
                then s1.(headers := s1.headers + DefaultColumns(|f|)) else s1;
      (s2, Convert(encode, s2.headers, f, s2.rowsCount))
  }

  /** One call of `Read`: the new state and the result. */
  function ReadSpec(src: seq<SourceOutcome>, encode: Encoder, s: ReaderState): (ReaderState, ReadResult) {
    var (h, e) := HeaderPhase(src, s);
    if e.Some? then (h, Failed(Source(e.value))) else DataStep(src, encode, h)
  }

  class Reader {
    var headersRows: nat
    var headers: seq<string>
    var rowsCount: nat
    /** The record source, as the script of what its successive calls return. */
    const src: seq<SourceOutcome>
    const encode: Encoder

    function Snapshot(): ReaderState
      reads this
    {
      ReaderState(headersRows, headers, rowsCount)
    }

    /** `NewReader`: one header row, no header yet, nothing consumed. */
    constructor (src: seq<SourceOutcome>, encode: Encoder)
      ensures this.src == src && this.encode == encode
      ensures Snapshot() == ReaderState(DefHeaderRows, [], 0)
    {
      this.src := src;
      this.encode := encode;
      headersRows := DefHeaderRows;
      headers := [];
      rowsCount := 0;
    }

    /** `Read`: obtains one JSON object from the next record. */
    method Read() returns (r: ReadResult)
      modifies this
      ensures (Snapshot(), r) == ReadSpec(src, encode, old(Snapshot()))
    {
      // Header rows.
      while rowsCount < headersRows
        invariant headersRows == old(headersRows)
        invariant HeaderPhase(src, Snapshot()) == HeaderPhase(src, old(Snapshot()))
        decreases headersRows - rowsCount
      {
        var record := At(src, rowsCount);
        rowsCount := rowsCount + 1;
        if record.Error? {
          return Failed(Source(record.err));
        }
        if rowsCount == 1 {
          headers := headers + record.fields;
        }
      }

      // Data row.
      ghost var h := Snapshot();
      assert ReadSpec(src, encode, old(Snapshot())) == DataStep(src, encode, h);
      var record := At(src, rowsCount);
      rowsCount := rowsCount + 1;
      if record.Error? {
        return Failed(Source(record.err));
      }
      var fields := record.fields;
      if rowsCount == 1 && |headers| == 0 {
        for i := 0 to |fields|
          invariant headers == h.headers + DefaultColumns(i)
          invariant rowsCount == h.rowsCount + 1 && headersRows == h.headersRows
        {
          assert DefaultColumns(i + 1) == DefaultColumns(i) + [ColumnName(i)];
          headers := headers + [ColumnName(i)];
        }
      }
      assert DataStep(src, encode, h) == (Snapshot(), Convert(encode, headers, fields, rowsCount));
      var m := ToMap(headers, fields);
      if m.None? {
        return Failed(Malformed(rowsCount, SizeMismatch));
      }
      var json := encode(m.value);
      if json.None? {
        return Failed(Malformed(rowsCount, EncodeFailure));
      }
      return Json(json.value);
    }
  }

  /** Every consumed header row is a record, except possibly the last one. */
  lemma {:induction false} HeaderPhaseConsumes(src: seq<SourceOutcome>, s: ReaderState)
    ensures var (h, e) := HeaderPhase(src, s);
      && h.headersRows == s.headersRows
      && (s.rowsCount >= s.headersRows ==> h == s && e.None?)
      && (s.rowsCount < s.headersRows ==>
            var f := FirstFailure(src, s.rowsCount, s.headersRows);
            && (e.None? <==> f == s.headersRows)
            && h.rowsCount == (if f < s.headersRows then f + 1 else s.headersRows)
            && (e.Some? ==> At(src, f) == Error(e.value)))
      && (s.rowsCount >= 1 ==> h.headers == s.headers)
      && (s.rowsCount == 0 < s.headersRows ==>
            h.headers == s.headers + (if At(src, 0).Record? then At(src, 0).fields else []))
    decreases s.headersRows - s.rowsCount
  {
    if s.rowsCount < s.headersRows {
      var s1 := s.(rowsCount := s.rowsCount + 1);
      match At(src, s.rowsCount)
      case Error(e) =>
      case Record(f) =>
        HeaderPhaseConsumes(src, if s1.rowsCount == 1 then s1.(headers := s1.headers + f) else s1);
    }
  }

  /**
    Each call consumes source records up to the first failure among the
    pending header rows, then (if none failed) exactly one data record; a
    source error, end of input included, is returned unchanged.
   */
  lemma ReadConsumes(src: seq<SourceOutcome>, encode: Encoder, s: ReaderState)
    ensures var (s', r) := ReadSpec(src, encode, s);
      var hi := if s.rowsCount < s.headersRows then s.headersRows else s.rowsCount;
      var f := FirstFailure(src, s.rowsCount, hi);
      && s'.headersRows == s.headersRows
      && s'.rowsCount == (if f < hi then f + 1 else hi + 1)
      && (forall j :: s.rowsCount <= j < s'.rowsCount - 1 ==> At(src, j).Record?)
      && ((r.Failed? && r.error.Source?) <==> At(src, s'.rowsCount - 1).Error?)
      && (At(src, s'.rowsCount - 1).Error? ==> r == Failed(Source(At(src, s'.rowsCount - 1).err)))
  {
    HeaderPhaseConsumes(src, s);
    var (h, e) := HeaderPhase(src, s);
    var hi := if s.rowsCount < s.headersRows then s.headersRows else s.rowsCount;
    var f := FirstFailure(src, s.rowsCount, hi);
    if s.rowsCount >= s.headersRows {
      assert f == hi;
    }
    if e.None? {
      assert h.rowsCount == hi && f == hi;
    } else {
      assert h.rowsCount == f + 1;
    }
  }

  /** Once the first record is consumed, the header never changes again. */
  lemma ReadKeepsHeaders(src: seq<SourceOutcome>, encode: Encoder, s: ReaderState)
    requires s.rowsCount >= 1
    ensures ReadSpec(src, encode, s).0.headers == s.headers
  {
    HeaderPhaseConsumes(src, s);
  }

  /**
    From a fresh state with header rows, the first call captures the first
    record as the header (an empty header if that read failed); later header
    rows are consumed and discarded.
   */
  lemma FirstReadCapturesHeader(src: seq<SourceOutcome>, encode: Encoder, h: nat)
    requires h >= 1
    ensures ReadSpec(src, encode, ReaderState(h, [], 0)).0.headers
         == (if At(src, 0).Record? then At(src, 0).fields else [])
  {
    HeaderPhaseConsumes(src, ReaderState(h, [], 0));
  }

  /**
    Without header rows, the first call names the columns column0 ..
    column(W-1) after the width W of the first record, so that record always
    has the right shape; if the first read fails, the header stays empty.
   */
  lemma SynthesisedHeader(src: seq<SourceOutcome>, encode: Encoder)
    ensures var (s', r) := ReadSpec(src, encode, ReaderState(0, [], 0));
      && s'.rowsCount == 1
      && (At(src, 0).Record? ==>
            && s'.headers == DefaultColumns(|At(src, 0).fields|)
            && r != Failed(Malformed(1, SizeMismatch)))
      && (At(src, 0).Error? ==> s'.headers == [] && r == Failed(Source(At(src, 0).err)))
  {
  }

  /**
    In any call, the data record is rejected as malformed exactly when the
    header phase succeeded, the data read delivered a record, and its width
    differs from the header the call leaves (synthesised if needed); the tag
    is the 1-based number of records consumed so far, header rows included.
   */
  lemma ShapeMismatchIff(src: seq<SourceOutcome>, encode: Encoder, s: ReaderState)
    ensures var (h, e) := HeaderPhase(src, s);
      var (s', r) := ReadSpec(src, encode, s);
      && (e.None? ==> s'.rowsCount == h.rowsCount + 1)
      && (r == Failed(Malformed(h.rowsCount + 1, SizeMismatch))
          <==> e.None? && At(src, h.rowsCount).Record? && |At(src, h.rowsCount).fields| != |s'.headers|)
  {
    var (h, e) := HeaderPhase(src, s);
    if e.None? {
      match At(src, h.rowsCount)
      case Error(_) =>
      case Record(f) =>
        var (s', r) := ReadSpec(src, encode, s);
        assert (s', r) == DataStep(src, encode, h);
        assert r == Convert(encode, s'.headers, f, h.rowsCount + 1);
    }
  }

  /**
    A well-shaped record whose header has distinct names is encoded with every
    field under its column name.
   */
  lemma ConvertKeepsFields(encode: Encoder, headers: seq<string>, record: seq<string>, row: nat)
    requires |record| == |headers|
    requires forall i, j :: 0 <= i < j < |headers| ==> headers[i] != headers[j]
    ensures Convert(encode, headers, record, row) ==
      match encode(Zip(headers, record))
      case None => Failed(Malformed(row, EncodeFailure))
      case Some(b) => Json(b)
    ensures forall i :: 0 <= i < |headers| ==>
      headers[i] in Zip(headers, record) && Zip(headers, record)[headers[i]] == record[i]
  {
    forall i | 0 <= i < |headers|
      ensures headers[i] in Zip(headers, record) && Zip(headers, record)[headers[i]] == record[i]
    {
      ZipLastWins(headers, record, i);
    }
  }

  /**
    Header ["time","station","temp"] and rows "t1,A,12.3", "t2,B" and
    "t3,C,9.8": the second row is skipped as record #3 and the first and third
    are encoded.
   */
  lemma ThreeRowExample(encode: Encoder)
    ensures
      var src := [Record(["time", "station", "temp"]), Record(["t1", "A", "12.3"]),
                  Record(["t2", "B"]), Record(["t3", "C", "9.8"])];
      var s0 := ReaderState(1, [], 0);
      var (s1, r1) := ReadSpec(src, encode, s0);
      var (s2, r2) := ReadSpec(src, encode, s1);
      var (s3, r3) := ReadSpec(src, encode, s2);
      var (s4, r4) := ReadSpec(src, encode, s3);
      && s3.headers == ["time", "station", "temp"]
      && r1 == Convert(encode, ["time", "station", "temp"], ["t1", "A", "12.3"], 2)
      && r2 == Failed(Malformed(3, SizeMismatch))
      && r3 == Convert(encode, ["time", "station", "temp"], ["t3", "C", "9.8"], 4)
      && r4 == Failed(Source(EOF))
  {
    var src := [Record(["time", "station", "temp"]), Record(["t1", "A", "12.3"]),
                Record(["t2", "B"]), Record(["t3", "C", "9.8"])];
    var s0 := ReaderState(1, [], 0);
    HeaderPhaseConsumes(src, s0);
    assert FirstFailure(src, 0, 1) == 1;
  }
}
