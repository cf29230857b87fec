/**
  What the CSV-to-JSON converters share: the outcomes of the upstream record
  source, the default column names, and `toMap`, which pairs a header with a
  record.
 */
module Records {
  import opened Wrappers
  import Decimal

  /** Errors of the record source: end of input, or a CSV parse error. */
  datatype SourceError = EOF | CsvError(msg: string)

  /** One call of the record source's `Read`. */
  datatype SourceOutcome = Record(fields: seq<string>) | Error(err: SourceError)

  /**
    The outcome of the k-th call (0-based) of a record source scripted by
    `src`; once the script is used up every call reports end of input, as a
    CSV reader at the end of its file does.
   */
  function At(src: seq<SourceOutcome>, k: nat): SourceOutcome {
    if k < |src| then src[k] else Error(EOF)
  }

  /** The fields of the k-th record, or none when that read fails. */
  function FieldsAt(src: seq<SourceOutcome>, k: nat): seq<string> {
    match At(src, k)
    case Record(f) => f
    case Error(_) => []
  }

  /**
    The first call in [lo, hi) that does not deliver a record, or hi when all
    of them do.
   */
  function FirstFailure(src: seq<SourceOutcome>, lo: nat, hi: nat): (r: nat)
    requires lo <= hi
    decreases hi - lo
    ensures lo <= r <= hi
    ensures forall j :: lo <= j < r ==> At(src, j).Record?
    ensures r < hi ==> At(src, r).Error?
  {
    if lo == hi then hi
    else if At(src, lo).Error? then lo
    else FirstFailure(src, lo + 1, hi)
  }

  /** A JSON object with string values, as `map[string]string`. */
  type Document = map<string, string>

  /** The name `"column" + strconv.Itoa(i)` given to column i when there is no header. */
  function ColumnName(i: nat): string {
    "column" + Decimal.Itoa(i)
  }

  function DefaultColumns(width: nat): seq<string> {
    seq(width, i requires 0 <= i < width => ColumnName(i))
  }

  /** Default column names never collide. */
  lemma DefaultColumnsDistinct(width: nat)
    ensures |DefaultColumns(width)| == width
    ensures forall i, j :: 0 <= i < j < width ==> DefaultColumns(width)[i] != DefaultColumns(width)[j]
  {
    forall i, j | 0 <= i < j < width
      ensures DefaultColumns(width)[i] != DefaultColumns(width)[j]
    {
      if ColumnName(i) == ColumnName(j) {
        assert Decimal.Itoa(i) == ColumnName(i)[6..] == ColumnName(j)[6..] == Decimal.Itoa(j);
        Decimal.ItoaInjective(i, j);
      }
    }
  }

  /**
    The map the loop of `toMap` builds: keys paired with values position by
    position, a later duplicate key overwriting an earlier one.
   */
  function Zip(k: seq<string>, v: seq<string>): Document
    requires |k| == |v|
  {
    if |k| == 0 then map[] else Zip(k[..|k| - 1], v[..|v| - 1])[k[|k| - 1] := v[|v| - 1]]
  }

  /** The zipped map has exactly the header's names as keys. */
  lemma {:induction false} ZipKeys(k: seq<string>, v: seq<string>)
    requires |k| == |v|
    ensures Zip(k, v).Keys == set i | 0 <= i < |k| :: k[i]
  {
    if |k| > 0 {
      var n := |k| - 1;
      ZipKeys(k[..n], v[..n]);
      assert (set i | 0 <= i < |k| :: k[i])
          == (set i | 0 <= i < n :: k[..n][i]) + {k[n]};
    }
  }

  /** Each name is bound to the value at its last occurrence in the header. */
  lemma {:induction false} ZipLastWins(k: seq<string>, v: seq<string>, i: nat)
    requires |k| == |v| && i < |k|
    requires forall j :: i < j < |k| ==> k[j] != k[i]
    ensures k[i] in Zip(k, v) && Zip(k, v)[k[i]] == v[i]
  {
    var n := |k| - 1;
    if i < n {
      ZipLastWins(k[..n], v[..n], i);
    }
  }

  /** With distinct names, e.g. default ones, no field is lost. */
  lemma ZipDefaultColumns(fields: seq<string>, i: nat)
    requires i < |fields|
    ensures ColumnName(i) in Zip(DefaultColumns(|fields|), fields)
    ensures Zip(DefaultColumns(|fields|), fields)[ColumnName(i)] == fields[i]
  {
    DefaultColumnsDistinct(|fields|);
    ZipLastWins(DefaultColumns(|fields|), fields, i);
  }

  /**
    `toMap(k, v)`: fails exactly when the record's width differs from the
    header's; otherwise every name maps to the value of its last occurrence.
   */
  method ToMap(k: seq<string>, v: seq<string>) returns (r: Option<Document>)
    ensures r.None? <==> |v| != |k|
    ensures r.Some? ==> r.value == Zip(k, v)
    ensures r.Some? ==> r.value.Keys == set i | 0 <= i < |k| :: k[i]
    ensures r.Some? ==> forall i :: 0 <= i < |k| && (forall j :: i < j < |k| ==> k[j] != k[i]) ==> r.value[k[i]] == v[i]
  {
    if |v| != |k| {
      return None;
    }
    var m: Document := map[];
    for i := 0 to |k|
      invariant m == Zip(k[..i], v[..i])
    {
      assert k[..i + 1][..i] == k[..i] && v[..i + 1][..i] == v[..i];
      m := m[k[i] := v[i]];
    }
    assert k[..|k|] == k && v[..|v|] == v;
    ZipKeys(k, v);
    forall i | 0 <= i < |k| && (forall j :: i < j < |k| ==> k[j] != k[i])
      ensures m[k[i]] == v[i]
    {
      ZipLastWins(k, v, i);
    }
    return Some(m);
  }
}
