/**
  The sensor-data dump (matschmazia/main.go): it skips `headerRows` records,
  prints each following record with `fmt.Println`, and stops after
  `rowsToRead + headerRows` reads (no limit when `rowsToRead` is negative)
  or at end of input; any other read error is fatal.
 */
module Eurac {
  import Records

  const DefHeaderRows: int := 2
  const DefRowsToRead: int := -1

  /** How the process ends: normally, or with `log.Fatalf` on a read error other than end of input. */
  datatype Outcome = Finished | Fatal(msg: string)

  /** The fields joined by single spaces. */
  function Join(fields: seq<string>): (s: string)
    ensures |fields| == 1 ==> s == fields[0]
    ensures |fields| == 0 ==> s == ""
  {
    if |fields| == 0 then ""
    else if |fields| == 1 then fields[0]
    else Join(fields[..|fields| - 1]) + " " + fields[|fields| - 1]
  }

  /** `fmt.Println(record)` of a slice of strings: the elements in brackets, space-separated, then a newline. */
  function PrintLine(fields: seq<string>): (line: string)
    ensures |line| >= 3 && line[0] == '[' && line[|line| - 2] == ']' && line[|line| - 1] == '\n'
  {
    "[" + Join(fields) + "]\n"
  }

  /** How many reads the loop may make; a negative limit means until end of input (one past the last record). */
  function Limit(src: seq<Records.SourceOutcome>, headerRows: int, rowsToRead: int): nat {
    if rowsToRead < 0 then |src| + 1
    else if rowsToRead + headerRows < 0 then 0
    else rowsToRead + headerRows
  }

  /**
    The whole run: the lines printed and how it ends. Reading stops at the
    first failing read within the limit; the reads at positions below
    `headerRows` print nothing.
   */
  function DumpRun(src: seq<Records.SourceOutcome>, headerRows: int, rowsToRead: int): (r: (seq<string>, Outcome))
    ensures var stop := Records.FirstFailure(src, 0, Limit(src, headerRows, rowsToRead));
      var skip := if headerRows < 0 then 0 else if headerRows > stop then stop else headerRows;
      && |r.0| == stop - skip
      && (forall k :: 0 <= k < |r.0| ==>
            && skip + k >= headerRows && Records.At(src, skip + k).Record?
            && r.0[k] == PrintLine(Records.At(src, skip + k).fields))
    ensures rowsToRead >= 0 ==> |r.0| <= rowsToRead
    ensures r.1.Fatal? <==>
      exists j :: 0 <= j < Limit(src, headerRows, rowsToRead)
                  && Records.At(src, j).Error? && Records.At(src, j).err.CsvError?
                  && (forall i :: 0 <= i < j ==> Records.At(src, i).Record?)
  {
    var hi := Limit(src, headerRows, rowsToRead);
    var stop := Records.FirstFailure(src, 0, hi);
    var skip := if headerRows < 0 then 0 else if headerRows > stop then stop else headerRows;
    var printed := Lines(src, skip, stop);
    var outcome := if stop < hi && Records.At(src, stop).err.CsvError? then Fatal(Records.At(src, stop).err.msg) else Finished;
    FatalAtFirstFailure(src, hi);
    (printed, outcome)
  }

  /** The first failing read within the limit is a CSV error exactly when some read is, after only records. */
  lemma FatalAtFirstFailure(src: seq<Records.SourceOutcome>, hi: nat)
    ensures var stop := Records.FirstFailure(src, 0, hi);
      (stop < hi && Records.At(src, stop).err.CsvError?) <==>
      exists j :: 0 <= j < hi
                  && Records.At(src, j).Error? && Records.At(src, j).err.CsvError?
                  && (forall i :: 0 <= i < j ==> Records.At(src, i).Record?)
  {
    var stop := Records.FirstFailure(src, 0, hi);
    if j :| 0 <= j < hi && Records.At(src, j).Error? && Records.At(src, j).err.CsvError?
           && (forall i :: 0 <= i < j ==> Records.At(src, i).Record?) {
      assert stop == j;
    }
  }

  /**
    With the default flags (two header rows, no row limit) every record after
    the first two is printed, in order, up to the first failing read; the run
    is fatal exactly when that read is a CSV error rather than end of input.
   */
  lemma DefaultDump(src: seq<Records.SourceOutcome>)
    ensures var (printed, outcome) := DumpRun(src, DefHeaderRows, DefRowsToRead);
      var stop := Records.FirstFailure(src, 0, |src| + 1);
      && stop <= |src| && Records.At(src, stop).Error?
      && |printed| == (if stop > 2 then stop - 2 else 0)
      && (forall k :: 0 <= k < |printed| ==>
            Records.At(src, 2 + k).Record? && printed[k] == PrintLine(Records.At(src, 2 + k).fields))
      && (outcome.Fatal? <==> Records.At(src, stop).err.CsvError?)
  {
    var hi := |src| + 1;
    var stop := Records.FirstFailure(src, 0, hi);
    assert Records.At(src, |src|).Error?;
    assert stop < hi;
    var skip := if stop < 2 then stop else 2;
    assert Limit(src, DefHeaderRows, DefRowsToRead) == hi;
    assert DumpRun(src, DefHeaderRows, DefRowsToRead).0 == Lines(src, skip, stop);
  }

  /** `main` after the flags are parsed and the file is opened. */
  method Dump(src: seq<Records.SourceOutcome>, headerRows: int, rowsToRead: int)
    returns (printed: seq<string>, outcome: Outcome)
    ensures (printed, outcome) == DumpRun(src, headerRows, rowsToRead)
  {
    ghost var hi := Limit(src, headerRows, rowsToRead);
    printed := [];
    var i: nat := 0;
    while rowsToRead < 0 || i < rowsToRead + headerRows
      invariant i <= hi
      invariant forall j :: 0 <= j < i ==> Records.At(src, j).Record?
      invariant printed == Lines(src, Skipped(headerRows, i), i)
      decreases |src| + 1 - i
    {
      match Records.At(src, i)
      case Error(e) =>
        if e.EOF? {
          break;
        }
        outcome := Fatal(e.msg);
        assert Records.FirstFailure(src, 0, hi) == i;
        return;
      case Record(record) =>
        assert Records.FieldsAt(src, i) == record;
        if i >= headerRows {
          assert Lines(src, Skipped(headerRows, i), i + 1) == printed + [PrintLine(record)];
          printed := printed + [PrintLine(record)];
        }
      i := i + 1;
    }
    assert Records.FirstFailure(src, 0, hi) == i;
    outcome := Finished;
  }

  /** The lines printed for the records at positions lo up to hi. */
  function Lines(src: seq<Records.SourceOutcome>, lo: nat, hi: nat): seq<string>
    requires lo <= hi
  {
    seq(hi - lo, k requires 0 <= k < hi - lo => PrintLine(Records.FieldsAt(src, lo + k)))
  }

  /** The number of skipped header records among the first i reads. */
  function Skipped(headerRows: int, i: nat): nat {
    if headerRows < 0 then 0 else if headerRows > i then i else headerRows
  }
}
