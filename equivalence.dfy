/** The four implementations side by side on the same file. */
module Equivalence {
  import opened Records
  import opened Report
  import opened PythonChunked
  import opened PythonPyarrow
  import opened PythonLists
  import opened PandasChunked
  import opened PandasWeighted

  /** The rows `read_csv(..., skiprows=1)` parses: every line but the first. */
  function DataRows(rows: seq<Row>): seq<Row>
  {
    if rows == [] then [] else rows[1..]
  }

  /** A header line that fails the filter, or no line at all: skipping the
      first line then loses no record. */
  predicate HeaderOrEmpty(rows: seq<Row>, parse: Parser)
  {
    rows == [] || ParseRow(rows[0], parse).None?
  }

  /** With a header line that fails the filter, the records after the
      skipped first line are all the valid records of the file. */
  lemma HeaderSkipped(rows: seq<Row>, parse: Parser)
    requires HeaderOrEmpty(rows, parse)
    ensures ValidRecords(DataRows(rows), parse) == ValidRecords(rows, parse)
  {
    if rows != [] {
      assert rows == rows[..1] + rows[1..];
      ValidRecordsAppend(rows[..1], rows[1..], parse);
      assert rows[..1][..0] == [];
      assert ValidRecords(rows[..1], parse) == [];
    }
  }

  /** Runs every variant on the same file. The three csv.reader scripts
      write the same report, line for line, whatever `chunk_size` is. The
      chunk-merge script reads the same file without its first line; when
      that line is a header (or the file is empty) it reports the same
      stations in the same order with the same minimum and maximum (only
      its mean may differ), and its corrected form writes the same report
      as the others. */
  method CompareVariants(rows: seq<Row>, chunkSize: int, parse: Parser)
    returns (chunked: seq<Line>, pyarrow: seq<Line>, lists: seq<Line>, pandas: Option<seq<Line>>, weighted: Option<seq<Line>>)
    ensures chunked == pyarrow && pyarrow == lists
    ensures Lists(chunked, Expected(rows, parse))
    ensures pandas.None? <==> chunkSize < 1 || ValidRecords(DataRows(rows), parse) == []
    ensures pandas.Some? && HeaderOrEmpty(rows, parse) ==>
      && |pandas.value| == |chunked|
      && forall i :: 0 <= i < |chunked| ==>
           pandas.value[i].station == chunked[i].station
           && pandas.value[i].min == chunked[i].min
           && pandas.value[i].max == chunked[i].max
    ensures weighted.None? <==> pandas.None?
    ensures weighted.Some? ==> Lists(weighted.value, ExpectedOf(ValidRecords(DataRows(rows), parse)))
    ensures weighted.Some? && HeaderOrEmpty(rows, parse) ==> weighted.value == chunked
  {
    chunked := PythonChunked.ProcessTemperatures(rows, chunkSize, parse);
    pyarrow := PythonPyarrow.ProcessTemperatures(rows, parse);
    lists := PythonLists.ProcessTemperatures(rows, parse);
    ListingUnique(chunked, pyarrow, Expected(rows, parse));
    ListingUnique(pyarrow, lists, Expected(rows, parse));
    var records := ValidRecords(DataRows(rows), parse);
    pandas := ProcessWithPandasChunked(records, chunkSize);
    weighted := ProcessWithPandasChunkedWeighted(records, chunkSize);
    if HeaderOrEmpty(rows, parse) {
      HeaderSkipped(rows, parse);
      if pandas.Some? {
        ExtremesAlign(pandas.value, chunked, records, chunkSize);
      }
      if weighted.Some? {
        ListingUnique(weighted.value, chunked, ExpectedOf(records));
      }
    }
  }

  /** A listing of the chunk-merge report and a listing of the exact report
      agree on everything but the mean. */
  lemma ExtremesAlign(p: seq<Line>, e: seq<Line>, records: seq<Record>, n: nat)
    requires n > 0
    requires Lists(p, ChunkedReport(records, n)) && Lists(e, ExpectedOf(records))
    ensures |p| == |e|
    ensures forall i :: 0 <= i < |e| ==> p[i].station == e[i].station && p[i].min == e[i].min && p[i].max == e[i].max
  {
    ChunkedExtremes(records, n);
    SameStations(p, e, ChunkedReport(records, n), ExpectedOf(records));
    forall i | 0 <= i < |e|
      ensures p[i].station == e[i].station && p[i].min == e[i].min && p[i].max == e[i].max
    {
      assert Stations(p)[i] == Stations(e)[i];
    }
  }
}
