/** src/etl_python_chuncking.py: rows are buffered into chunks of
    `chunk_size`, each chunk is folded into the `stats` dictionary, and the
    dictionary is formatted in station order. */
module PythonChunked {
  import opened StringOrder
  import opened RealSeq
  import opened Records
  import opened Report
  import opened Aggregation

  /** `process_chunk`: fold every row of the chunk into `stats`. */
  method ProcessChunk(chunkRows: seq<Row>, stats: Stats, parse: Parser) returns (updated: Stats)
    ensures updated == Aggregate(stats, chunkRows, parse)
  {
    updated := stats;
    for i := 0 to |chunkRows|
      invariant updated == Aggregate(stats, chunkRows[..i], parse)
    {
      assert chunkRows[..i + 1][..i] == chunkRows[..i];
      var row := chunkRows[i];
      if |row| != 2 {
        continue;  // malformed row
      }
      match parse(row[1]) {
        case None =>  // ValueError: the station is never looked up
        case Some(temp) =>
          var station := row[0];
          if station in updated {
            var s := updated[station];
            updated := updated[station := Agg(s.count + 1, s.sum + temp, Min(s.min, temp), Max(s.max, temp))];
          } else {
            updated := updated[station := Agg(1, temp, temp, temp)];
          }
      }
    }
    assert chunkRows[..|chunkRows|] == chunkRows;
  }

  /** The size a flushed chunk has: `len(chunk) >= chunk_size` holds as soon
      as one row is buffered when `chunk_size <= 1`. */
  function Width(chunkSize: int): nat
  {
    if chunkSize < 1 then 1 else chunkSize
  }

  /** `read_temperatures_in_chunks` over the rows the reader yields. The
      result is the dictionary of one pass over all rows, whatever
      `chunk_size` is. `chunks` records the chunks handed to `process_chunk`:
      together they are the input, in order, each row exactly once; every one
      is non-empty, and all but the leftover last one have `chunk_size` rows. */
  method ReadTemperaturesInChunks(rows: seq<Row>, chunkSize: int, parse: Parser)
    returns (stats: Stats, ghost chunks: seq<seq<Row>>)
    ensures stats == Aggregate(map[], rows, parse)
    ensures Flatten(chunks) == rows
    ensures forall i :: 0 <= i < |chunks| ==> 0 < |chunks[i]| <= Width(chunkSize)
    ensures forall i :: 0 <= i < |chunks| - 1 ==> |chunks[i]| == Width(chunkSize)
  {
    stats := map[];
    chunks := [];
    var chunk: seq<Row> := [];
    ghost var w := Width(chunkSize);
    for i := 0 to |rows|
      invariant Flatten(chunks) + chunk == rows[..i]
      invariant stats == Aggregate(map[], Flatten(chunks), parse)
      invariant OfWidth(chunks, w) && |chunk| < w
    {
      BufferRow(rows, i, Flatten(chunks), chunk);
      chunk := chunk + [rows[i]];
      if |chunk| >= chunkSize {
        FlushChunk(chunks, chunk, w, parse);
        stats := ProcessChunk(chunk, stats, parse);
        chunks := chunks + [chunk];
        chunk := [];
      }
    }
    ghost var full := chunks;
    if |chunk| > 0 {
      FlushChunk(chunks, chunk, w, parse);
      stats := ProcessChunk(chunk, stats, parse);
      chunks := chunks + [chunk];
    }
    assert rows[..|rows|] == rows;
    ChunkShape(full, chunk, w);
  }

  /** Buffering the next row keeps the processed rows followed by the
      buffer a prefix of the input. */
  lemma BufferRow(rows: seq<Row>, i: nat, done: seq<Row>, chunk: seq<Row>)
    requires i < |rows| && done + chunk == rows[..i]
    ensures done + (chunk + [rows[i]]) == rows[..i + 1]
  {
    assert rows[..i + 1] == rows[..i] + [rows[i]];
  }

  /** Handing the buffer to `process_chunk` moves its rows from the buffer
      to the processed rows; a full buffer keeps every flushed chunk at the
      width. */
  lemma FlushChunk(chunks: seq<seq<Row>>, chunk: seq<Row>, w: nat, parse: Parser)
    requires OfWidth(chunks, w)
    ensures Flatten(chunks + [chunk]) == Flatten(chunks) + chunk
    ensures |chunk| == w ==> OfWidth(chunks + [chunk], w)
    ensures Aggregate(map[], Flatten(chunks + [chunk]), parse)
         == Aggregate(Aggregate(map[], Flatten(chunks), parse), chunk, parse)
  {
    assert (chunks + [chunk])[..|chunks|] == chunks;
    AggregateConcat(map[], Flatten(chunks), chunk, parse);
  }

  /** The full chunks, then the leftover if there is one. */
  lemma ChunkShape(full: seq<seq<Row>>, leftover: seq<Row>, w: nat)
    requires OfWidth(full, w) && 0 < w && |leftover| < w
    ensures var chunks := if leftover == [] then full else full + [leftover];
      && (forall i :: 0 <= i < |chunks| ==> 0 < |chunks[i]| <= w)
      && (forall i :: 0 <= i < |chunks| - 1 ==> |chunks[i]| == w)
  {
  }

  /** Every chunk in `chunks` has exactly `w` rows. */
  ghost predicate OfWidth(chunks: seq<seq<Row>>, w: nat)
  {
    forall j :: 0 <= j < |chunks| ==> |chunks[j]| == w
  }

  /** `format_results`: one line per station in ascending station order,
      with mean = sum / count. The source divides by `count` unguarded, so
      every count must be positive. `FinalisedWithinBounds` gives each
      line min <= mean <= max on a well-formed dictionary. */
  method FormatResults(stats: Stats) returns (formatted: seq<Line>)
    requires forall k :: k in stats ==> stats[k].count > 0
    ensures Lists(formatted, Finalised(stats))
  {
    var sortedStations := SortedKeys(stats.Keys);
    assert forall i :: 0 <= i < |sortedStations| ==> sortedStations[i] in stats;
    formatted := [];
    for i := 0 to |sortedStations|
      invariant |formatted| == i
      invariant forall j :: 0 <= j < i ==>
        sortedStations[j] in stats && formatted[j] == FinalLine(sortedStations[j], stats[sortedStations[j]])
    {
      var station := sortedStations[i];
      var data := stats[station];
      formatted := formatted + [FinalLine(station, data)];
    }
    FinalisedInKeyOrder(stats, sortedStations, formatted);
  }

  /** The lines of every station in `sorted` order list `Finalised(stats)`. */
  lemma FinalisedInKeyOrder(stats: Stats, sortedStations: seq<string>, formatted: seq<Line>)
    requires forall k :: k in stats ==> stats[k].count > 0
    requires sortedStations == SortedKeys(stats.Keys) && |formatted| == |sortedStations|
    requires forall j :: 0 <= j < |formatted| ==>
      sortedStations[j] in stats && formatted[j] == FinalLine(sortedStations[j], stats[sortedStations[j]])
    ensures Lists(formatted, Finalised(stats))
  {
    var expected := Finalised(stats);
    assert expected.Keys == stats.Keys;
    ListedInKeyOrder(formatted, expected);
  }

  /** `process_temperatures` without the file writing and timing: the report
      lists, in station order, the minimum, mean and maximum of every
      station's valid temperatures. */
  method ProcessTemperatures(rows: seq<Row>, chunkSize: int, parse: Parser) returns (formatted: seq<Line>)
    ensures Lists(formatted, Expected(rows, parse))
  {
    var stats, chunks := ReadTemperaturesInChunks(rows, chunkSize, parse);
    FinalisedIsExpected(rows, parse);
    formatted := FormatResults(stats);
  }
}
