/** src/etl_python_pyarrow.py: one pass over the rows folds every valid row
    into a `defaultdict` while counting all rows read; the formatter guards
    the mean against a zero count and sorts the dictionary by station. */
module PythonPyarrow {
  import opened RealSeq
  import opened Records
  import opened Report
  import opened Aggregation

  /** `read_and_aggregate` over the rows the reader yields. `rowCount`
      counts every row, malformed or not; the dictionary is the same fold
      the chunked variant computes, and an entry only ever appears together
      with a count increment, so every count is at least one. */
  method ReadAndAggregate(rows: seq<Row>, parse: Parser) returns (stats: Stats, rowCount: nat)
    ensures rowCount == |rows|
    ensures stats == Aggregate(map[], rows, parse)
    ensures forall k :: k in stats ==> stats[k].count >= 1
    ensures WellFormed(stats)
  {
    stats := map[];
    rowCount := 0;
    for i := 0 to |rows|
      invariant rowCount == i
      invariant stats == Aggregate(map[], rows[..i], parse)
      invariant forall k :: k in stats ==> stats[k].count >= 1
    {
      assert rows[..i + 1][..i] == rows[..i];
      var row := rows[i];
      rowCount := rowCount + 1;
      if |row| != 2 {
        continue;
      }
      match parse(row[1]) {
        case None =>  // ValueError, raised before `stats[station]` is touched
        case Some(temp) =>
          var station := row[0];
          // a fresh entry's sentinels are min = inf and max = -inf, so the
          // first `min`/`max` yields `temp`
          var s := if station in stats then stats[station] else Agg(0, 0.0, temp, temp);
          stats := stats[station := Agg(s.count + 1, s.sum + temp, Min(s.min, temp), Max(s.max, temp))];
      }
    }
    assert rows[..|rows|] == rows;
    AggregateWellFormed(map[], rows, parse);
  }

  /** The line written for one entry; a zero count gives mean 0. */
  function GuardedLine(station: string, a: Agg): Line
  {
    Line(station, a.min, if a.count != 0 then a.sum / (a.count as real) else 0.0, a.max)
  }

  /** The guard changes nothing on an entry with a positive count: such an
      entry is formatted as in the chunked variant. */
  lemma GuardedIsFinal(stats: Stats)
    requires forall k :: k in stats ==> stats[k].count > 0
    ensures (map k | k in stats :: GuardedLine(k, stats[k])) == Finalised(stats)
  {
  }

  /** `format_results`: the `formatted` dictionary is filled in whatever
      order `stats.items()` yields, then `dict(sorted(...))` orders it. The
      result lists every station of `stats` once, in ascending order, with
      its guarded line. */
  method FormatResults(stats: Stats) returns (formatted: seq<Line>)
    ensures Lists(formatted, map k | k in stats :: GuardedLine(k, stats[k]))
  {
    var lines: map<string, Line> := map[];
    var remaining := stats.Keys;
    while remaining != {}
      invariant remaining <= stats.Keys
      invariant lines.Keys == stats.Keys - remaining
      invariant forall k :: k in lines ==> lines[k] == GuardedLine(k, stats[k])
      decreases remaining
    {
      var station :| station in remaining;
      var values := stats[station];
      var mean := if values.count != 0 then values.sum / (values.count as real) else 0.0;
      lines := lines[station := Line(station, values.min, mean, values.max)];
      remaining := remaining - {station};
    }
    assert lines == map k | k in stats :: GuardedLine(k, stats[k]);
    formatted := SortedListing(lines);
  }

  /** `process_temperatures` without the file writing and timing. */
  method ProcessTemperatures(rows: seq<Row>, parse: Parser) returns (formatted: seq<Line>)
    ensures Lists(formatted, Expected(rows, parse))
  {
    var stats, rowCount := ReadAndAggregate(rows, parse);
    FinalisedIsExpected(rows, parse);
    GuardedIsFinal(stats);
    formatted := FormatResults(stats);
  }
}
