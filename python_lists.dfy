/** src/etl_python.py: the rows are first grouped into one list of
    temperatures per station, then each list is reduced to its minimum, mean
    and maximum, and the result is ordered by station. */
module PythonLists {
  import opened StringOrder
  import opened RealSeq
  import opened Records
  import opened Report

  /** `temperature_by_station` after the rows `rows`: a station is a key
      exactly when it has a valid row, and its list holds its valid
      temperatures in input order. */
  ghost predicate Groups(byStation: map<string, seq<real>>, rows: seq<Row>, parse: Parser)
  {
    forall k :: (k in byStation <==> ValuesOf(rows, parse, k) != [])
         && (k in byStation ==> byStation[k] == ValuesOf(rows, parse, k))
  }

  /** `read_temperatures` over the rows the reader yields. Every list is
      non-empty and the lengths of all lists add up to the number of valid
      rows. */
  method ReadTemperatures(rows: seq<Row>, parse: Parser) returns (byStation: map<string, seq<real>>)
    ensures Groups(byStation, rows, parse)
    ensures forall k :: k in byStation ==> |byStation[k]| > 0
    ensures TotalLength(byStation) == |ValidRecords(rows, parse)|
  {
    byStation := map[];
    for i := 0 to |rows|
      invariant Groups(byStation, rows[..i], parse)
    {
      var row := rows[i];
      assert rows[..i + 1][..i] == rows[..i];
      GroupsStep(byStation, rows[..i + 1], parse);
      if |row| != 2 {
        continue;  // malformed row
      }
      match parse(row[1]) {
        case None =>  // ValueError
        case Some(temperature) =>
          var stationName := row[0];
          var list := if stationName in byStation then byStation[stationName] else [];
          byStation := byStation[stationName := list + [temperature]];
      }
    }
    assert rows[..|rows|] == rows;
    GroupLengths(byStation, rows, parse);
  }

  /** Appending the last row's temperature to its station's list keeps
      `Groups`; a row that fails the filter keeps it untouched. */
  lemma GroupsStep(byStation: map<string, seq<real>>, rows: seq<Row>, parse: Parser)
    requires rows != [] && Groups(byStation, rows[..|rows| - 1], parse)
    ensures var last := rows[|rows| - 1];
      if |last| == 2 && parse(last[1]).Some? then
        var list := if last[0] in byStation then byStation[last[0]] else [];
        Groups(byStation[last[0] := list + [parse(last[1]).value]], rows, parse)
      else Groups(byStation, rows, parse)
  {
    var init, last := rows[..|rows| - 1], rows[|rows| - 1];
    if |last| == 2 && parse(last[1]).Some? {
      var station, t := last[0], parse(last[1]).value;
      var list := if station in byStation then byStation[station] else [];
      var next := byStation[station := list + [t]];
      forall k
        ensures (k in next <==> ValuesOf(rows, parse, k) != [])
             && (k in next ==> next[k] == ValuesOf(rows, parse, k))
      {
        ValuesOfLast(rows, parse, k);
        if k == station {
          assert list == ValuesOf(init, parse, k);
        } else {
          assert ValuesOf(rows, parse, k) == ValuesOf(init, parse, k);
        }
      }
    } else {
      forall k
        ensures ValuesOf(rows, parse, k) == ValuesOf(init, parse, k)
      {
        ValuesOfLast(rows, parse, k);
      }
    }
  }

  /** `sum(len(v) for v in m.values())`, added in key order. */
  function TotalLength(m: map<string, seq<real>>): nat
  {
    SumLengths(m, SortedKeys(m.Keys))
  }

  function SumLengths(m: map<string, seq<real>>, keys: seq<string>): nat
    requires forall i :: 0 <= i < |keys| ==> keys[i] in m
    decreases |keys|
  {
    if keys == [] then 0 else |m[keys[0]]| + SumLengths(m, keys[1..])
  }

  /** The number of records of the stations in `keys`. */
  function CountIn(records: seq<Record>, keys: seq<string>): nat
    decreases |keys|
  {
    if keys == [] then 0 else |ValuesIn(records, keys[0])| + CountIn(records, keys[1..])
  }

  /** One more record adds one to the count of the stations in `keys`
      exactly when its station is among them. */
  lemma {:induction false} CountInAppend(records: seq<Record>, r: Record, keys: seq<string>)
    requires Distinct(keys)
    ensures CountIn(records + [r], keys) == CountIn(records, keys) + (if r.station in keys then 1 else 0)
    decreases |keys|
  {
    if keys != [] {
      assert (records + [r])[..|records|] == records;
      CountInAppend(records, r, keys[1..]);
      assert r.station in keys <==> r.station == keys[0] || r.station in keys[1..];
      if r.station == keys[0] {
        assert r.station !in keys[1..];
      }
    }
  }

  /** Counting the records of a set of stations that covers them all counts
      every record once. */
  lemma {:induction false} CountAll(records: seq<Record>, keys: seq<string>)
    requires Distinct(keys)
    requires forall r :: r in records ==> r.station in keys
    ensures CountIn(records, keys) == |records|
    decreases |records|
  {
    if records == [] {
      EmptyCount(keys);
    } else {
      var init, last := records[..|records| - 1], records[|records| - 1];
      CountAll(init, keys);
      assert init + [last] == records;
      CountInAppend(init, last, keys);
    }
  }

  lemma {:induction false} EmptyCount(keys: seq<string>)
    ensures CountIn([], keys) == 0
    decreases |keys|
  {
    if keys != [] {
      EmptyCount(keys[1..]);
    }
  }

  /** Over the grouped lists, summing list lengths is counting records. */
  lemma {:induction false} SumLengthsIsCount(m: map<string, seq<real>>, rows: seq<Row>, parse: Parser, keys: seq<string>)
    requires Groups(m, rows, parse)
    requires forall i :: 0 <= i < |keys| ==> keys[i] in m
    ensures SumLengths(m, keys) == CountIn(ValidRecords(rows, parse), keys)
    decreases |keys|
  {
    if keys != [] {
      SumLengthsIsCount(m, rows, parse, keys[1..]);
    }
  }

  /** The list lengths add up to the number of valid rows. */
  lemma GroupLengths(m: map<string, seq<real>>, rows: seq<Row>, parse: Parser)
    requires Groups(m, rows, parse)
    ensures TotalLength(m) == |ValidRecords(rows, parse)|
  {
    var keys := SortedKeys(m.Keys);
    var records := ValidRecords(rows, parse);
    SumLengthsIsCount(m, rows, parse, keys);
    forall r | r in records
      ensures r.station in keys
    {
      ValuesInNonEmpty(records, r.station);
    }
    SortedDistinct(keys);
    CountAll(records, keys);
  }

  /** `calculate_statistics`: for every list, in whatever order
      `temperature_data.items()` yields them, `min`, `sum / len` and `max`.
      `min` of an empty list raises, so the lists must be non-empty, as
      `read_temperatures` makes them. */
  method CalculateStatistics(temperatureData: map<string, seq<real>>) returns (results: map<string, Line>)
    requires forall k :: k in temperatureData ==> |temperatureData[k]| > 0
    ensures results.Keys == temperatureData.Keys
    ensures forall k :: k in results ==>
      results[k] == TrueLine(k, temperatureData[k]) && results[k].min <= results[k].mean <= results[k].max
  {
    results := map[];
    var remaining := temperatureData.Keys;
    while remaining != {}
      invariant remaining <= temperatureData.Keys
      invariant results.Keys == temperatureData.Keys - remaining
      invariant forall k :: k in results ==> results[k] == TrueLine(k, temperatureData[k])
      decreases remaining
    {
      var station :| station in remaining;
      var temperatures := temperatureData[station];
      results := results[station := Line(station, SeqMin(temperatures), Sum(temperatures) / (|temperatures| as real), SeqMax(temperatures))];
      remaining := remaining - {station};
    }
  }

  /** The statistics of the grouped lists are the expected report entries. */
  lemma StatisticsAreExpected(byStation: map<string, seq<real>>, results: map<string, Line>, rows: seq<Row>, parse: Parser)
    requires Groups(byStation, rows, parse)
    requires forall k :: k in byStation ==> |byStation[k]| > 0
    requires results.Keys == byStation.Keys
    requires forall k :: k in results ==> results[k] == TrueLine(k, byStation[k])
    ensures results == Expected(rows, parse)
  {
    var records := ValidRecords(rows, parse);
    forall k
      ensures k in results <==> k in StationsIn(records)
    {
      ValuesInNonEmpty(records, k);
    }
  }

  /** `process_temperatures` without the file writing and timing:
      `format_results` is the sorted listing of the statistics. */
  method ProcessTemperatures(rows: seq<Row>, parse: Parser) returns (formatted: seq<Line>)
    ensures Lists(formatted, Expected(rows, parse))
  {
    var temperatureData := ReadTemperatures(rows, parse);
    var stats := CalculateStatistics(temperatureData);
    StatisticsAreExpected(temperatureData, stats, rows, parse);
    formatted := SortedListing(stats);
  }
}
