/** The running per-station aggregate (`count`, `sum`, `min`, `max`) that
    the two incremental variants keep in a dictionary, the rule one row
    applies to it, and what the dictionary holds after a sequence of rows. */
module Aggregation {
  import opened RealSeq
  import opened Records
  import opened Report

  /** One station's running aggregate. */
  datatype Agg = Agg(count: nat, sum: real, min: real, max: real)

  /** The `stats` dictionary, keyed by station. */
  type Stats = map<string, Agg>

  /** One valid record folded into the dictionary; a station's entry is
      created by its first valid record. */
  function Apply(stats: Stats, r: Record): Stats
  {
    var t := r.temp;
    if r.station in stats then
      var a := stats[r.station];
      stats[r.station := Agg(a.count + 1, a.sum + t, Min(a.min, t), Max(a.max, t))]
    else
      stats[r.station := Agg(1, t, t, t)]
  }

  /** The effect of one row on the dictionary. */
  function Step(stats: Stats, row: Row, parse: Parser): Stats
  {
    match ParseRow(row, parse)
    case None => stats
    case Some(rec) => Apply(stats, rec)
  }

  /** A malformed or unparsable row changes nothing (in particular it adds
      no station); a valid row adds its station if it is new, raises its
      count by one and its sum by the temperature, lowers or raises min and
      max towards the temperature, and leaves every other station as it was. */
  lemma StepEffect(stats: Stats, row: Row, parse: Parser)
    ensures |row| != 2 ==> Step(stats, row, parse) == stats
    ensures |row| == 2 && parse(row[1]).None? ==> Step(stats, row, parse) == stats
    ensures |row| == 2 && parse(row[1]).Some? ==>
      var r, station, t := Step(stats, row, parse), row[0], parse(row[1]).value;
      && r.Keys == stats.Keys + {station}
      && (forall k :: k in stats && k != station ==> r[k] == stats[k])
      && r[station].count == (if station in stats then stats[station].count else 0) + 1
      && r[station].sum == (if station in stats then stats[station].sum else 0.0) + t
      && r[station].min == (if station in stats then Min(stats[station].min, t) else t)
      && r[station].max == (if station in stats then Max(stats[station].max, t) else t)
  {
  }

  /** The effect of one row on one station's entry. */
  lemma StepAt(stats: Stats, row: Row, parse: Parser, station: string)
    ensures var r := Step(stats, row, parse);
      if |row| == 2 && parse(row[1]).Some? && row[0] == station then
        var t := parse(row[1]).value;
        station in r && r[station] == (
          if station in stats then
            Agg(stats[station].count + 1, stats[station].sum + t, Min(stats[station].min, t), Max(stats[station].max, t))
          else Agg(1, t, t, t))
      else
        (station in r <==> station in stats) && (station in stats ==> r[station] == stats[station])
  {
  }

  /** The dictionary after processing `rows`, in order, starting from `stats`. */
  function Aggregate(stats: Stats, rows: seq<Row>, parse: Parser): Stats
    decreases |rows|
  {
    if rows == [] then stats
    else Step(Aggregate(stats, rows[..|rows| - 1], parse), rows[|rows| - 1], parse)
  }

  /** An entry that only valid records can have produced: at least one record,
      and `count * min <= sum <= count * max`, so `min <= max`. */
  ghost predicate Consistent(a: Agg)
  {
    a.count >= 1 && a.min <= a.max && Scale(a.min, a.count) <= a.sum <= Scale(a.max, a.count)
  }

  ghost predicate WellFormed(stats: Stats)
  {
    forall k :: k in stats ==> Consistent(stats[k])
  }

  lemma StepPreservesWellFormed(stats: Stats, row: Row, parse: Parser)
    requires WellFormed(stats)
    ensures WellFormed(Step(stats, row, parse))
  {
    match ParseRow(row, parse)
    case None =>
    case Some(rec) =>
      if rec.station in stats {
        var a := stats[rec.station];
        var lo, hi := Min(a.min, rec.temp), Max(a.max, rec.temp);
        ScaleMonotone(lo, a.min, a.count);
        ScaleMonotone(a.max, hi, a.count);
        assert Consistent(Agg(a.count + 1, a.sum + rec.temp, lo, hi));
      } else {
        assert Scale(rec.temp, 1) == rec.temp;
      }
  }

  /** The invariant: processing rows keeps every entry consistent. */
  lemma {:induction false} AggregateWellFormed(stats: Stats, rows: seq<Row>, parse: Parser)
    requires WellFormed(stats)
    ensures WellFormed(Aggregate(stats, rows, parse))
    decreases |rows|
  {
    if rows != [] {
      AggregateWellFormed(stats, rows[..|rows| - 1], parse);
      StepPreservesWellFormed(Aggregate(stats, rows[..|rows| - 1], parse), rows[|rows| - 1], parse);
    }
  }

  /** Processing `a` and then `b` is processing `a + b`: the dictionary can
      be fed in chunks of any size without changing the result. */
  lemma {:induction false} AggregateConcat(stats: Stats, a: seq<Row>, b: seq<Row>, parse: Parser)
    ensures Aggregate(stats, a + b, parse) == Aggregate(Aggregate(stats, a, parse), b, parse)
    decreases |b|
  {
    if b == [] {
      assert a + b == a;
    } else {
      assert (a + b)[..|a + b| - 1] == a + b[..|b| - 1];
      AggregateConcat(stats, a, b[..|b| - 1], parse);
    }
  }

  /** Inserting a row that fails the filter anywhere changes nothing. */
  lemma SkipRobust(stats: Stats, a: seq<Row>, row: Row, b: seq<Row>, parse: Parser)
    requires ParseRow(row, parse).None?
    ensures Aggregate(stats, a + [row] + b, parse) == Aggregate(stats, a + b, parse)
  {
    AggregateConcat(stats, a + [row], b, parse);
    AggregateConcat(stats, a, b, parse);
    assert (a + [row])[..|a|] == a;
  }

  /** A station with no valid row keeps its entry (or its absence). */
  lemma {:induction false} AggregateFrame(stats: Stats, rows: seq<Row>, parse: Parser, station: string)
    requires ValuesOf(rows, parse, station) == []
    ensures var r := Aggregate(stats, rows, parse);
      (station in r <==> station in stats) && (station in stats ==> r[station] == stats[station])
    decreases |rows|
  {
    if rows != [] {
      var init, last := rows[..|rows| - 1], rows[|rows| - 1];
      ValuesOfLast(rows, parse, station);
      AggregateFrame(stats, init, parse, station);
      StepAt(Aggregate(stats, init, parse), last, parse, station);
    }
  }

  /** Starting from an empty dictionary, a station's entry summarises exactly
      the list of its valid temperatures: the count is the list's length, the
      sum its sum, and min and max its minimum and maximum. */
  lemma {:induction false} AggregateSummarises(rows: seq<Row>, parse: Parser, station: string)
    ensures var r, vs := Aggregate(map[], rows, parse), ValuesOf(rows, parse, station);
      && (station in r <==> vs != [])
      && (station in r ==> r[station] == Agg(|vs|, Sum(vs), SeqMin(vs), SeqMax(vs)))
    decreases |rows|
  {
    if rows != [] {
      var init, last := rows[..|rows| - 1], rows[|rows| - 1];
      var prev := Aggregate(map[], init, parse);
      assert Aggregate(map[], rows, parse) == Step(prev, last, parse);
      AggregateSummarises(init, parse, station);
      ValuesOfLast(rows, parse, station);
      StepAt(prev, last, parse, station);
      var hit := |last| == 2 && parse(last[1]).Some? && last[0] == station;
      SummaryStep(prev, Step(prev, last, parse), ValuesOf(init, parse, station), ValuesOf(rows, parse, station),
                  station, hit, if hit then parse(last[1]).value else 0.0);
    }
  }

  /** The summary of a list of temperatures: none for an empty list. */
  function AggOf(vs: seq<real>): Option<Agg>
  {
    if vs == [] then None else Some(Agg(|vs|, Sum(vs), SeqMin(vs), SeqMax(vs)))
  }

  /** An entry summarises a list of values. */
  ghost predicate Summarises(stats: Stats, vs: seq<real>, station: string)
  {
    Lookup(stats, station) == AggOf(vs)
  }

  /** A row that adds `t` to the list updates the entry accordingly; any
      other row leaves both alone. */
  lemma SummaryStep(prev: Stats, next: Stats, vs0: seq<real>, vs: seq<real>, station: string, hit: bool, t: real)
    requires Summarises(prev, vs0, station)
    requires hit ==>
      && vs == vs0 + [t] && station in next
      && next[station] == (
           if station in prev then
             Agg(prev[station].count + 1, prev[station].sum + t, Min(prev[station].min, t), Max(prev[station].max, t))
           else Agg(1, t, t, t))
    requires !hit ==> vs == vs0 && (station in next <==> station in prev) && (station in prev ==> next[station] == prev[station])
    ensures Summarises(next, vs, station)
  {
    if hit {
      SummaryAppend(vs0, t);
    }
  }

  /** Length, sum, minimum and maximum of a list extended by one value. */
  lemma SummaryAppend(vs: seq<real>, t: real)
    ensures var ws := vs + [t];
      && |ws| == |vs| + 1 && Sum(ws) == Sum(vs) + t
      && SeqMin(ws) == (if vs == [] then t else Min(SeqMin(vs), t))
      && SeqMax(ws) == (if vs == [] then t else Max(SeqMax(vs), t))
  {
    assert (vs + [t])[..|vs|] == vs;
  }

  /** The stations in the dictionary are those with a valid row. */
  lemma AggregateKeys(rows: seq<Row>, parse: Parser)
    ensures Aggregate(map[], rows, parse).Keys == StationsIn(ValidRecords(rows, parse))
  {
    forall k
      ensures k in Aggregate(map[], rows, parse) <==> k in StationsIn(ValidRecords(rows, parse))
    {
      AggregateSummarises(rows, parse, k);
      ValuesInNonEmpty(ValidRecords(rows, parse), k);
    }
  }

  /** The finaliser's mean, `sum / count`, lies between `min` and `max`. */
  lemma MeanWithinBounds(a: Agg)
    requires Consistent(a)
    ensures a.min <= a.sum / (a.count as real) <= a.max
  {
    PartBounds(a.min, a.max, a.sum, a.count);
  }

  /** The line `format_results` writes for one entry: mean = sum / count. */
  function FinalLine(station: string, a: Agg): Line
    requires a.count > 0
  {
    Line(station, a.min, a.sum / (a.count as real), a.max)
  }

  /** Every entry finalised. */
  ghost function Finalised(stats: Stats): map<string, Line>
    requires forall k :: k in stats ==> stats[k].count > 0
  {
    map k | k in stats :: FinalLine(k, stats[k])
  }

  /** On a well-formed dictionary every finalised line has min <= mean <= max. */
  lemma FinalisedWithinBounds(stats: Stats)
    requires WellFormed(stats)
    ensures forall k :: k in stats ==> stats[k].count > 0
    ensures forall k :: k in Finalised(stats) ==> Finalised(stats)[k].min <= Finalised(stats)[k].mean <= Finalised(stats)[k].max
  {
    forall k | k in stats
      ensures FinalLine(k, stats[k]).min <= FinalLine(k, stats[k]).mean <= FinalLine(k, stats[k]).max
    {
      MeanWithinBounds(stats[k]);
    }
  }

  /** One station's finalised entry is its line in the expected report. */
  lemma FinalLineIsExpected(rows: seq<Row>, parse: Parser, station: string)
    requires station in Aggregate(map[], rows, parse)
    ensures Aggregate(map[], rows, parse)[station].count > 0
    ensures var vs := ValuesOf(rows, parse, station);
      |vs| > 0 && FinalLine(station, Aggregate(map[], rows, parse)[station]) == TrueLine(station, vs)
  {
    AggregateSummarises(rows, parse, station);
  }

  /** Finalising the dictionary built from `rows` gives, for every station,
      the minimum, mean and maximum of its list of valid temperatures. */
  lemma FinalisedIsExpected(rows: seq<Row>, parse: Parser)
    ensures var r := Aggregate(map[], rows, parse);
      (forall k :: k in r ==> r[k].count > 0) && Finalised(r) == Expected(rows, parse)
  {
    var r := Aggregate(map[], rows, parse);
    AggregateKeys(rows, parse);
    forall k | k in r
      ensures r[k].count > 0
    {
      FinalLineIsExpected(rows, parse, k);
    }
    var f, e := Finalised(r), Expected(rows, parse);
    assert f.Keys == e.Keys;
    forall k | k in f
      ensures f[k] == e[k]
    {
      FinalLineIsExpected(rows, parse, k);
    }
  }
}
