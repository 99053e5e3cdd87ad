/** Input rows as `csv.reader(file, delimiter=";")` yields them, the row
    filter every hand-written variant applies, and the per-station value
    lists that serve as the reference meaning of all aggregates. */
module Records {

  datatype Option<+T> = None | Some(value: T)

  /** `d.get(key)`. */
  function Lookup<K, V>(d: map<K, V>, key: K): Option<V>
  {
    if key in d then Some(d[key]) else None
  }

  /** One line of the input file, already split into fields. */
  type Row = seq<string>

  /** Python's `float` on a field: `None` where it raises `ValueError`. */
  type Parser = string -> Option<real>

  /** A row that passed the filter: its station and its temperature. */
  datatype Record = Record(station: string, temp: real)

  /** The filter: exactly two fields, and a second field that parses. */
  function ParseRow(row: Row, parse: Parser): Option<Record>
  {
    if |row| != 2 then None
    else match parse(row[1])
      case None => None
      case Some(t) => Some(Record(row[0], t))
  }

  /** The records of the rows that pass the filter, in input order. */
  function ValidRecords(rows: seq<Row>, parse: Parser): seq<Record>
    decreases |rows|
  {
    if rows == [] then []
    else
      var init := ValidRecords(rows[..|rows| - 1], parse);
      match ParseRow(rows[|rows| - 1], parse)
      case None => init
      case Some(r) => init + [r]
  }

  /** The temperatures recorded for `station`, in input order. */
  function ValuesIn(records: seq<Record>, station: string): seq<real>
    decreases |records|
  {
    if records == [] then []
    else
      var last := records[|records| - 1];
      ValuesIn(records[..|records| - 1], station) + (if last.station == station then [last.temp] else [])
  }

  /** The temperatures of the valid rows of `station`, in input order. */
  function ValuesOf(rows: seq<Row>, parse: Parser, station: string): seq<real>
  {
    ValuesIn(ValidRecords(rows, parse), station)
  }

  /** What the last row adds to a station's list of values. */
  lemma ValuesOfLast(rows: seq<Row>, parse: Parser, station: string)
    requires rows != []
    ensures var init, last := rows[..|rows| - 1], rows[|rows| - 1];
      ValuesOf(rows, parse, station)
        == ValuesOf(init, parse, station)
         + (if |last| == 2 && parse(last[1]).Some? && last[0] == station then [parse(last[1]).value] else [])
  {
    var init := ValidRecords(rows[..|rows| - 1], parse);
    match ParseRow(rows[|rows| - 1], parse)
    case None =>
    case Some(rec) =>
      assert (init + [rec])[..|init|] == init;
  }

  /** The stations that occur in some record. */
  function StationsIn(records: seq<Record>): set<string>
  {
    set r | r in records :: r.station
  }

  /** `xss` concatenated in order. */
  function Flatten<T>(xss: seq<seq<T>>): seq<T>
    decreases |xss|
  {
    if xss == [] then [] else Flatten(xss[..|xss| - 1]) + xss[|xss| - 1]
  }

  lemma {:induction false} FlattenCons<T>(xs: seq<T>, xss: seq<seq<T>>)
    ensures Flatten([xs] + xss) == xs + Flatten(xss)
    decreases |xss|
  {
    if xss != [] {
      var init := xss[..|xss| - 1];
      assert ([xs] + xss)[..|xss|] == [xs] + init;
      FlattenCons(xs, init);
    }
  }

  lemma {:induction false} ValuesInAppend(a: seq<Record>, b: seq<Record>, station: string)
    ensures ValuesIn(a + b, station) == ValuesIn(a, station) + ValuesIn(b, station)
    decreases |b|
  {
    if b == [] {
      assert a + b == a;
    } else {
      assert (a + b)[..|a + b| - 1] == a + b[..|b| - 1];
      ValuesInAppend(a, b[..|b| - 1], station);
    }
  }

  /** A station has a value exactly when it occurs in some record. */
  lemma {:induction false} ValuesInNonEmpty(records: seq<Record>, station: string)
    ensures station in StationsIn(records) <==> ValuesIn(records, station) != []
    decreases |records|
  {
    if records != [] {
      var init, last := records[..|records| - 1], records[|records| - 1];
      ValuesInNonEmpty(init, station);
      assert records == init + [last];
      assert StationsIn(records) == StationsIn(init) + {last.station};
    }
  }

  /** Only the rows that pass the filter contribute a record, one each. */
  lemma {:induction false} ValidRecordsAppend(a: seq<Row>, b: seq<Row>, parse: Parser)
    ensures ValidRecords(a + b, parse) == ValidRecords(a, parse) + ValidRecords(b, parse)
    decreases |b|
  {
    if b == [] {
      assert a + b == a;
    } else {
      assert (a + b)[..|a + b| - 1] == a + b[..|b| - 1];
      ValidRecordsAppend(a, b[..|b| - 1], parse);
    }
  }
}
