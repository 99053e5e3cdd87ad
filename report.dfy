/** The finished output of every variant: one line per station with its
    minimum, mean and maximum, in ascending station order. */
module Report {
  import opened StringOrder
  import opened RealSeq
  import opened Records

  /** One entry of the `formatted` dictionary (or one row of `df_kpi`). */
  datatype Line = Line(station: string, min: real, mean: real, max: real)

  /** The station of every line, in order. */
  function Stations(lines: seq<Line>): seq<string>
  {
    seq(|lines|, i requires 0 <= i < |lines| => lines[i].station)
  }

  /** `lines` lists exactly the entries of `expected`, one line per station,
      in ascending station order. */
  ghost predicate Lists(lines: seq<Line>, expected: map<string, Line>)
  {
    && StrictlySorted(Stations(lines))
    && (forall i :: 0 <= i < |lines| ==> lines[i].station in expected && expected[lines[i].station] == lines[i])
    && (forall k :: k in expected ==> exists i :: 0 <= i < |lines| && lines[i].station == k)
  }

  /** The statistics a station's list of temperatures determines. */
  function TrueLine(station: string, temps: seq<real>): (l: Line)
    requires |temps| > 0
    ensures l.min <= l.mean <= l.max
  {
    MeanBounds(temps);
    Line(station, SeqMin(temps), Mean(temps), SeqMax(temps))
  }

  /** What a run over `rows` should report: for every station with a valid
      row, the minimum, mean and maximum of its valid temperatures. */
  ghost function Expected(rows: seq<Row>, parse: Parser): map<string, Line>
  {
    ExpectedOf(ValidRecords(rows, parse))
  }

  /** The report a list of records determines: one line per station that
      occurs in it. */
  ghost function ExpectedOf(records: seq<Record>): map<string, Line>
  {
    ValuesNonEmpty(records);
    map k | k in StationsIn(records) :: TrueLine(k, ValuesIn(records, k))
  }

  lemma ValuesNonEmpty(records: seq<Record>)
    ensures forall k :: k in StationsIn(records) ==> |ValuesIn(records, k)| > 0
  {
    forall k | k in StationsIn(records)
      ensures |ValuesIn(records, k)| > 0
    {
      ValuesInNonEmpty(records, k);
    }
  }

  /** Listing the entries of a dictionary in `sorted` key order meets `Lists`. */
  lemma ListedInKeyOrder(lines: seq<Line>, expected: map<string, Line>)
    requires forall k :: k in expected ==> expected[k].station == k
    requires |lines| == |expected|
    requires forall i :: 0 <= i < |lines| ==> lines[i] == expected[SortedKeys(expected.Keys)[i]]
    ensures Lists(lines, expected)
  {
    var keys := SortedKeys(expected.Keys);
    assert Stations(lines) == keys;
    forall k | k in expected
      ensures exists i :: 0 <= i < |lines| && lines[i].station == k
    {
      var i :| 0 <= i < |keys| && keys[i] == k;
      assert lines[i].station == k;
    }
  }

  /** `dict(sorted(m.items()))`: the entries of `m` in ascending key order. */
  function SortedListing(m: map<string, Line>): (lines: seq<Line>)
    requires forall k :: k in m ==> m[k].station == k
    ensures Lists(lines, m)
  {
    var keys := SortedKeys(m.Keys);
    var lines := seq(|keys|, i requires 0 <= i < |keys| => m[keys[i]]);
    ListedInKeyOrder(lines, m);
    lines
  }

  /** Listings of two dictionaries with the same stations name the same
      stations in the same order. */
  lemma SameStations(a: seq<Line>, b: seq<Line>, ea: map<string, Line>, eb: map<string, Line>)
    requires Lists(a, ea) && Lists(b, eb) && ea.Keys == eb.Keys
    ensures Stations(a) == Stations(b)
  {
    forall k
      ensures k in Stations(a) <==> k in Stations(b)
    {
      if k in Stations(a) {
        StationCarried(a, b, ea, eb, k);
      }
      if k in Stations(b) {
        StationCarried(b, a, eb, ea, k);
      }
    }
    SortedUnique(Stations(a), Stations(b));
  }

  /** A station listed for one dictionary is listed for the other. */
  lemma StationCarried(a: seq<Line>, b: seq<Line>, ea: map<string, Line>, eb: map<string, Line>, k: string)
    requires Lists(a, ea) && Lists(b, eb) && ea.Keys == eb.Keys
    requires k in Stations(a)
    ensures k in Stations(b)
  {
    var i :| 0 <= i < |a| && Stations(a)[i] == k;
    assert k in eb;
    var j :| 0 <= j < |b| && b[j].station == k;
    assert Stations(b)[j] == k;
  }

  /** A listing of a dictionary is unique: any two agree line by line. */
  lemma ListingUnique(a: seq<Line>, b: seq<Line>, expected: map<string, Line>)
    requires Lists(a, expected) && Lists(b, expected)
    ensures a == b
  {
    SameStations(a, b, expected, expected);
    forall i | 0 <= i < |a|
      ensures a[i] == b[i]
    {
      assert Stations(a)[i] == Stations(b)[i];
    }
  }
}
