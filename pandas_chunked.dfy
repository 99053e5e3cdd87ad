/** src/etl_pandas_chuncking.py: `read_csv` yields the records in chunks of
    `chunksize`; per chunk, each station's group minimum, maximum and mean
    are merged into the `stats` dictionary (min of mins, max of maxes, and
    the list of chunk means), and the report takes the mean of the chunk
    means and sorts by station. */
module PandasChunked {
  import opened StringOrder
  import opened RealSeq
  import opened Records
  import opened Report

  /** What `chunk.groupby("station")` yields for one group: its `min`,
      `max` and `mean` temperature. */
  datatype ChunkStat = ChunkStat(min: real, max: real, mean: real)

  /** `stats[station]`: the running minimum, the list of chunk means and
      the running maximum. */
  datatype Entry = Entry(min: real, means: seq<real>, max: real)

  type Table = map<string, Entry>

  /** The chunks `read_csv(..., chunksize=n)` yields: consecutive slices of
      `n` records, the last one possibly shorter, together the whole input. */
  function Chunks(records: seq<Record>, n: nat): (chunks: seq<seq<Record>>)
    requires n > 0
    ensures Flatten(chunks) == records
    ensures forall i :: 0 <= i < |chunks| ==> 0 < |chunks[i]| <= n
    ensures forall i :: 0 <= i < |chunks| - 1 ==> |chunks[i]| == n
    decreases |records|
  {
    if records == [] then []
    else if |records| <= n then
      assert [records][..0] == [];
      [records]
    else
      var rest := Chunks(records[n..], n);
      FlattenCons(records[..n], rest);
      assert records[..n] + records[n..] == records;
      [records[..n]] + rest
  }

  /** The groups of one chunk, keyed by station, each with the minimum,
      maximum and mean of that station's temperatures in the chunk. */
  function GroupChunk(chunk: seq<Record>): map<string, ChunkStat>
  {
    ValuesNonEmpty(chunk);
    map k | k in StationsIn(chunk) ::
      ChunkStat(SeqMin(ValuesIn(chunk, k)), SeqMax(ValuesIn(chunk, k)), Mean(ValuesIn(chunk, k)))
  }

  /** One group merged into `stats[station]`: the first chunk a station
      appears in creates its entry with a one-element list of means; a later
      one takes the smaller minimum and the larger maximum and appends its
      mean. */
  function MergeEntry(current: Option<Entry>, g: ChunkStat): Entry
  {
    match current
    case None => Entry(g.min, [g.mean], g.max)
    case Some(s) => Entry(Min(s.min, g.min), s.means + [g.mean], Max(s.max, g.max))
  }

  /** The groups of `keys`, merged in that order. */
  function MergeGroups(stats: Table, groups: map<string, ChunkStat>, keys: seq<string>): Table
    requires forall i :: 0 <= i < |keys| ==> keys[i] in groups
    decreases |keys|
  {
    if keys == [] then stats
    else
      var prev, last := MergeGroups(stats, groups, keys[..|keys| - 1]), keys[|keys| - 1];
      prev[last := MergeEntry(Lookup(prev, last), groups[last])]
  }

  /** Merging distinct groups touches each station at most once: the
      station of a merged group gets its entry (or none) merged with the
      group, and every other station keeps its entry or its absence. */
  lemma {:induction false} MergeGroupsAt(stats: Table, groups: map<string, ChunkStat>, keys: seq<string>, k: string)
    requires forall i :: 0 <= i < |keys| ==> keys[i] in groups
    requires Distinct(keys)
    ensures Lookup(MergeGroups(stats, groups, keys), k)
         == if k in keys then Some(MergeEntry(Lookup(stats, k), groups[k])) else Lookup(stats, k)
    decreases |keys|
  {
    if keys != [] {
      var init, last := keys[..|keys| - 1], keys[|keys| - 1];
      assert keys == init + [last];
      MergeGroupsAt(stats, groups, init, k);
      if k == last {
        assert k !in init;
      }
    }
  }

  /** Merging the next group, written out as the loop body does it. */
  lemma MergeGroupsNext(stats: Table, groups: map<string, ChunkStat>, keys: seq<string>, j: nat)
    requires forall i :: 0 <= i < |keys| ==> keys[i] in groups
    requires j < |keys|
    ensures var u, station := MergeGroups(stats, groups, keys[..j]), keys[j];
      var g := groups[station];
      MergeGroups(stats, groups, keys[..j + 1])
        == if station !in u then u[station := Entry(g.min, [g.mean], g.max)]
           else u[station := Entry(Min(u[station].min, g.min), u[station].means + [g.mean], Max(u[station].max, g.max))]
  {
    assert keys[..j + 1][..j] == keys[..j];
  }

  /** One chunk merged; `groupby` yields its groups in ascending station order. */
  function MergeChunk(stats: Table, chunk: seq<Record>): Table
  {
    var groups := GroupChunk(chunk);
    MergeGroups(stats, groups, SortedKeys(groups.Keys))
  }

  /** `stats` after the chunks `chunks`. */
  function MergeAll(chunks: seq<seq<Record>>): Table
    decreases |chunks|
  {
    if chunks == [] then map[] else MergeChunk(MergeAll(chunks[..|chunks| - 1]), chunks[|chunks| - 1])
  }

  /** The mean of `station` in every chunk that holds it, in chunk order. */
  function ChunkMeans(chunks: seq<seq<Record>>, station: string): seq<real>
    decreases |chunks|
  {
    if chunks == [] then []
    else
      var vs := ValuesIn(chunks[|chunks| - 1], station);
      ChunkMeans(chunks[..|chunks| - 1], station) + (if vs == [] then [] else [Mean(vs)])
  }

  /** A station has chunk means exactly when it occurs in some chunk. */
  lemma {:induction false} ChunkMeansEmpty(chunks: seq<seq<Record>>, station: string)
    ensures ChunkMeans(chunks, station) == [] <==> ValuesIn(Flatten(chunks), station) == []
    decreases |chunks|
  {
    if chunks != [] {
      var init := chunks[..|chunks| - 1];
      ChunkMeansEmpty(init, station);
      ValuesInAppend(Flatten(init), chunks[|chunks| - 1], station);
    }
  }

  /** The entry a list of temperatures and a list of chunk means give a
      station: none while the station has no record. */
  function Summary(vs: seq<real>, means: seq<real>): Option<Entry>
  {
    if vs == [] then None else Some(Entry(SeqMin(vs), means, SeqMax(vs)))
  }

  /** One chunk's effect on one station: a station with records in the
      chunk has that group merged into its entry, any other is untouched. */
  lemma MergeChunkAt(stats: Table, chunk: seq<Record>, k: string)
    ensures var vs := ValuesIn(chunk, k);
      Lookup(MergeChunk(stats, chunk), k)
        == if vs == [] then Lookup(stats, k)
           else Some(MergeEntry(Lookup(stats, k), ChunkStat(SeqMin(vs), SeqMax(vs), Mean(vs))))
  {
    var groups := GroupChunk(chunk);
    var keys := SortedKeys(groups.Keys);
    assert MergeChunk(stats, chunk) == MergeGroups(stats, groups, keys);
    SortedDistinct(keys);
    MergeGroupsAt(stats, groups, keys, k);
    ValuesInNonEmpty(chunk, k);
    var vs := ValuesIn(chunk, k);
    if vs != [] {
      assert k in keys && groups[k] == ChunkStat(SeqMin(vs), SeqMax(vs), Mean(vs));
    } else {
      assert k !in keys;
    }
  }

  /** After all chunks, a station is in `stats` exactly when it has a
      record; its minimum and maximum are those of all its temperatures,
      and its list of means has one entry per chunk that holds it. */
  lemma {:induction false} MergeAllSummarises(chunks: seq<seq<Record>>, k: string)
    ensures Lookup(MergeAll(chunks), k) == Summary(ValuesIn(Flatten(chunks), k), ChunkMeans(chunks, k))
    decreases |chunks|
  {
    if chunks != [] {
      var init, last := chunks[..|chunks| - 1], chunks[|chunks| - 1];
      var prev := MergeAll(init);
      MergeAllSummarises(init, k);
      ChunkMeansEmpty(init, k);
      MergeChunkAt(prev, last, k);
      ValuesInAppend(Flatten(init), last, k);
      EntryStep(ValuesIn(Flatten(init), k), ValuesIn(last, k), ChunkMeans(init, k));
    }
  }

  /** The inductive step of `MergeAllSummarises`, on the values alone: a
      chunk holding the values `vl` of a station turns the summary of `vs0`
      into the summary of `vs0 + vl`. */
  lemma EntryStep(vs0: seq<real>, vl: seq<real>, means0: seq<real>)
    requires means0 == [] <==> vs0 == []
    ensures Summary(vs0 + vl, means0 + (if vl == [] then [] else [Mean(vl)]))
         == if vl == [] then Summary(vs0, means0)
            else Some(MergeEntry(Summary(vs0, means0), ChunkStat(SeqMin(vl), SeqMax(vl), Mean(vl))))
  {
    if vl == [] {
      assert vs0 + vl == vs0;
      assert means0 + [] == means0;
    } else if vs0 == [] {
      assert vs0 + vl == vl;
      assert means0 + [Mean(vl)] == [Mean(vl)];
    } else {
      SeqMinAppend(vs0, vl);
      SeqMaxAppend(vs0, vl);
    }
  }

  /** The `df_kpi` row of one entry: the mean is `pd.Series(means).mean()`. */
  function KpiLine(station: string, e: Entry): Line
    requires |e.means| > 0
  {
    Line(station, e.min, Mean(e.means), e.max)
  }

  /** The report the source computes with chunks of `n` records: the true
      minimum and maximum of every station, and the mean of its chunk means. */
  ghost function ChunkedReport(records: seq<Record>, n: nat): map<string, Line>
    requires n > 0
  {
    map k | k in StationsIn(records) :: ChunkedLine(records, n, k)
  }

  function ChunkedLine(records: seq<Record>, n: nat, k: string): Line
    requires n > 0 && k in StationsIn(records)
  {
    ValuesInNonEmpty(records, k);
    ChunkMeansEmpty(Chunks(records, n), k);
    Line(k, SeqMin(ValuesIn(records, k)), Mean(ChunkMeans(Chunks(records, n), k)), SeqMax(ValuesIn(records, k)))
  }

  /** One station's entry after the chunk loop and its `df_kpi` row. */
  lemma TableEntry(records: seq<Record>, n: nat, k: string)
    requires n > 0
    ensures var t := MergeAll(Chunks(records, n));
      && (k in t <==> k in StationsIn(records))
      && (k in t ==> |t[k].means| > 0 && KpiLine(k, t[k]) == ChunkedLine(records, n, k))
  {
    MergeAllSummarises(Chunks(records, n), k);
    ValuesInNonEmpty(records, k);
    ChunkMeansEmpty(Chunks(records, n), k);
  }

  /** After the chunk loop, `stats` holds the stations of the input, each
      with at least one mean. */
  lemma TableKeys(records: seq<Record>, n: nat)
    requires n > 0
    ensures var t := MergeAll(Chunks(records, n));
      t.Keys == StationsIn(records) && forall k :: k in t ==> |t[k].means| > 0
  {
    var t := MergeAll(Chunks(records, n));
    forall k
      ensures k in t <==> k in StationsIn(records)
      ensures k in t ==> |t[k].means| > 0
    {
      TableEntry(records, n, k);
    }
  }

  /** The `df_kpi` rows of the table after the chunk loop are `ChunkedReport`. */
  lemma TableIsReport(records: seq<Record>, n: nat)
    requires n > 0
    ensures var t := MergeAll(Chunks(records, n));
      && t.Keys == StationsIn(records)
      && (forall k :: k in t ==> |t[k].means| > 0)
      && (map k | k in t :: KpiLine(k, t[k])) == ChunkedReport(records, n)
  {
    var t := MergeAll(Chunks(records, n));
    TableKeys(records, n);
    forall k | k in t
      ensures KpiLine(k, t[k]) == ChunkedLine(records, n, k)
    {
      TableEntry(records, n, k);
    }
    KpiIsReport(t, records, n);
  }

  lemma KpiIsReport(t: Table, records: seq<Record>, n: nat)
    requires n > 0 && t.Keys == StationsIn(records)
    requires forall k :: k in t ==> |t[k].means| > 0 && KpiLine(k, t[k]) == ChunkedLine(records, n, k)
    ensures (map k | k in t :: KpiLine(k, t[k])) == ChunkedReport(records, n)
  {
  }

  /** The stations of a list of records are empty only for the empty list. */
  lemma NoStations(records: seq<Record>)
    ensures StationsIn(records) == {} <==> records == []
  {
    if records != [] {
      assert records[0].station in StationsIn(records);
    }
  }

  /** The groups of one chunk, visited in the order `stations`, merged into `stats`. */
  method MergeChunkGroups(stats: Table, groups: map<string, ChunkStat>, stations: seq<string>) returns (updated: Table)
    requires forall i :: 0 <= i < |stations| ==> stations[i] in groups
    ensures updated == MergeGroups(stats, groups, stations)
  {
    updated := stats;
    for j := 0 to |stations|
      invariant updated == MergeGroups(stats, groups, stations[..j])
    {
      MergeGroupsNext(stats, groups, stations, j);
      var station := stations[j];
      var g := groups[station];
      if station !in updated {
        updated := updated[station := Entry(g.min, [g.mean], g.max)];
      } else {
        var s := updated[station];
        updated := updated[station := Entry(Min(s.min, g.min), s.means + [g.mean], Max(s.max, g.max))];
      }
    }
    assert stations[..|stations|] == stations;
  }

  lemma MergeAllNext(chunks: seq<seq<Record>>, c: nat)
    requires c < |chunks|
    ensures MergeAll(chunks[..c + 1]) == MergeChunk(MergeAll(chunks[..c]), chunks[c])
  {
    assert chunks[..c + 1][..c] == chunks[..c];
  }

  /** `process_with_pandas_chunked` over the records `read_csv` parses.
      A `chunksize` below one makes `read_csv` raise, and an input without
      records leaves `df_kpi` without a `station` column, so `sort_values`
      raises; both exceptions are caught and nothing is reported. Otherwise
      the report lists every station once, in ascending order, with its
      true minimum and maximum and the mean of its chunk means. */
  method ProcessWithPandasChunked(records: seq<Record>, chunkSize: int) returns (report: Option<seq<Line>>)
    ensures report.None? <==> chunkSize < 1 || records == []
    ensures report.Some? ==> chunkSize >= 1 && Lists(report.value, ChunkedReport(records, chunkSize))
  {
    if chunkSize < 1 {
      return None;
    }
    var chunks := Chunks(records, chunkSize);
    var stats: Table := map[];
    for c := 0 to |chunks|
      invariant stats == MergeAll(chunks[..c])
    {
      MergeAllNext(chunks, c);
      var groups := GroupChunk(chunks[c]);
      stats := MergeChunkGroups(stats, groups, SortedKeys(groups.Keys));
    }
    assert chunks[..|chunks|] == chunks;
    TableIsReport(records, chunkSize);
    NoStations(records);
    if |stats| == 0 {
      return None;
    }
    var kpi := map st | st in stats :: KpiLine(st, stats[st]);
    report := Some(SortedListing(kpi));
  }

  /** The minimum and maximum agree with those of all the records, and the
      stations are those of the records, whatever the chunk size. */
  lemma ChunkedExtremes(records: seq<Record>, n: nat)
    requires n > 0
    ensures ChunkedReport(records, n).Keys == ExpectedOf(records).Keys
    ensures forall k :: k in ExpectedOf(records) ==>
      ChunkedReport(records, n)[k].min == ExpectedOf(records)[k].min
      && ChunkedReport(records, n)[k].max == ExpectedOf(records)[k].max
  {
  }

  /** A station whose records all lie in one chunk gets its true mean. */
  lemma {:induction false} SingleChunkMean(chunks: seq<seq<Record>>, k: string)
    requires |ChunkMeans(chunks, k)| == 1
    ensures ValuesIn(Flatten(chunks), k) != []
    ensures Mean(ChunkMeans(chunks, k)) == Mean(ValuesIn(Flatten(chunks), k))
    decreases |chunks|
  {
    var init, last := chunks[..|chunks| - 1], chunks[|chunks| - 1];
    var vl := ValuesIn(last, k);
    ValuesInAppend(Flatten(init), last, k);
    if vl == [] {
      SingleChunkMean(init, k);
      assert ValuesIn(Flatten(init), k) + vl == ValuesIn(Flatten(init), k);
    } else {
      ChunkMeansEmpty(init, k);
      assert ValuesIn(Flatten(init), k) + vl == vl;
      assert Sum([Mean(vl)]) == Sum([]) + Mean(vl);
    }
  }

  /** With a `chunksize` no smaller than the input, there is one chunk and
      the report is exact. */
  lemma OneChunkExact(records: seq<Record>, n: nat)
    requires n > 0 && |records| <= n
    ensures ChunkedReport(records, n) == ExpectedOf(records)
  {
    var chunked, expected := ChunkedReport(records, n), ExpectedOf(records);
    forall k | k in StationsIn(records)
      ensures chunked[k] == expected[k]
    {
      ValuesInNonEmpty(records, k);
      assert Chunks(records, n) == [records];
      SingleChunkMean([records], k);
    }
  }

  lemma ValuesInSnoc(records: seq<Record>, r: Record, k: string)
    ensures ValuesIn(records + [r], k) == ValuesIn(records, k) + (if r.station == k then [r.temp] else [])
  {
    assert (records + [r])[..|records|] == records;
  }

  lemma ChunkMeansSnoc(chunks: seq<seq<Record>>, c: seq<Record>, k: string)
    ensures ChunkMeans(chunks + [c], k)
         == ChunkMeans(chunks, k) + (if ValuesIn(c, k) == [] then [] else [Mean(ValuesIn(c, k))])
  {
    assert (chunks + [c])[..|chunks|] == chunks;
  }

  lemma SumSnoc(s: seq<real>, x: real)
    ensures Sum(s + [x]) == Sum(s) + x
  {
    assert (s + [x])[..|s|] == s;
  }

  /** The three records of the example below. */
  function Example(): seq<Record>
  {
    [Record("A", 0.0), Record("A", 2.0), Record("A", 4.0)]
  }

  lemma ExampleChunks()
    ensures Chunks(Example(), 2) == [Example()[..2], Example()[2..]]
  {
    assert Chunks(Example()[2..], 2) == [Example()[2..]];
  }

  lemma ExampleValues()
    ensures ValuesIn(Example()[..2], "A") == [0.0, 2.0]
    ensures ValuesIn(Example()[2..], "A") == [4.0]
    ensures ValuesIn(Example(), "A") == [0.0, 2.0, 4.0]
  {
    var r0, r1, r2 := Record("A", 0.0), Record("A", 2.0), Record("A", 4.0);
    ValuesInSnoc([], r0, "A");
    assert [] + [r0] == [r0];
    ValuesInSnoc([r0], r1, "A");
    assert [r0] + [r1] == Example()[..2];
    ValuesInSnoc([], r2, "A");
    assert [] + [r2] == Example()[2..];
    ValuesInSnoc(Example()[..2], r2, "A");
    assert Example()[..2] + [r2] == Example();
  }

  lemma ExampleMeans()
    ensures Mean([0.0, 2.0]) == 1.0 && Mean([4.0]) == 4.0 && Mean([1.0, 4.0]) == 2.5 && Mean([0.0, 2.0, 4.0]) == 2.0
  {
    SumSnoc([], 0.0);
    assert [] + [0.0] == [0.0];
    SumSnoc([0.0], 2.0);
    assert [0.0] + [2.0] == [0.0, 2.0];
    SumSnoc([0.0, 2.0], 4.0);
    assert [0.0, 2.0] + [4.0] == [0.0, 2.0, 4.0];
    SumSnoc([], 4.0);
    assert [] + [4.0] == [4.0];
    SumSnoc([], 1.0);
    assert [] + [1.0] == [1.0];
    SumSnoc([1.0], 4.0);
    assert [1.0] + [4.0] == [1.0, 4.0];
  }

  /** The mean of chunk means is not the mean: with `chunksize=2`, the
      records A=0, A=2, A=4 fall into the chunks [0, 2] and [4], whose means
      1 and 4 average to 2.5, while the mean of the three values is 2. */
  lemma MeanOfMeansNotTrueMean()
    ensures "A" in StationsIn(Example())
    ensures ChunkedReport(Example(), 2)["A"].mean == 2.5
    ensures ExpectedOf(Example())["A"].mean == 2.0
  {
    assert Example()[0] in Example();
    ExampleChunks();
    ExampleValues();
    ExampleMeans();
    var chunks := Chunks(Example(), 2);
    ChunkMeansSnoc([], Example()[..2], "A");
    assert [] + [Example()[..2]] == [Example()[..2]];
    ChunkMeansSnoc([Example()[..2]], Example()[2..], "A");
    assert [Example()[..2]] + [Example()[2..]] == chunks;
    assert ChunkMeans(chunks, "A") == [1.0, 4.0];
  }
}
