/** The chunk-merge variant with its mean corrected: each group also yields
    its record count and temperature sum, the merge adds counts and sums
    instead of collecting chunk means, and the report divides the total sum
    by the total count. Every other step is as in src/etl_pandas_chuncking.py. */
module PandasWeighted {
  import opened StringOrder
  import opened RealSeq
  import opened Records
  import opened Report
  import opened Aggregation
  import opened PandasChunked

  /** The groups of one chunk: count, sum, minimum and maximum per station. */
  function SummariseChunk(chunk: seq<Record>): map<string, Agg>
  {
    ValuesNonEmpty(chunk);
    map k | k in StationsIn(chunk) :: AggOf(ValuesIn(chunk, k)).value
  }

  /** A group merged into a station's summary: counts and sums add up. */
  function MergeAgg(current: Option<Agg>, g: Agg): Agg
  {
    match current
    case None => g
    case Some(s) => Agg(s.count + g.count, s.sum + g.sum, Min(s.min, g.min), Max(s.max, g.max))
  }

  /** The groups of `keys`, merged in that order. */
  function MergeSummaries(stats: Stats, groups: map<string, Agg>, keys: seq<string>): Stats
    requires forall i :: 0 <= i < |keys| ==> keys[i] in groups
    decreases |keys|
  {
    if keys == [] then stats
    else
      var prev, last := MergeSummaries(stats, groups, keys[..|keys| - 1]), keys[|keys| - 1];
      prev[last := MergeAgg(Lookup(prev, last), groups[last])]
  }

  function WeightedChunk(stats: Stats, chunk: seq<Record>): Stats
  {
    var groups := SummariseChunk(chunk);
    MergeSummaries(stats, groups, SortedKeys(groups.Keys))
  }

  /** The dictionary after the chunks `chunks`. */
  function WeightedAll(chunks: seq<seq<Record>>): Stats
    decreases |chunks|
  {
    if chunks == [] then map[] else WeightedChunk(WeightedAll(chunks[..|chunks| - 1]), chunks[|chunks| - 1])
  }

  /** Merging distinct groups touches each station at most once. */
  lemma {:induction false} MergeSummariesAt(stats: Stats, groups: map<string, Agg>, keys: seq<string>, k: string)
    requires forall i :: 0 <= i < |keys| ==> keys[i] in groups
    requires Distinct(keys)
    ensures Lookup(MergeSummaries(stats, groups, keys), k)
         == if k in keys then Some(MergeAgg(Lookup(stats, k), groups[k])) else Lookup(stats, k)
    decreases |keys|
  {
    if keys != [] {
      var init, last := keys[..|keys| - 1], keys[|keys| - 1];
      assert keys == init + [last];
      MergeSummariesAt(stats, groups, init, k);
      if k == last {
        assert k !in init;
      }
    }
  }

  /** One chunk's effect on one station. */
  lemma WeightedChunkAt(stats: Stats, chunk: seq<Record>, k: string)
    ensures var vs := ValuesIn(chunk, k);
      Lookup(WeightedChunk(stats, chunk), k)
        == if vs == [] then Lookup(stats, k) else Some(MergeAgg(Lookup(stats, k), AggOf(vs).value))
  {
    var groups := SummariseChunk(chunk);
    var keys := SortedKeys(groups.Keys);
    assert WeightedChunk(stats, chunk) == MergeSummaries(stats, groups, keys);
    SortedDistinct(keys);
    MergeSummariesAt(stats, groups, keys, k);
    ValuesInNonEmpty(chunk, k);
    if ValuesIn(chunk, k) != [] {
      assert k in keys && groups[k] == AggOf(ValuesIn(chunk, k)).value;
    } else {
      assert k !in keys;
    }
  }

  /** Merging the summary of `vl` into that of `vs0` gives the summary of
      `vs0 + vl`. */
  lemma AggStep(vs0: seq<real>, vl: seq<real>)
    ensures AggOf(vs0 + vl) == if vl == [] then AggOf(vs0) else Some(MergeAgg(AggOf(vs0), AggOf(vl).value))
  {
    if vl == [] {
      assert vs0 + vl == vs0;
    } else if vs0 == [] {
      assert vs0 + vl == vl;
    } else {
      AggAppend(vs0, vl);
    }
  }

  lemma AggAppend(vs0: seq<real>, vl: seq<real>)
    requires vs0 != [] && vl != []
    ensures AggOf(vs0 + vl) == Some(MergeAgg(AggOf(vs0), AggOf(vl).value))
  {
    SumAppend(vs0, vl);
    SeqMinAppend(vs0, vl);
    SeqMaxAppend(vs0, vl);
    AggCombine(vs0, vl, vs0 + vl);
  }

  /** A list whose length, sum, minimum and maximum combine those of two
      others has the merged summary. */
  lemma AggCombine(vs0: seq<real>, vl: seq<real>, ws: seq<real>)
    requires vs0 != [] && vl != [] && ws != []
    requires |ws| == |vs0| + |vl| && Sum(ws) == Sum(vs0) + Sum(vl)
    requires SeqMin(ws) == Min(SeqMin(vs0), SeqMin(vl)) && SeqMax(ws) == Max(SeqMax(vs0), SeqMax(vl))
    ensures AggOf(ws) == Some(MergeAgg(AggOf(vs0), AggOf(vl).value))
  {
    var a, b := Agg(|vs0|, Sum(vs0), SeqMin(vs0), SeqMax(vs0)), Agg(|vl|, Sum(vl), SeqMin(vl), SeqMax(vl));
    assert AggOf(vs0) == Some(a) && AggOf(vl) == Some(b);
    assert MergeAgg(Some(a), b) == Agg(|ws|, Sum(ws), SeqMin(ws), SeqMax(ws));
  }

  /** After all chunks, each station's entry summarises all its
      temperatures, however the records were cut into chunks. */
  lemma {:induction false} WeightedSummarises(chunks: seq<seq<Record>>, k: string)
    ensures Lookup(WeightedAll(chunks), k) == AggOf(ValuesIn(Flatten(chunks), k))
    decreases |chunks|
  {
    if chunks != [] {
      var init, last := chunks[..|chunks| - 1], chunks[|chunks| - 1];
      WeightedSummarises(init, k);
      WeightedChunkAt(WeightedAll(init), last, k);
      ValuesInAppend(Flatten(init), last, k);
      AggStep(ValuesIn(Flatten(init), k), ValuesIn(last, k));
    }
  }

  /** One station's finalised entry is its line in the exact report. */
  lemma WeightedEntry(records: seq<Record>, n: nat, k: string)
    requires n > 0
    ensures var t := WeightedAll(Chunks(records, n));
      && (k in t <==> k in StationsIn(records))
      && (k in t ==> t[k].count > 0 && |ValuesIn(records, k)| > 0 && FinalLine(k, t[k]) == TrueLine(k, ValuesIn(records, k)))
  {
    WeightedSummarises(Chunks(records, n), k);
    ValuesInNonEmpty(records, k);
  }

  lemma FinalisedIsExact(t: Stats, records: seq<Record>)
    requires t.Keys == StationsIn(records)
    requires forall k :: k in t ==> t[k].count > 0 && |ValuesIn(records, k)| > 0 && FinalLine(k, t[k]) == TrueLine(k, ValuesIn(records, k))
    ensures Finalised(t) == ExpectedOf(records)
  {
  }

  /** The corrected report is exact for every chunk size: each station's
      mean is the total of its temperatures over their number. */
  lemma WeightedIsExpected(records: seq<Record>, n: nat)
    requires n > 0
    ensures var t := WeightedAll(Chunks(records, n));
      && t.Keys == StationsIn(records)
      && (forall k :: k in t ==> t[k].count > 0)
      && Finalised(t) == ExpectedOf(records)
  {
    var t := WeightedAll(Chunks(records, n));
    forall k
      ensures k in t <==> k in StationsIn(records)
      ensures k in t ==> t[k].count > 0 && |ValuesIn(records, k)| > 0 && FinalLine(k, t[k]) == TrueLine(k, ValuesIn(records, k))
    {
      WeightedEntry(records, n, k);
    }
    FinalisedIsExact(t, records);
  }

  lemma MergeSummariesNext(stats: Stats, groups: map<string, Agg>, keys: seq<string>, j: nat, u: Stats)
    requires forall i :: 0 <= i < |keys| ==> keys[i] in groups
    requires j < |keys| && u == MergeSummaries(stats, groups, keys[..j])
    ensures MergeSummaries(stats, groups, keys[..j + 1]) == u[keys[j] := MergeAgg(Lookup(u, keys[j]), groups[keys[j]])]
  {
    assert keys[..j + 1][..j] == keys[..j];
  }

  lemma WeightedAllNext(chunks: seq<seq<Record>>, c: nat)
    requires c < |chunks|
    ensures WeightedAll(chunks[..c + 1]) == WeightedChunk(WeightedAll(chunks[..c]), chunks[c])
  {
    assert chunks[..c + 1][..c] == chunks[..c];
  }

  /** The groups of one chunk, visited in the order `stations`, merged into `stats`. */
  method MergeSummaryGroups(stats: Stats, groups: map<string, Agg>, stations: seq<string>) returns (updated: Stats)
    requires forall i :: 0 <= i < |stations| ==> stations[i] in groups
    ensures updated == MergeSummaries(stats, groups, stations)
  {
    updated := stats;
    for j := 0 to |stations|
      invariant updated == MergeSummaries(stats, groups, stations[..j])
    {
      MergeSummariesNext(stats, groups, stations, j, updated);
      var station := stations[j];
      var g := groups[station];
      if station !in updated {
        updated := updated[station := g];
      } else {
        var s := updated[station];
        updated := updated[station := Agg(s.count + g.count, s.sum + g.sum, Min(s.min, g.min), Max(s.max, g.max))];
      }
    }
    assert stations[..|stations|] == stations;
  }

  /** The corrected `process_with_pandas_chunked`: the same failures, and
      otherwise the exact report, whatever `chunksize` is. */
  method ProcessWithPandasChunkedWeighted(records: seq<Record>, chunkSize: int) returns (report: Option<seq<Line>>)
    ensures report.None? <==> chunkSize < 1 || records == []
    ensures report.Some? ==> Lists(report.value, ExpectedOf(records))
  {
    if chunkSize < 1 {
      return None;
    }
    var chunks := Chunks(records, chunkSize);
    var stats: Stats := map[];
    for c := 0 to |chunks|
      invariant stats == WeightedAll(chunks[..c])
    {
      WeightedAllNext(chunks, c);
      var groups := SummariseChunk(chunks[c]);
      stats := MergeSummaryGroups(stats, groups, SortedKeys(groups.Keys));
    }
    assert chunks[..|chunks|] == chunks;
    WeightedIsExpected(records, chunkSize);
    NoStations(records);
    if |stats| == 0 {
      return None;
    }
    var kpi := map st | st in stats :: FinalLine(st, stats[st]);
    assert kpi == Finalised(stats);
    report := Some(SortedListing(kpi));
  }
}
