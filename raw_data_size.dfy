/**
 * `get_raw_data_size` (example_local_orc.py): a best-effort estimate of a
 * file's uncompressed size, from the file metadata's `content_length` when it
 * has one and otherwise from per-column statistics. The ORC reader is
 * modelled by what the function reads from it.
 */
module RawDataSize {
  import opened Wrappers
  import opened Seqs

  /** One entry of `reader.statistics.items()`: a column name and the two statistics that are looked up. */
  datatype ColumnStatistics = ColumnStatistics(column: string, bytesOnDisk: Option<int>, numberOfValues: Option<int>)

  /** `reader.metadata`: only whether it has a `content_length` attribute, and its value, matter. */
  datatype FileMetadata = FileMetadata(contentLength: Option<int>)

  /**
   * The reader as `get_raw_data_size` sees it. An attribute the reader lacks
   * is None: reading it raises AttributeError.
   */
  datatype OrcReader = OrcReader(metadata: Option<FileMetadata>, statistics: Option<seq<ColumnStatistics>>)

  /** What one column adds: `bytesOnDisk` if present, else `numberOfValues` if present, else nothing. */
  function Contribution(stats: ColumnStatistics): (r: int)
    ensures stats.bytesOnDisk.Some? ==> r == stats.bytesOnDisk.value
    ensures stats.bytesOnDisk.None? && stats.numberOfValues.Some? ==> r == stats.numberOfValues.value
    ensures stats.bytesOnDisk.None? && stats.numberOfValues.None? ==> r == 0
  {
    match (stats.bytesOnDisk, stats.numberOfValues)
    case (Some(bytes), _) => bytes
    case (None, Some(values)) => values
    case (None, None) => 0
  }

  /** The statistics-based total, column after column. */
  function StatisticsTotal(columns: seq<ColumnStatistics>): (r: int)
    ensures (forall k :: 0 <= k < |columns| ==> Contribution(columns[k]) >= 0) ==> r >= 0
  {
    if columns == [] then 0
    else StatisticsTotal(columns[..|columns| - 1]) + Contribution(columns[|columns| - 1])
  }

  /**
   * The value `get_raw_data_size` returns: `content_length` when the metadata
   * has it; otherwise the statistics total when it is positive, and None when
   * it is not. An AttributeError on the way gives None as well.
   */
  function Estimate(reader: OrcReader): (r: Option<int>)
    ensures r.Some? && r.value <= 0 ==> reader.metadata.Some? && reader.metadata.value.contentLength == r
  {
    match reader.metadata
    case None => None
    case Some(metadata) =>
      match metadata.contentLength
      case Some(length) => Some(length)
      case None =>
        match reader.statistics
        case None => None
        case Some(columns) =>
          var total := StatisticsTotal(columns);
          if total > 0 then Some(total) else None
  }

  /** The function itself: the statistics are summed by a loop over the columns. */
  method GetRawDataSize(reader: OrcReader) returns (r: Option<int>)
    ensures r == Estimate(reader)
  {
    if reader.metadata.None? {
      return None;
    }
    var metadata := reader.metadata.value;
    if metadata.contentLength.Some? {
      return metadata.contentLength;
    }
    if reader.statistics.None? {
      return None;
    }
    var columns := reader.statistics.value;
    var rawDataSize := 0;
    for i := 0 to |columns|
      invariant rawDataSize == StatisticsTotal(columns[..i])
    {
      var stats := columns[i];
      if stats.bytesOnDisk.Some? {
        rawDataSize := rawDataSize + stats.bytesOnDisk.value;
      } else if stats.numberOfValues.Some? {
        rawDataSize := rawDataSize + stats.numberOfValues.value;
      }
      assert columns[..i + 1][..i] == columns[..i];
    }
    assert columns[..|columns|] == columns;
    r := if rawDataSize > 0 then Some(rawDataSize) else None;
  }

  /** With a `content_length`, it is returned unchanged and the statistics are never read. */
  lemma ContentLengthWins(length: int, statistics: Option<seq<ColumnStatistics>>)
    ensures Estimate(OrcReader(Some(FileMetadata(Some(length))), statistics)) == Some(length)
  {
  }

  /**
   * Without a `content_length`, the result is present exactly when the
   * statistics total is positive, and then it is that total.
   */
  lemma FallbackToStatistics(columns: seq<ColumnStatistics>)
    ensures var r := Estimate(OrcReader(Some(FileMetadata(None)), Some(columns)));
      && (r.Some? <==> StatisticsTotal(columns) > 0)
      && (r.Some? ==> r.value == StatisticsTotal(columns))
  {
  }

  /** Empty statistics give None. */
  lemma EmptyStatistics()
    ensures Estimate(OrcReader(Some(FileMetadata(None)), Some([]))) == None
  {
  }

  /** A missing `metadata` or `statistics` attribute gives None instead of an exception. */
  lemma MissingAttributeGivesNone(statistics: Option<seq<ColumnStatistics>>, metadata: Option<FileMetadata>)
    ensures Estimate(OrcReader(None, statistics)) == None
    ensures metadata.Some? && metadata.value.contentLength.None? ==> Estimate(OrcReader(metadata, None)) == None
  {
  }

  /** The total is the sum of the columns' contributions, whichever way the columns are split. */
  lemma {:induction false} TotalOfConcatenation(a: seq<ColumnStatistics>, b: seq<ColumnStatistics>)
    ensures StatisticsTotal(a + b) == StatisticsTotal(a) + StatisticsTotal(b)
    decreases |b|
  {
    if b == [] {
      assert a + b == a;
    } else {
      var b' := b[..|b| - 1];
      assert (a + b)[..|a + b| - 1] == a + b';
      TotalOfConcatenation(a, b');
    }
  }

  /** The estimate does not depend on the order in which the statistics are iterated. */
  lemma {:induction false} TotalIgnoresOrder(a: seq<ColumnStatistics>, b: seq<ColumnStatistics>)
    requires multiset(a) == multiset(b)
    ensures StatisticsTotal(a) == StatisticsTotal(b)
    decreases |a|
  {
    if a == [] {
      assert |b| == |multiset(b)| == 0;
    } else {
      var x := a[|a| - 1];
      var a' := a[..|a| - 1];
      var j := MatchLast(a, b);
      var b' := b[..j] + b[j + 1..];
      TotalIgnoresOrder(a', b');
      assert b == b[..j] + [x] + b[j + 1..];
      TotalOfConcatenation(b[..j] + [x], b[j + 1..]);
      TotalOfConcatenation(b[..j], [x]);
      TotalOfConcatenation(b[..j], b[j + 1..]);
    }
  }

  /** So the whole estimate is independent of that order too. */
  lemma EstimateIgnoresOrder(metadata: Option<FileMetadata>, a: seq<ColumnStatistics>, b: seq<ColumnStatistics>)
    requires multiset(a) == multiset(b)
    ensures Estimate(OrcReader(metadata, Some(a))) == Estimate(OrcReader(metadata, Some(b)))
  {
    TotalIgnoresOrder(a, b);
  }

  /** `bytesOnDisk` wins over `numberOfValues`: 2000/100 and 3000/200 give 5000, not 300. */
  lemma BytesOnDiskPreferred(name1: string, name2: string)
    ensures Estimate(OrcReader(Some(FileMetadata(None)), Some([
              ColumnStatistics(name1, Some(2000), Some(100)),
              ColumnStatistics(name2, Some(3000), Some(200))]))) == Some(5000)
  {
    var c1, c2 := ColumnStatistics(name1, Some(2000), Some(100)), ColumnStatistics(name2, Some(3000), Some(200));
    assert [c1, c2][..1] == [c1] && [c1][..0] == [];
    assert Contribution(c1) == 2000 && Contribution(c2) == 3000;
    assert StatisticsTotal([c1]) == StatisticsTotal([]) + Contribution(c1);
    assert StatisticsTotal([c1, c2]) == StatisticsTotal([c1]) + Contribution(c2);
  }

  /** With only `numberOfValues`, 100 and 200 give 300. */
  lemma NumberOfValuesFallback(name1: string, name2: string)
    ensures Estimate(OrcReader(Some(FileMetadata(None)), Some([
              ColumnStatistics(name1, None, Some(100)),
              ColumnStatistics(name2, None, Some(200))]))) == Some(300)
  {
    var c1, c2 := ColumnStatistics(name1, None, Some(100)), ColumnStatistics(name2, None, Some(200));
    assert [c1, c2][..1] == [c1] && [c1][..0] == [];
    assert Contribution(c1) == 100 && Contribution(c2) == 200;
    assert StatisticsTotal([c1]) == StatisticsTotal([]) + Contribution(c1);
    assert StatisticsTotal([c1, c2]) == StatisticsTotal([c1]) + Contribution(c2);
  }
}
