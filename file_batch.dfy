/**
 * `process_file_batch` (orc_info_collector.py): one `get_orc_file_info` task
 * per input path is submitted to a thread pool, and the results are appended
 * in the order the tasks complete. The pool is not modelled; the order in
 * which `as_completed` yields the tasks is a parameter.
 */
module FileBatch {
  import opened OrcFileInfo
  import opened Seqs

  /** The indices 0, 1, ..., n - 1 in increasing order. */
  function Indices(n: nat): (r: seq<nat>)
    ensures |r| == n
    ensures forall k :: 0 <= k < n ==> r[k] == k
  {
    if n == 0 then [] else Indices(n - 1) + [n - 1]
  }

  /**
   * `as_completed` yields every submitted task exactly once: the completion
   * order is a permutation of the input indices.
   */
  predicate IsCompletionOrder(order: seq<nat>, n: nat)
    ensures IsCompletionOrder(order, n) ==> |order| == n
  {
    assert |multiset(order)| == |order| && |multiset(Indices(n))| == n;
    && (forall k :: 0 <= k < |order| ==> order[k] < n)
    && multiset(order) == multiset(Indices(n))
  }

  /** The elements of `s` at the given indices, in that order. */
  function Pick<T>(s: seq<T>, order: seq<nat>): (r: seq<T>)
    requires forall k :: 0 <= k < |order| ==> order[k] < |s|
    ensures |r| == |order|
    ensures forall k :: 0 <= k < |order| ==> r[k] == s[order[k]]
  {
    if order == [] then [] else Pick(s, order[..|order| - 1]) + [s[order[|order| - 1]]]
  }

  /** The `file_path` column of a list of records. */
  function FilePaths(records: seq<FileRecord>): (r: seq<string>)
    ensures |r| == |records|
    ensures forall k :: 0 <= k < |records| ==> r[k] == records[k].filePath
  {
    if records == [] then [] else FilePaths(records[..|records| - 1]) + [records[|records| - 1].filePath]
  }

  /** The record each submitted task holds once it has run: input `i` gives `get_orc_file_info(filePaths[i])`. */
  function TaskRecords(filePaths: seq<string>, outcomes: seq<ReaderOutcome>): (r: seq<FileRecord>)
    requires |outcomes| == |filePaths|
    ensures |r| == |filePaths|
    ensures FilePaths(r) == filePaths
  {
    seq(|filePaths|, i requires 0 <= i < |filePaths| => GetOrcFileInfo(filePaths[i], outcomes[i]))
  }

  /**
   * Runs the collection loop: for each task, in completion order, the record
   * its `get_orc_file_info` call returned is appended. There is one record
   * per input, and the `file_path`s of the records are the input paths,
   * duplicates included, in some order.
   */
  method ProcessFileBatch(filePaths: seq<string>, outcomes: seq<ReaderOutcome>, completionOrder: seq<nat>)
    returns (results: seq<FileRecord>)
    requires |outcomes| == |filePaths|
    requires IsCompletionOrder(completionOrder, |filePaths|)
    ensures results == Pick(TaskRecords(filePaths, outcomes), completionOrder)
    ensures |results| == |filePaths|
    ensures multiset(FilePaths(results)) == multiset(filePaths)
  {
    ghost var tasks := TaskRecords(filePaths, outcomes);
    results := [];
    for i := 0 to |completionOrder|
      invariant results == Pick(tasks, completionOrder[..i])
    {
      var index := completionOrder[i];
      var info := GetOrcFileInfo(filePaths[index], outcomes[index]);
      assert completionOrder[..i + 1][..i] == completionOrder[..i];
      results := results + [info];
    }
    assert completionOrder[..|completionOrder|] == completionOrder;
    BatchIsPermutation(filePaths, outcomes, completionOrder);
  }

  /** Exactly one record per input: the batch's `file_path`s are the inputs, permuted. */
  lemma BatchIsPermutation(filePaths: seq<string>, outcomes: seq<ReaderOutcome>, order: seq<nat>)
    requires |outcomes| == |filePaths|
    requires IsCompletionOrder(order, |filePaths|)
    ensures |Pick(TaskRecords(filePaths, outcomes), order)| == |filePaths|
    ensures multiset(FilePaths(Pick(TaskRecords(filePaths, outcomes), order))) == multiset(filePaths)
  {
    var tasks := TaskRecords(filePaths, outcomes);
    PickedFilePaths(tasks, order);
    CompletionPermutes(filePaths, order);
  }

  /** Taking every index once, in a completion order, permutes the sequence. */
  lemma CompletionPermutes<T>(s: seq<T>, order: seq<nat>)
    requires IsCompletionOrder(order, |s|)
    ensures |Pick(s, order)| == |s|
    ensures multiset(Pick(s, order)) == multiset(s)
  {
    var all := Indices(|s|);
    PickPermutation(s, order, all);
    forall k | 0 <= k < |s| ensures Pick(s, all)[k] == s[k] {
      assert all[k] == k;
    }
    assert Pick(s, all) == s;
  }

  /** The `file_path`s of the picked records are the picked `file_path`s. */
  lemma PickedFilePaths(records: seq<FileRecord>, order: seq<nat>)
    requires forall k :: 0 <= k < |order| ==> order[k] < |records|
    ensures FilePaths(Pick(records, order)) == Pick(FilePaths(records), order)
  {
    var picked := Pick(records, order);
    forall k | 0 <= k < |order|
      ensures FilePaths(picked)[k] == Pick(FilePaths(records), order)[k]
    {
      assert FilePaths(records)[order[k]] == records[order[k]].filePath;
    }
  }

  /** Picking along two orders that are permutations of each other gives permutations of each other. */
  lemma {:induction false} PickPermutation<T>(s: seq<T>, a: seq<nat>, b: seq<nat>)
    requires forall k :: 0 <= k < |a| ==> a[k] < |s|
    requires forall k :: 0 <= k < |b| ==> b[k] < |s|
    requires multiset(a) == multiset(b)
    ensures multiset(Pick(s, a)) == multiset(Pick(s, b))
    decreases |a|
  {
    if a == [] {
      assert |b| == |multiset(b)| == 0;
    } else {
      var x := a[|a| - 1];
      var a' := a[..|a| - 1];
      var j := MatchLast(a, b);
      var b' := b[..j] + b[j + 1..];
      assert forall k :: 0 <= k < |b'| ==> b'[k] < |s| by {
        forall k | 0 <= k < |b'| ensures b'[k] < |s| {
          if k < j { assert b'[k] == b[k]; } else { assert b'[k] == b[k + 1]; }
        }
      }
      PickPermutation(s, a', b');
      var p := Pick(s, b);
      PickRemoveAt(s, b, j);
      RemoveAt(p, j);
      assert p[j] == s[x];
      assert Pick(s, a) == Pick(s, a') + [s[x]];
    }
  }

  /** Picking along `b` without its `j`-th index is picking along `b` and dropping the `j`-th element. */
  lemma PickRemoveAt<T>(s: seq<T>, b: seq<nat>, j: nat)
    requires forall k :: 0 <= k < |b| ==> b[k] < |s|
    requires j < |b|
    ensures Pick(s, b[..j] + b[j + 1..]) == Pick(s, b)[..j] + Pick(s, b)[j + 1..]
  {
    var b' := b[..j] + b[j + 1..];
    var p := Pick(s, b);
    forall k | 0 <= k < |b'|
      ensures Pick(s, b')[k] == (p[..j] + p[j + 1..])[k]
    {
      if k < j {
        assert b'[k] == b[k];
        assert Pick(s, b')[k] == p[k];
      } else {
        assert b'[k] == b[k + 1];
        assert Pick(s, b')[k] == p[k + 1];
      }
    }
  }

  /**
   * Isolation: the record of one input depends on that input's path and
   * reader outcome only, wherever it lands in the completion order.
   */
  lemma RecordOfInput(filePaths: seq<string>, outcomes: seq<ReaderOutcome>, order: seq<nat>, i: nat)
    requires |outcomes| == |filePaths|
    requires IsCompletionOrder(order, |filePaths|)
    requires i < |filePaths|
    ensures exists k :: 0 <= k < |order| && order[k] == i
              && Pick(TaskRecords(filePaths, outcomes), order)[k] == GetOrcFileInfo(filePaths[i], outcomes[i])
  {
    assert Indices(|filePaths|)[i] == i;
    assert i in multiset(order);
    var k :| 0 <= k < |order| && order[k] == i;
  }

  /** When every path parses and every read succeeds, no record carries an error. */
  lemma AllSucceed(filePaths: seq<string>, outcomes: seq<ReaderOutcome>, order: seq<nat>)
    requires |outcomes| == |filePaths|
    requires IsCompletionOrder(order, |filePaths|)
    requires forall i :: 0 <= i < |filePaths| ==> S3Path.ParseS3Path(filePaths[i]).Success? && outcomes[i].Metadata?
    ensures forall k :: 0 <= k < |order| ==> Pick(TaskRecords(filePaths, outcomes), order)[k].FileInfo?
  {
  }

  /**
   * Two `s3` paths whose second task completes first: the reader returns
   * metadata for the first and None for the second. The records come in
   * completion order, one success and one error.
   */
  lemma MixedBatch(pathA: string, pathB: string)
    requires S3Path.HasS3Scheme(pathA) && '[' !in pathA && ']' !in pathA
    requires S3Path.HasS3Scheme(pathB) && '[' !in pathB && ']' !in pathB
    ensures Pick(TaskRecords([pathA, pathB], [Metadata(1024, 3), NoMetadata]), [1, 0])
         == [FileError(pathB, NONE_NOT_SUBSCRIPTABLE), FileInfo(pathA, 1024, 3)]
  {
    var tasks := TaskRecords([pathA, pathB], [Metadata(1024, 3), NoMetadata]);
    PickReversedPair(tasks);
    assert tasks[0] == GetOrcFileInfo(pathA, Metadata(1024, 3));
    assert tasks[1] == GetOrcFileInfo(pathB, NoMetadata);
    S3Path.S3SchemeAccepted(pathA);
    S3Path.S3SchemeAccepted(pathB);
    SuccessRecord(pathA, 1024, 3);
    ReaderNoneRecord(pathB);
  }

  lemma PickReversedPair<T>(s: seq<T>)
    requires |s| == 2
    ensures Pick(s, [1, 0]) == [s[1], s[0]]
  {
    var picked := Pick(s, [1, 0]);
    assert |picked| == 2 && picked[0] == s[1] && picked[1] == s[0];
  }
}
