/**
 * `get_orc_file_info` (orc_info_collector.py): one input path and what the
 * metadata reader does for it become one result record. The reader itself
 * (`S3ORCReader.get_orc_metadata`, pyarrow and S3) is not modelled; only what
 * it hands back is.
 */
module OrcFileInfo {
  import opened Wrappers
  import opened S3Path

  /**
   * What `reader.get_orc_metadata(bucket, key)` does: return the metadata
   * dictionary, return None (the reader caught an exception and logged it),
   * or raise an exception with the given message.
   */
  datatype ReaderOutcome =
    | Metadata(fileLength: nat, numStripes: nat)
    | NoMetadata
    | ReaderRaised(message: string)

  /**
   * The result dictionary: either the three keys `file_path`, `file_length`,
   * `num_stripes`, or the two keys `file_path`, `error`.
   */
  datatype FileRecord =
    | FileInfo(filePath: string, fileLength: nat, numStripes: nat)
    | FileError(filePath: string, error: string)

  /** Message of the TypeError raised by subscripting the None a failed reader returns. */
  const NONE_NOT_SUBSCRIPTABLE := "'NoneType' object is not subscriptable"

  /** The dictionary keys of a record, as they appear as output columns. */
  function Columns(r: FileRecord): set<string>
  {
    match r
    case FileInfo(_, _, _) => {"file_path", "file_length", "num_stripes"}
    case FileError(_, _) => {"file_path", "error"}
  }

  /**
   * Parses the path, asks the reader only when that succeeded, and turns any
   * exception on the way into an error record that keeps the path.
   */
  function GetOrcFileInfo(s3Path: string, outcome: ReaderOutcome): (r: FileRecord)
    ensures r.filePath == s3Path
    ensures r.FileInfo? <==> ParseS3Path(s3Path).Success? && outcome.Metadata?
    ensures r.FileInfo? ==> r.fileLength == outcome.fileLength && r.numStripes == outcome.numStripes
    ensures ParseS3Path(s3Path).Failure? ==> r == FileError(s3Path, ParseS3Path(s3Path).error)
  {
    match ParseS3Path(s3Path)
    case Failure(message) => FileError(s3Path, message)
    case Success(_) =>
      match outcome
      case Metadata(fileLength, numStripes) => FileInfo(s3Path, fileLength, numStripes)
      case NoMetadata => FileError(s3Path, NONE_NOT_SUBSCRIPTABLE)
      case ReaderRaised(message) => FileError(s3Path, message)
  }

  /** A path that parses, with metadata, gives a success record holding the reader's numbers unchanged. */
  lemma SuccessRecord(s3Path: string, fileLength: nat, numStripes: nat)
    requires ParseS3Path(s3Path).Success?
    ensures GetOrcFileInfo(s3Path, Metadata(fileLength, numStripes)) == FileInfo(s3Path, fileLength, numStripes)
  {
  }

  /**
   * A success record has exactly the keys `file_path`, `file_length` and
   * `num_stripes`; an error record exactly `file_path` and `error`.
   */
  lemma ColumnsOfRecord(r: FileRecord)
    ensures "file_path" in Columns(r)
    ensures "error" in Columns(r) <==> r.FileError?
    ensures "file_length" in Columns(r) <==> r.FileInfo?
    ensures "num_stripes" in Columns(r) <==> r.FileInfo?
  {
    assert "error" != "file_path" && "error" != "file_length" && "error" != "num_stripes";
    assert "file_length" != "file_path" && "num_stripes" != "file_path";
  }

  /**
   * A record has the `error` key exactly when parsing or reading failed, and
   * the numeric keys exactly when both succeeded: the function never raises.
   */
  lemma RecordColumns(s3Path: string, outcome: ReaderOutcome)
    ensures var ok := ParseS3Path(s3Path).Success? && outcome.Metadata?;
      && ("error" in Columns(GetOrcFileInfo(s3Path, outcome)) <==> !ok)
      && ("file_length" in Columns(GetOrcFileInfo(s3Path, outcome)) <==> ok)
      && ("num_stripes" in Columns(GetOrcFileInfo(s3Path, outcome)) <==> ok)
  {
    ColumnsOfRecord(GetOrcFileInfo(s3Path, outcome));
  }

  /**
   * A path whose scheme is not `s3` fails before the reader is consulted:
   * its record does not depend on the reader at all.
   */
  lemma BadSchemeIgnoresReader(s3Path: string, outcome1: ReaderOutcome, outcome2: ReaderOutcome)
    requires !HasS3Scheme(s3Path)
    ensures GetOrcFileInfo(s3Path, outcome1).FileError?
    ensures GetOrcFileInfo(s3Path, outcome1) == GetOrcFileInfo(s3Path, outcome2)
    ensures '[' !in s3Path && ']' !in s3Path ==>
      GetOrcFileInfo(s3Path, outcome1) == FileError(s3Path, NotS3Message(s3Path))
  {
    OtherSchemeRejected(s3Path);
  }

  /** For a path that parses, a reader that returned None shows up as the TypeError of subscripting None. */
  lemma ReaderNoneRecord(s3Path: string)
    requires ParseS3Path(s3Path).Success?
    ensures GetOrcFileInfo(s3Path, NoMetadata) == FileError(s3Path, NONE_NOT_SUBSCRIPTABLE)
  {
  }

  /** For a path that parses, an exception raised by the reader is recorded with its message. */
  lemma ReaderRaisedRecord(s3Path: string, message: string)
    requires ParseS3Path(s3Path).Success?
    ensures GetOrcFileInfo(s3Path, ReaderRaised(message)) == FileError(s3Path, message)
  {
  }
}
