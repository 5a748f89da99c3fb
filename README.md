# ORC file information collector, modelled in Dafny

The collector reads a list of `s3://bucket/key` paths, one per line, and
produces one record per path. A success record holds the ORC file's length
and stripe count. An error record holds the message of whatever went wrong.
The per-file work runs on a thread pool. A companion example script
estimates a file's raw data size from its metadata or its column statistics.

This project models the logic the tool implements itself, leaving out the
pyarrow, S3 and pandas calls:

- `wrappers.dfy`: `Option` and `Result` values for Python's None and raised exceptions.
- `py_str.dfy`: the `str` operations used: `find`, `lstrip`, `rstrip`, `strip` and ASCII `lower`.
  `strip()` uses Python's exact whitespace set.
- `url_parse.dfy`: `urllib.parse.urlparse`, split as CPython's `urlsplit` does it.
  This follows the generic URI syntax of RFC 3986 section 3: the scheme before the first ':',
  the netloc after "//" up to the first '/', '?' or '#', then the fragment, then the query.
  A netloc with only one of '[' and ']' raises ValueError.
- `s3_path.dfy`: `parse_s3_path`.
- `orc_file_info.dfy`: `get_orc_file_info`. The metadata reader is represented by what it
  does for the path: it returns the metadata, returns None, or raises.
- `file_batch.dfy`: the collection loop of `process_file_batch`. The order in which the thread
  pool completes the tasks is a parameter.
- `input_lines.dfy`: the comprehension that turns the input file's lines into the path list.
- `raw_data_size.dfy`: `get_raw_data_size`, a loop over the column statistics, proved
  against a recursive specification.

`parse_s3_path` accepts an empty bucket and an empty key; the model follows the code, and
`S3Path.EmptyBucketAccepted` and `S3Path.EmptyKeyAccepted` state it.

## Model

| member | source | states |
|---|---|---|
| `PyStr.IsSpace` | orc_info_collector.py:169 | the characters `strip()` removes include space, tab, newline and carriage return, and never a letter, digit, '/', ':' or '.' of a path |
| `PyStr.Find` | orc_info_collector.py:35 | `str.find` (with `len(s)` for "absent"): the index of the first occurrence, with no occurrence before it |
| `PyStr.FindFirst` | orc_info_collector.py:35 | the index of the first character with the property, none before it having it, or the length when there is none |
| `PyStr.FindUnique` | orc_info_collector.py:35 | any index before which the character is absent and at which it stands (or the end) is the one `find` reports |
| `PyStr.FindFirstUnique` | orc_info_collector.py:35 | the same for the first character with a property |
| `PyStr.LStrip` | orc_info_collector.py:40 | `lstrip` drops only stripped characters, from the front, and keeps a suffix that does not start with one |
| `PyStr.RStrip` | orc_info_collector.py:169 | `rstrip` drops only stripped characters, from the back, and keeps a prefix that does not end with one |
| `PyStr.Strip` | orc_info_collector.py:169 | `strip()` never yields a string that starts or ends with whitespace |
| `PyStr.StripTrims` | orc_info_collector.py:169 | what `strip()` keeps is a slice of the line, and only whitespace is dropped on either side |
| `PyStr.TrimmedSlice` | orc_info_collector.py:169 | dropping a whitespace prefix and then a whitespace suffix leaves a slice with whitespace on either side |
| `PyStr.StripEmptyIff` | orc_info_collector.py:169 | a line strips to the empty (falsy) string exactly when all of it is whitespace |
| `PyStr.StripIdempotent` | orc_info_collector.py:169 | stripping twice is stripping once |
| `PyStr.StripPadding` | orc_info_collector.py:169 | whitespace around a string that neither starts nor ends with whitespace is removed, and nothing else is |
| `PyStr.Lower` | orc_info_collector.py:35 | the lower-cased scheme has the same length, with each ASCII capital replaced by its small letter |
| `UrlParse.SplitScheme` | orc_info_collector.py:35 | a scheme is split off exactly when the text before the first ':' is non-empty, starts with an ASCII letter and holds only scheme characters; it is that text lower-cased, and what follows the ':' remains; without one the whole string remains |
| `UrlParse.SplitNetloc` | orc_info_collector.py:35 | after "//" the netloc runs to the first '/', '?' or '#' and contains none of them; without "//" the netloc is empty |
| `UrlParse.SplitOnce` | orc_info_collector.py:35 | the first part holds no separator; when the separator occurs, the parts and the separator rebuild the string; otherwise nothing is split off |
| `UrlParse.Parse` | orc_info_collector.py:35 | urlparse fails only with "Invalid IPv6 URL"; the netloc has no '/', '?' or '#', the path has no '?' or '#', and '[' and ']' occur in the netloc together or not at all |
| `UrlParse.ParseFailsOnlyOnBrackets` | orc_info_collector.py:35 | urlparse raises exactly when the netloc holds one of '[' and ']' without the other |
| `UrlParse.ParsedParts` | orc_info_collector.py:35 | each part is a piece of the url: the scheme as split off; the netloc is what `SplitNetloc` cuts after "//", and empty without "//"; "//" and the netloc, then the rest, rebuild what follows the scheme; the path runs to the first '?' or '#' of that rest; the fragment follows its first '#'; the query lies between the first '?' and that '#' |
| `UrlParse.NetlocRebuild` | orc_info_collector.py:35 | "//", the netloc and what follows it give back the text after the scheme |
| `UrlParse.SplitAtFirst` | orc_info_collector.py:35 | splitting at a separator cuts at its first occurrence and drops it; when it is absent, nothing follows |
| `UrlParse.PathEndsAtFirstMark` | orc_info_collector.py:35 | cutting at the first '#' and then at the first '?' leaves exactly what precedes the first of either |
| `S3Path.NotS3Message` | orc_info_collector.py:37 | the ValueError message is "Not an S3 path: " followed by the path itself |
| `S3Path.ParseS3Path` | orc_info_collector.py:33-41 | a returned key never starts with '/'; the bucket contains no '/'; every failure is a ValueError, either "Not an S3 path: <path>" or urlparse's own |
| `S3Path.AcceptedOnlyWithS3Scheme` | orc_info_collector.py:35-37 | only a path that starts with `s3:` or `S3:` is accepted |
| `S3Path.S3SchemeSplit` | orc_info_collector.py:35-36 | an `s3:` prefix in either case yields the scheme `s3` and leaves the rest of the path |
| `S3Path.S3SchemeAccepted` | orc_info_collector.py:35-41 | every `s3:` path without brackets is accepted, whatever its bucket and key, empty ones included |
| `S3Path.OtherSchemeRejected` | orc_info_collector.py:36-37 | any other scheme, or none at all, raises ValueError; without brackets, the message is "Not an S3 path: " followed by the path |
| `S3Path.BucketSplit` | orc_info_collector.py:39 | the netloc of "//bucket/rest" is the bucket, and "/rest" remains |
| `S3Path.WellFormedPath` | orc_info_collector.py:35-41 | for a bucket free of '/', '?', '#', '[' and ']' and a rest free of '?' and '#', `s3://bucket/rest` gives the bucket unchanged and `rest` with every leading '/' removed |
| `S3Path.ExampleBucketAndKey` | test_orc_info_collector.py:28-30 | the first case of `test_parse_s3_path`: `s3://my-bucket/path/to/file.orc` gives `my-bucket` and `path/to/file.orc` |
| `S3Path.ExampleHttpRejected` | test_orc_info_collector.py:33-34 | `http://example.com/file.orc` raises ValueError |
| `S3Path.EmptyBucketAccepted` | orc_info_collector.py:39-41 | `s3:///<rest>` is accepted with an empty bucket, for every rest free of '?' and '#', and the key is the rest with its leading '/' removed |
| `S3Path.EmptyKeyAccepted` | orc_info_collector.py:39-41 | `s3://<bucket>/` is accepted with an empty key, for every bucket free of '/', '?', '#' and brackets |
| `S3Path.RepeatedSlashesStripped` | orc_info_collector.py:40 | `s3://bucket//a.orc` gives the key `a.orc`: all leading slashes go, not just one |
| `OrcFileInfo.GetOrcFileInfo` | orc_info_collector.py:86-119 | the record always keeps the input path; it is a success record exactly when the path parses and the reader returns metadata, and then it holds the reader's length and stripe count unchanged; a parse failure is recorded with its message |
| `OrcFileInfo.SuccessRecord` | orc_info_collector.py:105-112 | any path that parses, with metadata from the reader, gives exactly `{file_path, file_length, num_stripes}` with the reader's values |
| `OrcFileInfo.ColumnsOfRecord` | orc_info_collector.py:108-119 | every record has `file_path`; a success record has the two numeric keys and no `error`; an error record has `error` and no numeric key |
| `OrcFileInfo.RecordColumns` | orc_info_collector.py:97-119 | a record has the `error` key exactly when parsing or reading failed, and the numeric keys exactly when both succeeded; no input raises |
| `OrcFileInfo.BadSchemeIgnoresReader` | orc_info_collector.py:97-119 | a non-`s3` path fails before the reader is consulted: its error record is the same whatever the reader would do |
| `OrcFileInfo.ReaderNoneRecord` | orc_info_collector.py:108-119 | for any path that parses, a reader that returned None gives the error "'NoneType' object is not subscriptable" |
| `OrcFileInfo.ReaderRaisedRecord` | orc_info_collector.py:114-119 | for any path that parses, an exception raised by the reader is recorded with its message |
| `FileBatch.Indices` | orc_info_collector.py:131-134 | the input positions 0 to n-1, in order, one per submitted task |
| `FileBatch.IsCompletionOrder` | orc_info_collector.py:137 | `as_completed` yields every task exactly once: the order is a permutation of the task indices, so it has one entry per input |
| `FileBatch.Pick` | orc_info_collector.py:137-141 | the k-th item taken is the element at the k-th index of the completion order |
| `FileBatch.FilePaths` | orc_info_collector.py:138 | the `file_path` column has one entry per record, in record order |
| `FileBatch.TaskRecords` | orc_info_collector.py:131-134 | one task per input, duplicates included, and each task's record carries its own input's path |
| `FileBatch.ProcessFileBatch` | orc_info_collector.py:122-150 | the loop appends each task's record in completion order; it returns exactly one record per input, and their `file_path`s are the inputs, permuted |
| `FileBatch.BatchIsPermutation` | orc_info_collector.py:129-150 | the batch has `len(file_paths)` records, and their `file_path`s are a permutation of the inputs: none dropped, none duplicated |
| `FileBatch.PickedFilePaths` | orc_info_collector.py:138-141 | the `file_path` column of the collected records is the paths of the completed tasks, in completion order |
| `FileBatch.CompletionPermutes` | orc_info_collector.py:137-141 | taking every task once, in any completion order, gives as many items as inputs and the same items, permuted |
| `FileBatch.PickPermutation` | orc_info_collector.py:137-141 | reordering the completion order only permutes what is collected |
| `FileBatch.RecordOfInput` | orc_info_collector.py:131-141 | every input appears at some completion position, and its record there depends only on its own path and reader outcome |
| `FileBatch.AllSucceed` | orc_info_collector.py:137-141 | when every path parses and every read succeeds, no record carries an error |
| `FileBatch.MixedBatch` | orc_info_collector.py:137-141 | two paths completing in reverse order give the error record that `get_orc_file_info` builds for the failed read (lines 108-119) and then a success record, in completion order |
| `InputLines.NonBlankLines` | orc_info_collector.py:169 | the path list is no longer than the file |
| `InputLines.PathsStripped` | orc_info_collector.py:169 | every entry of the path list is non-empty and has no whitespace at either end |
| `InputLines.AppendLine` | orc_info_collector.py:169 | one more line adds its stripped form at the end of the path list, or nothing when it is blank |
| `InputLines.OneLine` | orc_info_collector.py:169 | a single line is kept, stripped, exactly when it is not whitespace-only |
| `InputLines.Concatenation` | orc_info_collector.py:169 | the filter works line by line and keeps file order: filtering a concatenation concatenates the results |
| `InputLines.Idempotent` | orc_info_collector.py:169 | filtering the path list again changes nothing |
| `InputLines.KeptCount` | orc_info_collector.py:169 | the number of paths is the number of non-blank lines |
| `InputLines.PaddedLine` | orc_info_collector.py:169 | a line with whitespace around one path, its newline included, gives exactly that path |
| `InputLines.BlankLineDropped` | orc_info_collector.py:169 | a whitespace-only line is dropped wherever it stands |
| `InputLines.PathLineKept` | orc_info_collector.py:169 | an indented path line ending in a newline is kept as the bare path, in its place |
| `RawDataSize.Contribution` | example_local_orc.py:98-102 | a column adds its `bytesOnDisk` when present, otherwise its `numberOfValues` when present, otherwise nothing |
| `RawDataSize.StatisticsTotal` | example_local_orc.py:95-102 | columns that each add a non-negative amount give a non-negative total |
| `RawDataSize.Estimate` | example_local_orc.py:88-108 | a value that is not positive can only be the metadata's own `content_length`: a statistics total is returned only when positive |
| `RawDataSize.GetRawDataSize` | example_local_orc.py:82-108 | the loop's sum and the result equal the specification `Estimate`: `content_length` when present, otherwise the statistics total when positive, otherwise None |
| `RawDataSize.ContentLengthWins` | example_local_orc.py:90-92 | a `content_length` is returned unchanged, whatever the statistics are |
| `RawDataSize.FallbackToStatistics` | example_local_orc.py:95-104 | without `content_length`, a value is returned exactly when the statistics total is positive, and that value is the total |
| `RawDataSize.EmptyStatistics` | example_local_orc.py:104 | empty statistics give None |
| `RawDataSize.MissingAttributeGivesNone` | example_local_orc.py:106-108 | a reader without `metadata`, or without `statistics` when the metadata has no `content_length`, gives None instead of raising |
| `RawDataSize.TotalOfConcatenation` | example_local_orc.py:95-102 | the total is additive over the columns |
| `RawDataSize.TotalIgnoresOrder` | example_local_orc.py:95-102 | the statistics total does not depend on the order in which the columns are iterated |
| `RawDataSize.EstimateIgnoresOrder` | example_local_orc.py:95-104 | neither does the estimate |
| `RawDataSize.BytesOnDiskPreferred` | example_local_orc.py:98-102 | columns with bytesOnDisk/numberOfValues 2000/100 and 3000/200 give 5000, not 300 |
| `RawDataSize.NumberOfValuesFallback` | example_local_orc.py:100-102 | columns with only numberOfValues 100 and 200 give 300 |

## Left out

- `S3ORCReader` and its `get_orc_metadata` (orc_info_collector.py:44-83) call pyarrow's S3 filesystem and ORC reader, and read `AWS_REGION` from the environment. They are represented only by the reader outcome: metadata, None, or a raised exception.
- `s3_reader or S3ORCReader()` (line 102): the model assumes a reader is always passed, as `process_file_batch` does.
- The thread pool and `as_completed` (lines 129-137) are not modelled. Any completion order that is a permutation of the inputs can be passed in. There is no `max_workers` parameter, so the ValueError that `ThreadPoolExecutor` raises at line 129 for a `max_workers` below 1 (such as `-w 0`) is not modelled either.
- The `except` branch of the collection loop (lines 143-148) never runs in the model. `get_orc_file_info` catches every `Exception`, so `future.result()` cannot raise one. Exceptions outside `Exception`, such as KeyboardInterrupt, are not modelled.
- If `S3ORCReader()` raises at line 127, the whole batch fails. That is foreign I/O and is not modelled.
- The logging calls (orc_info_collector.py:82, 115, 142 and 144) and the `print` in `get_raw_data_size` (example_local_orc.py:107) are dropped; they change no result.
- Argument parsing, reading the input file, splitting it into lines, and the pandas DataFrame, CSV and console output of `main` are not modelled. Only the comprehension at line 169 is.
- `UrlParse.Parse`: some steps of CPython's `urlsplit` are not modelled. Recent versions strip leading C0 controls and spaces and delete tab, CR and LF. They also validate a bracketed IPv6 netloc and apply an NFKC check to non-ASCII netlocs. The `params` split that `urlparse` applies to other schemes is also out, because it never applies to `s3`. The model keeps the scheme, netloc, query and fragment splits, the lower-casing of the scheme, and the unbalanced-bracket error.
- `UrlParse.SplitScheme` follows CPython 3.9 and later, in the releases that also require a scheme to start with an ASCII letter. Python 3.8 and earlier do not split off a scheme when what follows the ':' is non-empty and all digits, as in `s3:123`.
- `PyStr.Lower` lower-cases ASCII letters only. That is all it is ever applied to, since a scheme holds only ASCII characters.
- `OrcFileInfo.GetOrcFileInfo`: a metadata dictionary without `file_length` or `num_stripes` would raise KeyError. The reader never returns one, so the case is not modelled.
- `RawDataSize.GetRawDataSize`: `content_length` and the statistics are modelled as integers. A non-numeric statistic would raise TypeError, which the function does not catch, and a `content_length` of None would be returned as None. Neither case is modelled.
- `create_sample_orc_file`, `analyze_local_orc_file` and `main` in example_local_orc.py write files, print, and compute floating-point values. They are not modelled.
- The ORC format itself (stripes, footer, postscript) is never decoded by this code and is not modelled.
- Some test expectations no longer match the code: `raw_data_size` in `get_orc_file_info` results, `get_file_info` calls, and `_legacy_get_metadata`. The model follows the code.
