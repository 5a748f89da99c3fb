/** `parse_s3_path` (orc_info_collector.py): an `s3://bucket/key` string to its bucket and key. */
module S3Path {
  import opened Wrappers
  import opened PyStr
  import UrlParse

  datatype S3Location = S3Location(bucket: string, key: string)

  /** Message of the ValueError raised for any scheme other than `s3`. */
  function NotS3Message(s3Path: string): (m: string)
    ensures |m| == 16 + |s3Path| && m[..16] == "Not an S3 path: " && m[16..] == s3Path
  {
    "Not an S3 path: " + s3Path
  }

  predicate IsSlash(c: char) { c == '/' }

  /**
   * The bucket is the URL's netloc and the key its path with every leading '/'
   * removed. Empty buckets and keys are accepted. The Failure message is that
   * of the ValueError raised, by this function or by `urlparse`.
   */
  function ParseS3Path(s3Path: string): (r: Result<S3Location, string>)
    ensures r.Success? ==> r.value.key == [] || r.value.key[0] != '/'
    ensures r.Success? ==> '/' !in r.value.bucket
    ensures r.Failure? ==> r.error == UrlParse.INVALID_IPV6 || r.error == NotS3Message(s3Path)
  {
    match UrlParse.Parse(s3Path)
    case Failure(e) => Failure(e)
    case Success(parsed) =>
      if parsed.scheme != "s3" then Failure(NotS3Message(s3Path))
      else
        assert forall k :: 0 <= k < |parsed.netloc| ==> parsed.netloc[k] != '/';
        Success(S3Location(parsed.netloc, LStrip(parsed.path, IsSlash)))
  }

  /** The string starts with the scheme `s3` (in either case) followed by ':'. */
  predicate HasS3Scheme(s: string)
  {
    |s| >= 3 && (s[0] == 's' || s[0] == 'S') && s[1] == '3' && s[2] == ':'
  }

  /** Only a string whose scheme is `s3` is accepted: every other one raises ValueError. */
  lemma AcceptedOnlyWithS3Scheme(s3Path: string)
    ensures ParseS3Path(s3Path).Success? ==> HasS3Scheme(s3Path)
  {
    var scheme := UrlParse.SplitScheme(s3Path).0;
    if ParseS3Path(s3Path).Success? {
      ParsedScheme(s3Path);
      assert scheme == "s3";
      var low := Lower(s3Path[..2]);
      assert low[0] == LowerChar(s3Path[0]) && low[1] == LowerChar(s3Path[1]);
    }
  }

  /** The scheme `parse_s3_path` compares is the one split off the front of the path. */
  lemma ParsedScheme(s3Path: string)
    ensures ParseS3Path(s3Path).Success? ==> UrlParse.SplitScheme(s3Path).0 == "s3"
  {
  }

  /** Both spellings of the `s3:` prefix give the scheme `s3` and leave what follows the ':'. */
  lemma S3SchemeSplit(s3Path: string)
    requires HasS3Scheme(s3Path)
    ensures UrlParse.SplitScheme(s3Path) == ("s3", s3Path[3..])
  {
    assert Find(s3Path, ':') == 2;
    assert Lower(s3Path[..2]) == "s3";
  }

  /** An `s3:` string is accepted unless its netloc trips urlparse's bracket check. */
  lemma S3SchemeAccepted(s3Path: string)
    requires HasS3Scheme(s3Path)
    requires '[' !in s3Path && ']' !in s3Path
    ensures ParseS3Path(s3Path).Success?
  {
    S3SchemeSplit(s3Path);
    var rest := s3Path[3..];
    var (netloc, _) := UrlParse.SplitNetloc(rest);
    assert forall k :: 0 <= k < |netloc| ==> netloc[k] == s3Path[5 + k];
  }

  /** A non-`s3` scheme, or no scheme at all, is rejected with the "Not an S3 path" message. */
  lemma OtherSchemeRejected(s3Path: string)
    requires !HasS3Scheme(s3Path)
    ensures ParseS3Path(s3Path).Failure?
    ensures '[' !in s3Path && ']' !in s3Path ==> ParseS3Path(s3Path).error == NotS3Message(s3Path)
  {
    AcceptedOnlyWithS3Scheme(s3Path);
    if '[' !in s3Path && ']' !in s3Path {
      var (scheme, rest) := UrlParse.SplitScheme(s3Path);
      assert forall k :: 0 <= k < |rest| ==> rest[k] in s3Path;
      var (netloc, _) := UrlParse.SplitNetloc(rest);
      assert forall k :: 0 <= k < |netloc| ==> netloc[k] == rest[2 + k];
    }
  }

  /** After `s3:`, "//bucket/rest" splits into the netloc `bucket` and the remainder "/rest". */
  lemma BucketSplit(bucket: string, rest: string)
    requires forall k :: 0 <= k < |bucket| ==> !UrlParse.IsNetlocEnd(bucket[k])
    ensures UrlParse.SplitNetloc("//" + bucket + "/" + rest) == (bucket, "/" + rest)
  {
    var afterScheme := "//" + bucket + "/" + rest;
    assert afterScheme[..2] == "//";
    var tail := afterScheme[2..];
    assert tail == bucket + "/" + rest;
    assert tail[|bucket|] == '/';
    assert FindFirst(tail, UrlParse.IsNetlocEnd) == |bucket| by {
      assert forall k :: 0 <= k < |bucket| ==> tail[k] == bucket[k];
      FindFirstUnique(tail, UrlParse.IsNetlocEnd, |bucket|);
    }
    assert afterScheme[2..2 + |bucket|] == bucket;
    assert afterScheme[2 + |bucket|..] == "/" + rest;
  }

  /**
   * `s3://bucket/rest` gives the bucket and `rest` with all leading '/'
   * removed, for a bucket free of '/', '?', '#', '[' and ']' and a rest free
   * of '?' and '#'.
   */
  lemma WellFormedPath(bucket: string, rest: string)
    requires forall k :: 0 <= k < |bucket| ==> !UrlParse.IsNetlocEnd(bucket[k]) && bucket[k] != '[' && bucket[k] != ']'
    requires '?' !in rest && '#' !in rest
    ensures ParseS3Path("s3://" + bucket + "/" + rest) == Success(S3Location(bucket, LStrip(rest, IsSlash)))
  {
    var s := "s3://" + bucket + "/" + rest;
    assert HasS3Scheme(s);
    S3SchemeSplit(s);
    assert s[3..] == "//" + bucket + "/" + rest;
    BucketSplit(bucket, rest);
    var afterNetloc := "/" + rest;
    assert '#' !in afterNetloc && '?' !in afterNetloc;
    assert UrlParse.SplitOnce(afterNetloc, '#') == (afterNetloc, []);
    assert UrlParse.SplitOnce(afterNetloc, '?') == (afterNetloc, []);
    assert '[' !in bucket && ']' !in bucket;
    assert UrlParse.Parse(s) == Success(UrlParse.UrlParts("s3", bucket, afterNetloc, [], []));
    assert LStrip(afterNetloc, IsSlash) == LStrip(rest, IsSlash);
  }

  /** The first case of `test_parse_s3_path` (test_orc_info_collector.py:28-30). */
  lemma ExampleBucketAndKey(bucket: string, key: string)
    requires bucket == "my-bucket" && key == "path/to/file.orc"
    ensures ParseS3Path("s3://" + bucket + "/" + key) == Success(S3Location(bucket, key))
  {
    WellFormedPath(bucket, key);
  }

  /** The second case of `test_parse_s3_path` (test_orc_info_collector.py:33-34): an `http` URL raises ValueError. */
  lemma ExampleHttpRejected()
    ensures ParseS3Path("http://example.com/file.orc") == Failure(NotS3Message("http://example.com/file.orc"))
  {
    var s3Path := "http://example.com/file.orc";
    assert !HasS3Scheme(s3Path) by { assert s3Path[0] == 'h'; }
    assert '[' !in s3Path && ']' !in s3Path by {
      forall k | 0 <= k < |s3Path| ensures s3Path[k] != '[' && s3Path[k] != ']' {
        assert s3Path[k] in "http:/exampl.cofir";
      }
    }
    OtherSchemeRejected(s3Path);
  }

  /** An empty bucket is not rejected: `s3:///rest` gives the bucket "" for any query- and fragment-free rest. */
  lemma EmptyBucketAccepted(rest: string)
    requires '?' !in rest && '#' !in rest
    ensures ParseS3Path("s3:///" + rest) == Success(S3Location("", LStrip(rest, IsSlash)))
  {
    assert "s3:///" + rest == "s3://" + "" + "/" + rest;
    WellFormedPath("", rest);
  }

  /** An empty key is not rejected: `s3://bucket/` gives the key "" for any well-formed bucket. */
  lemma EmptyKeyAccepted(bucket: string)
    requires forall k :: 0 <= k < |bucket| ==> !UrlParse.IsNetlocEnd(bucket[k]) && bucket[k] != '[' && bucket[k] != ']'
    ensures ParseS3Path("s3://" + bucket + "/") == Success(S3Location(bucket, ""))
  {
    assert "s3://" + bucket + "/" == "s3://" + bucket + "/" + "";
    WellFormedPath(bucket, "");
  }

  /** Repeated slashes before the key all go. */
  lemma RepeatedSlashesStripped()
    ensures ParseS3Path("s3://bucket//a.orc") == Success(S3Location("bucket", "a.orc"))
  {
    var s3Path := "s3://bucket//a.orc";
    var bucket, key := "bucket", "a.orc";
    var rest := "/" + key;
    assert s3Path == "s3://" + bucket + "/" + rest;
    WellFormedPath(bucket, rest);
    assert rest[1..] == key && !IsSlash(key[0]);
  }
}
