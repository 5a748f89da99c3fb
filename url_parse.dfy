/**
 * The part of Python's `urllib.parse.urlparse` that `parse_s3_path` depends
 * on: the generic URI split of RFC 3986 section 3 into scheme (section 3.1),
 * authority or "netloc" (section 3.2), path (section 3.3), query (3.4) and
 * fragment (3.5), done the way CPython's `urlsplit` does it.
 */
module UrlParse {
  import opened Wrappers
  import opened PyStr

  datatype UrlParts = UrlParts(scheme: string, netloc: string, path: string, query: string, fragment: string)

  /** Message of the ValueError that `urlsplit` raises for a netloc with only one of '[' and ']'. */
  const INVALID_IPV6 := "Invalid IPv6 URL"

  /** Characters allowed in a scheme: ASCII letters, digits, '+', '-' and '.'. */
  predicate IsSchemeChar(c: char)
  {
    IsAsciiLetter(c) || '0' <= c <= '9' || c == '+' || c == '-' || c == '.'
  }

  predicate AllSchemeChars(s: string)
    ensures AllSchemeChars(s) <==> forall k :: 0 <= k < |s| ==> IsSchemeChar(s[k])
  {
    s == [] || (IsSchemeChar(s[0]) && AllSchemeChars(s[1..]))
  }

  predicate IsNetlocEnd(c: char) { c == '/' || c == '?' || c == '#' }

  /** The path ends at the first '?' or '#'. */
  predicate IsPathEnd(c: char) { c == '?' || c == '#' }

  /**
   * Splits off the scheme: the text before the first ':' when it is non-empty,
   * starts with an ASCII letter and holds only scheme characters; it is
   * lower-cased. Otherwise the scheme is empty and the whole string remains.
   */
  function SplitScheme(url: string): (r: (string, string))
    ensures r.0 != [] <==> (var i := Find(url, ':'); 0 < i < |url| && IsAsciiLetter(url[0]) && AllSchemeChars(url[..i]))
    ensures r.0 == [] || (|r.0| < |url| && r.0 == Lower(url[..|r.0|]) && url[|r.0|] == ':' && r.1 == url[|r.0| + 1..])
    ensures r.0 == [] ==> r.1 == url
    ensures forall k :: 0 <= k < |r.0| ==> IsSchemeChar(r.0[k]) && !IsAsciiUpper(r.0[k])
  {
    var i := Find(url, ':');
    if 0 < i < |url| && IsAsciiLetter(url[0]) && AllSchemeChars(url[..i])
    then (Lower(url[..i]), url[i + 1..])
    else ([], url)
  }

  /** After a scheme, "//" opens the netloc, which runs up to the first '/', '?' or '#'. */
  function SplitNetloc(rest: string): (r: (string, string))
    ensures forall k :: 0 <= k < |r.0| ==> !IsNetlocEnd(r.0[k])
    ensures r.1 == [] || r.1 == rest || IsNetlocEnd(r.1[0])
    ensures |rest| >= 2 && rest[..2] == "//" ==> rest == "//" + r.0 + r.1
    ensures !(|rest| >= 2 && rest[..2] == "//") ==> r == ([], rest)
  {
    if |rest| >= 2 && rest[..2] == "//" then
      var tail := rest[2..];
      var e := FindFirst(tail, IsNetlocEnd);
      var d := 2 + e;
      assert rest[2..d] == tail[..e];
      assert rest[d..] == tail[e..];
      assert rest == "//" + rest[2..d] + rest[d..];
      (rest[2..d], rest[d..])
    else ([], rest)
  }

  /** `s.split(c, 1)` when `c in s`, and `(s, "")` otherwise. */
  function SplitOnce(s: string, c: char): (r: (string, string))
    ensures forall k :: 0 <= k < |r.0| ==> r.0[k] != c
    ensures c in s ==> s == r.0 + [c] + r.1
    ensures c !in s ==> r == (s, [])
  {
    var i := Find(s, c);
    if i < |s| then
      assert s == s[..i] + [c] + s[i + 1..];
      (s[..i], s[i + 1..])
    else (s, [])
  }

  /**
   * `urlparse(url)`: scheme, then netloc, then the fragment after the first
   * '#', then the query after the first '?'; what is left is the path.
   */
  function Parse(url: string): (r: Result<UrlParts, string>)
    ensures r.Failure? ==> r.error == INVALID_IPV6
    ensures r.Success? ==>
      && (forall k :: 0 <= k < |r.value.netloc| ==> !IsNetlocEnd(r.value.netloc[k]))
      && (forall k :: 0 <= k < |r.value.path| ==> r.value.path[k] != '?' && r.value.path[k] != '#')
      && ('[' in r.value.netloc <==> ']' in r.value.netloc)
  {
    var (scheme, afterScheme) := SplitScheme(url);
    var (netloc, afterNetloc) := SplitNetloc(afterScheme);
    if ('[' in netloc) != (']' in netloc) then Failure(INVALID_IPV6)
    else
      var (beforeFragment, fragment) := SplitOnce(afterNetloc, '#');
      var (path, query) := SplitOnce(beforeFragment, '?');
      assert forall k :: 0 <= k < |path| ==> path[k] in beforeFragment;
      Success(UrlParts(scheme, netloc, path, query, fragment))
  }

  /** `urlparse` raises exactly when the netloc holds one of '[' and ']' but not the other. */
  lemma ParseFailsOnlyOnBrackets(url: string)
    ensures var netloc := SplitNetloc(SplitScheme(url).1).0;
      Parse(url).Failure? <==> ('[' in netloc) != (']' in netloc)
  {
  }

  /**
   * What each part of a parsed url is, in terms of the url itself: the
   * scheme and netloc split off the front; the path runs to the first '?' or
   * '#' of what follows; the fragment is everything after the first '#'; the
   * query is what lies between the first '?' and that '#'.
   */
  lemma ParsedParts(url: string)
    requires Parse(url).Success?
    ensures var parts := Parse(url).value;
      var rest := SplitScheme(url).1;
      var after := SplitNetloc(rest).1;
      var beforeFragment := after[..Find(after, '#')];
      && parts.scheme == SplitScheme(url).0
      && parts.netloc == SplitNetloc(rest).0
      && rest == (if |rest| >= 2 && rest[..2] == "//" then "//" + parts.netloc else []) + after
      && parts.path == after[..FindFirst(after, IsPathEnd)]
      && parts.fragment == (if '#' in after then after[Find(after, '#') + 1..] else [])
      && parts.query == (if '?' in beforeFragment then beforeFragment[Find(beforeFragment, '?') + 1..] else [])
  {
    var parts := Parse(url).value;
    var rest := SplitScheme(url).1;
    var after := SplitNetloc(rest).1;
    var beforeFragment := SplitOnce(after, '#').0;
    assert parts == UrlParts(SplitScheme(url).0, SplitNetloc(rest).0, SplitOnce(beforeFragment, '?').0,
                             SplitOnce(beforeFragment, '?').1, SplitOnce(after, '#').1);
    assert rest == (if |rest| >= 2 && rest[..2] == "//" then "//" + parts.netloc else []) + after by {
      NetlocRebuild(rest);
    }
    assert parts.path == after[..FindFirst(after, IsPathEnd)] by {
      PathEndsAtFirstMark(after);
    }
    assert beforeFragment == after[..Find(after, '#')]
        && parts.fragment == (if '#' in after then after[Find(after, '#') + 1..] else []) by {
      SplitAtFirst(after, '#');
    }
    assert parts.query == (if '?' in beforeFragment then beforeFragment[Find(beforeFragment, '?') + 1..] else []) by {
      SplitAtFirst(beforeFragment, '?');
    }
  }

  /** The "//" and the netloc, followed by what is left, give back the text after the scheme. */
  lemma NetlocRebuild(rest: string)
    ensures rest == (if |rest| >= 2 && rest[..2] == "//" then "//" + SplitNetloc(rest).0 else []) + SplitNetloc(rest).1
  {
    if !(|rest| >= 2 && rest[..2] == "//") {
      assert [] + rest == rest;
    }
  }

  /** `SplitOnce` cuts at the first occurrence that `Find` reports, and drops it. */
  lemma SplitAtFirst(s: string, c: char)
    ensures SplitOnce(s, c).0 == s[..Find(s, c)]
    ensures SplitOnce(s, c).1 == if c in s then s[Find(s, c) + 1..] else []
  {
    var (before, after) := SplitOnce(s, c);
    if c in s {
      FindUnique(s, c, |before|);
      assert s[..|before|] == before;
      assert s[|before| + 1..] == after;
    } else {
      FindUnique(s, c, |s|);
    }
  }

  /** Cutting at the first '#' and then at the first '?' leaves what precedes the first of either. */
  lemma PathEndsAtFirstMark(after: string)
    ensures SplitOnce(SplitOnce(after, '#').0, '?').0 == after[..FindFirst(after, IsPathEnd)]
  {
    var i := Find(after, '#');
    var beforeFragment := after[..i];
    var j := Find(beforeFragment, '?');
    SplitAtFirst(after, '#');
    SplitAtFirst(beforeFragment, '?');
    assert beforeFragment[..j] == after[..j];
    forall k | 0 <= k < j ensures !IsPathEnd(after[k]) {
      assert after[k] == beforeFragment[k];
    }
    if j < i {
      assert after[j] == beforeFragment[j];
    }
    FindFirstUnique(after, IsPathEnd, j);
  }
}
