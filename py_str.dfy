/**
 * The few Python `str` operations the collector relies on: `find`,
 * `lstrip`/`rstrip`/`strip` and ASCII `lower`.  Strings are sequences of
 * code points, as Python `str` values are.
 */
module PyStr {

  /** The characters for which Python's `str.isspace()` holds; `str.strip()` with no argument removes these. */
  predicate IsSpace(c: char)
    ensures c == ' ' || c == '\t' || c == '\n' || c == '\r' ==> IsSpace(c)
    ensures IsSpace(c) ==> !IsAsciiLetter(c) && !('0' <= c <= '9') && c != '/' && c != ':' && c != '.'
  {
    var n := c as int;
    || 0x09 <= n <= 0x0D || 0x1C <= n <= 0x20
    || n == 0x85 || n == 0xA0 || n == 0x1680
    || 0x2000 <= n <= 0x200A
    || n == 0x2028 || n == 0x2029 || n == 0x202F || n == 0x205F || n == 0x3000
  }

  predicate IsAsciiUpper(c: char) { 'A' <= c <= 'Z' }

  predicate IsAsciiLetter(c: char) { IsAsciiUpper(c) || 'a' <= c <= 'z' }

  /** `str.lower()` on one ASCII character; every other character is left as it is. */
  function LowerChar(c: char): (d: char)
    ensures IsAsciiUpper(c) ==> d as int == c as int + 32
    ensures !IsAsciiUpper(c) ==> d == c
    ensures !IsAsciiUpper(d)
  {
    if IsAsciiUpper(c) then (c as int + 32) as char else c
  }

  /** `str.lower()` restricted to ASCII, which is all it is applied to here (URL scheme characters). */
  function Lower(s: string): (r: string)
    ensures |r| == |s|
    ensures forall k :: 0 <= k < |s| ==> r[k] == LowerChar(s[k])
  {
    if s == [] then [] else [LowerChar(s[0])] + Lower(s[1..])
  }

  /** `s.find(c)`, except that "not found" is `|s|` rather than -1. */
  function Find(s: string, c: char): (i: nat)
    ensures i <= |s|
    ensures i < |s| ==> s[i] == c
    ensures forall k :: 0 <= k < i ==> s[k] != c
  {
    FindFirst(s, d => d == c)
  }

  /** Index of the first character satisfying `p`, or `|s|` when there is none. */
  function FindFirst(s: string, p: char -> bool): (i: nat)
    ensures i <= |s|
    ensures i < |s| ==> p(s[i])
    ensures forall k :: 0 <= k < i ==> !p(s[k])
  {
    if s == [] then 0
    else if p(s[0]) then 0
    else 1 + FindFirst(s[1..], p)
  }

  /** `Find` gives the first occurrence: any index before which `c` is absent and at which it stands is it. */
  lemma FindUnique(s: string, c: char, j: nat)
    requires j <= |s|
    requires forall k :: 0 <= k < j ==> s[k] != c
    requires j < |s| ==> s[j] == c
    ensures Find(s, c) == j
  {
  }

  /** The same for `FindFirst` and a predicate. */
  lemma FindFirstUnique(s: string, p: char -> bool, j: nat)
    requires j <= |s|
    requires forall k :: 0 <= k < j ==> !p(s[k])
    requires j < |s| ==> p(s[j])
    ensures FindFirst(s, p) == j
  {
  }

  /** `s.lstrip(chars)`: drops the longest prefix of characters satisfying `strip`. */
  function LStrip(s: string, strip: char -> bool): (r: string)
    ensures |r| <= |s| && r == s[|s| - |r|..]
    ensures forall k :: 0 <= k < |s| - |r| ==> strip(s[k])
    ensures r == [] || !strip(r[0])
  {
    if s != [] && strip(s[0]) then
      var r := LStrip(s[1..], strip);
      assert s[1..][|s| - 1 - |r|..] == s[|s| - |r|..];
      assert forall k :: 1 <= k < |s| - |r| ==> s[k] == s[1..][k - 1];
      r
    else s
  }

  /** `s.rstrip(chars)`: drops the longest suffix of characters satisfying `strip`. */
  function RStrip(s: string, strip: char -> bool): (r: string)
    ensures |r| <= |s| && r == s[..|r|]
    ensures forall k :: |r| <= k < |s| ==> strip(s[k])
    ensures r == [] || !strip(r[|r| - 1])
  {
    if s != [] && strip(s[|s| - 1]) then
      var r := RStrip(s[..|s| - 1], strip);
      assert s[..|s| - 1][..|r|] == s[..|r|];
      assert forall k :: |r| <= k < |s| - 1 ==> s[k] == s[..|s| - 1][k];
      r
    else s
  }

  /** Neither the first nor the last character is whitespace. */
  predicate IsStripped(s: string)
  {
    s == [] || (!IsSpace(s[0]) && !IsSpace(s[|s| - 1]))
  }

  /** Every character is whitespace: `s.strip()` is empty, which is falsy. */
  predicate IsBlank(s: string)
  {
    forall k :: 0 <= k < |s| ==> IsSpace(s[k])
  }

  /** `s.strip()`: removes leading and trailing whitespace. */
  function Strip(s: string): (r: string)
    ensures |r| <= |s|
    ensures IsStripped(r)
  {
    RStrip(LStrip(s, IsSpace), IsSpace)
  }

  /** What `strip` keeps is a slice of the string, and what it drops on either side is whitespace. */
  lemma StripTrims(s: string)
    ensures exists i, j :: 0 <= i <= j <= |s| && Strip(s) == s[i..j] && IsBlank(s[..i]) && IsBlank(s[j..])
  {
    TrimmedSlice(s, LStrip(s, IsSpace), Strip(s));
  }

  /** A suffix `left` of `s` after a blank prefix, cut down to a prefix `r` before a blank suffix,
      is a slice of `s` with blank text on either side. */
  lemma TrimmedSlice(s: string, left: string, r: string)
    requires |left| <= |s| && left == s[|s| - |left|..]
    requires forall k :: 0 <= k < |s| - |left| ==> IsSpace(s[k])
    requires |r| <= |left| && r == left[..|r|]
    requires forall k :: |r| <= k < |left| ==> IsSpace(left[k])
    ensures exists i, j :: 0 <= i <= j <= |s| && r == s[i..j] && IsBlank(s[..i]) && IsBlank(s[j..])
  {
    var i := |s| - |left|;
    var j := i + |r|;
    assert forall k :: 0 <= k < i ==> s[..i][k] == s[k];
    assert forall k :: 0 <= k < |s| - j ==> s[j..][k] == left[|r| + k];
    assert r == s[i..j];
  }

  /** A string that is already stripped is its own strip. */
  lemma StrippedUnchanged(s: string)
    requires IsStripped(s)
    ensures Strip(s) == s
  {
    assert LStrip(s, IsSpace) == s;
  }

  /** Stripping an already stripped string changes nothing. */
  lemma StripIdempotent(s: string)
    ensures Strip(Strip(s)) == Strip(s)
  {
    StrippedUnchanged(Strip(s));
  }

  /** A string strips to nothing exactly when all of it is whitespace. */
  lemma StripEmptyIff(s: string)
    ensures Strip(s) == [] <==> IsBlank(s)
  {
    if IsBlank(s) {
      AllStripped(s);
    }
  }

  lemma {:induction false} AllStripped(s: string)
    requires IsBlank(s)
    ensures LStrip(s, IsSpace) == []
  {
    if s != [] {
      AllStripped(s[1..]);
    }
  }

  /** `lstrip` removes exactly a leading run of stripped characters when what follows it is kept. */
  lemma {:induction false} LStripPadding(pad: string, s: string, strip: char -> bool)
    requires forall k :: 0 <= k < |pad| ==> strip(pad[k])
    requires s == [] || !strip(s[0])
    ensures LStrip(pad + s, strip) == s
    decreases |pad|
  {
    if pad == [] {
      assert pad + s == s;
    } else {
      assert (pad + s)[1..] == pad[1..] + s;
      LStripPadding(pad[1..], s, strip);
    }
  }

  /** `rstrip` removes exactly a trailing run of stripped characters when what precedes it is kept. */
  lemma {:induction false} RStripPadding(s: string, pad: string, strip: char -> bool)
    requires forall k :: 0 <= k < |pad| ==> strip(pad[k])
    requires s == [] || !strip(s[|s| - 1])
    ensures RStrip(s + pad, strip) == s
    decreases |pad|
  {
    if pad == [] {
      assert s + pad == s;
    } else {
      assert (s + pad)[..|s + pad| - 1] == s + pad[..|pad| - 1];
      RStripPadding(s, pad[..|pad| - 1], strip);
    }
  }

  /** Stripping whitespace padding off a string that neither starts nor ends with whitespace gives it back. */
  lemma StripPadding(before: string, core: string, after: string)
    requires core != [] && !IsSpace(core[0]) && !IsSpace(core[|core| - 1])
    requires IsBlank(before) && IsBlank(after)
    ensures Strip(before + core + after) == core
  {
    assert before + core + after == before + (core + after);
    LStripPadding(before, core + after, IsSpace);
    RStripPadding(core, after, IsSpace);
  }
}
