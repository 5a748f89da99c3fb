/**
 * The list comprehension that `main` (orc_info_collector.py) applies to the
 * lines of the input file: every line is stripped, and lines that strip to
 * nothing are dropped. Reading the file and splitting it into lines are not
 * modelled; the lines arrive as a sequence.
 */
module InputLines {
  import opened PyStr
  import opened Seqs

  /** `[line.strip() for line in lines if line.strip()]`. */
  function NonBlankLines(lines: seq<string>): (r: seq<string>)
    ensures |r| <= |lines|
  {
    if lines == [] then []
    else
      var kept := NonBlankLines(lines[..|lines| - 1]);
      var stripped := Strip(lines[|lines| - 1]);
      if stripped != [] then kept + [stripped] else kept
  }

  /** A single line is kept, stripped, exactly when it is not blank. */
  lemma OneLine(line: string)
    ensures NonBlankLines([line]) == if IsBlank(line) then [] else [Strip(line)]
  {
    StripEmptyIff(line);
    assert [line][..0] == [];
  }

  /** The filter works line by line, so it keeps file order: it distributes over concatenation. */
  lemma {:induction false} Concatenation(a: seq<string>, b: seq<string>)
    ensures NonBlankLines(a + b) == NonBlankLines(a) + NonBlankLines(b)
    decreases |b|
  {
    if b == [] {
      assert a + b == a;
    } else {
      FrontLast(b);
      Concatenation(a, b[..|b| - 1]);
      ConcatenationStep(a, b[..|b| - 1], b[|b| - 1]);
    }
  }

  /** One more line at the end: the inductive step of `Concatenation`. */
  lemma ConcatenationStep(a: seq<string>, b: seq<string>, last: string)
    requires NonBlankLines(a + b) == NonBlankLines(a) + NonBlankLines(b)
    ensures NonBlankLines(a + (b + [last])) == NonBlankLines(a) + NonBlankLines(b + [last])
  {
    var tail := if Strip(last) != [] then [Strip(last)] else [];
    AppendLine(b, last);
    AppendAssoc(a, b, [last]);
    AppendLine(a + b, last);
    AppendAssoc(NonBlankLines(a), NonBlankLines(b), tail);
  }

  /** Every path in the list is non-empty and has no whitespace at either end. */
  lemma {:induction false} PathsStripped(lines: seq<string>)
    ensures forall k :: 0 <= k < |NonBlankLines(lines)| ==> NonBlankLines(lines)[k] != [] && IsStripped(NonBlankLines(lines)[k])
    decreases |lines|
  {
    if lines != [] {
      PathsStripped(lines[..|lines| - 1]);
    }
  }

  /** Appending a line to the file appends its stripped form to the path list, unless it is blank. */
  lemma AppendLine(lines: seq<string>, line: string)
    ensures NonBlankLines(lines + [line])
         == NonBlankLines(lines) + (if Strip(line) != [] then [Strip(line)] else [])
  {
    assert (lines + [line])[..|lines|] == lines;
  }

  /** Filtering the filtered list changes nothing: its lines are stripped and none is blank. */
  lemma {:induction false} Idempotent(lines: seq<string>)
    ensures NonBlankLines(NonBlankLines(lines)) == NonBlankLines(lines)
    decreases |lines|
  {
    if lines != [] {
      var init := lines[..|lines| - 1];
      var last := lines[|lines| - 1];
      assert lines == init + [last];
      Concatenation(init, [last]);
      OneLine(last);
      Idempotent(init);
      Concatenation(NonBlankLines(init), NonBlankLines([last]));
      if !IsBlank(last) {
        StripIdempotent(last);
        StripEmptyIff(last);
        OneLine(Strip(last));
        StripEmptyIff(Strip(last));
      }
    }
  }

  /** The number of lines kept is the number of non-blank lines. */
  function CountNonBlank(lines: seq<string>): nat
  {
    if lines == [] then 0
    else CountNonBlank(lines[..|lines| - 1]) + if IsBlank(lines[|lines| - 1]) then 0 else 1
  }

  lemma {:induction false} KeptCount(lines: seq<string>)
    ensures |NonBlankLines(lines)| == CountNonBlank(lines)
    decreases |lines|
  {
    if lines != [] {
      KeptCount(lines[..|lines| - 1]);
      StripEmptyIff(lines[|lines| - 1]);
    }
  }

  /** A line holding one path with whitespace around it is kept as that path. */
  lemma PaddedLine(before: string, path: string, after: string)
    requires path != [] && !IsSpace(path[0]) && !IsSpace(path[|path| - 1])
    requires IsBlank(before) && IsBlank(after)
    ensures NonBlankLines([before + path + after]) == [path]
  {
    var line := before + path + after;
    assert line[|before|] == path[0];
    OneLine(line);
    StripPadding(before, path, after);
  }

  /** A whitespace-only line is dropped wherever it stands. */
  lemma BlankLineDropped(before: seq<string>, blank: string, after: seq<string>)
    requires IsBlank(blank)
    ensures NonBlankLines(before + [blank] + after) == NonBlankLines(before + after)
  {
    OneLine(blank);
    Concatenation(before + [blank], after);
    Concatenation(before, [blank]);
    Concatenation(before, after);
  }

  /**
   * A line holding a path with whitespace around it (its newline, say) is
   * kept as the bare path, in its place among the other lines.
   */
  lemma PathLineKept(before: seq<string>, indent: string, path: string, eol: string, after: seq<string>)
    requires path != [] && !IsSpace(path[0]) && !IsSpace(path[|path| - 1])
    requires IsBlank(indent) && IsBlank(eol)
    ensures NonBlankLines(before + [indent + path + eol] + after)
         == NonBlankLines(before) + [path] + NonBlankLines(after)
  {
    PaddedLine(indent, path, eol);
    Concatenation(before + [indent + path + eol], after);
    Concatenation(before, [indent + path + eol]);
  }
}
