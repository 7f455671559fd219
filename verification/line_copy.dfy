/**
 * Copying one template: its text is read line by line, each line has every
 * `%PROJECT_NAME%` replaced by the project name, and each line is written
 * followed by one platform line separator.
 */
module LineCopy {
  import opened TextReplace

  /** The marker replaced in template content. */
  const ContentMarker: string := "%PROJECT_NAME%"

  /** One template line after substitution. */
  function TransformLine(line: string, name: string): string
  {
    ReplaceAll(line, ContentMarker, name)
  }

  /** The lines after substitution: same number, same order, line i from input line i. */
  function TransformLines(lines: seq<string>, name: string): (out: seq<string>)
    ensures |out| == |lines|
    ensures forall i :: 0 <= i < |lines| ==> out[i] == TransformLine(lines[i], name)
  {
    if lines == [] then [] else [TransformLine(lines[0], name)] + TransformLines(lines[1..], name)
  }

  /** Text made of every line followed by `eol`. */
  function Render(lines: seq<string>, eol: string): string
  {
    if lines == [] then [] else lines[0] + eol + Render(lines[1..], eol)
  }

  /** The whole output text of copying a template made of `lines`. */
  function CopyText(lines: seq<string>, name: string, eol: string): string
  {
    Render(TransformLines(lines, name), eol)
  }

  /** Rendering distributes over concatenation of line sequences. */
  lemma {:induction false} RenderAppend(a: seq<string>, b: seq<string>, eol: string)
    ensures Render(a + b, eol) == Render(a, eol) + Render(b, eol)
    decreases |a|
  {
    if a == [] {
      assert a + b == b;
    } else {
      assert (a + b)[1..] == a[1..] + b;
      RenderAppend(a[1..], b, eol);
    }
  }

  /** Line i sits between the text of the lines before it and one `eol`. */
  lemma RenderAt(lines: seq<string>, eol: string, i: nat)
    requires i < |lines|
    ensures Render(lines, eol) == Render(lines[..i], eol) + lines[i] + eol + Render(lines[i + 1..], eol)
  {
    assert lines == lines[..i] + ([lines[i]] + lines[i + 1..]);
    RenderAppend(lines[..i], [lines[i]] + lines[i + 1..], eol);
    assert ([lines[i]] + lines[i + 1..])[1..] == lines[i + 1..];
  }

  /** The text is as long as all lines plus one separator per line. */
  function TotalLength(lines: seq<string>): nat
  {
    if lines == [] then 0 else |lines[0]| + TotalLength(lines[1..])
  }

  lemma {:induction false} RenderLength(lines: seq<string>, eol: string)
    ensures |Render(lines, eol)| == TotalLength(lines) + |lines| * |eol|
    decreases |lines|
  {
    if lines != [] {
      RenderLength(lines[1..], eol);
    }
  }

  /**
   * The copy loop: while lines remain, read one, substitute the marker, print
   * it, print a line separator.  The output text is exactly CopyText.
   */
  method CopyLines(input: seq<string>, name: string, eol: string) returns (output: string)
    ensures output == CopyText(input, name, eol)
  {
    output := [];
    var i := 0;
    while i < |input|
      invariant 0 <= i <= |input|
      invariant output == Render(TransformLines(input[..i], name), eol)
    {
      var line := input[i];
      line := TransformLine(line, name);
      output := output + line;
      output := output + eol;
      assert TransformLines(input[..i + 1], name) == TransformLines(input[..i], name) + [line];
      RenderAppend(TransformLines(input[..i], name), [line], eol);
      i := i + 1;
    }
    assert input[..i] == input;
  }

  // ---------------------------------------------------------------------
  // Reading lines back, as BufferedReader.readLine does: a line ends at
  // '\n', at '\r', or at "\r\n"; the terminator is not part of the line; a
  // last line without terminator still counts; an empty text has no lines.

  predicate IsTerminator(c: char)
  {
    c == '\n' || c == '\r'
  }

  /** A string without line terminators. */
  predicate IsSingleLine(s: string)
  {
    forall k :: 0 <= k < |s| ==> !IsTerminator(s[k])
  }

  /** Index of the first terminator, or |text| when there is none. */
  function LineEnd(text: string): (n: nat)
    ensures n <= |text|
    ensures IsSingleLine(text[..n])
    ensures n < |text| ==> IsTerminator(text[n])
  {
    if text == [] || IsTerminator(text[0]) then 0
    else
      var m := LineEnd(text[1..]);
      assert text[..1 + m] == [text[0]] + text[1..][..m];
      1 + m
  }

  function ReadLines(text: string): (lines: seq<string>)
    ensures forall i :: 0 <= i < |lines| ==> IsSingleLine(lines[i])
    decreases |text|
  {
    if text == [] then []
    else
      var n := LineEnd(text);
      if n == |text| then [text]
      else if text[n] == '\r' && n + 1 < |text| && text[n + 1] == '\n' then [text[..n]] + ReadLines(text[n + 2..])
      else [text[..n]] + ReadLines(text[n + 1..])
  }

  /** The line terminators a platform line separator can be. */
  predicate IsLineSeparator(eol: string)
  {
    eol == "\n" || eol == "\r\n" || eol == "\r"
  }

  lemma LineEndOfLine(line: string, rest: string)
    requires IsSingleLine(line) && |rest| > 0 && IsTerminator(rest[0])
    ensures LineEnd(line + rest) == |line|
    decreases |line|
  {
    if line != [] {
      assert (line + rest)[1..] == line[1..] + rest;
      LineEndOfLine(line[1..], rest);
    }
  }

  /** One line and its separator are read back as that line, then the rest is read. */
  lemma ReadFirstLine(line: string, eol: string, rest: string)
    requires IsLineSeparator(eol) && IsSingleLine(line)
    requires eol == "\r" && rest != [] ==> rest[0] != '\n'
    ensures ReadLines(line + eol + rest) == [line] + ReadLines(rest)
  {
    var text := line + eol + rest;
    assert text == line + (eol + rest);
    LineEndOfLine(line, eol + rest);
    assert text[..|line|] == line;
    if eol == "\r\n" {
      assert text[|line| + 2..] == rest;
    } else {
      assert text[|line| + 1..] == rest;
    }
  }

  /** A rendered text never starts with '\n' unless the separator does. */
  lemma RenderStart(lines: seq<string>, eol: string)
    requires forall i :: 0 <= i < |lines| ==> IsSingleLine(lines[i])
    requires eol == "\r"
    ensures Render(lines, eol) != [] ==> Render(lines, eol)[0] != '\n'
  {
    if lines != [] {
      if lines[0] == [] {
        assert Render(lines, eol)[0] == eol[0];
      } else {
        assert Render(lines, eol)[0] == lines[0][0];
      }
    }
  }

  /** Reading back rendered single-line lines gives exactly those lines. */
  lemma {:induction false} ReadRendered(lines: seq<string>, eol: string)
    requires IsLineSeparator(eol)
    requires forall i :: 0 <= i < |lines| ==> IsSingleLine(lines[i])
    ensures ReadLines(Render(lines, eol)) == lines
    decreases |lines|
  {
    if lines != [] {
      var rest := Render(lines[1..], eol);
      if eol == "\r" {
        RenderStart(lines[1..], eol);
      }
      ReadFirstLine(lines[0], eol, rest);
      ReadRendered(lines[1..], eol);
      assert lines == [lines[0]] + lines[1..];
    }
  }

  /** Substitution keeps a line a single line when the name is one. */
  lemma TransformKeepsSingleLine(line: string, name: string)
    requires IsSingleLine(line) && IsSingleLine(name)
    ensures IsSingleLine(TransformLine(line, name))
  {
    var r := TransformLine(line, name);
    forall k | 0 <= k < |r| ensures !IsTerminator(r[k]) {
      assert r[k] in r;
    }
  }

  /**
   * Reading back the copy of a template gives its transformed lines: the line
   * count and order are kept and every line was followed by one separator.
   */
  lemma CopyReadsBack(text: string, name: string, eol: string)
    requires IsLineSeparator(eol) && IsSingleLine(name)
    ensures ReadLines(CopyText(ReadLines(text), name, eol)) == TransformLines(ReadLines(text), name)
  {
    var lines := ReadLines(text);
    var out := TransformLines(lines, name);
    forall i | 0 <= i < |out| ensures IsSingleLine(out[i]) {
      TransformKeepsSingleLine(lines[i], name);
    }
    ReadRendered(out, eol);
  }
}
