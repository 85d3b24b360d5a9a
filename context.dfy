/** The source context of a frame (_get_context_lines and
    _create_numbers_with_lines_list, the same code in both variants): a
    window of the file's lines around the frame's line number, each line
    prefixed with its zero-based index. The file's lines are an input. */
module Context {
  import opened Text

  /** context_length */
  const ContextLength: nat := 2

  /** f"{line_number}: {context_line.rstrip()}" */
  function NumberedLine(n: int, line: string): string {
    IntToString(n) + ": " + RStrip(line)
  }

  /** The lines zip(context_lines_list, line_numbers_list) yields, numbered; zip stops at the shorter list. */
  function NumberedLines(lines: seq<string>, numbers: seq<int>): seq<string> {
    var n := if |lines| < |numbers| then |lines| else |numbers|;
    seq(n, k requires 0 <= k < n => NumberedLine(numbers[k], lines[k]))
  }

  lemma LineAppended(r: seq<string>, line: string)
    ensures |r + [line]| == |r| + 1 && (r + [line])[|r|] == line
    ensures forall i :: 0 <= i < |r| ==> (r + [line])[i] == r[i]
  {
  }

  /** _create_numbers_with_lines_list: one numbered line per pair of the zip, in order. */
  method CreateNumbersWithLinesList(contextLines: seq<string>, lineNumbers: seq<int>) returns (r: seq<string>)
    ensures |r| == if |contextLines| < |lineNumbers| then |contextLines| else |lineNumbers|
    ensures forall k :: 0 <= k < |r| ==> r[k] == NumberedLine(lineNumbers[k], contextLines[k])
  {
    r := [];
    var k := 0;
    while k < |contextLines| && k < |lineNumbers|
      invariant 0 <= k <= |contextLines| && k <= |lineNumbers|
      invariant |r| == k
      invariant forall i :: 0 <= i < k ==> r[i] == NumberedLine(lineNumbers[i], contextLines[i])
    {
      var line := NumberedLine(lineNumbers[k], contextLines[k]);
      LineAppended(r, line);
      r := r + [line];
      k := k + 1;
    }
  }

  /** start_index = max(0, lineno - context_length - 1) */
  function WindowStart(lineno: int): nat {
    if lineno - ContextLength - 1 < 0 then 0 else lineno - ContextLength - 1
  }

  /** end_index = min(lineno + context_length, len(lines)) */
  function WindowEnd(lineno: int, count: nat): int {
    if lineno + ContextLength < count then lineno + ContextLength else count
  }

  /** _get_context_lines: the file path, then the numbered lines of the window. */
  function GetContextLines(filePath: string, lineno: int, lines: seq<string>): (r: seq<string>)
    ensures 1 <= |r| <= 2 * ContextLength + 2 && r[0] == filePath
  {
    var start, end := WindowStart(lineno), WindowEnd(lineno, |lines|);
    [filePath] + NumberedLines(PySlice(lines, start, end), PyRange(start, end))
  }

  /** The context is the file path and then exactly the lines start..end-1 of the file, in order,
      each numbered with its index: at most five, none outside the file, none when start >= end. */
  lemma ContextWindow(filePath: string, lineno: int, lines: seq<string>)
    ensures var r, start, end := GetContextLines(filePath, lineno, lines), WindowStart(lineno), WindowEnd(lineno, |lines|);
      && r[0] == filePath
      && |r| == 1 + (if start < end then end - start else 0)
      && |r| <= 2 * ContextLength + 2
      && (|r| == 1 <==> start >= end)
      && forall k :: 1 <= k < |r| ==>
           start + k - 1 < |lines| && r[k] == NumberedLine(start + k - 1, lines[start + k - 1])
  {
    var start, end := WindowStart(lineno), WindowEnd(lineno, |lines|);
    var slice, range := PySlice(lines, start, end), PyRange(start, end);
    if start < end {
      assert slice == lines[start..end];
    } else {
      assert range == [];
    }
  }

  /** When the line number is inside the file, its own line is in the context (index lineno - 1). */
  lemma ContextShowsActiveLine(filePath: string, lineno: int, lines: seq<string>)
    requires 1 <= lineno <= |lines|
    ensures NumberedLine(lineno - 1, lines[lineno - 1]) in GetContextLines(filePath, lineno, lines)
  {
    ContextWindow(filePath, lineno, lines);
    var r, start := GetContextLines(filePath, lineno, lines), WindowStart(lineno);
    var k := lineno - start;
    assert r[k] == NumberedLine(lineno - 1, lines[lineno - 1]);
  }

  /** Line 10 of a 20-line file: the lines with indices 7 to 11 (lines 8 to 12 counted from one). */
  lemma ContextInsideFile(filePath: string, lines: seq<string>)
    requires |lines| == 20
    ensures GetContextLines(filePath, 10, lines) ==
      [filePath] + seq(5, k requires 0 <= k < 5 => NumberedLine(7 + k, lines[7 + k]))
  {
    ContextWindow(filePath, 10, lines);
  }

  /** Line 1: indices 0 to 2 only, nothing before the start of the file. */
  lemma ContextAtFirstLine(filePath: string, lines: seq<string>)
    requires |lines| >= 3
    ensures GetContextLines(filePath, 1, lines) ==
      [filePath, NumberedLine(0, lines[0]), NumberedLine(1, lines[1]), NumberedLine(2, lines[2])]
  {
    ContextWindow(filePath, 1, lines);
  }

  /** The last line: the window stops at the end of the file. */
  lemma ContextAtLastLine(filePath: string, lines: seq<string>)
    requires |lines| >= 3
    ensures var n := |lines|;
      GetContextLines(filePath, n, lines) ==
      [filePath, NumberedLine(n - 3, lines[n - 3]), NumberedLine(n - 2, lines[n - 2]), NumberedLine(n - 1, lines[n - 1])]
  {
    var n := |lines|;
    assert WindowStart(n) == n - 3 && WindowEnd(n, n) == n;
    ContextWindow(filePath, n, lines);
    var r := GetContextLines(filePath, n, lines);
    assert |r| == 4;
    assert r[1] == NumberedLine(n - 3, lines[n - 3]);
    assert r[2] == NumberedLine(n - 2, lines[n - 2]);
    assert r[3] == NumberedLine(n - 1, lines[n - 1]);
  }
}
