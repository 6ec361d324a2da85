/** Splitting a report's text into lines, as Python 2's `str.splitlines()` does
    for a byte string: a line ends at "\n", at "\r" or at the pair "\r\n", the
    terminator is dropped, and a final terminator does not open an empty line. */
module Lines {

  predicate IsBreak(c: char) {
    c == '\n' || c == '\r'
  }

  predicate NoBreaks(s: string) {
    forall k :: 0 <= k < |s| ==> !IsBreak(s[k])
  }

  /** Index of the first line-break character of s, or |s| when there is none. */
  function FirstBreak(s: string): (i: nat)
    ensures i <= |s|
    ensures forall k :: 0 <= k < i ==> !IsBreak(s[k])
    ensures i < |s| ==> IsBreak(s[i])
  {
    if s == [] || IsBreak(s[0]) then 0 else 1 + FirstBreak(s[1..])
  }

  /** Length of the terminator that starts at s[i]: two for "\r\n", one otherwise. */
  function BreakLength(s: string, i: nat): (n: nat)
    requires i < |s| && IsBreak(s[i])
    ensures 1 <= n <= |s| - i
    ensures n == 2 <==> s[i] == '\r' && i + 1 < |s| && s[i + 1] == '\n'
  {
    if s[i] == '\r' && i + 1 < |s| && s[i + 1] == '\n' then 2 else 1
  }

  function SplitLines(s: string): (lines: seq<string>)
    ensures forall j :: 0 <= j < |lines| ==> NoBreaks(lines[j])
    ensures lines == [] <==> s == []
    decreases |s|
  {
    if s == [] then []
    else
      var i := FirstBreak(s);
      if i == |s| then [s]
      else [s[..i]] + SplitLines(s[i + BreakLength(s, i)..])
  }

  /** The text of a file whose every line, terminator included, ends in "\n". */
  function JoinLines(lines: seq<string>): (s: string) {
    if lines == [] then [] else lines[0] + "\n" + JoinLines(lines[1..])
  }

  lemma {:induction false} FirstBreakAfterLine(line: string, c: char, rest: string)
    requires NoBreaks(line) && IsBreak(c)
    ensures FirstBreak(line + [c] + rest) == |line|
    decreases |line|
  {
    var s := line + [c] + rest;
    if line != [] {
      assert !IsBreak(s[0]);
      assert s[1..] == line[1..] + [c] + rest;
      FirstBreakAfterLine(line[1..], c, rest);
    }
  }

  /** The terminators splitlines recognises. */
  predicate IsTerminator(t: string) {
    t == "\n" || t == "\r" || t == "\r\n"
  }

  /** A line followed by any one terminator splits off as the first line, the
      terminator dropped; a lone "\r" counts only when no "\n" follows it,
      since "\r\n" is one terminator. */
  lemma SplitAfterLine(line: string, t: string, rest: string)
    requires NoBreaks(line) && IsTerminator(t)
    requires t == "\r" ==> rest == [] || rest[0] != '\n'
    ensures SplitLines(line + t + rest) == [line] + SplitLines(rest)
  {
    var s := line + t + rest;
    assert s == line + [t[0]] + (t[1..] + rest);
    FirstBreakAfterLine(line, t[0], t[1..] + rest);
    assert s[|line|] == t[0];
    if t == "\r\n" {
      assert s[|line| + 1] == '\n';
    } else if t == "\r" && rest != [] {
      assert s[|line| + 1] == rest[0];
    }
    assert BreakLength(s, |line|) == |t|;
    assert s[..|line|] == line;
    assert s[|line| + |t|..] == rest;
  }

  /** A last line with no terminator is still a line: a non-empty text with no
      line break is one line, itself. */
  lemma SplitUnterminated(s: string)
    requires NoBreaks(s) && s != []
    ensures SplitLines(s) == [s]
  {
  }

  /** Splitting the text of lines joined with "\n" gives those lines back. */
  lemma {:induction false} SplitJoin(lines: seq<string>)
    requires forall j :: 0 <= j < |lines| ==> NoBreaks(lines[j])
    ensures SplitLines(JoinLines(lines)) == lines
    decreases |lines|
  {
    if lines != [] {
      SplitAfterLine(lines[0], "\n", JoinLines(lines[1..]));
      SplitJoin(lines[1..]);
      assert lines == [lines[0]] + lines[1..];
    }
  }
}
