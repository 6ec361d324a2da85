/** The fixed-position field token of a metrology report (class
    MetrologyReportToken of Matt.py): a window of `columnWidth` characters
    starting at column `columnOffset` of line `rowOffset`. */
module Token {

  /** The program's two function results, OsReturn.ok and OsReturn.error. */
  datatype OsReturn = Ok | Error

  datatype Window = Window(rowOffset: nat, columnOffset: nat, columnWidth: nat)

  /** The separator written after the file name and after every field. */
  const Separator: string := ", "

  /** The column just past the field. */
  function FieldEnd(w: Window): (e: nat) {
    w.columnOffset + w.columnWidth
  }

  /** The window's row is a line of the document. */
  predicate RowInRange(lines: seq<string>, w: Window) {
    w.rowOffset < |lines|
  }

  /** The line is strictly longer than the field's end: the check accepts a
      field only when at least one character follows it on its line. */
  predicate ColumnFits(line: string, w: Window) {
    FieldEnd(w) < |line|
  }

  /** The token accepts the document. */
  predicate Fits(lines: seq<string>, w: Window) {
    RowInRange(lines, w) && ColumnFits(lines[w.rowOffset], w)
  }

  /** The field's raw text, `line[columnOffset : columnOffset + columnWidth]`.
      Because the window fits, the slice never reaches the line's end, so the
      clamping of Python slices plays no part. */
  function Field(lines: seq<string>, w: Window): (f: string)
    requires Fits(lines, w)
    ensures |f| == w.columnWidth
    ensures forall k :: 0 <= k < |f| ==> f[k] == lines[w.rowOffset][w.columnOffset + k]
    ensures FieldEnd(w) < |lines[w.rowOffset]|
  {
    lines[w.rowOffset][w.columnOffset..FieldEnd(w)]
  }

  /** The output fragment for one field: the field followed by the separator. */
  function Fragment(lines: seq<string>, w: Window): (f: string)
    requires Fits(lines, w)
  {
    Field(lines, w) + Separator
  }

  /** A fragment is the field's columnWidth characters, then the separator. */
  lemma FragmentShape(lines: seq<string>, w: Window)
    requires Fits(lines, w)
    ensures |Fragment(lines, w)| == w.columnWidth + |Separator|
    ensures Fragment(lines, w)[..w.columnWidth] == Field(lines, w)
    ensures Fragment(lines, w)[w.columnWidth..] == Separator
  {
    assert Fragment(lines, w) == Field(lines, w) + Separator;
  }

  /** What the bound checks of `find` do as written: the row check rejects only
      `len(strLines) < rowOffset`, so `rowOffset == len(strLines)` reaches
      `strLines[rowOffset]` and raises IndexError. */
  datatype Check = Accepted | Rejected | RowIndexError

  function FindAsWritten(lines: seq<string>, w: Window): (c: Check)
    ensures c == RowIndexError <==> w.rowOffset == |lines|
    ensures c == Accepted ==> Fits(lines, w)
  {
    if |lines| < w.rowOffset then Rejected
    else if w.rowOffset == |lines| then RowIndexError
    else if |lines[w.rowOffset]| <= w.columnOffset + w.columnWidth then Rejected
    else Accepted
  }

  /** Away from the one row offset that raises, the checks as written decide
      exactly what the corrected row check decides. */
  lemma FindAsWrittenAgrees(lines: seq<string>, w: Window)
    requires w.rowOffset != |lines|
    ensures FindAsWritten(lines, w) == (if Fits(lines, w) then Accepted else Rejected)
  {
  }

  /** The input that shows the defect: a document with no lines and a token
      on row 0, which the row check lets through to the index. */
  lemma FindAsWrittenRaisesOnEmptyDocument()
    ensures FindAsWritten([], Window(0, 0, 0)) == RowIndexError
    ensures !Fits([], Window(0, 0, 0))
  {
  }

  class MetrologyReportToken {
    const name: string
    /** The window given to the constructor (the private __rowOffset,
        __columnOffset and __columnWidth). */
    const window: Window
    /** The public window, published by a successful `Find`. */
    var rowOffset: nat
    var columnOffset: nat
    var columnWidth: nat

    function Public(): (p: Window)
      reads this
    {
      Window(rowOffset, columnOffset, columnWidth)
    }

    constructor (name: string, columnOffset: nat, columnWidth: nat, rowOffset: nat)
      ensures this.name == name
      ensures window == Window(rowOffset, columnOffset, columnWidth)
      ensures Public() == Window(0, 0, 0)
    {
      this.name := name;
      this.window := Window(rowOffset, columnOffset, columnWidth);
      this.rowOffset, this.columnOffset, this.columnWidth := 0, 0, 0;
    }

    /** Checks the window against the lines of the document `fname` (the name
        only appears in the diagnostic, which is not modelled). The row check
        is the corrected one: a row offset equal to the number of lines is
        rejected instead of being indexed. */
    method Find(fname: string, lines: seq<string>) returns (status: OsReturn)
      modifies this
      ensures status == Ok <==> Fits(lines, window)
      ensures status == Ok ==> Public() == window
      ensures status == Error ==> Public() == old(Public())
    {
      if |lines| <= window.rowOffset {
        return Error;
      }
      if |lines[window.rowOffset]| <= window.columnOffset + window.columnWidth {
        return Error;
      }
      columnOffset := window.columnOffset;
      columnWidth := window.columnWidth;
      rowOffset := window.rowOffset;
      return Ok;
    }
  }

}
