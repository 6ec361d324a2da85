# MattParser field extractor, modelled in Dafny

MattParser (`Matt.py`) compiles plain-text metrology reports into CSV. A
fixed list of tokens describes the report layout. Each token is a window of
`columnWidth` characters, starting at column `columnOffset` of line
`rowOffset`. For every input file, the program checks every token against the
file's lines and slices out each field. It then emits one record per file:
`name, field1, field2, field3, field4, ` followed by the line terminator. The
run is all or nothing: if one file cannot be read, or one token does not fit
one file, the run returns an error and emits no records at all. The records go
to standard output, or to a named file that the first write truncates and
later writes append to.

The model has five modules, one per component of the program:

- `Lines` (lines.dfy) is the line splitting of `str.splitlines()`. These are
  byte strings under Python 2, so a line ends at `\n`, `\r` or `\r\n`.
- `Token` (token.dfy) has the bound checks and the field slice as functions,
  and the class `MetrologyReportToken`. The class's `Find` publishes the token's
  window into its public fields when the window fits.
- `IoDesc` (io_desc.dfy) has the mode choice shared by both descriptors, the
  input cursor `IDesc` and the output writer `ODesc`. They work over an
  abstract `Host`: the files that open for reading and their text, the names
  that open for writing, and the records sent to standard output.
- `Parser` (parser.dfy) has the specification functions `DocumentFields`,
  `Record` and `BatchFrom`, with lemmas about them. It also has the class
  `MetrologyReportParser`, whose two methods are proved against those
  functions.
- `Driver` (driver.dfy) covers the part of `main` after argument parsing: the
  four-token layout, the extraction, and the loop that writes every fragment.
  It also holds worked scenarios.

Decisions that shape the model:

- The row check as written is defective: see "## Findings". The token class
  and everything built on it use the corrected check. The checks as written
  are kept in `Token.FindAsWritten`.
- The column check is kept exactly as written. A field is accepted only when
  its line is strictly longer than `columnOffset + columnWidth`. So a field
  that ends exactly at the end of its line is rejected. The program does not
  say whether this extra character is intended, so the model states it as
  written (`Token.ColumnFits`).
- Every error return of the program is the same integer (`1`). So a token
  failure and a read failure both give the same `Error` status here.
- `os.linesep` is the constant `"\n"` (`Parser.LineSep`).
- Class-level defaults (`fileNames`, `fileNameIndex`, `firstWriteDone` and the
  token's public window) are per-instance fields, set by each constructor.
- Reading and writing are the abstract `Host`. A read fails when the name is
  not among the readable files. A write fails when the name is not writable.
- The row check exists to guard the index that follows it. It has its own
  "Invalid token ... with row offset" diagnostic and error return
  (Matt.py:124-127), and the next statement indexes `strLines[rowOffset]`
  (Matt.py:129). The code rejects only `len(strLines) < rowOffset`, so one
  row offset gets through to that index. The model keeps the code as written
  in `Token.FindAsWritten` and reports the gap as a finding.

## Model

| member | source | states |
|---|---|---|
| `Lines.SplitLines` | Matt.py:154 | no line contains `\n` or `\r`, and the text splits into no lines exactly when it is empty |
| `Lines.SplitAfterLine` | Matt.py:154 | a line followed by `\n`, `\r\n` or a lone `\r` splits off as the first line, with its terminator dropped |
| `Lines.SplitUnterminated` | Matt.py:154 | a non-empty text with no line break, such as an unterminated last line, splits into one line: itself |
| `Lines.SplitJoin` | Matt.py:154 | splitting lines joined with `\n` gives back exactly those lines |
| `Token.RowInRange` | Matt.py:123 | the token's row is a line of the document: `rowOffset < len(strLines)`, the corrected row check |
| `Token.ColumnFits` | Matt.py:129-130 | the column check as written: the line is strictly longer than `columnOffset + columnWidth` |
| `Token.Fits` | Matt.py:123-135 | a token accepts a document exactly when both the corrected row check and the column check pass |
| `Token.Field` | Matt.py:162-166 | the slice of a fitting window has exactly `columnWidth` characters: those of its line from `columnOffset` on |
| `Token.Fragment` | Matt.py:165-166 | the fragment appended for one token: its field, then `", "`; its shape is proved in `Token.FragmentShape` |
| `Token.FragmentShape` | Matt.py:165-166 | a field fragment is the field's `columnWidth` characters followed by `", "` |
| `Token.FindAsWritten` | Matt.py:123-135 | the checks as written raise IndexError exactly when `rowOffset == len(strLines)`; they accept only windows that fit |
| `Token.FindAsWrittenAgrees` | Matt.py:123-135 | at every other row offset, the checks as written accept exactly the windows the corrected check accepts |
| `Token.FindAsWrittenRaisesOnEmptyDocument` | Matt.py:123-129 | on a document with no lines, a token on row 0 passes the row check and raises |
| `Token.MetrologyReportToken.constructor` | Matt.py:114-119 | keeps the name and the given window; the public window starts at zero |
| `Token.MetrologyReportToken.Find` | Matt.py:121-143 | ok exactly when the row is a line and that line is strictly longer than `columnOffset + columnWidth`; on ok the public window equals the given one, and on error it is unchanged |
| `IoDesc.SelectMode` | Matt.py:40-44 | standard mode exactly when the name list is empty or its first name is `""`; otherwise the names are kept, and the first is non-empty |
| `IoDesc.IDesc.constructor` | Matt.py:54-55 | the mode is chosen by `SelectMode`; the index starts at 0 |
| `IoDesc.IDesc.Read` | Matt.py:57-75 | standard mode always fails; otherwise end of list exactly when the index equals the length; an ok read returns the next name and its text and advances the index by exactly one; a failed open leaves the index unchanged; the index never exceeds the length |
| `IoDesc.ODesc.constructor` | Matt.py:80-81 | standard mode exactly when the name is `""`; nothing written yet |
| `IoDesc.ODesc.Write` | Matt.py:83-103 | standard mode always succeeds and appends to standard output; in file mode, ok exactly when the destination is writable; the first ok write replaces the file and sets `firstWriteDone`, later ones append; the file always holds everything written so far |
| `Parser.DocumentFields` | Matt.py:156-168 | a successful document has exactly one fragment per token |
| `Parser.DocumentFieldsSpec` | Matt.py:156-168 | a document succeeds exactly when every token fits it, and its fragments are then the tokens' fragments in token order |
| `Parser.DocumentFieldsFail` | Matt.py:157-160 | one token that does not fit fails the whole document, with no fragments |
| `Parser.DocumentFieldsAre` | Matt.py:156-168 | fragments that match every token, in order, are exactly the document's fields |
| `Parser.Record` | Matt.py:186-192 | a record is `fname + ", "`, then the fields, then the line terminator: two more fragments than fields |
| `Parser.DocumentOk` | Matt.py:174-184 | a document neither fails to open nor fails a token: its name opens and `DocumentFields` of its lines succeeds |
| `Parser.RecordOf` | Matt.py:186-192 | the record of an ok document: `Record` of its name and its fields |
| `Parser.BatchFrom` | Matt.py:170-200 | the batch result over the names still to read: the records of the documents in read order, or failure at the first document that does not open or does not fit; its properties are proved in the lemmas below |
| `Parser.BatchSucceedsIff` | Matt.py:174-200 | all or nothing: a batch succeeds exactly when every named file opens and fits every token |
| `Parser.BatchLength` | Matt.py:186-192 | a successful batch of N files has N * (number of tokens + 2) fragments |
| `Parser.BatchRecordAt` | Matt.py:179-194 | the k-th record of a successful batch is the k-th file's record, placed after the k records before it: records come in read order |
| `Parser.BatchAppend` | Matt.py:179-194 | a batch over two name lists is the first batch followed by the second, and fails when either fails |
| `Parser.BatchCons` | Matt.py:179-194 | one round of the read loop: a document that does not open or does not fit fails the batch; an ok one puts its record before the records of the rest |
| `Parser.BatchSplit` | Matt.py:179-194 | a successful batch over some names, then one name, then more names, is the first batch, then that document's record, then the last batch |
| `Parser.BatchStep` | Matt.py:180-192 | a failing file fails the batch, whatever was accumulated before it; an ok file appends its record to the accumulated fragments |
| `Parser.BatchHeadFails` | Matt.py:174-177 | a batch whose next file does not open fails |
| `Parser.MetrologyReportParser.constructor` | Matt.py:147-148 | the parser keeps the input descriptor it is given |
| `Parser.MetrologyReportParser.GetTokensAsStringFromString` | Matt.py:150-168 | ok exactly when `DocumentFields` of the split text succeeds, returning its fragments; on error, no fragments |
| `Parser.MetrologyReportParser.GetTokensAsString` | Matt.py:170-200 | standard mode fails; in file mode, ok exactly when `BatchFrom` over the unread names succeeds, returning its fragments with every name consumed; any error returns no fragments |
| `Driver.MakeDefaultTokens` | Matt.py:279-283 | the four tokens pin1 to pin4, with windows (17, 26, 9), (14, 26, 9), (23, 26, 9), (20, 26, 9) as (row, column, width), in that order |
| `Driver.DefaultLayoutFits` | Matt.py:279-283 | a report fits the layout exactly when it has at least 24 lines and lines 14, 17, 20 and 23 each have at least 36 characters; its fields are then columns 26-34 of those lines |
| `Driver.SeventeenLineReportRaises` | Matt.py:123-129 | a report of exactly 17 lines gets past pin1's row check as written and raises, where the corrected check rejects the report |
| `Driver.Concat` | Matt.py:294-295 | the text of fragments written one after the other: none gives empty text, one gives itself |
| `Driver.ConcatAppend` | Matt.py:294-295 | writing two lists of fragments in turn writes the text of the first followed by the text of the second |
| `Driver.WriteAll` | Matt.py:294-295 | every fragment is written in order, and write statuses are ignored; standard output gains their concatenation; a writable destination ends up holding everything written through the descriptor; an unwritable one is left as it was |
| `Driver.Run` | Matt.py:277-297 | a run succeeds exactly when the input names select file mode and every file opens and fits the layout; output then goes to standard output, or replaces a writable output file; a failing run writes no records |
| `Driver.SingleFieldScenario` | Matt.py:186-192 | a file `r1.txt` whose line 17 holds `abcdefghi` at columns 26-34, with one single-field token, gives the output `r1.txt, abcdefghi, ` and a newline |
| `Driver.SecondDocumentFailsScenario` | Matt.py:179-184 | two files where the second's line is one character too short give an error and no record, not even the first file's |

## Findings

| source | as written | input that shows it | evidently intended | confidence | as-written member | corrected member |
|---|---|---|---|---|---|---|
| Matt.py:123-129 | the row check rejects only `len(strLines) < rowOffset`, so `rowOffset == len(strLines)` reaches `strLines[rowOffset]` and raises IndexError instead of returning the error status | any report of exactly 17 lines with the default layout (pin1 is on row 17 and is checked first); also an empty report with a token on row 0 | reject every `rowOffset >= len(strLines)` with the error status | high; not executed | `Token.FindAsWritten` | `Token.MetrologyReportToken.Find` |

## Left out

- The argument parser (`ArgParser`, getopt, the help text) and the mapping of statuses to exit codes in `main` are not modelled. `Driver.Run` starts from the parsed input names and output name.
- The diagnostics printed on failure are not modelled, because they are output only. They also go to standard output, so `Host.stdout` holds only the records. The `fname` parameter of `Find` is used only in a diagnostic, so it is kept but unused.
- Real file and stream I/O is replaced by `IoDesc.Host`. The model has no partial reads or writes, no exceptions other than a failed open, and no encodings.
- The base-class stubs `IoDesc.read` and `IoDesc.write` (Matt.py:46-50) are not modelled. `IDesc` overrides `read` and `ODesc` overrides `write`; the inherited stubs are never called.
- The `type(self.fileNames[0]) is list` check in `ODesc.write` is not modelled. It is dead code, because the name is always a string.
- The IOError branch of `ODesc.write` returns a tuple. The model returns the plain `FileError` status instead.
- `os.linesep` is fixed to `"\n"`. The model does not cover the platform differences.
- `str.splitlines` is modelled for Python 2 byte strings (`\n`, `\r`, `\r\n`). The extra terminators of Unicode strings are not modelled.
- Token offsets and widths are natural numbers. Python would accept negative values, which change the slice's meaning. The layout never uses them.
- Parser.MetrologyReportParser.GetTokensAsStringFromString: its contract does not say that every token's public window is published after a successful pass. Nothing in Matt.py reads the public windows after the pass: only Matt.py:162-166 reads them, right after each `find`. `Token.MetrologyReportToken.Find` states the publication for each token. The same holds for `Parser.MetrologyReportParser.GetTokensAsString`.
- IoDesc.Host: whether a name can be written is fixed for the whole run. In Python each write reopens the file (Matt.py:93, :96), so an append could fail after a successful truncating write, and `main` would still return ok (Matt.py:294-297). The model does not cover that case.
